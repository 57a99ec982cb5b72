/** What the tokenizer and the record scanner of iptables text do with text that this program
    did not write (internal/firewall/iptables_codec.go:44-180).
 */
module CodecLaws {
  import opened Basics
  import opened Codec

  // ---------- Tokens ----------

  /** With no white space but blanks and tabs, every accepted rule reads back. */
  lemma OrdinaryReadsBack(chain: string, args: seq<string>)
    requires Accepted(chain, args)
    requires forall n, i :: 0 <= n < |args| && 0 <= i < |args[n]| && IsSpace(args[n][i]) ==> args[n][i] == SPACE || args[n][i] == '\t'
    ensures Tokens(Line(chain, args)).Some? && Tokens(Line(chain, args)).value.0 == [APPEND, chain] + args
  {
    forall n | 0 <= n < |args| && !NeedsQuote(args, n)
      ensures Spaceless(args[n])
    {
      forall i | 0 <= i < |args[n]|
        ensures !IsSpace(args[n][i])
      {
      }
    }
    ReadsBackIff(chain, args);
  }

  ghost predicate Special(v: string) {
    exists i :: 0 <= i < |v| && (v[i] == SPACE || v[i] == '\t' || v[i] == QUOTE || v[i] == TICK || v[i] == BACKSLASH)
  }

  /** An argument comes back marked as data exactly when it holds a special character or is a comment. */
  lemma MarkedExactly(chain: string, args: seq<string>, n: nat)
    requires Accepted(chain, args) && Clean(args) && n < |args|
    ensures var r := Tokens(Line(chain, args));
            r.Some? && |r.value.1| == |args| + 2 && (r.value.1[n + 2] <==> Special(args[n]) || (n > 0 && args[n - 1] == COMMENT))
  {
    RenderedReads(chain, args);
    assert ([false, false] + Flags(args, |args|))[n + 2] == Flags(args, |args|)[n];
    assert NeedsQuote(args, n) <==> Special(args[n]) || (n > 0 && args[n - 1] == COMMENT);
  }

  ghost predicate Free(v: string, c: char) {
    forall i :: 0 <= i < |v| ==> v[i] != c
  }

  lemma {:induction false} FeedTicked(s: Scan, v: string)
    requires s.quote == Some(TICK) && !s.escaped && s.inToken && Free(v, TICK)
    ensures Feed(s, v) == s.(token := s.token + v)
    decreases |v|
  {
    if v == [] {
      assert s.token + v == s.token;
    } else {
      var n := |v| - 1;
      FeedTicked(s, v[..n]);
      assert s.token + v[..n] + [v[n]] == s.token + v;
    }
  }

  /** Between single quotes everything stands for itself, backslashes included. */
  lemma TickedDecodes(v: string)
    requires Free(v, TICK)
    ensures Tokens([TICK] + v + [TICK]) == Some(([v], [true]))
  {
    var inside := Start.(quote := Some(TICK), literal := true, inToken := true);
    FeedAppend(Start, [TICK] + v, [TICK]);
    FeedAppend(Start, [TICK], v);
    FeedOne(Start, TICK);
    FeedTicked(inside, v);
    assert inside.token + v == v;
    FeedOne(inside.(token := v), TICK);
    assert Start.tokens + [v] == [v] && Start.literals + [true] == [true];
  }

  /** Quoting that is not finished is an error, never a shorter rule. */
  lemma UnfinishedFails(v: string)
    requires Free(v, TICK)
    ensures Tokens([TICK] + v).None? && Tokens([QUOTE] + Escape(v)).None?
  {
    FeedAppend(Start, [TICK], v);
    FeedOne(Start, TICK);
    FeedTicked(Start.(quote := Some(TICK), literal := true, inToken := true), v);
    FeedAppend(Start, [QUOTE], Escape(v));
    FeedOne(Start, QUOTE);
    FeedEscaped(Start.(quote := Some(QUOTE), literal := true, inToken := true), v);
  }

  /** White space separates words. */
  lemma WordsSplit(a: string, b: string)
    requires a != [] && b != [] && Plain(a) && Spaceless(a) && Plain(b) && Spaceless(b)
    ensures Tokens(a + [SPACE] + b) == Some(([a, b], [false, false]))
  {
    FirstWord(a);
    LastWord(Scan([a], [false], [], false, false, None, false), b);
    TokensAppend(a + [SPACE], b, Scan([a], [false], b, true, false, None, false));
    TwoWords(a, b);
  }

  lemma TokensAppend(x: string, y: string, end: Scan)
    requires Feed(Feed(Start, x), y) == end && Calm(end)
    ensures Tokens(x + y) == Some((Flush(end).tokens, Flush(end).literals))
  {
    FeedAppend(Start, x, y);
  }

  lemma TwoWords(a: string, b: string)
    ensures var s := Flush(Scan([a], [false], b, true, false, None, false)); s.tokens == [a, b] && s.literals == [false, false]
  {
  }

  lemma FirstWord(a: string)
    requires a != [] && Plain(a) && Spaceless(a)
    ensures Feed(Start, a + [SPACE]) == Scan([a], [false], [], false, false, None, false)
  {
    FeedWord(Start, a);
    assert Start.tokens + [a] == [a] && Start.literals + [false] == [false];
  }

  lemma LastWord(s: Scan, b: string)
    requires Between(s) && b != [] && Plain(b) && Spaceless(b)
    ensures Feed(s, b) == s.(token := b, inToken := true)
  {
    FeedPlain(s, b);
    assert s.token + b == b;
  }

  /** A quoted part continues the word it touches. */
  lemma FragmentsJoin(a: string, v: string)
    requires a != [] && Plain(a) && Spaceless(a)
    ensures Tokens(a + Quoted(v)) == Some(([a + v], [true]))
  {
    FeedAppend(Start, a, Quoted(v));
    FeedPlain(Start, a);
    assert Start.token + a == a;
    FeedQuoted(Scan([], [], a, true, false, None, false), v);
    assert [] + [a + v] == [a + v] && [] + [true] == [true];
  }

  /** Outside quotes a backslash makes the next character part of the word. */
  lemma BackslashKeeps(c: char)
    requires c != 'n' && c != 'r' && c != 't' && c != '0'
    ensures Tokens([BACKSLASH, c]) == Some(([[c]], [true]))
  {
    assert [BACKSLASH, c] == [BACKSLASH] + [c];
    FeedAppend(Start, [BACKSLASH], [c]);
    FeedOne(Start, BACKSLASH);
    FeedOne(Start.(escaped := true, literal := true, inToken := true), c);
    assert Start.token + [c] == [c];
    assert Start.tokens + [[c]] == [[c]] && Start.literals + [true] == [true];
  }

  /** A quoted text holds no control character that could end a line or a token early, whatever it says. */
  lemma {:induction false} EscapeHidesControls(v: string, i: nat)
    requires i < |Escape(v)|
    ensures Escape(v)[i] != '\n' && Escape(v)[i] != '\r' && Escape(v)[i] != '\t' && Escape(v)[i] != '\0'
    decreases |v|
  {
    var n := |v| - 1;
    if i < |Escape(v[..n])| {
      EscapeHidesControls(v[..n], i);
    }
  }

  // ---------- Records ----------

  ghost function Newlines(v: string): nat {
    if v == [] then 0 else Newlines(v[..|v| - 1]) + if v[|v| - 1] == NEWLINE then 1 else 0
  }

  /** Inside quotes newlines are text; they only count as lines. */
  lemma {:induction false} ReadInside(s: Records, v: string)
    requires s.mode.quote.Some? && !s.mode.escaped && !s.mode.comment && Free(v, s.mode.quote.value)
    requires s.mode.quote.value == QUOTE ==> Free(v, BACKSLASH)
    ensures ReadAll(s, v) == Records(s.records, s.text + v, s.startLine, s.line + Newlines(v), s.mode)
    decreases |v|
  {
    if v == [] {
      assert s.text + v == s.text;
    } else {
      var n := |v| - 1;
      ReadInside(s, v[..n]);
      assert s.text + v[..n] + [v[n]] == s.text + v;
    }
  }

  lemma ReadOne(s: Records, c: char)
    ensures ReadAll(s, [c]) == Read(s, c)
  {
    assert [c][..0] == [];
  }

  ghost predicate Quotable(q: char, v: string) {
    (q == QUOTE || q == TICK) && Free(v, q) && (q == QUOTE ==> Free(v, BACKSLASH))
  }

  lemma QuotesAreNoSpace(q: char)
    requires q == QUOTE || q == TICK
    ensures !IsSpace(q) && q != BACKSLASH && q != '#' && q != NEWLINE
  {
    var n := q as int;
    if q == QUOTE {
      assert n == 34;
    } else {
      assert n == 39;
    }
  }

  lemma ReadOpening(s: Records, q: char)
    requires s.mode == Fresh && s.text == [] && (q == QUOTE || q == TICK)
    ensures ReadAll(s, [q]) == Records(s.records, [q], s.startLine, s.line, Open.(quote := Some(q)))
  {
    ReadOne(s, q);
    assert s.text + [q] == [q];
    QuotesAreNoSpace(q);
    assert NextMode(Fresh, q) == Open.(quote := Some(q));
  }

  lemma ReadClosing(s: Records, q: char)
    requires s.mode == Open.(quote := Some(q)) && (q == QUOTE || q == TICK)
    ensures ReadAll(s, [q]) == Records(s.records, s.text + [q], s.startLine, s.line, Open)
  {
    ReadOne(s, q);
  }

  /** Opening quote, text and closing quote leave the scanner outside quotes again. */
  lemma ReadWholeQuote(s: Records, q: char, v: string)
    requires s.mode == Fresh && s.text == [] && Quotable(q, v)
    ensures ReadAll(s, [q] + v + [q]) == Records(s.records, [q] + v + [q], s.startLine, s.line + Newlines(v), Open)
  {
    var inside := Records(s.records, [q], s.startLine, s.line, Open.(quote := Some(q)));
    var after := Records(s.records, [q] + v, s.startLine, s.line + Newlines(v), Open.(quote := Some(q)));
    ReadOpening(s, q);
    ReadInside(inside, v);
    assert ReadAll(inside, v) == after;
    ReadClosing(after, q);
    ReadAppend(s, [q], v);
    assert ReadAll(s, [q] + v) == after;
    ReadAppend(s, [q] + v, [q]);
  }

  /** A quoted text is one record, whatever newlines it holds, and the next record starts after them. */
  lemma QuotedNewlinesStay(s: Records, q: char, v: string)
    requires s.mode == Fresh && s.text == [] && Quotable(q, v)
    ensures var t := [q] + v + [q];
            ReadAll(s, t + [NEWLINE]) ==
            Records(s.records + [(s.startLine, t)], [], s.line + Newlines(v) + 1, s.line + Newlines(v) + 1, Fresh)
  {
    var t := [q] + v + [q];
    ReadWholeQuote(s, q, v);
    ReadAppend(s, t, [NEWLINE]);
    ReadOne(Records(s.records, t, s.startLine, s.line + Newlines(v), Open), NEWLINE);
  }

  lemma {:induction false} ReadComment(s: Records, v: string)
    requires s.mode.comment && Free(v, NEWLINE)
    ensures ReadAll(s, v) == Records(s.records, s.text + v, s.startLine, s.line, s.mode)
    decreases |v|
  {
    if v == [] {
      assert s.text + v == s.text;
    } else {
      var n := |v| - 1;
      ReadComment(s, v[..n]);
      assert s.text + v[..n] + [v[n]] == s.text + v;
    }
  }

  /** A number sign before anything else opens a comment, and white space before it changes nothing. */
  lemma CommentOpens(c: char)
    requires IsSpace(c)
    ensures NextMode(Fresh, '#').comment && NextMode(Fresh, c) == Fresh && !NextMode(Open, '#').comment
  {
    assert '#' as int == 35;
  }

  /** A header comment ends at its newline, whatever quotes it holds. */
  lemma CommentsEnd(s: Records, v: string)
    requires s.mode == Fresh && s.text == [] && Free(v, NEWLINE)
    ensures ReadAll(s, ['#'] + v + [NEWLINE]) == Records(s.records + [(s.startLine, ['#'] + v)], [], s.line + 1, s.line + 1, Fresh)
  {
    var inside := Records(s.records, ['#'], s.startLine, s.line, Fresh.(comment := true));
    ReadOne(s, '#');
    assert s.text + ['#'] == ['#'];
    ReadComment(inside, v);
    ReadOne(ReadAll(inside, v), NEWLINE);
    ReadAppend(s, ['#'], v);
    ReadAppend(s, ['#'] + v, [NEWLINE]);
  }

  /** An escaped newline does not end a record. */
  lemma EscapedNewlineStays(s: Records)
    requires s.mode == Fresh && s.text == []
    ensures ReadAll(s, [BACKSLASH, NEWLINE]) == Records(s.records, [BACKSLASH, NEWLINE], s.startLine, s.line + 1, Open)
  {
    ReadOne(s, BACKSLASH);
    assert s.text + [BACKSLASH] == [BACKSLASH];
    var escaped := Records(s.records, [BACKSLASH], s.startLine, s.line, Open.(escaped := true));
    ReadOne(escaped, NEWLINE);
    assert [BACKSLASH] + [NEWLINE] == [BACKSLASH, NEWLINE];
    ReadAppend(s, [BACKSLASH], [NEWLINE]);
  }

  /** Records of a saved table with a header, a rule with a newline in its comment, and what follows. */
  lemma SavedTable(header: string, v: string, rest: string)
    requires Free(header, NEWLINE) && Free(v, QUOTE) && Free(v, BACKSLASH)
    ensures var t := [QUOTE] + v + [QUOTE];
            ReadAll(NoRecords, ['#'] + header + [NEWLINE] + (t + [NEWLINE]) + rest) ==
            ReadAll(Records([(0, ['#'] + header), (1, t)], [], Newlines(v) + 2, Newlines(v) + 2, Fresh), rest)
  {
    var first, t := ['#'] + header + [NEWLINE], [QUOTE] + v + [QUOTE];
    CommentsEnd(NoRecords, header);
    assert NoRecords.records + [(0, ['#'] + header)] == [(0, ['#'] + header)];
    var s := Records([(0, ['#'] + header)], [], 1, 1, Fresh);
    QuotedNewlinesStay(s, QUOTE, v);
    assert s.records + [(1, t)] == [(0, ['#'] + header), (1, t)];
    ReadAppend(NoRecords, first, t + [NEWLINE]);
    ReadAppend(NoRecords, first + (t + [NEWLINE]), rest);
  }
}
