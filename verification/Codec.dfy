/** Writing and reading iptables rules as text (internal/firewall/iptables_codec.go:18-180, 364-379).

    Text is a sequence of code points.
 */
module Codec {
  import opened Basics

  const QUOTE := '\"'
  const TICK := '\''
  const BACKSLASH := '\\'
  const NEWLINE := '\n'
  const SPACE := ' '

  /** What Unicode counts as white space. */
  predicate IsSpace(c: char) {
    var n := c as int;
    9 <= n <= 13 || n == 32 || n == 0x85 || n == 0xA0 || n == 0x1680 || 0x2000 <= n <= 0x200A
    || n == 0x2028 || n == 0x2029 || n == 0x202F || n == 0x205F || n == 0x3000
  }

  // ---------- Quoting ----------

  /** The characters written with a backslash inside quotes, and the letter that stands for them. */
  function Letter(c: char): Option<char> {
    if c == BACKSLASH || c == QUOTE then Some(c)
    else if c == '\n' then Some('n')
    else if c == '\r' then Some('r')
    else if c == '\t' then Some('t')
    else if c == '\0' then Some('0')
    else None
  }

  function Unescape(c: char): char {
    if c == 'n' then '\n' else if c == 'r' then '\r' else if c == 't' then '\t' else if c == '0' then '\0' else c
  }

  function EscapeChar(c: char): string {
    if Letter(c).Some? then [BACKSLASH, Letter(c).value] else [c]
  }

  function Escape(v: string): string {
    if v == [] then [] else Escape(v[..|v| - 1]) + EscapeChar(v[|v| - 1])
  }

  function Quoted(v: string): string {
    [QUOTE] + Escape(v) + [QUOTE]
  }

  method IptQuote(value: string) returns (r: string)
    ensures r == Quoted(value)
  {
    var body: string := [];
    for i := 0 to |value|
      invariant body == Escape(value[..i])
    {
      assert value[..i + 1][..i] == value[..i];
      body := body + EscapeChar(value[i]);
    }
    assert value[..|value|] == value;
    r := [QUOTE] + body + [QUOTE];
  }

  // ---------- Tokenizing ----------

  /** The scanner: finished tokens, the token being read, and the quoting state. */
  datatype Scan = Scan(tokens: seq<string>, literals: seq<bool>, token: string, inToken: bool, literal: bool,
                       quote: Option<char>, escaped: bool)

  const Start := Scan([], [], [], false, false, None, false)

  function Flush(s: Scan): Scan {
    if s.inToken then s.(tokens := s.tokens + [s.token], literals := s.literals + [s.literal], token := [], inToken := false, literal := false)
    else s
  }

  function Step(s: Scan, c: char): Scan {
    if s.escaped then s.(token := s.token + [Unescape(c)], inToken := true, escaped := false)
    else if s.quote.Some? then
      if c == BACKSLASH && s.quote.value == QUOTE then s.(escaped := true)
      else if c == s.quote.value then s.(quote := None, inToken := true)
      else s.(token := s.token + [c], inToken := true)
    else if c == BACKSLASH then s.(escaped := true, literal := true, inToken := true)
    else if c == QUOTE || c == TICK then s.(quote := Some(c), literal := true, inToken := true)
    else if IsSpace(c) then Flush(s)
    else s.(token := s.token + [c], inToken := true)
  }

  function Feed(s: Scan, line: string): Scan {
    if line == [] then s else Step(Feed(s, line[..|line| - 1]), line[|line| - 1])
  }

  /** The tokens of a line and which of them held quoted or escaped data; fails on
      unfinished quoting. */
  function Tokens(line: string): Option<(seq<string>, seq<bool>)> {
    var s := Feed(Start, line);
    if s.escaped || s.quote.Some? then None else Some((Flush(s).tokens, Flush(s).literals))
  }

  method SplitLine(line: string) returns (r: Option<(seq<string>, seq<bool>)>)
    ensures r == Tokens(line)
  {
    var s := Start;
    for i := 0 to |line|
      invariant s == Feed(Start, line[..i])
    {
      assert line[..i + 1][..i] == line[..i];
      s := Step(s, line[i]);
    }
    assert line[..|line|] == line;
    if s.escaped || s.quote.Some? {
      return None;
    }
    s := Flush(s);
    return Some((s.tokens, s.literals));
  }

  lemma {:induction false} FeedAppend(s: Scan, a: string, b: string)
    ensures Feed(s, a + b) == Feed(Feed(s, a), b)
    decreases |b|
  {
    if b == [] {
      assert a + b == a;
    } else {
      var n := |b| - 1;
      assert (a + b)[..|a| + n] == a + b[..n];
      FeedAppend(s, a, b[..n]);
    }
  }

  lemma FeedOne(s: Scan, c: char)
    ensures Feed(s, [c]) == Step(s, c)
  {
    assert [c][..0] == [];
  }

  predicate Calm(s: Scan) {
    s.quote.None? && !s.escaped
  }

  /** Inside double quotes, the escaped form of a text decodes to the text. */
  lemma {:induction false} FeedEscaped(s: Scan, v: string)
    requires s.quote == Some(QUOTE) && !s.escaped && s.inToken
    ensures Feed(s, Escape(v)) == s.(token := s.token + v)
    decreases |v|
  {
    if v == [] {
      assert s.token + v == s.token;
    } else {
      var n := |v| - 1;
      var front, c := v[..n], v[n];
      FeedEscaped(s, front);
      var mid := s.(token := s.token + front);
      FeedAppend(s, Escape(front), EscapeChar(c));
      EscapedChar(mid, c);
      assert s.token + front + [c] == s.token + v;
    }
  }

  lemma EscapedChar(s: Scan, c: char)
    requires s.quote == Some(QUOTE) && !s.escaped && s.inToken
    ensures Feed(s, EscapeChar(c)) == s.(token := s.token + [c])
  {
    if Letter(c).Some? {
      var x := Letter(c).value;
      assert [BACKSLASH, x] == [BACKSLASH] + [x];
      FeedAppend(s, [BACKSLASH], [x]);
      FeedOne(s, BACKSLASH);
      FeedOne(s.(escaped := true), x);
    } else {
      FeedOne(s, c);
    }
  }

  /** A quoted text adds exactly itself to the token being read. */
  lemma FeedQuoted(s: Scan, v: string)
    requires Calm(s)
    ensures Feed(s, Quoted(v)) == s.(token := s.token + v, inToken := true, literal := true)
  {
    var inside := s.(quote := Some(QUOTE), literal := true, inToken := true);
    FeedAppend(s, [QUOTE] + Escape(v), [QUOTE]);
    FeedAppend(s, [QUOTE], Escape(v));
    FeedOne(s, QUOTE);
    FeedEscaped(inside, v);
    FeedOne(inside.(token := s.token + v), QUOTE);
  }

  /** Any text, quoted, reads back as one literal token. */
  lemma QuotedDecodes(v: string)
    ensures Tokens(Quoted(v)) == Some(([v], [true]))
  {
    FeedQuoted(Start, v);
    assert Start.token + v == v;
    assert Start.tokens + [v] == [v] && Start.literals + [true] == [true];
  }

  // ---------- Plain text ----------

  /** No quoting character. */
  ghost predicate Plain(v: string) {
    forall i :: 0 <= i < |v| ==> v[i] != BACKSLASH && v[i] != QUOTE && v[i] != TICK
  }

  ghost predicate Spaceless(v: string) {
    forall i :: 0 <= i < |v| ==> !IsSpace(v[i])
  }

  lemma {:induction false} FeedPlain(s: Scan, v: string)
    requires Calm(s) && Plain(v) && Spaceless(v)
    ensures Feed(s, v) == if v == [] then s else s.(token := s.token + v, inToken := true)
    decreases |v|
  {
    if v != [] {
      var n := |v| - 1;
      FeedPlain(s, v[..n]);
      assert s.token + v[..n] + [v[n]] == s.token + v;
    }
  }

  // ---------- Rendering a rule ----------

  const APPEND := ['-', 'A']
  const COMMENT := ['-', '-', 'c', 'o', 'm', 'm', 'e', 'n', 't']
  const MAX_CHAIN := 28

  ghost predicate NameChar(c: char) {
    'a' <= c <= 'z' || 'A' <= c <= 'Z' || '0' <= c <= '9' || c == '-' || c == '_' || c == '.' || c == ':'
  }

  ghost predicate ValidChain(chain: string) {
    0 < |chain| <= MAX_CHAIN && forall i :: 0 <= i < |chain| ==> NameChar(chain[i])
  }

  ghost predicate SafeToken(t: string) {
    t != [] && forall i :: 0 <= i < |t| ==> t[i] != '\0' && t[i] != '\r' && t[i] != '\n'
  }

  ghost predicate NeedsQuote(args: seq<string>, n: nat)
    requires n < |args|
  {
    (exists i :: 0 <= i < |args[n]| &&
       (args[n][i] == SPACE || args[n][i] == '\t' || args[n][i] == QUOTE || args[n][i] == TICK || args[n][i] == BACKSLASH))
    || (n > 0 && args[n - 1] == COMMENT)
  }

  ghost function Token(args: seq<string>, n: nat): string
    requires n < |args|
  {
    if NeedsQuote(args, n) then Quoted(args[n]) else args[n]
  }

  /** The first `n` tokens, separated by single spaces. */
  ghost function Joined(args: seq<string>, n: nat): string
    requires n <= |args|
  {
    if n == 0 then [] else if n == 1 then Token(args, 0) else Joined(args, n - 1) + [SPACE] + Token(args, n - 1)
  }

  ghost function Line(chain: string, args: seq<string>): string {
    APPEND + [SPACE] + chain + [SPACE] + Joined(args, |args|)
  }

  method WriteToken(args: seq<string>, n: nat) returns (token: string)
    requires n < |args|
    ensures token == Token(args, n)
  {
    token := args[n];
    var special := HasSpecial(token);
    if special || (n > 0 && args[n - 1] == COMMENT) {
      token := IptQuote(token);
    }
  }

  /** Whether a blank, a tab, a quote or a backslash occurs. */
  method HasSpecial(t: string) returns (found: bool)
    ensures found <==> exists i :: 0 <= i < |t| && (t[i] == SPACE || t[i] == '\t' || t[i] == QUOTE || t[i] == TICK || t[i] == BACKSLASH)
  {
    for i := 0 to |t|
      invariant forall j :: 0 <= j < i ==> t[j] != SPACE && t[j] != '\t' && t[j] != QUOTE && t[j] != TICK && t[j] != BACKSLASH
    {
      if t[i] == SPACE || t[i] == '\t' || t[i] == QUOTE || t[i] == TICK || t[i] == BACKSLASH {
        return true;
      }
    }
    return false;
  }

  method CheckChain(chain: string) returns (ok: bool)
    ensures ok <==> ValidChain(chain)
  {
    if chain == [] || |chain| > MAX_CHAIN {
      return false;
    }
    for i := 0 to |chain|
      invariant forall j :: 0 <= j < i ==> NameChar(chain[j])
    {
      var c := chain[i];
      if (c < 'a' || c > 'z') && (c < 'A' || c > 'Z') && (c < '0' || c > '9') && c != '-' && c != '_' && c != '.' && c != ':' {
        return false;
      }
    }
    return true;
  }

  method CheckToken(t: string) returns (ok: bool)
    ensures ok <==> SafeToken(t)
  {
    if t == [] {
      return false;
    }
    for i := 0 to |t|
      invariant forall j :: 0 <= j < i ==> t[j] != '\0' && t[j] != '\r' && t[j] != '\n'
    {
      if t[i] == '\0' || t[i] == '\r' || t[i] == '\n' {
        return false;
      }
    }
    return true;
  }

  ghost predicate AllSafe(args: seq<string>, n: nat)
    requires n <= |args|
  {
    forall i :: 0 <= i < n ==> SafeToken(args[i])
  }

  /** Fails on an invalid chain name or on a token that restore could not carry. */
  method RenderRule(chain: string, args: seq<string>) returns (r: Option<string>)
    ensures r.Some? <==> ValidChain(chain) && AllSafe(args, |args|)
    ensures r.Some? ==> r.value == Line(chain, args)
  {
    var valid := CheckChain(chain);
    if !valid {
      return None;
    }
    var text: string := [];
    for n := 0 to |args|
      invariant text == Joined(args, n) && AllSafe(args, n)
    {
      var safe := CheckToken(args[n]);
      if !safe {
        return None;
      }
      var token := WriteToken(args, n);
      text := if n == 0 then token else text + [SPACE] + token;
    }
    return Some(APPEND + [SPACE] + chain + [SPACE] + text);
  }

  // ---------- Reading a rendered rule ----------

  ghost function Flags(args: seq<string>, n: nat): (r: seq<bool>)
    requires n <= |args|
    ensures |r| == n && forall i :: 0 <= i < n ==> r[i] == NeedsQuote(args, i)
  {
    seq(n, i requires 0 <= i < n => NeedsQuote(args, i))
  }

  /** Every token that is written without quotes is free of white space. */
  ghost predicate Clean(args: seq<string>) {
    forall n :: 0 <= n < |args| && !NeedsQuote(args, n) ==> Spaceless(args[n])
  }

  lemma UnquotedPlain(args: seq<string>, n: nat)
    requires n < |args| && !NeedsQuote(args, n)
    ensures Plain(args[n])
  {
  }

  ghost predicate Between(s: Scan) {
    Calm(s) && !s.inToken && s.token == [] && !s.literal
  }

  /** The scanner after the first `n` tokens, the last of them still open. */
  ghost function After(s: Scan, args: seq<string>, n: nat): Scan
    requires n <= |args|
  {
    if n == 0 then s
    else s.(tokens := s.tokens + args[..n - 1], literals := s.literals + Flags(args, n - 1), token := args[n - 1], inToken := true,
            literal := NeedsQuote(args, n - 1))
  }

  lemma FeedToken(s: Scan, args: seq<string>, n: nat)
    requires Between(s) && n < |args| && SafeToken(args[n]) && (NeedsQuote(args, n) || Spaceless(args[n]))
    ensures Feed(s, Token(args, n)) == s.(token := args[n], inToken := true, literal := NeedsQuote(args, n))
  {
    assert s.token + args[n] == args[n];
    if NeedsQuote(args, n) {
      FeedQuoted(s, args[n]);
    } else {
      UnquotedPlain(args, n);
      FeedPlain(s, args[n]);
    }
  }

  lemma FlushAfter(s: Scan, args: seq<string>, n: nat)
    requires Between(s) && 0 < n <= |args|
    ensures Flush(After(s, args, n)) == s.(tokens := s.tokens + args[..n], literals := s.literals + Flags(args, n))
  {
    assert args[..n] == args[..n - 1] + [args[n - 1]];
    assert Flags(args, n) == Flags(args, n - 1) + [NeedsQuote(args, n - 1)];
    assert s.tokens + args[..n - 1] + [args[n - 1]] == s.tokens + args[..n];
    assert s.literals + Flags(args, n - 1) + [NeedsQuote(args, n - 1)] == s.literals + Flags(args, n);
  }

  lemma {:induction false} FeedJoined(s: Scan, args: seq<string>, n: nat)
    requires Between(s) && n <= |args| && Clean(args) && forall i :: 0 <= i < |args| ==> SafeToken(args[i])
    ensures Feed(s, Joined(args, n)) == After(s, args, n)
    decreases n
  {
    if n == 1 {
      FeedToken(s, args, 0);
      assert s.tokens + args[..0] == s.tokens && s.literals + Flags(args, 0) == s.literals;
    } else if n > 1 {
      FeedJoined(s, args, n - 1);
      FlushAfter(s, args, n - 1);
      var flushed := Flush(After(s, args, n - 1));
      FeedAppend(s, Joined(args, n - 1) + [SPACE], Token(args, n - 1));
      FeedAppend(s, Joined(args, n - 1), [SPACE]);
      FeedOne(After(s, args, n - 1), SPACE);
      FeedToken(flushed, args, n - 1);
    }
  }

  /** The scanner after the chain name and its space. */
  ghost function Headed(chain: string): Scan {
    Scan([APPEND, chain], [false, false], [], false, false, None, false)
  }

  lemma NamePlain(chain: string)
    requires ValidChain(chain)
    ensures Plain(chain) && Spaceless(chain)
  {
  }

  /** A plain word and the space after it are one token. */
  lemma FeedWord(s: Scan, word: string)
    requires Between(s) && word != [] && Plain(word) && Spaceless(word)
    ensures Feed(s, word + [SPACE]) == s.(tokens := s.tokens + [word], literals := s.literals + [false])
  {
    FeedPlain(s, word);
    assert s.token + word == word;
    FeedAppend(s, word, [SPACE]);
    FeedOne(Feed(s, word), SPACE);
  }

  lemma FeedHead(chain: string)
    requires ValidChain(chain)
    ensures Feed(Start, APPEND + [SPACE] + chain + [SPACE]) == Headed(chain)
  {
    NamePlain(chain);
    assert Plain(APPEND) && Spaceless(APPEND);
    FeedWord(Start, APPEND);
    var first := Scan([APPEND], [false], [], false, false, None, false);
    assert Start.tokens + [APPEND] == [APPEND] && Start.literals + [false] == [false];
    FeedWord(first, chain);
    assert [APPEND] + [chain] == [APPEND, chain] && [false] + [false] == [false, false];
    FeedAppend(Start, APPEND + [SPACE], chain + [SPACE]);
    assert APPEND + [SPACE] + chain + [SPACE] == APPEND + [SPACE] + (chain + [SPACE]);
  }

  ghost predicate Accepted(chain: string, args: seq<string>) {
    ValidChain(chain) && AllSafe(args, |args|)
  }

  /** A rendered rule reads back as -A, the chain and the arguments. */
  lemma RenderedReads(chain: string, args: seq<string>)
    requires Accepted(chain, args) && Clean(args)
    ensures Tokens(Line(chain, args)) == Some(([APPEND, chain] + args, [false, false] + Flags(args, |args|)))
  {
    var head, s := APPEND + [SPACE] + chain + [SPACE], Headed(chain);
    FeedAppend(Start, head, Joined(args, |args|));
    FeedHead(chain);
    FeedJoined(s, args, |args|);
    if |args| > 0 {
      FlushAfter(s, args, |args|);
      assert args[..|args|] == args;
    } else {
      assert [APPEND, chain] + args == [APPEND, chain] && [false, false] + Flags(args, 0) == [false, false];
    }
  }

  // ---------- When it does not read back ----------

  function Spaces(v: string): nat {
    if v == [] then 0 else Spaces(v[..|v| - 1]) + (if IsSpace(v[|v| - 1]) then 1 else 0)
  }

  function SpacesIn(vs: seq<string>): nat {
    if vs == [] then 0 else SpacesIn(vs[..|vs| - 1]) + Spaces(vs[|vs| - 1])
  }

  lemma {:induction false} SpacesAppend(a: string, b: string)
    ensures Spaces(a + b) == Spaces(a) + Spaces(b)
    decreases |b|
  {
    if b == [] {
      assert a + b == a;
    } else {
      var n := |b| - 1;
      assert (a + b)[..|a| + n] == a + b[..n];
      SpacesAppend(a, b[..n]);
    }
  }

  lemma SpacesSnoc(vs: seq<string>, v: string)
    ensures SpacesIn(vs + [v]) == SpacesIn(vs) + Spaces(v)
  {
    assert (vs + [v])[..|vs|] == vs;
  }

  lemma {:induction false} NoSpaces(v: string)
    ensures Spaces(v) == 0 <==> Spaceless(v)
    decreases |v|
  {
    if v != [] {
      var n := |v| - 1;
      NoSpaces(v[..n]);
      assert v == v[..n] + [v[n]];
    }
  }

  /** White space inside all tokens read so far. */
  function Total(s: Scan): nat {
    SpacesIn(s.tokens) + Spaces(s.token)
  }

  lemma FlushTotal(s: Scan)
    requires s.inToken || s.token == []
    ensures Total(Flush(s)) == Total(s) && Flush(s).token == [] && !Flush(s).inToken
  {
    if s.inToken {
      SpacesSnoc(s.tokens, s.token);
    }
  }

  ghost predicate Tidy(s: Scan) {
    Calm(s) && (s.inToken || s.token == [])
  }

  /** Unquoted white space separates and is never kept. */
  lemma {:induction false} PlainTotal(s: Scan, v: string)
    requires Tidy(s) && Plain(v)
    ensures Tidy(Feed(s, v)) && Total(Feed(s, v)) == Total(s)
    decreases |v|
  {
    if v != [] {
      var n := |v| - 1;
      PlainTotal(s, v[..n]);
      PlainStep(Feed(s, v[..n]), v[n]);
    }
  }

  lemma PlainStep(s: Scan, c: char)
    requires Tidy(s) && c != BACKSLASH && c != QUOTE && c != TICK
    ensures Tidy(Step(s, c)) && Total(Step(s, c)) == Total(s)
  {
    if IsSpace(c) {
      FlushTotal(s);
    } else {
      SpacesAppend(s.token, [c]);
      assert [c][..0] == [];
    }
  }

  lemma QuotedTotal(s: Scan, v: string)
    requires Tidy(s)
    ensures Tidy(Feed(s, Quoted(v))) && Total(Feed(s, Quoted(v))) == Total(s) + Spaces(v)
  {
    FeedQuoted(s, v);
    SpacesAppend(s.token, v);
  }

  ghost function QuotedSpaces(args: seq<string>, n: nat): nat
    requires n <= |args|
  {
    if n == 0 then 0 else QuotedSpaces(args, n - 1) + (if NeedsQuote(args, n - 1) then Spaces(args[n - 1]) else 0)
  }

  lemma TokenTotal(s: Scan, args: seq<string>, n: nat)
    requires Tidy(s) && n < |args|
    ensures Tidy(Feed(s, Token(args, n)))
    ensures Total(Feed(s, Token(args, n))) == Total(s) + (if NeedsQuote(args, n) then Spaces(args[n]) else 0)
  {
    if NeedsQuote(args, n) {
      QuotedTotal(s, args[n]);
    } else {
      UnquotedPlain(args, n);
      PlainTotal(s, args[n]);
    }
  }

  lemma {:induction false} JoinedTotal(s: Scan, args: seq<string>, n: nat)
    requires Tidy(s) && n <= |args|
    ensures Tidy(Feed(s, Joined(args, n))) && Total(Feed(s, Joined(args, n))) == Total(s) + QuotedSpaces(args, n)
    decreases n
  {
    if n == 1 {
      TokenTotal(s, args, 0);
    } else if n > 1 {
      JoinedTotal(s, args, n - 1);
      NextTotal(s, Joined(args, n - 1), args, n - 1);
    }
  }

  lemma NextTotal(s: Scan, before: string, args: seq<string>, n: nat)
    requires Tidy(Feed(s, before)) && n < |args|
    ensures var after := Feed(s, before + [SPACE] + Token(args, n));
            Tidy(after) && Total(after) == Total(Feed(s, before)) + (if NeedsQuote(args, n) then Spaces(args[n]) else 0)
  {
    var mid := Feed(s, before);
    FeedAppend(s, before + [SPACE], Token(args, n));
    FeedAppend(s, before, [SPACE]);
    PlainTotal(mid, [SPACE]);
    TokenTotal(Feed(mid, [SPACE]), args, n);
  }

  lemma {:induction false} AllQuoted(args: seq<string>, n: nat)
    requires n <= |args|
    ensures QuotedSpaces(args, n) <= SpacesIn(args[..n])
    ensures QuotedSpaces(args, n) == SpacesIn(args[..n]) ==> forall i :: 0 <= i < n && !NeedsQuote(args, i) ==> Spaceless(args[i])
    decreases n
  {
    if n > 0 {
      AllQuoted(args, n - 1);
      assert args[..n] == args[..n - 1] + [args[n - 1]];
      SpacesSnoc(args[..n - 1], args[n - 1]);
      NoSpaces(args[n - 1]);
    }
  }

  lemma {:induction false} SpacesInAppend(a: seq<string>, b: seq<string>)
    ensures SpacesIn(a + b) == SpacesIn(a) + SpacesIn(b)
    decreases |b|
  {
    if b == [] {
      assert a + b == a;
    } else {
      var n := |b| - 1;
      assert (a + b)[..|a| + n] == a + b[..n];
      SpacesInAppend(a, b[..n]);
    }
  }

  lemma LineTotal(chain: string, args: seq<string>)
    requires Accepted(chain, args)
    ensures var s := Feed(Start, Line(chain, args)); Tidy(s) && Total(s) == SpacesIn([APPEND, chain]) + QuotedSpaces(args, |args|)
  {
    var head := APPEND + [SPACE] + chain + [SPACE];
    FeedAppend(Start, head, Joined(args, |args|));
    FeedHead(chain);
    JoinedTotal(Headed(chain), args, |args|);
  }

  /** Exactly the rules whose unquoted tokens hold no white space read back. */
  lemma ReadsBackIff(chain: string, args: seq<string>)
    requires Accepted(chain, args)
    ensures (Tokens(Line(chain, args)).Some? && Tokens(Line(chain, args)).value.0 == [APPEND, chain] + args) <==> Clean(args)
  {
    if Clean(args) {
      RenderedReads(chain, args);
    }
    var s := Feed(Start, Line(chain, args));
    LineTotal(chain, args);
    FlushTotal(s);
    if Flush(s).tokens == [APPEND, chain] + args {
      SpacesInAppend([APPEND, chain], args);
      AllQuoted(args, |args|);
      assert args[..|args|] == args;
    }
  }

  /** A no-break space is white space to the reader and not to the writer. */
  lemma NoBreakSpaceSplits(chain: string)
    requires ValidChain(chain)
    ensures var args := [['a', 0xA0 as char, 'b']];
            (Accepted(chain, args) && !(Tokens(Line(chain, args)).Some? && Tokens(Line(chain, args)).value.0 == [APPEND, chain] + args))
  {
    var args := [['a', 0xA0 as char, 'b']];
    assert !NeedsQuote(args, 0) && !Spaceless(args[0]) by {
      assert IsSpace(args[0][1]);
    }
    ReadsBackIff(chain, args);
  }

  // ---------- Records ----------

  /** Quoting within a record; a record that has not started may still be a comment. */
  datatype Mode = Mode(quote: Option<char>, escaped: bool, comment: bool, started: bool)

  const Fresh := Mode(None, false, false, false)

  /** Inside a record, outside quotes. */
  const Open := Mode(None, false, false, true)

  function NextMode(m: Mode, c: char): Mode {
    if m.comment then m
    else if m.escaped then m.(escaped := false)
    else if m.quote.Some? then
      if c == m.quote.value then m.(quote := None)
      else if c == BACKSLASH && m.quote.value == QUOTE then m.(escaped := true)
      else m
    else if !m.started && IsSpace(c) then m
    else if !m.started && c == '#' then m.(comment := true)
    else if c == BACKSLASH then m.(started := true, escaped := true)
    else if c == QUOTE || c == TICK then m.(started := true, quote := Some(c))
    else m.(started := true)
  }

  /** A newline ends a record unless it is quoted or escaped; comments always end at one. */
  predicate EndsRecord(m: Mode, c: char) {
    c == NEWLINE && (m.comment || (m.quote.None? && !m.escaped))
  }

  /** Finished records with the number of their first line, the text since, and the mode. */
  datatype Records = Records(records: seq<(nat, string)>, text: string, startLine: nat, line: nat, mode: Mode)

  const NoRecords := Records([], [], 0, 0, Fresh)

  function Read(s: Records, c: char): Records {
    if EndsRecord(s.mode, c) then
      Records(s.records + [(s.startLine, s.text)], [], s.line + 1, s.line + 1, s.mode.(comment := false, started := false))
    else
      Records(s.records, s.text + [c], s.startLine, if c == NEWLINE then s.line + 1 else s.line, NextMode(s.mode, c))
  }

  function ReadAll(s: Records, data: string): Records {
    if data == [] then s else Read(ReadAll(s, data[..|data| - 1]), data[|data| - 1])
  }

  /** A last record without a newline counts when there is any text. */
  function RecordsOf(data: string): seq<(nat, string)> {
    var s := ReadAll(NoRecords, data);
    if s.text == [] then s.records else s.records + [(s.startLine, s.text)]
  }

  /** The next mode, by the scanner's own branches. */
  method Advance(m: Mode, c: char) returns (next: Mode)
    ensures next == NextMode(m, c)
  {
    next := m;
    if m.comment {
      return;
    }
    if m.escaped {
      return m.(escaped := false);
    }
    if m.quote.Some? {
      if c == m.quote.value {
        next := m.(quote := None);
      } else if c == BACKSLASH && m.quote.value == QUOTE {
        next := m.(escaped := true);
      }
      return;
    }
    if !m.started {
      if IsSpace(c) {
        return;
      }
      if c == '#' {
        return m.(comment := true);
      }
      next := m.(started := true);
    }
    if c == BACKSLASH {
      next := next.(escaped := true);
    } else if c == QUOTE || c == TICK {
      next := next.(quote := Some(c));
    }
  }

  /** One character of the scan by positions. */
  method SaveOne(data: string, records: seq<(nat, string)>, start: nat, startLine: nat, line: nat, mode: Mode, pos: nat)
    returns (records': seq<(nat, string)>, start': nat, startLine': nat, line': nat, mode': Mode)
    requires start <= pos < |data|
    ensures start' <= pos + 1
    ensures Records(records', data[start'..pos + 1], startLine', line', mode') ==
            Read(Records(records, data[start..pos], startLine, line, mode), data[pos])
  {
    var c := data[pos];
    records', start', startLine', line', mode' := records, start, startLine, line, mode;
    assert data[start..pos + 1] == data[start..pos] + [c];
    if c == NEWLINE {
      line' := line + 1;
    }
    if EndsRecord(mode, c) {
      records' := records + [(startLine, data[start..pos])];
      start', startLine' := pos + 1, line';
      mode' := mode.(comment := false, started := false);
    } else {
      mode' := Advance(mode, c);
    }
  }

  /** The scan by positions, without copying what lies between. */
  method SaveRecords(data: string) returns (records: seq<(nat, string)>)
    ensures records == RecordsOf(data)
  {
    var start, startLine, line, mode := 0, 0, 0, Fresh;
    records := [];
    for pos := 0 to |data|
      invariant 0 <= start <= pos
      invariant Records(records, data[start..pos], startLine, line, mode) == ReadAll(NoRecords, data[..pos])
    {
      assert data[..pos + 1][..pos] == data[..pos];
      records, start, startLine, line, mode := SaveOne(data, records, start, startLine, line, mode, pos);
    }
    assert data[..|data|] == data;
    if start < |data| {
      records := records + [(startLine, data[start..])];
    }
  }

  lemma {:induction false} ReadAppend(s: Records, a: string, b: string)
    ensures ReadAll(s, a + b) == ReadAll(ReadAll(s, a), b)
    decreases |b|
  {
    if b == [] {
      assert a + b == a;
    } else {
      var n := |b| - 1;
      assert (a + b)[..|a| + n] == a + b[..n];
      ReadAppend(s, a, b[..n]);
    }
  }

  function Modes(m: Mode, v: string): Mode {
    if v == [] then m else NextMode(Modes(m, v[..|v| - 1]), v[|v| - 1])
  }

  lemma {:induction false} ModesAppend(m: Mode, a: string, b: string)
    ensures Modes(m, a + b) == Modes(Modes(m, a), b)
    decreases |b|
  {
    if b == [] {
      assert a + b == a;
    } else {
      var n := |b| - 1;
      assert (a + b)[..|a| + n] == a + b[..n];
      ModesAppend(m, a, b[..n]);
    }
  }

  lemma ModesOne(m: Mode, c: char)
    ensures Modes(m, [c]) == NextMode(m, c)
  {
    assert [c][..0] == [];
  }

  ghost predicate OneLine(v: string) {
    forall i :: 0 <= i < |v| ==> v[i] != NEWLINE
  }

  /** Text without newlines only moves the mode. */
  lemma {:induction false} ReadOneLine(s: Records, v: string)
    requires OneLine(v)
    ensures ReadAll(s, v) == Records(s.records, s.text + v, s.startLine, s.line, Modes(s.mode, v))
    decreases |v|
  {
    if v == [] {
      assert s.text + v == s.text;
    } else {
      var n := |v| - 1;
      ReadOneLine(s, v[..n]);
      assert s.text + v[..n] + [v[n]] == s.text + v;
    }
  }

  lemma {:induction false} PlainStaysOpen(v: string)
    requires Plain(v)
    ensures Modes(Open, v) == Open
    decreases |v|
  {
    if v != [] {
      PlainStaysOpen(v[..|v| - 1]);
    }
  }

  const Inside := Open.(quote := Some(QUOTE))

  lemma EscapedCharStays(c: char)
    ensures Modes(Inside, EscapeChar(c)) == Inside && OneLine(EscapeChar(c))
  {
    if Letter(c).Some? {
      var x := Letter(c).value;
      assert [BACKSLASH, x] == [BACKSLASH] + [x];
      ModesAppend(Inside, [BACKSLASH], [x]);
      ModesOne(Inside, BACKSLASH);
      ModesOne(Inside.(escaped := true), x);
    } else {
      ModesOne(Inside, c);
    }
  }

  lemma {:induction false} EscapedStays(v: string)
    ensures Modes(Inside, Escape(v)) == Inside && OneLine(Escape(v))
    decreases |v|
  {
    if v != [] {
      var n := |v| - 1;
      EscapedStays(v[..n]);
      EscapedCharStays(v[n]);
      ModesAppend(Inside, Escape(v[..n]), EscapeChar(v[n]));
    }
  }

  lemma QuotedStaysOpen(v: string)
    ensures Modes(Open, Quoted(v)) == Open && OneLine(Quoted(v))
  {
    ModesAppend(Open, [QUOTE] + Escape(v), [QUOTE]);
    ModesAppend(Open, [QUOTE], Escape(v));
    ModesOne(Open, QUOTE);
    EscapedStays(v);
    ModesOne(Inside, QUOTE);
  }

  lemma TokenStaysOpen(args: seq<string>, n: nat)
    requires n < |args| && SafeToken(args[n])
    ensures Modes(Open, Token(args, n)) == Open && OneLine(Token(args, n))
  {
    if NeedsQuote(args, n) {
      QuotedStaysOpen(args[n]);
    } else {
      UnquotedPlain(args, n);
      PlainStaysOpen(args[n]);
    }
  }

  lemma {:induction false} JoinedStaysOpen(args: seq<string>, n: nat)
    requires n <= |args| && forall i :: 0 <= i < |args| ==> SafeToken(args[i])
    ensures Modes(Open, Joined(args, n)) == Open && OneLine(Joined(args, n))
    decreases n
  {
    if n == 1 {
      TokenStaysOpen(args, 0);
    } else if n > 1 {
      var before, token := Joined(args, n - 1), Token(args, n - 1);
      JoinedStaysOpen(args, n - 1);
      TokenStaysOpen(args, n - 1);
      ModesAppend(Open, before + [SPACE], token);
      ModesAppend(Open, before, [SPACE]);
      PlainStaysOpen([SPACE]);
    }
  }

  lemma HeadStaysOpen(chain: string)
    requires ValidChain(chain)
    ensures var head := APPEND + [SPACE] + chain + [SPACE]; Modes(Fresh, head) == Open && OneLine(head)
  {
    NamePlain(chain);
    var rest := ['A'] + [SPACE] + chain + [SPACE];
    assert Plain(rest) && OneLine(rest);
    ModesOne(Fresh, '-');
    PlainStaysOpen(rest);
    ModesAppend(Fresh, ['-'], rest);
    assert APPEND + [SPACE] + chain + [SPACE] == ['-'] + rest;
  }

  lemma LineStaysOpen(chain: string, args: seq<string>)
    requires Accepted(chain, args)
    ensures Modes(Fresh, Line(chain, args)) == Open && OneLine(Line(chain, args)) && Line(chain, args) != []
  {
    var head, body := APPEND + [SPACE] + chain + [SPACE], Joined(args, |args|);
    HeadStaysOpen(chain);
    JoinedStaysOpen(args, |args|);
    ModesAppend(Fresh, head, body);
  }

  /** A rule as it is rendered. */
  datatype Rendered = Rendered(chain: string, args: seq<string>) {
    ghost function Text(): string {
      Line(chain, args)
    }
  }

  ghost predicate AllAccepted(rules: seq<Rendered>) {
    forall i :: 0 <= i < |rules| ==> Accepted(rules[i].chain, rules[i].args)
  }

  /** The rendered rules, each followed by a newline. */
  ghost function Batch(rules: seq<Rendered>): string {
    if rules == [] then [] else Batch(rules[..|rules| - 1]) + rules[|rules| - 1].Text() + [NEWLINE]
  }

  /** Each rule's text with its line number. */
  ghost function Numbered(rules: seq<Rendered>): (r: seq<(nat, string)>)
    ensures |r| == |rules|
  {
    if rules == [] then [] else Numbered(rules[..|rules| - 1]) + [(|rules| - 1, rules[|rules| - 1].Text())]
  }

  /** After whole lines the scanner is at the start of a record. */
  ghost function AtLine(rules: seq<Rendered>): Records {
    Records(Numbered(rules), [], |rules|, |rules|, Fresh)
  }

  /** A line that leaves the scanner in an open record is one record. */
  lemma ReadText(s: Records, t: string)
    requires s.mode == Fresh && s.text == [] && OneLine(t) && Modes(Fresh, t) == Open
    ensures ReadAll(s, t) == Records(s.records, t, s.startLine, s.line, Open)
    ensures ReadAll(s, t + [NEWLINE]) == Records(s.records + [(s.startLine, t)], [], s.line + 1, s.line + 1, Fresh)
  {
    ReadOneLine(s, t);
    assert s.text + t == t;
    assert (t + [NEWLINE])[..|t|] == t && (t + [NEWLINE])[|t|] == NEWLINE;
    assert ReadAll(s, t + [NEWLINE]) == Read(ReadAll(s, t), NEWLINE);
  }

  lemma {:induction false} ReadBatch(rules: seq<Rendered>)
    requires AllAccepted(rules)
    ensures ReadAll(NoRecords, Batch(rules)) == AtLine(rules)
    decreases |rules|
  {
    if rules != [] {
      var n := |rules| - 1;
      var front, r := rules[..n], rules[n];
      ReadBatch(front);
      LineStaysOpen(r.chain, r.args);
      ReadText(AtLine(front), r.Text());
      ReadAppend(NoRecords, Batch(front), r.Text() + [NEWLINE]);
      assert Batch(front) + r.Text() + [NEWLINE] == Batch(front) + (r.Text() + [NEWLINE]);
    }
  }

  /** A batch of rendered rules splits back into the same records, with or without the
      newline after the last one. */
  lemma BatchSplits(rules: seq<Rendered>, last: Rendered)
    requires AllAccepted(rules) && Accepted(last.chain, last.args)
    ensures RecordsOf(Batch(rules)) == Numbered(rules)
    ensures RecordsOf(Batch(rules) + last.Text()) == Numbered(rules + [last])
  {
    ReadBatch(rules);
    ReadAppend(NoRecords, Batch(rules), last.Text());
    LineStaysOpen(last.chain, last.args);
    ReadText(AtLine(rules), last.Text());
    assert (rules + [last])[..|rules|] == rules;
  }
}
