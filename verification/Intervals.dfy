/** Comparing observed set elements with expected prefixes
    (internal/firewall/nftables_model.go:299-360, 429-465).

    The kernel may report a set as addresses, prefixes or ranges in any order, merged or
    not.  Merging both sides gives a normal form that only the addresses determine.
 */
module Intervals {
  import opened Address
  import opened Basics
  import opened Sorting
  import opened PrefixSet

  // ---------- Normal form ----------

  /** Inclusive at both ends. */
  datatype Interval = Interval(start: nat, end: nat) {
    predicate Has(a: nat) {
      start <= a <= end
    }
  }

  ghost predicate Holds(s: seq<Interval>, a: nat) {
    exists i :: 0 <= i < |s| && s[i].Has(a)
  }

  ghost predicate AllForward(s: seq<Interval>) {
    forall i :: 0 <= i < |s| ==> s[i].start <= s[i].end
  }

  /** In order, with at least one address between any two. */
  ghost predicate Normal(s: seq<Interval>) {
    AllForward(s) && forall i, j :: 0 <= i < j < |s| ==> s[i].end + 1 < s[j].start
  }

  ghost predicate SameUnion(s: seq<Interval>, t: seq<Interval>) {
    forall a :: Holds(s, a) <==> Holds(t, a)
  }

  lemma TailHolds(s: seq<Interval>, a: nat)
    requires Normal(s) && s != []
    ensures Holds(s[1..], a) <==> Holds(s, a) && a > s[0].end
  {
    if Holds(s[1..], a) {
      var i :| 0 <= i < |s[1..]| && s[1..][i].Has(a);
      assert s[i + 1].Has(a) && s[0].end + 1 < s[i + 1].start;
    }
    if Holds(s, a) && a > s[0].end {
      var i :| 0 <= i < |s| && s[i].Has(a);
      assert s[1..][i - 1].Has(a);
    }
  }

  lemma HeadHolds(s: seq<Interval>, a: nat)
    requires Normal(s) && s != []
    ensures a < s[0].start ==> !Holds(s, a)
    ensures s[0].Has(a) ==> Holds(s, a)
    ensures a == s[0].end + 1 ==> !Holds(s, a)
  {
  }

  lemma NormalTail(s: seq<Interval>)
    requires Normal(s) && s != []
    ensures Normal(s[1..])
  {
  }

  lemma SameHead(s: seq<Interval>, t: seq<Interval>)
    requires Normal(s) && Normal(t) && SameUnion(s, t) && s != [] && t != []
    ensures s[0] == t[0]
  {
    HeadHolds(s, s[0].start);
    HeadHolds(t, s[0].start);
    HeadHolds(s, t[0].start);
    HeadHolds(t, t[0].start);
    HeadHolds(s, s[0].end + 1);
    HeadHolds(t, s[0].end + 1);
    HeadHolds(s, t[0].end + 1);
    HeadHolds(t, t[0].end + 1);
  }

  /** The addresses determine the normal form. */
  lemma {:induction false} NormalUnique(s: seq<Interval>, t: seq<Interval>)
    requires Normal(s) && Normal(t) && SameUnion(s, t)
    ensures s == t
    decreases |s|
  {
    if s != [] && t == [] {
      assert s[0].Has(s[0].start) && Holds(s, s[0].start);
    } else if s == [] && t != [] {
      assert t[0].Has(t[0].start) && Holds(t, t[0].start);
    } else if s != [] {
      SameHead(s, t);
      NormalTail(s);
      NormalTail(t);
      forall a
        ensures Holds(s[1..], a) <==> Holds(t[1..], a)
      {
        TailHolds(s, a);
        TailHolds(t, a);
      }
      NormalUnique(s[1..], t[1..]);
      assert s == [s[0]] + s[1..] && t == [t[0]] + t[1..];
    }
  }

  // ---------- Merging in place ----------

  predicate IntervalLeq(x: Interval, y: Interval) {
    x.start < y.start || (x.start == y.start && x.end <= y.end)
  }

  lemma IntervalOrder()
    ensures TotalPreorder(IntervalLeq)
  {
  }

  /** The last interval grows when the next one overlaps or touches it; else the next is kept.
      The address after the last one of the family does not exist. */
  function Absorb(out: seq<Interval>, c: Interval, f: Family): seq<Interval>
    requires out != []
  {
    var n := |out| - 1;
    var last := out[n];
    if c.start <= last.end || (last.end + 1 < Pow2(Width(f)) && c.start == last.end + 1) then
      out[n := Interval(last.start, if c.end > last.end then c.end else last.end)]
    else out + [c]
  }

  lemma HoldsSnoc(s: seq<Interval>, c: Interval, a: nat)
    ensures Holds(s + [c], a) <==> Holds(s, a) || c.Has(a)
  {
    var all := s + [c];
    assert all[|s|] == c;
    assert forall i :: 0 <= i < |s| ==> all[i] == s[i];
  }

  lemma AbsorbKeeps(out: seq<Interval>, c: Interval, f: Family)
    requires Normal(out) && out != [] && c.start <= c.end < Pow2(Width(f)) && out[|out| - 1].start <= c.start
    ensures Normal(Absorb(out, c, f)) && SameUnion(Absorb(out, c, f), out + [c])
    ensures Absorb(out, c, f) != [] && Absorb(out, c, f)[|Absorb(out, c, f)| - 1].start <= c.start
  {
    var n := |out| - 1;
    var front, last := out[..n], out[n];
    assert out == front + [last];
    var r := Absorb(out, c, f);
    if r != out + [c] {
      assert r == front + [r[n]];
      forall a
        ensures Holds(r, a) <==> Holds(out + [c], a)
      {
        HoldsSnoc(front, r[n], a);
        HoldsSnoc(front, last, a);
        HoldsSnoc(out, c, a);
      }
    }
  }

  ghost predicate InFamily(s: seq<Interval>, f: Family) {
    forall i :: 0 <= i < |s| ==> s[i].start <= s[i].end < Pow2(Width(f))
  }

  /** Sorts the array. */
  method SortArray(a: array<Interval>)
    modifies a
    ensures SortedBy(IntervalLeq, a[..]) && multiset(a[..]) == multiset(old(a[..]))
  {
    IntervalOrder();
    var sorted := Sort(IntervalLeq, a[..]);
    SameElements(sorted, a[..]);
    for i := 0 to a.Length
      invariant a[..i] == sorted[..i]
    {
      a[i] := sorted[i];
      assert a[..i + 1] == a[..i] + [a[i]];
    }
    assert a[..] == sorted;
  }

  lemma SortedUnion(s: seq<Interval>, t: seq<Interval>, f: Family)
    requires multiset(s) == multiset(t) && InFamily(s, f)
    ensures InFamily(t, f) && SameUnion(s, t)
  {
    SameElements(s, t);
    forall i | 0 <= i < |t|
      ensures t[i].start <= t[i].end < Pow2(Width(f))
    {
      assert t[i] in s;
    }
    forall a
      ensures Holds(s, a) <==> Holds(t, a)
    {
      if i :| 0 <= i < |s| && s[i].Has(a) {
        assert s[i] in t;
      }
      if i :| 0 <= i < |t| && t[i].Has(a) {
        assert t[i] in s;
      }
    }
  }

  /** One turn of the merge on the array: the merged part is `a[..n]`. */
  method MergeOne(a: array<Interval>, n: nat, i: nat, f: Family) returns (m: nat)
    requires 0 < n <= i < a.Length
    modifies a
    ensures 0 < m <= i + 1 && a[..m] == Absorb(old(a[..n]), old(a[i]), f) && a[i + 1..] == old(a[i + 1..])
  {
    var current, previous := a[i], a[n - 1];
    var overlaps := current.start <= previous.end;
    var adjacent := previous.end + 1 < Pow2(Width(f)) && current.start == previous.end + 1;
    if overlaps || adjacent {
      a[n - 1] := Interval(previous.start, if current.end > previous.end then current.end else previous.end);
      m := n;
    } else {
      a[n] := current;
      m := n + 1;
      assert a[..m] == old(a[..n]) + [current];
    }
  }

  /** The first `i` sorted intervals have been merged into `out`. */
  ghost predicate MergedInto(out: seq<Interval>, sorted: seq<Interval>, i: nat) {
    && 0 < i <= |sorted| && out != [] && Normal(out) && SameUnion(out, sorted[..i])
    && out[|out| - 1].start <= sorted[i - 1].start
  }

  lemma MergedFirst(sorted: seq<Interval>, f: Family)
    requires sorted != [] && InFamily(sorted, f)
    ensures MergedInto(sorted[..1], sorted, 1)
  {
  }

  lemma MergedNext(out: seq<Interval>, sorted: seq<Interval>, i: nat, f: Family)
    requires MergedInto(out, sorted, i) && i < |sorted| && SortedBy(IntervalLeq, sorted) && InFamily(sorted, f)
    ensures MergedInto(Absorb(out, sorted[i], f), sorted, i + 1)
  {
    assert IntervalLeq(sorted[i - 1], sorted[i]);
    AbsorbKeeps(out, sorted[i], f);
    assert sorted[..i + 1] == sorted[..i] + [sorted[i]];
    forall a
      ensures Holds(out + [sorted[i]], a) <==> Holds(sorted[..i + 1], a)
    {
      HoldsSnoc(out, sorted[i], a);
      HoldsSnoc(sorted[..i], sorted[i], a);
    }
  }

  lemma MergedAll(out: seq<Interval>, sorted: seq<Interval>, given: seq<Interval>)
    requires MergedInto(out, sorted, |sorted|) && SameUnion(given, sorted)
    ensures Normal(out) && SameUnion(out, given)
  {
    assert sorted[..|sorted|] == sorted;
  }

  /** Merges the sorted array; the merged part ends up in `a[..n]`. */
  method MergeSorted(a: array<Interval>, f: Family, ghost sorted: seq<Interval>) returns (n: nat)
    requires a.Length > 0 && a[..] == sorted && SortedBy(IntervalLeq, sorted) && InFamily(sorted, f)
    modifies a
    ensures n <= a.Length && MergedInto(a[..n], sorted, a.Length)
  {
    n := 1;
    assert a[..1] == sorted[..1];
    MergedFirst(sorted, f);
    for i := 1 to a.Length
      invariant 0 < n <= i && a[i..] == sorted[i..] && MergedInto(a[..n], sorted, i)
    {
      MergedNext(a[..n], sorted, i, f);
      assert a[i] == a[i..][0] && sorted[i] == sorted[i..][0];
      assert a[i + 1..] == a[i..][1..] && sorted[i + 1..] == sorted[i..][1..];
      n := MergeOne(a, n, i, f);
    }
  }

  /** Leaves the normal form of the given intervals in `a[..n]`. */
  method MergeIntervals(a: array<Interval>, f: Family) returns (n: nat)
    requires InFamily(a[..], f)
    modifies a
    ensures n <= a.Length && Normal(a[..n]) && SameUnion(a[..n], old(a[..]))
  {
    if a.Length < 2 {
      assert a[..a.Length] == a[..];
      return a.Length;
    }
    SortArray(a);
    ghost var sorted := a[..];
    SortedUnion(old(a[..]), sorted, f);
    n := MergeSorted(a, f, sorted);
    MergedAll(a[..n], sorted, old(a[..]));
  }

  // ---------- Observed elements ----------

  /** An address, a prefix, a range, or something that cannot be read. */
  datatype Element = Single(addr: nat) | Block(prefix: Prefix) | Span(first: nat, last: nat) | Unreadable

  datatype Reported = NoElements | NotAList | Elements(elements: seq<Element>)

  predicate Readable(e: Element, f: Family) {
    match e
    case Single(a) => a < Pow2(Width(f))
    case Block(p) => p.fam == f && WellFormed(p)
    case Span(first, last) => first <= last < Pow2(Width(f))
    case Unreadable => false
  }

  ghost predicate ElementHas(e: Element, f: Family, a: nat)
    requires Readable(e, f)
  {
    match e
    case Single(x) => a == x
    case Block(p) => Masked(p).Has(f, a)
    case Span(first, last) => first <= a <= last
  }

  /** From the first address of a block to its last one. */
  function PrefixInterval(p: Prefix): (r: Interval)
    requires WellFormed(p)
    ensures r.start <= r.end < Pow2(Width(p.fam))
    ensures forall a :: r.Has(a) <==> Masked(p).Has(p.fam, a)
  {
    EndInFamily(Masked(p));
    Interval(Masked(p).addr, Masked(p).End() - 1)
  }

  function ElementInterval(e: Element, f: Family): (r: Interval)
    requires Readable(e, f)
    ensures r.start <= r.end < Pow2(Width(f))
    ensures forall a :: r.Has(a) <==> ElementHas(e, f, a)
  {
    match e
    case Single(a) => Interval(a, a)
    case Block(p) => PrefixInterval(p)
    case Span(first, last) => Interval(first, last)
  }

  ghost predicate AllReadable(es: seq<Element>, f: Family) {
    forall i :: 0 <= i < |es| ==> Readable(es[i], f)
  }

  ghost predicate Reports(es: seq<Element>, f: Family, a: nat) {
    exists i :: 0 <= i < |es| && Readable(es[i], f) && ElementHas(es[i], f, a)
  }

  /** The report is readable and names exactly the expected addresses. */
  ghost predicate Agrees(reported: Reported, f: Family, expected: seq<Prefix>) {
    match reported
    case NoElements => expected == []
    case NotAList => false
    case Elements(es) => AllReadable(es, f) && forall a :: Reports(es, f, a) <==> Listed(expected, f, a)
  }

  /** The intervals of readable elements; fails on an unreadable one. */
  method ReadElements(es: seq<Element>, f: Family) returns (r: Option<seq<Interval>>)
    ensures r.Some? <==> AllReadable(es, f)
    ensures r.Some? ==> |r.value| == |es| && InFamily(r.value, f) && forall a :: Holds(r.value, a) <==> Reports(es, f, a)
  {
    var out: seq<Interval> := [];
    for i := 0 to |es|
      invariant |out| == i && forall j :: 0 <= j < i ==> Readable(es[j], f) && out[j] == ElementInterval(es[j], f)
    {
      if !Readable(es[i], f) {
        return None;
      }
      out := out + [ElementInterval(es[i], f)];
    }
    forall a
      ensures Holds(out, a) <==> Reports(es, f, a)
    {
      if i :| 0 <= i < |out| && out[i].Has(a) {
        assert ElementHas(es[i], f, a);
      }
      if i :| 0 <= i < |es| && Readable(es[i], f) && ElementHas(es[i], f, a) {
        assert out[i].Has(a);
      }
    }
    return Some(out);
  }

  method ExpectedIntervals(expected: seq<Prefix>, f: Family) returns (r: seq<Interval>)
    requires forall i :: 0 <= i < |expected| ==> WellFormed(expected[i]) && expected[i].fam == f
    ensures |r| == |expected| && InFamily(r, f) && forall a :: Holds(r, a) <==> Listed(expected, f, a)
  {
    r := [];
    for i := 0 to |expected|
      invariant |r| == i && forall j :: 0 <= j < i ==> r[j] == PrefixInterval(expected[j])
    {
      r := r + [PrefixInterval(expected[i])];
    }
    forall a
      ensures Holds(r, a) <==> Listed(expected, f, a)
    {
      if i :| 0 <= i < |r| && r[i].Has(a) {
        assert Masked(expected[i]).Has(f, a);
      }
      if i :| 0 <= i < |expected| && WellFormed(expected[i]) && Masked(expected[i]).Has(f, a) {
        assert r[i].Has(a);
      }
    }
  }

  /** The merged form of a list. */
  method Merged(s: seq<Interval>, f: Family) returns (r: seq<Interval>)
    requires InFamily(s, f)
    ensures Normal(r) && SameUnion(r, s)
  {
    var a := new Interval[|s|](i requires 0 <= i < |s| => s[i]);
    assert a[..] == s;
    var n := MergeIntervals(a, f);
    r := a[..n];
  }

  lemma SomethingHeld(s: seq<Interval>)
    requires AllForward(s) && s != []
    ensures exists a :: Holds(s, a)
  {
    assert s[0].Has(s[0].start);
    assert Holds(s, s[0].start);
  }

  /** True exactly when the report names the expected addresses, however it is cut up. */
  method SetElementsComplete(reported: Reported, f: Family, expected: seq<Prefix>) returns (complete: bool)
    requires forall i :: 0 <= i < |expected| ==> WellFormed(expected[i]) && expected[i].fam == f
    ensures complete <==> Agrees(reported, f, expected)
  {
    if reported.NoElements? {
      return |expected| == 0;
    }
    if reported.NotAList? {
      return false;
    }
    var es := reported.elements;
    var desired := ExpectedIntervals(expected, f);
    var read := ReadElements(es, f);
    if |expected| == 0 || |es| == 0 {
      if read.Some? && read.value != [] {
        SomethingHeld(read.value);
      }
      if desired != [] {
        SomethingHeld(desired);
      }
      return |expected| == |es|;
    }
    if read.None? {
      return false;
    }
    var left := Merged(read.value, f);
    var right := Merged(desired, f);
    if forall a :: Reports(es, f, a) <==> Listed(expected, f, a) {
      NormalUnique(left, right);
    }
    complete := left == right;
  }

  // ---------- Reports that must be accepted ----------

  /** A way to report one block: as itself, as the range of its addresses, or as its only address. */
  ghost predicate Writes(e: Element, p: Prefix)
    requires p.Valid()
  {
    || e == Block(p)
    || e == Span(p.addr, p.End() - 1)
    || (p.bits == Width(p.fam) && e == Single(p.addr))
  }

  lemma WrittenIs(e: Element, p: Prefix)
    requires p.Valid() && Writes(e, p)
    ensures Readable(e, p.fam) && forall a :: ElementHas(e, p.fam, a) <==> p.Has(p.fam, a)
  {
    EndInFamily(p);
    MaskedSame(p);
    if e.Single? {
      assert Pow2(0) == 1;
    }
  }

  lemma MaskedSame(p: Prefix)
    requires p.Valid()
    ensures WellFormed(p) && Masked(p) == p
  {
    EndInFamily(p);
    Laminar(p, Masked(p));
    Laminar(Masked(p), p);
    CoversAntisymmetric(p, Masked(p));
  }

  /** However the kernel cuts and orders it, a report of the expected blocks is complete. */
  lemma WrittenAgrees(es: seq<Element>, f: Family, expected: seq<Prefix>)
    requires forall i :: 0 <= i < |expected| ==> expected[i].Valid() && expected[i].fam == f
    requires forall i :: 0 <= i < |es| ==> WrittenFor(es[i], expected)
    requires forall i :: 0 <= i < |expected| ==> WrittenIn(es, expected[i])
    ensures Agrees(Elements(es), f, expected)
  {
    forall i | 0 <= i < |es|
      ensures Readable(es[i], f)
    {
      assert WrittenFor(es[i], expected);
      var j :| 0 <= j < |expected| && expected[j].Valid() && Writes(es[i], expected[j]);
      WrittenIs(es[i], expected[j]);
    }
    forall a
      ensures Reports(es, f, a) <==> Listed(expected, f, a)
    {
      WrittenReports(es, f, expected, a);
    }
  }

  ghost predicate WrittenFor(e: Element, expected: seq<Prefix>) {
    exists j :: 0 <= j < |expected| && expected[j].Valid() && Writes(e, expected[j])
  }

  ghost predicate WrittenIn(es: seq<Element>, p: Prefix) {
    p.Valid() && exists i :: 0 <= i < |es| && Writes(es[i], p)
  }

  lemma WrittenReports(es: seq<Element>, f: Family, expected: seq<Prefix>, a: nat)
    requires forall i :: 0 <= i < |expected| ==> expected[i].Valid() && expected[i].fam == f
    requires forall i :: 0 <= i < |es| ==> WrittenFor(es[i], expected)
    requires forall i :: 0 <= i < |expected| ==> WrittenIn(es, expected[i])
    ensures Reports(es, f, a) <==> Listed(expected, f, a)
  {
    if i :| 0 <= i < |es| && Readable(es[i], f) && ElementHas(es[i], f, a) {
      WrittenIsListed(es[i], f, expected, a);
    }
    if j :| 0 <= j < |expected| && WellFormed(expected[j]) && Masked(expected[j]).Has(f, a) {
      ListedIsWritten(es, expected[j], a);
    }
  }

  lemma WrittenIsListed(e: Element, f: Family, expected: seq<Prefix>, a: nat)
    requires forall i :: 0 <= i < |expected| ==> expected[i].Valid() && expected[i].fam == f
    requires WrittenFor(e, expected) && Readable(e, f) && ElementHas(e, f, a)
    ensures Listed(expected, f, a)
  {
    var j :| 0 <= j < |expected| && expected[j].Valid() && Writes(e, expected[j]);
    WrittenIs(e, expected[j]);
    MaskedSame(expected[j]);
    assert Masked(expected[j]).Has(f, a);
  }

  lemma ListedIsWritten(es: seq<Element>, p: Prefix, a: nat)
    requires WrittenIn(es, p) && WellFormed(p) && Masked(p).Has(p.fam, a)
    ensures Reports(es, p.fam, a)
  {
    MaskedSame(p);
    var i :| 0 <= i < |es| && Writes(es[i], p);
    WrittenIs(es[i], p);
    assert ElementHas(es[i], p.fam, a);
  }
}
