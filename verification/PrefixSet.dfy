/** Canonical prefix sets: union, exact difference and membership
    (internal/prefix/set.go).
 */
module PrefixSet {
  import opened Address
  import opened Basics
  import opened Sorting

  // ---------- Order ----------

  /** Family, then network address, then length (internal/prefix/set.go:162-171). */
  predicate Leq(a: Prefix, b: Prefix) {
    if a.fam != b.fam then a.fam.V4?
    else if a.addr != b.addr then a.addr < b.addr
    else a.bits <= b.bits
  }

  lemma LeqTotal()
    ensures TotalPreorder(Leq)
  {
  }

  /** `p` ends before `q` starts, IPv4 counting as lower than IPv6. */
  ghost predicate Before(p: Prefix, q: Prefix)
    requires p.Valid() && q.Valid()
  {
    (p.fam.V4? && q.fam.V6?) || (p.fam == q.fam && p.End() <= q.addr)
  }

  /** Sorted and pairwise disjoint. */
  ghost predicate Canonical(s: seq<Prefix>) {
    && (forall i :: 0 <= i < |s| ==> s[i].Valid())
    && (forall i, j :: 0 <= i < j < |s| ==> Before(s[i], s[j]))
  }

  ghost predicate AllOf(ex: seq<Prefix>, f: Family) {
    forall i :: 0 <= i < |ex| ==> ex[i].fam == f
  }

  lemma BeforeThenLeq(p: Prefix, q: Prefix, r: Prefix)
    requires p.Valid() && q.Valid() && r.Valid() && Before(p, q) && Leq(q, r)
    ensures Before(p, r)
  {
  }

  /** In sorted order, a prefix whose network address lies in an earlier one lies in it entirely. */
  lemma SortedNests(p: Prefix, q: Prefix)
    requires p.Valid() && q.Valid() && Leq(p, q) && p.Has(q.fam, q.addr)
    ensures p.Covers(q)
  {
    EndInFamily(p);
    EndInFamily(q);
    if q.bits < p.bits {
      Laminar(q, p);
    } else {
      Laminar(p, q);
    }
  }

  lemma CoveredSnoc(s: seq<Prefix>, p: Prefix, f: Family, a: nat)
    requires p.Valid()
    ensures Covered(s + [p], f, a) <==> Covered(s, f, a) || p.Has(f, a)
  {
    if Covered(s, f, a) {
      var i :| 0 <= i < |s| && s[i].Valid() && s[i].Has(f, a);
      assert (s + [p])[i] == s[i];
    }
    if p.Has(f, a) {
      assert (s + [p])[|s|] == p;
    }
  }

  lemma CoveredAppend(s: seq<Prefix>, t: seq<Prefix>, f: Family, a: nat)
    ensures Covered(s + t, f, a) <==> Covered(s, f, a) || Covered(t, f, a)
  {
    if Covered(s, f, a) {
      var i :| 0 <= i < |s| && s[i].Valid() && s[i].Has(f, a);
      assert (s + t)[i] == s[i];
    }
    if Covered(t, f, a) {
      var i :| 0 <= i < |t| && t[i].Valid() && t[i].Has(f, a);
      assert (s + t)[|s| + i] == t[i];
    }
  }

  lemma CoveredSameElements(s: seq<Prefix>, t: seq<Prefix>, f: Family, a: nat)
    requires forall p :: p in s ==> p in t
    ensures Covered(s, f, a) ==> Covered(t, f, a)
  {
    if Covered(s, f, a) {
      var i :| 0 <= i < |s| && s[i].Valid() && s[i].Has(f, a);
      assert s[i] in t;
    }
  }

  // ---------- Canonicalization ----------

  /** The same addresses are covered. */
  ghost predicate SameAddresses(s: seq<Prefix>, t: seq<Prefix>) {
    forall f, a :: Covered(s, f, a) <==> Covered(t, f, a)
  }

  lemma DropCovered(done: seq<Prefix>, out: seq<Prefix>, p: Prefix)
    requires out != [] && out[|out| - 1].Valid() && p.Valid()
    requires SameAddresses(out, done) && out[|out| - 1].Covers(p)
    ensures SameAddresses(out, done + [p])
  {
    forall f, a
      ensures Covered(out, f, a) <==> Covered(done + [p], f, a)
    {
      CoveredSnoc(done, p, f, a);
      assert p.Has(f, a) ==> out[|out| - 1].Has(f, a);
    }
  }

  lemma KeepNext(done: seq<Prefix>, out: seq<Prefix>, p: Prefix)
    requires p.Valid() && SameAddresses(out, done)
    ensures SameAddresses(out + [p], done + [p])
  {
    forall f, a
      ensures Covered(out + [p], f, a) <==> Covered(done + [p], f, a)
    {
      CoveredSnoc(done, p, f, a);
      CoveredSnoc(out, p, f, a);
    }
  }

  lemma CanonicalSnoc(out: seq<Prefix>, p: Prefix)
    requires Canonical(out) && p.Valid()
    requires out != [] ==> Leq(out[|out| - 1], p) && !out[|out| - 1].Has(p.fam, p.addr)
    ensures Canonical(out + [p])
  {
    if out != [] {
      var last := out[|out| - 1];
      assert Before(last, p);
      forall i | 0 <= i < |out| - 1
        ensures Before(out[i], p)
      {
        BeforeThenLeq(out[i], last, p);
      }
    }
  }

  /** Sorts and removes duplicates and contained prefixes. */
  method Canonicalize(values: seq<Prefix>) returns (out: seq<Prefix>)
    requires forall i :: 0 <= i < |values| ==> values[i].Valid()
    ensures Canonical(out) && SameAddresses(out, values)
    ensures forall p :: p in out ==> p in values
  {
    LeqTotal();
    var sorted := Sort(Leq, values);
    SameElements(sorted, values);
    out := [];
    for i := 0 to |sorted|
      invariant Canonical(out) && SameAddresses(out, sorted[..i])
      invariant forall p :: p in out ==> p in sorted[..i]
      invariant forall p, k :: p in out && i <= k < |sorted| ==> Leq(p, sorted[k])
    {
      var candidate := sorted[i];
      assert candidate in values;
      assert sorted[..i + 1] == sorted[..i] + [candidate];
      assert out != [] ==> out[|out| - 1] in out;
      if out != [] && out[|out| - 1].Has(candidate.fam, candidate.addr) {
        SortedNests(out[|out| - 1], candidate);
        DropCovered(sorted[..i], out, candidate);
      } else {
        CanonicalSnoc(out, candidate);
        KeepNext(sorted[..i], out, candidate);
        out := out + [candidate];
      }
    }
    assert sorted[..|sorted|] == sorted;
    forall f, a
      ensures Covered(sorted, f, a) <==> Covered(values, f, a)
    {
      CoveredSameElements(sorted, values, f, a);
      CoveredSameElements(values, sorted, f, a);
    }
  }

  // ---------- Sets ----------

  /** An immutable canonical collection; IPv6 prefixes start at `v6Start`. */
  datatype Set = Set(prefixes: seq<Prefix>, v6Start: nat) {

    ghost predicate Valid() {
      && Canonical(prefixes) && v6Start <= |prefixes|
      && (forall i :: 0 <= i < v6Start ==> prefixes[i].fam.V4?)
      && (forall i :: v6Start <= i < |prefixes| ==> prefixes[i].fam.V6?)
    }

    ghost predicate Has(f: Family, a: nat) {
      Covered(prefixes, f, a)
    }

    /** The part of the collection that belongs to one family. */
    function OfFamily(f: Family): seq<Prefix>
      requires v6Start <= |prefixes|
    {
      if f.V4? then prefixes[..v6Start] else prefixes[v6Start..]
    }
  }

  const EmptySet := Set([], 0)

  function FamilyRanks(ps: seq<Prefix>): (r: seq<int>)
    ensures |r| == |ps| && forall i :: 0 <= i < |ps| ==> r[i] == if ps[i].fam.V4? then 0 else 1
  {
    seq(|ps|, i requires 0 <= i < |ps| => if ps[i].fam.V4? then 0 else 1)
  }

  function Addrs(ps: seq<Prefix>): (r: seq<int>)
    ensures |r| == |ps| && forall i :: 0 <= i < |ps| ==> r[i] == ps[i].addr
  {
    seq(|ps|, i requires 0 <= i < |ps| => ps[i].addr)
  }

  /** The last address of each prefix. */
  function Lasts(ps: seq<Prefix>): (r: seq<int>)
    requires forall i :: 0 <= i < |ps| ==> ps[i].bits <= Width(ps[i].fam)
    ensures |r| == |ps| && forall i :: 0 <= i < |ps| ==> r[i] == ps[i].End() - 1
  {
    seq(|ps|, i requires 0 <= i < |ps| => ps[i].End() - 1)
  }

  /** In a canonical list of one family, starts and ends are both in order. */
  lemma CanonicalOrder(ps: seq<Prefix>, f: Family)
    requires Canonical(ps) && AllOf(ps, f)
    ensures NonDecreasing(Addrs(ps)) && NonDecreasing(Lasts(ps))
  {
    forall i, j | 0 <= i < j < |ps|
      ensures ps[i].addr <= ps[j].addr && ps[i].End() <= ps[j].End()
    {
      assert Before(ps[i], ps[j]);
    }
  }

  function FromCanonical(values: seq<Prefix>): (r: Set)
    requires Canonical(values)
    ensures r.Valid() && r.prefixes == values
  {
    assert forall i, j :: 0 <= i < j < |values| ==> Before(values[i], values[j]);
    Set(values, FirstAbove(FamilyRanks(values), 0))
  }

  lemma FamilyPart(s: Set, f: Family, a: nat)
    requires s.Valid()
    ensures Canonical(s.OfFamily(f))
    ensures AllOf(s.OfFamily(f), f)
    ensures Covered(s.OfFamily(f), f, a) <==> s.Has(f, a)
  {
    var part := s.OfFamily(f);
    CoveredSameElements(part, s.prefixes, f, a);
    if s.Has(f, a) {
      var i :| 0 <= i < |s.prefixes| && s.prefixes[i].Valid() && s.prefixes[i].Has(f, a);
      if f.V4? {
        assert part[i] == s.prefixes[i];
      } else {
        assert part[i - s.v6Start] == s.prefixes[i];
      }
    }
  }

  /** Binary search for the only prefix that can hold the address agrees with a scan of them all. */
  function Contains(s: Set, f: Family, a: nat): (r: bool)
    requires s.Valid()
    ensures r <==> s.Has(f, a)
  {
    FamilyPart(s, f, a);
    ContainsSorted(s.OfFamily(f), f, a)
  }

  function ContainsSorted(part: seq<Prefix>, f: Family, a: nat): (r: bool)
    requires Canonical(part) && AllOf(part, f)
    ensures r <==> Covered(part, f, a)
  {
    CanonicalOrder(part, f);
    var position := FirstAbove(Addrs(part), a);
    if position == 0 then false
    else
      assert forall i :: 0 <= i < position - 1 ==> Before(part[i], part[position - 1]);
      part[position - 1].Has(f, a)
  }

  // ---------- Construction from configured prefixes ----------

  /** A written prefix, whose host bits need not be clear. */
  predicate WellFormed(p: Prefix) {
    p.bits <= Width(p.fam) && p.addr < Pow2(Width(p.fam))
  }

  function Masked(p: Prefix): (r: Prefix)
    requires WellFormed(p)
    ensures r.Valid() && r.fam == p.fam && r.bits == p.bits && r.Has(p.fam, p.addr)
  {
    Prefix(p.fam, ClearLow(p.addr, Width(p.fam) - p.bits), p.bits)
  }

  /** Some written prefix denotes a block that holds the address. */
  ghost predicate Listed(values: seq<Prefix>, f: Family, a: nat) {
    exists i :: 0 <= i < |values| && WellFormed(values[i]) && Masked(values[i]).Has(f, a)
  }

  /** Fails on a malformed prefix; otherwise the canonical set of the listed addresses. */
  method New(values: seq<Prefix>) returns (r: Option<Set>)
    ensures r.Some? <==> forall i :: 0 <= i < |values| ==> WellFormed(values[i])
    ensures r.Some? <==>
            forall i :: 0 <= i < |values| ==> values[i].bits <= Width(values[i].fam) && values[i].addr < Pow2(Width(values[i].fam))
    ensures r.Some? ==> r.value.Valid() && forall f, a :: r.value.Has(f, a) <==> Listed(values, f, a)
  {
    var masked: seq<Prefix> := [];
    for i := 0 to |values|
      invariant |masked| == i
      invariant forall k :: 0 <= k < i ==> WellFormed(values[k]) && masked[k] == Masked(values[k])
    {
      if !WellFormed(values[i]) {
        return None;
      }
      masked := masked + [Masked(values[i])];
    }
    var canonical := Canonicalize(masked);
    forall f, a
      ensures Covered(masked, f, a) <==> Listed(values, f, a)
    {
      if Covered(masked, f, a) {
        var i :| 0 <= i < |masked| && masked[i].Valid() && masked[i].Has(f, a);
        assert Masked(values[i]).Has(f, a);
      }
      if Listed(values, f, a) {
        var i :| 0 <= i < |values| && WellFormed(values[i]) && Masked(values[i]).Has(f, a);
        assert masked[i].Has(f, a);
      }
    }
    r := Some(FromCanonical(canonical));
  }

  /** The canonical union of all the sets. */
  method Union(sets: seq<Set>) returns (r: Set)
    requires forall i :: 0 <= i < |sets| ==> sets[i].Valid()
    ensures r.Valid()
    ensures forall f, a :: r.Has(f, a) <==> exists i :: 0 <= i < |sets| && sets[i].Has(f, a)
  {
    var merged: seq<Prefix> := [];
    for i := 0 to |sets|
      invariant forall k :: 0 <= k < |merged| ==> merged[k].Valid()
      invariant forall f, a :: Covered(merged, f, a) <==> exists k :: 0 <= k < i && sets[k].Has(f, a)
    {
      forall f, a
        ensures Covered(merged + sets[i].prefixes, f, a) <==> exists k :: 0 <= k < i + 1 && sets[k].Has(f, a)
      {
        CoveredAppend(merged, sets[i].prefixes, f, a);
      }
      merged := merged + sets[i].prefixes;
    }
    var canonical := Canonicalize(merged);
    r := FromCanonical(canonical);
  }

  // ---------- Difference ----------

  /** The exclusions that touch `node` form the slice `[first, last)`. */
  ghost predicate Touching(node: Prefix, ex: seq<Prefix>, first: nat, last: nat)
    requires node.Valid() && Canonical(ex)
  {
    && first <= last <= |ex|
    && (forall i :: 0 <= i < first ==> ex[i].End() <= node.addr)
    && (forall i :: first <= i < last ==> node.addr < ex[i].End() && ex[i].addr < node.End())
    && (forall i :: last <= i < |ex| ==> node.End() <= ex[i].addr)
  }

  lemma WindowFound(node: Prefix, ex: seq<Prefix>, first: nat, last: nat)
    requires node.Valid() && Canonical(ex) && first <= |ex| && last <= |ex|
    requires forall i :: 0 <= i < first ==> Lasts(ex)[i] < node.addr
    requires forall i :: first <= i < |ex| ==> node.addr <= Lasts(ex)[i]
    requires forall i :: 0 <= i < last ==> Addrs(ex)[i] < node.End()
    requires forall i :: last <= i < |ex| ==> node.End() <= Addrs(ex)[i]
    ensures Touching(node, ex, first, last)
  {
    assert forall i {:trigger ex[i]} :: 0 <= i < |ex| ==> Lasts(ex)[i] == ex[i].End() - 1 && Addrs(ex)[i] == ex[i].addr;
    var span := if last < |ex| then ex[last].End() - ex[last].addr else 0;
  }

  function OverlapRange(node: Prefix, ex: seq<Prefix>): (r: (nat, nat))
    requires node.Valid() && Canonical(ex) && AllOf(ex, node.fam)
    ensures Touching(node, ex, r.0, r.1)
  {
    CanonicalOrder(ex, node.fam);
    var first := FirstAbove(Lasts(ex), node.addr - 1);
    var last := FirstAbove(Addrs(ex), node.End() - 1);
    WindowFound(node, ex, first, last);
    (first, last)
  }

  lemma TouchNests(node: Prefix, e: Prefix)
    requires node.Valid() && e.Valid() && e.fam == node.fam
    requires node.addr < e.End() && e.addr < node.End()
    ensures e.bits <= node.bits ==> e.Covers(node)
    ensures node.bits <= e.bits ==> node.Covers(e)
  {
    EndInFamily(node);
    EndInFamily(e);
    if e.bits <= node.bits {
      Laminar(e, node);
    }
    if node.bits <= e.bits {
      Laminar(node, e);
    }
  }

  /** `node` minus the exclusions, as an ordered list of blocks.  A host node that
      touches an exclusion is covered by it, so splitting never runs out of bits. */
  function SubtractNode(node: Prefix, ex: seq<Prefix>): (r: seq<Prefix>)
    requires node.Valid() && Canonical(ex) && AllOf(ex, node.fam)
    decreases Width(node.fam) - node.bits
  {
    var (first, last) := OverlapRange(node, ex);
    if first == last then [node]
    else if ex[first].bits <= node.bits && ex[first].Has(node.fam, node.addr) then []
    else
      TouchNests(node, ex[first]);
      EndInFamily(node);
      if node.bits >= Width(node.fam) then
        assert false; []
      else
        Halves(node);
        SubtractNode(Left(node), ex[first..last]) + SubtractNode(Right(node), ex[first..last])
  }

  lemma TouchingCovers(node: Prefix, ex: seq<Prefix>, first: nat, last: nat, a: nat)
    requires node.Valid() && Canonical(ex) && Touching(node, ex, first, last) && node.Has(node.fam, a)
    ensures Covered(ex[first..last], node.fam, a) <==> Covered(ex, node.fam, a)
  {
    CoveredSameElements(ex[first..last], ex, node.fam, a);
    if Covered(ex, node.fam, a) {
      var i :| 0 <= i < |ex| && ex[i].Valid() && ex[i].Has(node.fam, a);
      assert first <= i < last;
      assert ex[first..last][i - first] == ex[i];
    }
  }

  ghost predicate SubtractSpec(node: Prefix, ex: seq<Prefix>, r: seq<Prefix>)
    requires node.Valid()
  {
    && Canonical(r)
    && (forall i :: 0 <= i < |r| ==> node.Covers(r[i]))
    && (forall a :: Covered(r, node.fam, a) <==> node.Has(node.fam, a) && !Covered(ex, node.fam, a))
  }

  lemma SplitSpec(node: Prefix, ex: seq<Prefix>, first: nat, last: nat, l: seq<Prefix>, r: seq<Prefix>)
    requires node.Valid() && node.bits < Width(node.fam) && Canonical(ex) && Touching(node, ex, first, last)
    requires Left(node).Valid() && Right(node).Valid()
    requires Left(node).addr == node.addr && Left(node).End() == Right(node).addr && Right(node).End() == node.End()
    requires SubtractSpec(Left(node), ex[first..last], l) && SubtractSpec(Right(node), ex[first..last], r)
    ensures SubtractSpec(node, ex, l + r)
  {
    var f := node.fam;
    forall a
      ensures Covered(l + r, f, a) <==> node.Has(f, a) && !Covered(ex, f, a)
    {
      CoveredAppend(l, r, f, a);
      if node.Has(f, a) {
        TouchingCovers(node, ex, first, last, a);
      }
    }
  }

  lemma NothingToSubtract(node: Prefix)
    requires node.Valid()
    ensures SubtractSpec(node, [], [node])
  {
    assert [node][0] == node;
  }

  lemma UntouchedSpec(node: Prefix, ex: seq<Prefix>, at: nat)
    requires node.Valid() && Canonical(ex) && Touching(node, ex, at, at)
    ensures SubtractSpec(node, ex, [node])
  {
    NothingToSubtract(node);
    forall a | node.Has(node.fam, a)
      ensures !Covered(ex, node.fam, a)
    {
      TouchingCovers(node, ex, at, at, a);
    }
  }

  lemma SwallowedSpec(node: Prefix, ex: seq<Prefix>, i: nat)
    requires node.Valid() && i < |ex| && ex[i].Valid() && ex[i].Covers(node)
    ensures SubtractSpec(node, ex, [])
  {
    assert forall a :: node.Has(node.fam, a) ==> ex[i].Has(node.fam, a);
  }

  /** Subtraction is exact on every address, and its result is canonical again. */
  lemma {:induction false} SubtractCorrect(node: Prefix, ex: seq<Prefix>)
    requires node.Valid() && Canonical(ex) && AllOf(ex, node.fam)
    ensures SubtractSpec(node, ex, SubtractNode(node, ex))
    decreases Width(node.fam) - node.bits
  {
    var (first, last) := OverlapRange(node, ex);
    if first == last {
      UntouchedSpec(node, ex, first);
    } else {
      TouchNests(node, ex[first]);
      EndInFamily(node);
      if ex[first].bits <= node.bits && ex[first].Has(node.fam, node.addr) {
        SwallowedSpec(node, ex, first);
      } else {
        Halves(node);
        var part := ex[first..last];
        assert Canonical(part) && AllOf(part, node.fam);
        SubtractCorrect(Left(node), part);
        SubtractCorrect(Right(node), part);
        SplitSpec(node, ex, first, last, SubtractNode(Left(node), ex[first..last]), SubtractNode(Right(node), ex[first..last]));
      }
    }
  }

  /** What one pass over a family has produced: exactly the included, unexcluded addresses. */
  ghost predicate DifferenceSpec(inc: seq<Prefix>, ex: seq<Prefix>, f: Family, out: seq<Prefix>) {
    && Canonical(out) && AllOf(out, f)
    && (forall a :: Covered(out, f, a) <==> Covered(inc, f, a) && !Covered(ex, f, a))
  }

  lemma ExtendDifference(inc: seq<Prefix>, i: nat, ex: seq<Prefix>, from: nat, to: nat, f: Family, out: seq<Prefix>,
                         part: seq<Prefix>)
    requires i < |inc| && Canonical(inc) && AllOf(inc, f) && Canonical(ex)
    requires DifferenceSpec(inc[..i], ex, f, out)
    requires forall p :: p in out ==> p.Valid() && Before(p, inc[i])
    requires Touching(inc[i], ex, from, to) && SubtractSpec(inc[i], ex[from..to], part)
    ensures DifferenceSpec(inc[..i + 1], ex, f, out + part)
  {
    assert inc[..i + 1] == inc[..i] + [inc[i]];
    forall a
      ensures Covered(out + part, f, a) <==> Covered(inc[..i + 1], f, a) && !Covered(ex, f, a)
    {
      CoveredSnoc(inc[..i], inc[i], f, a);
      CoveredAppend(out, part, f, a);
      if inc[i].Has(f, a) {
        TouchingCovers(inc[i], ex, from, to, a);
      }
    }
    forall k, m | 0 <= k < |out| && 0 <= m < |part|
      ensures Before(out[k], part[m])
    {
      assert out[k] in out;
      assert inc[i].Covers(part[m]);
    }
  }

  lemma StaysBefore(inc: seq<Prefix>, i: nat, out: seq<Prefix>, part: seq<Prefix>)
    requires i + 1 < |inc| && Canonical(inc)
    requires forall p :: p in out ==> p.Valid() && Before(p, inc[i])
    requires forall m :: 0 <= m < |part| ==> part[m].Valid() && inc[i].Covers(part[m])
    ensures forall p :: p in out + part ==> p.Valid() && Before(p, inc[i + 1])
  {
    EndInFamily(inc[i]);
    assert Before(inc[i], inc[i + 1]);
    forall p | p in out + part
      ensures p.Valid() && Before(p, inc[i + 1])
    {
      if p !in out {
        var m :| 0 <= m < |part| && part[m] == p;
      }
    }
  }

  lemma WindowReached(node: Prefix, ex: seq<Prefix>, from: nat, to: nat)
    requires node.Valid() && Canonical(ex) && from <= to <= |ex|
    requires NonDecreasing(Addrs(ex)) && NonDecreasing(Lasts(ex))
    requires forall k :: 0 <= k < from ==> Lasts(ex)[k] < node.addr
    requires from < |ex| ==> node.addr <= Lasts(ex)[from]
    requires forall k :: from <= k < to ==> Addrs(ex)[k] < node.End()
    requires to < |ex| ==> node.End() <= Addrs(ex)[to]
    ensures Touching(node, ex, from, to)
  {
    EndInFamily(node);
    forall k | 0 <= k < from
      ensures Addrs(ex)[k] < node.End()
    {
      assert ex[k].addr < ex[k].End();
    }
    WindowFound(node, ex, from, to);
  }

  /** Moves the exclusion window forward to the exclusions that touch `node`. */
  method TouchingWindow(node: Prefix, ex: seq<Prefix>, start: nat) returns (from: nat, to: nat)
    requires node.Valid() && Canonical(ex) && AllOf(ex, node.fam) && start <= |ex|
    requires forall k :: 0 <= k < start ==> ex[k].End() <= node.addr
    ensures Touching(node, ex, from, to)
  {
    CanonicalOrder(ex, node.fam);
    ghost var lasts, addrs := Lasts(ex), Addrs(ex);
    from := start;
    while from < |ex| && ex[from].End() <= node.addr
      invariant from <= |ex|
      invariant forall k :: 0 <= k < from ==> lasts[k] < node.addr
    {
      from := from + 1;
    }
    to := from;
    while to < |ex| && ex[to].addr < node.End()
      invariant from <= to <= |ex|
      invariant forall k :: from <= k < to ==> addrs[k] < node.End()
    {
      to := to + 1;
    }
    WindowReached(node, ex, from, to);
  }

  lemma WindowMoves(inc: seq<Prefix>, i: nat, ex: seq<Prefix>, from: nat, to: nat)
    requires i + 1 < |inc| && Canonical(inc) && Canonical(ex) && AllOf(inc, inc[i].fam)
    requires Touching(inc[i], ex, from, to)
    ensures forall k :: 0 <= k < from ==> ex[k].End() <= inc[i + 1].addr
  {
    assert Before(inc[i], inc[i + 1]);
    EndInFamily(inc[i]);
  }

  /** One family of the difference, walking both ordered lists once. */
  method ProcessFamily(inc: seq<Prefix>, ex: seq<Prefix>, f: Family) returns (out: seq<Prefix>)
    requires Canonical(inc) && AllOf(inc, f) && Canonical(ex) && AllOf(ex, f)
    ensures DifferenceSpec(inc, ex, f, out)
  {
    out := [];
    var from := 0;
    for i := 0 to |inc|
      invariant from <= |ex|
      invariant i < |inc| ==> forall k :: 0 <= k < from ==> ex[k].End() <= inc[i].addr
      invariant DifferenceSpec(inc[..i], ex, f, out)
      invariant i < |inc| ==> forall p :: p in out ==> p.Valid() && Before(p, inc[i])
    {
      var to;
      from, to := TouchingWindow(inc[i], ex, from);
      var part;
      if from == to {
        part := [inc[i]];
        NothingToSubtract(inc[i]);
        assert ex[from..to] == [];
      } else {
        part := SubtractNode(inc[i], ex[from..to]);
        SubtractCorrect(inc[i], ex[from..to]);
      }
      ExtendDifference(inc, i, ex, from, to, f, out, part);
      if i + 1 < |inc| {
        StaysBefore(inc, i, out, part);
        WindowMoves(inc, i, ex, from, to);
      }
      out := out + part;
    }
    assert inc[..|inc|] == inc;
  }

  /** `included` minus `excluded`, exact on every address of both families. */
  method Difference(included: Set, excluded: Set) returns (r: Set)
    requires included.Valid() && excluded.Valid()
    ensures r.Valid()
    ensures forall f, a :: r.Has(f, a) <==> included.Has(f, a) && !excluded.Has(f, a)
  {
    if |included.prefixes| == 0 {
      return EmptySet;
    }
    if |excluded.prefixes| == 0 {
      return FromCanonical(included.prefixes);
    }
    forall f, a
      ensures Canonical(included.OfFamily(f)) && AllOf(included.OfFamily(f), f)
      ensures Canonical(excluded.OfFamily(f)) && AllOf(excluded.OfFamily(f), f)
      ensures Covered(included.OfFamily(f), f, a) <==> included.Has(f, a)
      ensures Covered(excluded.OfFamily(f), f, a) <==> excluded.Has(f, a)
    {
      FamilyPart(included, f, a);
      FamilyPart(excluded, f, a);
    }
    var v4 := ProcessFamily(included.OfFamily(V4), excluded.OfFamily(V4), V4);
    var v6 := ProcessFamily(included.OfFamily(V6), excluded.OfFamily(V6), V6);
    forall f, a
      ensures Covered(v4 + v6, f, a) <==> included.Has(f, a) && !excluded.Has(f, a)
    {
      CoveredAppend(v4, v6, f, a);
      assert f.V4? ==> !Covered(v6, f, a);
      assert f.V6? ==> !Covered(v4, f, a);
    }
    r := FromCanonical(v4 + v6);
  }
}
