/** Minimal CIDR cover of an address interval (internal/prefix/range.go).

    `Cover` is the greedy cover; `AppendRange` computes it.  `CoverMinimal` shows
    that no exact cover by CIDR blocks, however chosen, has fewer blocks.
 */
module Range {
  import opened Address
  import opened Basics

  datatype IP = IP(fam: Family, value: nat)

  // ---------- The greedy cover ----------

  /** A block of `h` host bits can start at `s` and stay below `e`. */
  predicate Fits(s: nat, e: nat, h: nat) {
    Aligned(s, h) && s + Pow2(h) <= e
  }

  /** The largest block size, at most `h` host bits, that fits at `s`. */
  function Largest(s: nat, e: nat, h: nat): (best: nat)
    requires s < e
    ensures best <= h && Fits(s, e, best)
    ensures forall k :: best < k <= h ==> !Fits(s, e, k)
  {
    if h == 0 || Fits(s, e, h) then h else Largest(s, e, h - 1)
  }

  /** The block chosen at `s`. */
  function GreedyBlock(f: Family, s: nat, e: nat): (b: Prefix)
    requires s < e
    ensures b.fam == f && b.bits <= Width(f) && b.End() == s + Pow2(Largest(s, e, Width(f))) <= e
    ensures e <= Pow2(Width(f)) ==> b.Valid()
  {
    Prefix(f, s, Width(f) - Largest(s, e, Width(f)))
  }

  function Cover(f: Family, s: nat, e: nat): seq<Prefix>
    decreases e - s
  {
    if s >= e then []
    else [GreedyBlock(f, s, e)] + Cover(f, GreedyBlock(f, s, e).End(), e)
  }

  lemma CoverStep(f: Family, s: nat, e: nat, done: seq<Prefix>)
    requires s < e
    ensures done + Cover(f, s, e) == (done + [GreedyBlock(f, s, e)]) + Cover(f, GreedyBlock(f, s, e).End(), e)
  {
  }

  lemma LargestIs(s: nat, e: nat, w: nat, h: nat)
    requires s < e && h <= w && Fits(s, e, h)
    requires forall k :: h < k <= w ==> !Fits(s, e, k)
    ensures h == Largest(s, e, w)
  {
  }

  /** `blocks` are aligned and follow one another from `s` to `e` without gap or overlap. */
  ghost predicate Tiles(blocks: seq<Prefix>, f: Family, s: nat, e: nat)
    decreases |blocks|
  {
    if blocks == [] then s == e
    else
      && blocks[0].Valid() && blocks[0].fam == f && blocks[0].addr == s
      && Tiles(blocks[1..], f, blocks[0].End(), e)
  }

  lemma {:induction false} CoverTiles(f: Family, s: nat, e: nat)
    requires s <= e <= Pow2(Width(f))
    ensures Tiles(Cover(f, s, e), f, s, e)
    decreases e - s
  {
    if s < e {
      CoverTiles(f, GreedyBlock(f, s, e).End(), e);
      assert Cover(f, s, e)[1..] == Cover(f, GreedyBlock(f, s, e).End(), e);
    }
  }

  lemma {:induction false} TilesBounds(blocks: seq<Prefix>, f: Family, s: nat, e: nat)
    requires Tiles(blocks, f, s, e)
    ensures s <= e
    ensures forall i :: 0 <= i < |blocks| ==>
                          blocks[i].Valid() && blocks[i].fam == f && s <= blocks[i].addr && blocks[i].End() <= e
    ensures forall i, j :: 0 <= i < j < |blocks| ==> blocks[i].Valid() && blocks[j].Valid() && blocks[i].End() <= blocks[j].addr
    decreases |blocks|
  {
    if blocks != [] {
      TilesBounds(blocks[1..], f, blocks[0].End(), e);
      assert forall i :: 1 <= i < |blocks| ==> blocks[i] == blocks[1..][i - 1];
    }
  }

  /** Exactness: tiles hold an address of the interval, and nothing else. */
  lemma {:induction false} TilesExact(blocks: seq<Prefix>, f: Family, s: nat, e: nat, a: nat)
    requires Tiles(blocks, f, s, e)
    ensures s <= a < e <==> Covered(blocks, f, a)
    decreases |blocks|
  {
    TilesBounds(blocks, f, s, e);
    if blocks != [] && blocks[0].End() <= a < e {
      TilesExact(blocks[1..], f, blocks[0].End(), e, a);
      var i :| 0 <= i < |blocks[1..]| && blocks[1..][i].Valid() && blocks[1..][i].Has(f, a);
      assert blocks[i + 1].Has(f, a);
    } else if blocks != [] && s <= a < e {
      assert blocks[0].Has(f, a);
    }
  }

  // ---------- Minimality ----------

  ghost predicate Inside(q: Prefix, f: Family, lo: nat, e: nat) {
    q.Valid() && q.fam == f && lo <= q.addr && q.End() <= e
  }

  /** No block inside `[lo, e)` crosses the point `s`. */
  ghost predicate NoneStraddles(f: Family, lo: nat, s: nat, e: nat) {
    forall q: Prefix :: Inside(q, f, lo, e) ==> s <= q.addr || q.End() <= s
  }

  lemma GreedyAtPoint(f: Family, s: nat, e: nat, q: Prefix)
    requires s < e <= Pow2(Width(f)) && Inside(q, f, s, e) && q.addr == s
    ensures Width(f) - q.bits <= Largest(s, e, Width(f))
  {
    var h := Width(f) - q.bits;
    assert Fits(s, e, h);
  }

  /** A block of `[lo, e)` that covers the greedy block at `s` is that block. */
  lemma GreedyBlockMaximal(f: Family, lo: nat, s: nat, e: nat, q: Prefix)
    requires lo <= s < e <= Pow2(Width(f)) && NoneStraddles(f, lo, s, e)
    requires GreedyBlock(f, s, e).Valid() && Inside(q, f, lo, e) && q.Covers(GreedyBlock(f, s, e))
    ensures q == GreedyBlock(f, s, e)
  {
    var b := GreedyBlock(f, s, e);
    assert q.addr == s;
    GreedyAtPoint(f, s, e, q);
    CoversShorter(q, b);
  }

  lemma GreedyKeepsClear(f: Family, lo: nat, s: nat, e: nat)
    requires lo <= s < e <= Pow2(Width(f)) && NoneStraddles(f, lo, s, e)
    ensures GreedyBlock(f, s, e).Valid() && NoneStraddles(f, lo, GreedyBlock(f, s, e).End(), e)
  {
    var b := GreedyBlock(f, s, e);
    forall q: Prefix | Inside(q, f, lo, e)
      ensures b.End() <= q.addr || q.End() <= b.End()
    {
      if q.addr < b.End() < q.End() {
        if q.bits <= b.bits {
          Laminar(q, b);
          GreedyBlockMaximal(f, lo, s, e, q);
        } else {
          Laminar(b, q);
        }
      }
    }
  }

  /** Every greedy block is maximal: no larger block of the interval contains it. */
  lemma {:induction false} GreedyMaximal(f: Family, lo: nat, s: nat, e: nat, i: nat, q: Prefix)
    requires lo <= s <= e <= Pow2(Width(f)) && NoneStraddles(f, lo, s, e)
    requires i < |Cover(f, s, e)| && Cover(f, s, e)[i].Valid()
    requires Inside(q, f, lo, e) && q.Covers(Cover(f, s, e)[i])
    ensures q == Cover(f, s, e)[i]
    decreases i
  {
    var b := GreedyBlock(f, s, e);
    if i == 0 {
      GreedyBlockMaximal(f, lo, s, e, q);
    } else {
      GreedyKeepsClear(f, lo, s, e);
      assert Cover(f, s, e)[i] == Cover(f, b.End(), e)[i - 1];
      GreedyMaximal(f, lo, b.End(), e, i - 1, q);
    }
  }

  /** `cover` is a family of blocks whose union is exactly the interval. */
  ghost predicate ExactCover(cover: seq<Prefix>, f: Family, s: nat, e: nat) {
    && (forall j :: 0 <= j < |cover| ==> Inside(cover[j], f, s, e))
    && (forall a :: s <= a < e ==> Covered(cover, f, a))
  }

  /** A block of any exact cover lies within the greedy block it touches. */
  lemma TouchesOne(f: Family, s: nat, e: nat, i: nat, d: Prefix)
    requires s <= e <= Pow2(Width(f)) && i < |Cover(f, s, e)|
    requires Inside(d, f, s, e)
    requires Cover(f, s, e)[i].Valid() && d.Has(f, Cover(f, s, e)[i].addr)
    ensures Cover(f, s, e)[i].Covers(d)
  {
    CoverTiles(f, s, e);
    TilesBounds(Cover(f, s, e), f, s, e);
    var g := Cover(f, s, e)[i];
    EndInFamily(g);
    if d.bits <= g.bits {
      Laminar(d, g);
      GreedyMaximal(f, s, s, e, i, d);
    } else {
      Laminar(g, d);
    }
  }

  lemma {:induction false} IndexSet(m: nat) returns (all: set<nat>)
    ensures |all| == m && forall x: nat :: x in all <==> x < m
  {
    if m == 0 {
      all := {};
    } else {
      var rest := IndexSet(m - 1);
      all := rest + {m - 1};
    }
  }

  lemma {:induction false} DistinctCount(idx: seq<nat>) returns (values: set<nat>)
    requires forall i, j :: 0 <= i < j < |idx| ==> idx[i] != idx[j]
    ensures |values| == |idx| && forall x :: x in values <==> x in idx
    decreases |idx|
  {
    if idx == [] {
      values := {};
    } else {
      var rest := DistinctCount(idx[1..]);
      values := rest + {idx[0]};
      assert idx == [idx[0]] + idx[1..];
    }
  }

  lemma {:induction false} SubsetCount<T>(a: set<T>, b: set<T>)
    requires a <= b
    ensures |a| <= |b|
    decreases |a|
  {
    if a != {} {
      var x :| x in a;
      SubsetCount(a - {x}, b - {x});
    }
  }

  lemma Pigeonhole(idx: seq<nat>, m: nat)
    requires forall i :: 0 <= i < |idx| ==> idx[i] < m
    requires forall i, j :: 0 <= i < j < |idx| ==> idx[i] != idx[j]
    ensures |idx| <= m
  {
    var values := DistinctCount(idx);
    var all := IndexSet(m);
    SubsetCount(values, all);
  }

  ghost predicate Within(greedy: seq<Prefix>, i: nat, cover: seq<Prefix>, j: nat) {
    && i < |greedy| && greedy[i].Valid()
    && j < |cover| && cover[j].Valid()
    && greedy[i].Covers(cover[j])
  }

  /** Some block of an exact cover lies within the `i`-th greedy block. */
  lemma CoverIndex(f: Family, s: nat, e: nat, cover: seq<Prefix>, i: nat) returns (j: nat)
    requires s <= e <= Pow2(Width(f)) && ExactCover(cover, f, s, e) && i < |Cover(f, s, e)|
    ensures Within(Cover(f, s, e), i, cover, j)
  {
    CoverTiles(f, s, e);
    TilesBounds(Cover(f, s, e), f, s, e);
    var g := Cover(f, s, e)[i];
    EndInFamily(g);
    assert Covered(cover, f, g.addr);
    j :| 0 <= j < |cover| && cover[j].Valid() && cover[j].Has(f, g.addr);
    TouchesOne(f, s, e, i, cover[j]);
  }

  lemma {:induction false} CoverIndices(f: Family, s: nat, e: nat, cover: seq<Prefix>, n: nat) returns (idx: seq<nat>)
    requires s <= e <= Pow2(Width(f)) && ExactCover(cover, f, s, e) && n <= |Cover(f, s, e)|
    ensures |idx| == n
    ensures forall i :: 0 <= i < n ==> Within(Cover(f, s, e), i, cover, idx[i])
  {
    if n == 0 {
      idx := [];
    } else {
      var rest := CoverIndices(f, s, e, cover, n - 1);
      var j := CoverIndex(f, s, e, cover, n - 1);
      idx := rest + [j];
    }
  }

  /** The greedy cover is minimal among all exact covers by CIDR blocks. */
  lemma CoverMinimal(f: Family, s: nat, e: nat, cover: seq<Prefix>)
    requires s <= e <= Pow2(Width(f)) && ExactCover(cover, f, s, e)
    ensures |Cover(f, s, e)| <= |cover|
  {
    var idx := CoverIndices(f, s, e, cover, |Cover(f, s, e)|);
    CoverTiles(f, s, e);
    TilesBounds(Cover(f, s, e), f, s, e);
    forall i, j | 0 <= i < j < |idx|
      ensures idx[i] != idx[j]
    {
      assert Within(Cover(f, s, e), i, cover, idx[i]) && Within(Cover(f, s, e), j, cover, idx[j]);
      EndInFamily(cover[idx[i]]);
    }
    Pigeonhole(idx, |cover|);
  }

  // ---------- AppendRange ----------

  /** Trailing zero bits of a `w`-bit word; all of them for zero. */
  function TrailingZeros(x: nat, w: nat): (h: nat)
    ensures h <= w
    ensures forall k: nat :: k <= w ==> (Aligned(x, k) <==> k <= h)
  {
    if w == 0 || x % 2 == 1 then 0 else 1 + TrailingZeros(x / 2, w - 1)
  }

  /** IPv4-mapped IPv6 addresses, ::ffff:0:0/96. */
  predicate Is4In6(a: IP) {
    a.fam.V6? && a.value / 0x1_0000_0000 == 0xffff
  }

  /** The largest fitting size is found by shrinking from the alignment of the start. */
  lemma ShrinkFinds(f: Family, s: nat, e: nat, h: nat)
    requires s < e && h <= TrailingZeros(s, Width(f))
    requires Fits(s, e, h)
    requires h < TrailingZeros(s, Width(f)) ==> e < s + Pow2(h + 1)
    ensures h == Largest(s, e, Width(f))
  {
    var best := Largest(s, e, Width(f));
    if h < best {
      if h < TrailingZeros(s, Width(f)) {
        Pow2Monotonic(h + 1, best);
      }
    }
  }

  /** Starts from the largest aligned block, shrinking only to fit the end. */
  method LargestBlock(f: Family, s: nat, end: nat) returns (h: nat)
    requires s <= end
    ensures h <= Width(f) && Prefix(f, s, Width(f) - h) == GreedyBlock(f, s, end + 1)
    ensures GreedyBlock(f, s, end + 1).End() == s + Pow2(h)
  {
    h := TrailingZeros(s, Width(f));
    while s + Pow2(h) - 1 > end
      invariant h <= TrailingZeros(s, Width(f))
      invariant h < TrailingZeros(s, Width(f)) ==> s + Pow2(h + 1) - 1 > end
    {
      h := h - 1;
    }
    ShrinkFinds(f, s, end + 1, h);
  }

  method CoverInterval(result: seq<Prefix>, f: Family, start: nat, end: nat) returns (out: seq<Prefix>)
    requires start <= end
    ensures out == result + Cover(f, start, end + 1)
  {
    out := result;
    var s := start;
    ghost var goal := result + Cover(f, start, end + 1);
    while true
      invariant s <= end && goal == out + Cover(f, s, end + 1)
      decreases end - s
    {
      CoverStep(f, s, end + 1, out);
      var h := LargestBlock(f, s, end);
      var block, last := Prefix(f, s, Width(f) - h), s + Pow2(h) - 1;
      out := out + [block];
      if last == end {
        return;
      }
      s := last + 1;
    }
  }

  /** Appends the minimal exact cover of the inclusive interval, or reports it invalid. */
  method AppendRange(result: seq<Prefix>, start: IP, end: IP) returns (r: Option<seq<Prefix>>)
    requires start.value < Pow2(Width(start.fam)) && end.value < Pow2(Width(end.fam))
    ensures r.Some? <==>
            && start.fam == end.fam && start.value <= end.value
            && (start.fam.V6? ==> !(0xffff_0000_0000 <= start.value < 0x1_0000_0000_0000))
            && (end.fam.V6? ==> !(0xffff_0000_0000 <= end.value < 0x1_0000_0000_0000))
    ensures r.Some? ==> r.value == result + Cover(start.fam, start.value, end.value + 1)
    ensures r.Some? ==> forall a: nat :: Covered(r.value[|result|..], start.fam, a) <==> start.value <= a <= end.value
  {
    if Is4In6(start) || Is4In6(end) || start.fam != end.fam || start.value > end.value {
      return None;
    }
    var out := CoverInterval(result, start.fam, start.value, end.value);
    r := Some(out);
    assert out[|result|..] == Cover(start.fam, start.value, end.value + 1);
    CoverTiles(start.fam, start.value, end.value + 1);
    forall a: nat
      ensures Covered(out[|result|..], start.fam, a) <==> start.value <= a <= end.value
    {
      TilesExact(Cover(start.fam, start.value, end.value + 1), start.fam, start.value, end.value + 1, a);
    }
  }
}
