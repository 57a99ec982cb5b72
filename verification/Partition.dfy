/** Splitting a queried prefix into cells on which every known prefix is constant, and
    joining cells again (internal/lookup/evaluate.go:187-276, 493-512).
 */
module Partition {
  import opened Address
  import opened Basics
  import opened Sorting
  import opened PrefixSet

  const MAX_RECORDS := 4096
  const WORK_LIMIT := MAX_RECORDS * 8

  // ---------- Cells ----------

  /** A block holds all of the cell or none of it. */
  ghost predicate Constant(b: Prefix, cell: Prefix)
    requires b.Valid() && cell.Valid()
  {
    b.Covers(cell) || b.Disjoint(cell)
  }

  ghost predicate ConstantOn(bs: seq<Prefix>, cell: Prefix) {
    cell.Valid() && forall i :: 0 <= i < |bs| && bs[i].Valid() ==> Constant(bs[i], cell)
  }

  ghost predicate Apart(cells: seq<Prefix>) {
    && (forall i :: 0 <= i < |cells| ==> cells[i].Valid())
    && (forall i, j :: 0 <= i < j < |cells| ==> cells[i].Disjoint(cells[j]))
  }

  /** The cells split the query: disjoint, inside it, and covering it. */
  ghost predicate Splits(cells: seq<Prefix>, query: Prefix)
    requires query.Valid()
  {
    && Apart(cells)
    && (forall i :: 0 <= i < |cells| ==> query.Covers(cells[i]))
    && (forall a :: query.Has(query.fam, a) ==> Covered(cells, query.fam, a))
  }

  /** Inside a cell, a constant block answers for every address as for the first one. */
  lemma ConstantAnswers(bs: seq<Prefix>, cell: Prefix, a: nat)
    requires ConstantOn(bs, cell) && cell.Has(cell.fam, a)
    ensures Covered(bs, cell.fam, a) <==> Covered(bs, cell.fam, cell.addr)
  {
    EndInFamily(cell);
    if Covered(bs, cell.fam, a) {
      var i :| 0 <= i < |bs| && bs[i].Valid() && bs[i].Has(cell.fam, a);
      assert Constant(bs[i], cell);
      assert bs[i].Has(cell.fam, cell.addr);
    }
    if Covered(bs, cell.fam, cell.addr) {
      var i :| 0 <= i < |bs| && bs[i].Valid() && bs[i].Has(cell.fam, cell.addr);
      assert Constant(bs[i], cell);
      assert bs[i].Has(cell.fam, a);
    }
  }

  /** A block that is not longer than the cell, or does not start in it, is constant on it. */
  lemma ConstantUnless(b: Prefix, cell: Prefix)
    requires b.Valid() && cell.Valid() && (b.bits <= cell.bits || !cell.Has(b.fam, b.addr))
    ensures Constant(b, cell)
  {
    EndInFamily(b);
    EndInFamily(cell);
    if b.bits <= cell.bits {
      Laminar(b, cell);
    } else {
      Laminar(cell, b);
    }
  }

  /** Constant on the query means constant on everything inside it. */
  lemma ConstantInside(b: Prefix, query: Prefix, cell: Prefix)
    requires b.Valid() && query.Valid() && cell.Valid() && Constant(b, query) && query.Covers(cell)
    ensures Constant(b, cell)
  {
  }

  /** Replacing a cell by its halves keeps the split. */
  lemma HalvingSplits(cells: seq<Prefix>, query: Prefix, index: nat)
    requires query.Valid() && Splits(cells, query) && index < |cells| && cells[index].bits < Width(cells[index].fam)
    ensures Splits(cells[index := Left(cells[index])] + [Right(cells[index])], query)
  {
    var node := cells[index];
    var next := cells[index := Left(node)] + [Right(node)];
    Halves(node);
    EndInFamily(Left(node));
    EndInFamily(Right(node));
    assert next[|cells|] == Right(node);
    assert forall i :: 0 <= i < |cells| ==> next[i] == if i == index then Left(node) else cells[i];
    forall i, j | 0 <= i < j < |next|
      ensures next[i].Disjoint(next[j])
    {
      if j < |cells| {
        assert cells[i].Disjoint(cells[j]);
      } else if i != index {
        assert i < index ==> cells[i].Disjoint(node);
        assert index < i ==> node.Disjoint(cells[i]);
      }
    }
    forall a: nat | query.Has(query.fam, a)
      ensures Covered(next, query.fam, a)
    {
      var i :| 0 <= i < |cells| && cells[i].Valid() && cells[i].Has(query.fam, a);
      if i != index {
        assert next[i].Has(query.fam, a);
      } else if a < Right(node).addr {
        assert next[index].Has(query.fam, a);
      } else {
        assert next[|cells|].Has(query.fam, a);
      }
    }
  }

  // ---------- Boundaries ----------

  ghost predicate SortedBlocks(bs: seq<Prefix>, f: Family) {
    (forall i :: 0 <= i < |bs| ==> bs[i].Valid() && bs[i].fam == f) && SortedBy(Leq, bs)
  }

  lemma SortedAddrs(bs: seq<Prefix>, f: Family)
    requires SortedBlocks(bs, f)
    ensures NonDecreasing(Addrs(bs))
  {
    forall i, j | 0 <= i < j < |bs|
      ensures bs[i].addr <= bs[j].addr
    {
      assert Leq(bs[i], bs[j]);
    }
  }

  /** Some longer boundary starts inside the node. */
  ghost predicate Cut(node: Prefix, bs: seq<Prefix>)
    requires node.Valid()
  {
    exists i :: 0 <= i < |bs| && node.Has(bs[i].fam, bs[i].addr) && bs[i].bits > node.bits
  }

  method NeedsSplit(node: Prefix, bs: seq<Prefix>) returns (split: bool)
    requires node.Valid() && SortedBlocks(bs, node.fam)
    ensures split <==> Cut(node, bs)
  {
    SortedAddrs(bs, node.fam);
    var first := FirstAbove(Addrs(bs), node.addr - 1);
    for i := first to |bs|
      invariant forall j :: 0 <= j < i && node.Has(bs[j].fam, bs[j].addr) ==> bs[j].bits <= node.bits
    {
      if !node.Has(bs[i].fam, bs[i].addr) {
        assert forall j :: i <= j < |bs| ==> Addrs(bs)[i] <= Addrs(bs)[j];
        return false;
      }
      if bs[i].bits > node.bits {
        return true;
      }
    }
    return false;
  }

  lemma UncutConstant(node: Prefix, bs: seq<Prefix>)
    requires node.Valid() && !Cut(node, bs)
    ensures ConstantOn(bs, node)
  {
    forall i | 0 <= i < |bs| && bs[i].Valid()
      ensures Constant(bs[i], node)
    {
      ConstantUnless(bs[i], node);
    }
  }

  lemma CutIsShort(node: Prefix, bs: seq<Prefix>)
    requires node.Valid() && Blocks(bs) && Cut(node, bs)
    ensures node.bits < Width(node.fam)
  {
  }

  ghost predicate Blocks(bs: seq<Prefix>) {
    forall i :: 0 <= i < |bs| ==> bs[i].Valid()
  }

  /** How many cells it takes to split the node where boundaries cut. */
  ghost function CellCount(node: Prefix, bs: seq<Prefix>): (n: nat)
    requires node.Valid() && Blocks(bs)
    ensures n >= 1
    decreases Width(node.fam) - node.bits
  {
    if !Cut(node, bs) then 1
    else
      CutIsShort(node, bs);
      Halves(node);
      CellCount(Left(node), bs) + CellCount(Right(node), bs)
  }

  ghost function CountAll(work: seq<Prefix>, bs: seq<Prefix>): (n: nat)
    requires Blocks(work) && Blocks(bs)
    ensures n >= |work|
  {
    if work == [] then 0 else CountAll(work[..|work| - 1], bs) + CellCount(work[|work| - 1], bs)
  }

  lemma {:induction false} CountUpdated(work: seq<Prefix>, bs: seq<Prefix>, index: nat, p: Prefix)
    requires Blocks(work) && Blocks(bs) && p.Valid() && index < |work|
    ensures CountAll(work[index := p], bs) + CellCount(work[index], bs) == CountAll(work, bs) + CellCount(p, bs)
  {
    var n := |work| - 1;
    if index == n {
      assert work[index := p][..n] == work[..n];
    } else {
      assert work[index := p][..n] == work[..n][index := p];
      CountUpdated(work[..n], bs, index, p);
    }
  }

  lemma CountHalved(work: seq<Prefix>, bs: seq<Prefix>, index: nat)
    requires Blocks(work) && Blocks(bs) && index < |work| && Cut(work[index], bs) && work[index].bits < Width(work[index].fam)
    ensures var next := work[index := Left(work[index])] + [Right(work[index])];
            Blocks(next) && CountAll(next, bs) == CountAll(work, bs)
  {
    var node := work[index];
    Halves(node);
    CountUpdated(work, bs, index, Left(node));
    var next := work[index := Left(node)] + [Right(node)];
    assert next[..|work|] == work[index := Left(node)];
  }

  lemma {:induction false} CountUncut(work: seq<Prefix>, bs: seq<Prefix>)
    requires Blocks(work) && Blocks(bs) && forall i :: 0 <= i < |work| ==> !Cut(work[i], bs)
    ensures CountAll(work, bs) == |work|
    decreases |work|
  {
    if work != [] {
      CountUncut(work[..|work| - 1], bs);
    }
  }

  /** No cell is smaller than it must be: a boundary cuts the block around it. */
  ghost predicate Needed(cell: Prefix, query: Prefix, bs: seq<Prefix>) {
    cell.Valid() && (cell == query || (0 < cell.bits && Parent(cell).Valid() && Cut(Parent(cell), bs)))
  }

  ghost predicate Coarse(cells: seq<Prefix>, query: Prefix, bs: seq<Prefix>) {
    forall c :: c in cells ==> Needed(c, query, bs)
  }

  lemma HalvingCoarse(work: seq<Prefix>, query: Prefix, bs: seq<Prefix>, index: nat)
    requires Coarse(work, query, bs) && index < |work| && work[index].Valid()
    requires work[index].bits < Width(work[index].fam) && Cut(work[index], bs)
    ensures Coarse(work[index := Left(work[index])] + [Right(work[index])], query, bs)
  {
    var node := work[index];
    Halves(node);
    HalvesAreSiblings(node);
    var next := work[index := Left(node)] + [Right(node)];
    forall c | c in next
      ensures Needed(c, query, bs)
    {
      assert c in work || c == Left(node) || c == Right(node);
    }
  }

  /** What the work list keeps: it splits the query, no more finely than needed, and its nodes
      still stand for the same number of cells. */
  ghost predicate Working(work: seq<Prefix>, query: Prefix, bs: seq<Prefix>)
    requires query.Valid() && Blocks(bs)
  {
    Splits(work, query) && Coarse(work, query, bs) && CountAll(work, bs) == CellCount(query, bs)
  }

  lemma WorkStarts(query: Prefix, bs: seq<Prefix>)
    requires query.Valid() && Blocks(bs)
    ensures Working([query], query, bs)
  {
    assert forall a :: query.Has(query.fam, a) ==> [query][0].Has(query.fam, a);
    assert [query][..0] == [];
  }

  lemma WorkHalved(work: seq<Prefix>, query: Prefix, bs: seq<Prefix>, index: nat)
    requires query.Valid() && Blocks(bs) && Working(work, query, bs) && index < |work| && Cut(work[index], bs)
    ensures work[index].bits < Width(work[index].fam)
    ensures Working(work[index := Left(work[index])] + [Right(work[index])], query, bs)
  {
    CutIsShort(work[index], bs);
    HalvingSplits(work, query, index);
    CountHalved(work, bs, index);
    HalvingCoarse(work, query, bs, index);
  }

  lemma WorkDone(work: seq<Prefix>, query: Prefix, bs: seq<Prefix>)
    requires query.Valid() && Blocks(bs) && Working(work, query, bs) && NoneCut(work, bs)
    ensures |work| == CellCount(query, bs) && forall i :: 0 <= i < |work| ==> ConstantOn(bs, work[i])
  {
    CountUncut(work, bs);
    forall i | 0 <= i < |work|
      ensures ConstantOn(bs, work[i])
    {
      UncutConstant(work[i], bs);
    }
  }

  lemma WorkBound(work: seq<Prefix>, query: Prefix, bs: seq<Prefix>)
    requires query.Valid() && Blocks(bs) && Working(work, query, bs)
    ensures |work| <= CellCount(query, bs) && forall i :: 0 <= i < |work| ==> work[i].Valid() && work[i].fam == query.fam
  {
    assert CountAll(work, bs) >= |work|;
  }

  /** Halves the node when a boundary cuts it. */
  method SplitNode(work: seq<Prefix>, index: nat, query: Prefix, bs: seq<Prefix>) returns (next: Option<seq<Prefix>>)
    requires query.Valid() && SortedBlocks(bs, query.fam) && Working(work, query, bs) && index < |work|
    ensures next.None? ==> work[index].Valid() && !Cut(work[index], bs)
    ensures next.Some? ==> Working(next.value, query, bs) && |next.value| == |work| + 1 && next.value[..index] == work[..index]
  {
    WorkBound(work, query, bs);
    var node := work[index];
    var split := NeedsSplit(node, bs);
    if !split {
      return None;
    }
    WorkHalved(work, query, bs, index);
    return Some(work[index := Left(node)] + [Right(node)]);
  }

  ghost predicate NoneCut(nodes: seq<Prefix>, bs: seq<Prefix>) {
    forall i :: 0 <= i < |nodes| ==> nodes[i].Valid() && !Cut(nodes[i], bs)
  }

  /** Halves nodes until no boundary cuts any, or there are too many. */
  method Refine(query: Prefix, bs: seq<Prefix>) returns (work: seq<Prefix>)
    requires query.Valid() && SortedBlocks(bs, query.fam)
    ensures Working(work, query, bs) && (|work| <= WORK_LIMIT ==> NoneCut(work, bs))
  {
    work := [query];
    WorkStarts(query, bs);
    var index := 0;
    while index < |work| <= WORK_LIMIT
      invariant index <= |work| && Working(work, query, bs) && NoneCut(work[..index], bs)
      decreases WORK_LIMIT + 1 - |work|, |work| - index
    {
      var next := SplitNode(work, index, query, bs);
      if next.None? {
        assert work[..index + 1] == work[..index] + [work[index]];
        index := index + 1;
      } else {
        work := next.value;
      }
    }
    assert work[..|work|] == work;
  }

  /** The work list; refused exactly when the cells are too many. */
  method SplitAll(query: Prefix, bs: seq<Prefix>) returns (r: Option<seq<Prefix>>)
    requires query.Valid() && SortedBlocks(bs, query.fam)
    ensures r.Some? <==> CellCount(query, bs) <= WORK_LIMIT
    ensures r.Some? ==> Splits(r.value, query) && forall i :: 0 <= i < |r.value| ==> ConstantOn(bs, r.value[i])
    ensures r.Some? ==> Coarse(r.value, query, bs)
  {
    var work := Refine(query, bs);
    if |work| > WORK_LIMIT {
      WorkBound(work, query, bs);
      return None;
    }
    WorkDone(work, query, bs);
    return Some(work);
  }

  /** Removes adjacent duplicates. */
  method Compact(bs: seq<Prefix>) returns (r: seq<Prefix>)
    requires SortedBy(Leq, bs)
    ensures SortedBy(Leq, r) && forall p :: p in r <==> p in bs
  {
    r := [];
    for i := 0 to |bs|
      invariant SortedBy(Leq, r) && (forall p :: p in r <==> p in bs[..i])
      invariant forall j, k :: 0 <= j < |r| && i <= k < |bs| ==> Leq(r[j], bs[k])
    {
      assert bs[..i + 1] == bs[..i] + [bs[i]];
      if i == 0 || bs[i] != bs[i - 1] {
        r := r + [bs[i]];
      } else {
        assert bs[i - 1] in bs[..i];
      }
    }
    assert bs[..|bs|] == bs;
  }

  /** The indices whose keys lie in `[lo, hi)`. */
  method Window(keys: seq<int>, lo: int, hi: int) returns (start: nat, end: nat)
    requires NonDecreasing(keys) && lo <= hi
    ensures start <= end <= |keys|
    ensures forall i :: 0 <= i < |keys| ==> (start <= i < end <==> lo <= keys[i] < hi)
  {
    start := FirstAbove(keys, lo - 1);
    end := FirstAbove(keys, hi - 1);
    assert end < |keys| ==> hi - 1 < keys[end];
  }

  /** How many blocks start inside the query and are longer than `bits`. */
  ghost function Starting(query: Prefix, bs: seq<Prefix>, bits: int): nat
    requires query.Valid()
  {
    if bs == [] then 0
    else
      var last := bs[|bs| - 1];
      Starting(query, bs[..|bs| - 1], bits) + if query.Has(last.fam, last.addr) && last.bits > bits then 1 else 0
  }

  lemma {:induction false} StartingWindow(query: Prefix, bs: seq<Prefix>, start: nat, end: nat)
    requires query.Valid() && start <= end <= |bs|
    requires forall i :: 0 <= i < |bs| ==> (start <= i < end <==> query.Has(bs[i].fam, bs[i].addr))
    ensures Starting(query, bs, -1) == end - start
    decreases |bs|
  {
    if bs != [] {
      var n := |bs| - 1;
      StartingWindow(query, bs[..n], if start <= n then start else n, if end <= n then end else n);
    }
  }

  /** The boundaries that start inside the query. */
  method Narrow(query: Prefix, bs: seq<Prefix>) returns (r: seq<Prefix>)
    requires query.Valid() && SortedBlocks(bs, query.fam)
    ensures SortedBlocks(r, query.fam)
    ensures forall p :: p in r <==> p in bs && query.Has(p.fam, p.addr)
    ensures |r| == Starting(query, bs, -1)
  {
    SortedAddrs(bs, query.fam);
    EndInFamily(query);
    var start, end := Window(Addrs(bs), query.addr, query.End());
    r := bs[start..end];
    assert forall i :: 0 <= i < |bs| ==> (start <= i < end <==> query.Has(bs[i].fam, bs[i].addr));
    assert forall i :: 0 <= i < |r| ==> r[i] == bs[start + i];
    assert forall i :: start <= i < end ==> bs[i] == r[i - start];
    StartingWindow(query, bs, start, end);
  }

  /** The longer boundaries that start inside the query, unless there are too many. */
  method AddInside(query: Prefix, bs: seq<Prefix>, extra: seq<Prefix>) returns (r: Option<seq<Prefix>>)
    requires query.Valid() && |bs| <= WORK_LIMIT
    ensures r.Some? <==> |bs| + Starting(query, extra, query.bits) <= WORK_LIMIT
    ensures r.Some? ==> forall p :: p in r.value <==> p in bs || (p in extra && query.Has(p.fam, p.addr) && p.bits > query.bits)
  {
    var out := bs;
    for i := 0 to |extra|
      invariant |out| == |bs| + Starting(query, extra[..i], query.bits) <= WORK_LIMIT
      invariant forall p :: p in out <==> p in bs || (p in extra[..i] && query.Has(p.fam, p.addr) && p.bits > query.bits)
    {
      assert extra[..i + 1] == extra[..i] + [extra[i]];
      StartingGrows(query, extra, i + 1, query.bits);
      if extra[i].bits > query.bits && query.Has(extra[i].fam, extra[i].addr) {
        if |out| >= WORK_LIMIT {
          return None;
        }
        out := out + [extra[i]];
      }
    }
    assert extra[..|extra|] == extra;
    return Some(out);
  }

  lemma {:induction false} StartingGrows(query: Prefix, bs: seq<Prefix>, i: nat, bits: int)
    requires query.Valid() && i <= |bs|
    ensures Starting(query, bs[..i], bits) <= Starting(query, bs, bits)
    decreases |bs|
  {
    if i < |bs| {
      assert bs[..|bs| - 1][..i] == bs[..i];
      StartingGrows(query, bs[..|bs| - 1], i, bits);
    } else {
      assert bs[..i] == bs;
    }
  }

  // ---------- The partition ----------

  /** Inside the query the listed boundaries cut where all of them do. */
  lemma SameCut(query: Prefix, node: Prefix, listed: seq<Prefix>, all: seq<Prefix>)
    requires query.Valid() && node.Valid() && query.Covers(node) && query.bits <= node.bits
    requires forall p :: p in listed ==> p in all
    requires forall p :: p in all && query.Has(p.fam, p.addr) && p.bits > query.bits ==> p in listed
    ensures Cut(node, listed) <==> Cut(node, all)
  {
    if Cut(node, listed) {
      var i :| 0 <= i < |listed| && node.Has(listed[i].fam, listed[i].addr) && listed[i].bits > node.bits;
      assert listed[i] in all;
      var j :| 0 <= j < |all| && all[j] == listed[i];
    }
    if Cut(node, all) {
      var i :| 0 <= i < |all| && node.Has(all[i].fam, all[i].addr) && all[i].bits > node.bits;
      assert all[i] in listed;
      var j :| 0 <= j < |listed| && listed[j] == all[i];
    }
  }

  lemma {:induction false} SameCount(query: Prefix, node: Prefix, listed: seq<Prefix>, all: seq<Prefix>)
    requires query.Valid() && node.Valid() && query.Covers(node) && query.bits <= node.bits && Blocks(listed) && Blocks(all)
    requires forall p :: p in listed ==> p in all
    requires forall p :: p in all && query.Has(p.fam, p.addr) && p.bits > query.bits ==> p in listed
    ensures CellCount(node, listed) == CellCount(node, all)
    decreases Width(node.fam) - node.bits
  {
    SameCut(query, node, listed, all);
    if Cut(node, all) {
      CutIsShort(node, all);
      Halves(node);
      SameCount(query, Left(node), listed, all);
      SameCount(query, Right(node), listed, all);
    }
  }

  lemma SameCoarse(query: Prefix, cells: seq<Prefix>, listed: seq<Prefix>, all: seq<Prefix>)
    requires query.Valid() && Coarse(cells, query, listed) && forall c :: c in cells ==> c.Valid() && query.Covers(c)
    requires forall p :: p in listed ==> p in all
    ensures Coarse(cells, query, all)
  {
    forall c | c in cells
      ensures Needed(c, query, all)
    {
      assert Needed(c, query, listed);
      if c != query {
        var i :| 0 <= i < |listed| && Parent(c).Has(listed[i].fam, listed[i].addr) && listed[i].bits > Parent(c).bits;
        assert listed[i] in all;
      }
    }
  }

  /** Within the work limits: the boundaries in play, and the cells they make. */
  ghost predicate Fits(query: Prefix, boundaries: seq<Prefix>, dynamic: seq<Prefix>)
    requires query.Valid() && Blocks(boundaries) && Blocks(dynamic)
  {
    query.bits == Width(query.fam) ||
    (Starting(query, boundaries, -1) + Starting(query, dynamic, query.bits) <= WORK_LIMIT && CellCount(query, boundaries + dynamic) <= WORK_LIMIT)
  }

  /** Every boundary is listed, or is constant on the query as a whole. */
  lemma ConstantEverywhere(query: Prefix, bs: seq<Prefix>, listed: seq<Prefix>, cell: Prefix)
    requires query.Valid() && ConstantOn(listed, cell) && query.Covers(cell)
    requires forall p :: p in bs && query.Has(p.fam, p.addr) && p.bits > query.bits ==> p in listed
    ensures ConstantOn(bs, cell)
  {
    forall i | 0 <= i < |bs| && bs[i].Valid()
      ensures Constant(bs[i], cell)
    {
      var b := bs[i];
      assert b in bs;
      if query.Has(b.fam, b.addr) && b.bits > query.bits {
        var j :| 0 <= j < |listed| && listed[j] == b;
      } else {
        ConstantUnless(b, query);
        ConstantInside(b, query, cell);
      }
    }
  }

  lemma HostConstant(query: Prefix, bs: seq<Prefix>)
    requires query.Valid() && query.bits == Width(query.fam)
    ensures ConstantOn(bs, query)
  {
    forall i | 0 <= i < |bs| && bs[i].Valid()
      ensures Constant(bs[i], query)
    {
      ConstantUnless(bs[i], query);
    }
  }

  /** Cells of the query on which every static boundary and every dynamic prefix is
      constant, none smaller than it must be; fails exactly when there would be too many. */
  method PartitionPrefixes(query: Prefix, boundaries: seq<Prefix>, dynamic: seq<Prefix>)
    returns (r: Option<seq<Prefix>>)
    requires query.Valid() && SortedBlocks(boundaries, query.fam)
    requires Blocks(dynamic)
    ensures r.Some? <==> Fits(query, boundaries, dynamic)
    ensures r.Some? ==> Splits(r.value, query) && SortedBy(Leq, r.value) && Coarse(r.value, query, boundaries + dynamic)
    ensures r.Some? ==> forall i :: 0 <= i < |r.value| ==> ConstantOn(boundaries, r.value[i]) && ConstantOn(dynamic, r.value[i])
  {
    if query.bits == Width(query.fam) {
      HostConstant(query, boundaries);
      HostConstant(query, dynamic);
      assert forall a: nat :: query.Has(query.fam, a) ==> [query][0].Has(query.fam, a);
      return Some([query]);
    }
    var narrow := Narrow(query, boundaries);
    if |narrow| > WORK_LIMIT {
      return None;
    }
    var all := AddInside(query, narrow, dynamic);
    if all.None? {
      return None;
    }
    LeqTotal();
    var sorted := Sort(Leq, all.value);
    SameElements(sorted, all.value);
    var listed := Compact(sorted);
    assert SortedBlocks(listed, query.fam) by {
      forall i | 0 <= i < |listed|
        ensures listed[i].Valid() && listed[i].fam == query.fam
      {
        assert listed[i] in sorted && listed[i] in all.value;
      }
    }
    SameCount(query, query, listed, boundaries + dynamic);
    var cells := SplitAll(query, listed);
    if cells.None? {
      return None;
    }
    forall i | 0 <= i < |cells.value|
      ensures ConstantOn(boundaries, cells.value[i]) && ConstantOn(dynamic, cells.value[i])
    {
      ConstantEverywhere(query, boundaries, listed, cells.value[i]);
      ConstantEverywhere(query, dynamic, listed, cells.value[i]);
    }
    assert forall c :: c in cells.value ==> exists i :: 0 <= i < |cells.value| && cells.value[i] == c;
    SameCoarse(query, cells.value, listed, boundaries + dynamic);
    r := SortCells(cells.value, query, boundaries, dynamic);
  }

  lemma SplitsPermuted(a: seq<Prefix>, b: seq<Prefix>, query: Prefix)
    requires query.Valid() && Splits(a, query) && multiset(a) == multiset(b)
    ensures Splits(b, query)
  {
    SameElements(a, b);
    assert Distinct(a) by {
      forall i, j | 0 <= i < j < |a|
        ensures a[i] != a[j]
      {
        EndInFamily(a[i]);
        assert a[i].Disjoint(a[j]);
      }
    }
    DistinctPermuted(a, b);
    forall i | 0 <= i < |b|
      ensures b[i].Valid() && query.Covers(b[i])
    {
      assert b[i] in a;
    }
    forall i, j | 0 <= i < j < |b|
      ensures b[i].Disjoint(b[j])
    {
      assert b[i] in a && b[j] in a;
      var x :| 0 <= x < |a| && a[x] == b[i];
      var y :| 0 <= y < |a| && a[y] == b[j];
      assert x < y ==> a[x].Disjoint(a[y]);
      assert y < x ==> a[y].Disjoint(a[x]);
    }
    forall a': nat | query.Has(query.fam, a')
      ensures Covered(b, query.fam, a')
    {
      CoveredSameElements(a, b, query.fam, a');
    }
  }

  method SortCells(cells: seq<Prefix>, query: Prefix, ghost boundaries: seq<Prefix>, ghost dynamic: seq<Prefix>)
    returns (r: Option<seq<Prefix>>)
    requires query.Valid() && Splits(cells, query)
    requires forall i :: 0 <= i < |cells| ==> ConstantOn(boundaries, cells[i]) && ConstantOn(dynamic, cells[i])
    ensures r.Some? && Splits(r.value, query) && SortedBy(Leq, r.value) && forall c :: c in r.value ==> c in cells
    ensures forall i :: 0 <= i < |r.value| ==> ConstantOn(boundaries, r.value[i]) && ConstantOn(dynamic, r.value[i])
  {
    LeqTotal();
    var sorted := Sort(Leq, cells);
    SplitsPermuted(cells, sorted, query);
    SameElements(cells, sorted);
    forall i | 0 <= i < |sorted|
      ensures ConstantOn(boundaries, sorted[i]) && ConstantOn(dynamic, sorted[i])
    {
      assert sorted[i] in cells;
    }
    r := Some(sorted);
  }

  // ---------- Joining cells ----------

  lemma SiblingsJoin(p: Prefix, q: Prefix)
    requires p.Valid() && q.Valid() && 0 < p.bits == q.bits && Before(p, q) && Parent(p) == Parent(q)
    ensures Parent(p).Valid() && Parent(p).addr == p.addr && Parent(p).End() == q.End() && p.End() == q.addr
  {
    ParentIsBlock(p);
    ParentIsBlock(q);
    EndInFamily(p);
    EndInFamily(q);
    Halves(Parent(p));
  }

  /** Sorted, disjoint, and without two halves of one block. */
  ghost predicate Merged(s: seq<Prefix>) {
    Canonical(s) && forall i, j :: 0 <= i < j < |s| ==> !Siblings(s[i], s[j])
  }

  lemma SiblingsAdjacent(s: seq<Prefix>, i: nat, j: nat)
    requires Canonical(s) && i < j < |s| && Siblings(s[i], s[j])
    ensures j == i + 1
  {
    SiblingsMeet(s[i], s[j]);
    EndInFamily(s[i + 1]);
    EndInFamily(s[j]);
    assert Before(s[i], s[i + 1]) && Before(s[i], s[j]);
  }

  lemma MergedSnoc(front: seq<Prefix>, p: Prefix)
    requires Merged(front) && Canonical(front + [p])
    requires front != [] ==> !Siblings(front[|front| - 1], p)
    ensures Merged(front + [p])
  {
    var s := front + [p];
    forall i, j | 0 <= i < j < |s|
      ensures !Siblings(s[i], s[j])
    {
      if Siblings(s[i], s[j]) {
        SiblingsAdjacent(s, i, j);
      }
    }
  }

  /** Joining is done except perhaps at the end of the list. */
  ghost predicate Joining(out: seq<Prefix>, stack: seq<Prefix>) {
    && out != [] && stack != [] && Canonical(out) && SameAddresses(out, stack) && Merged(out[..|out| - 1])
    && Leq(out[|out| - 1], stack[|stack| - 1])
  }

  predicate Joins(p: Prefix, q: Prefix)
    requires p.bits <= Width(p.fam) && q.bits <= Width(q.fam)
  {
    !(p.bits == 0 || p.bits != q.bits || Parent(q) != Parent(p))
  }

  lemma JoinStep(out: seq<Prefix>, stack: seq<Prefix>)
    requires |out| >= 2 && Joining(out, stack) && Joins(out[|out| - 2], out[|out| - 1])
    ensures Joining(out[..|out| - 2] + [Parent(out[|out| - 2])], stack)
  {
    var n := |out|;
    var next := out[..n - 2] + [Parent(out[n - 2])];
    assert out == out[..n - 2] + [out[n - 2]] + [out[n - 1]];
    JoinKeeps(out[..n - 2], out[n - 2], out[n - 1]);
    assert out[..n - 1][..n - 2] == out[..n - 2];
    assert next[..n - 2] == out[..n - 2];
    LeqTotal();
  }

  lemma JoinEnd(out: seq<Prefix>, stack: seq<Prefix>)
    requires Joining(out, stack) && (|out| >= 2 ==> !Joins(out[|out| - 2], out[|out| - 1]))
    ensures Merged(out)
  {
    var n := |out|;
    assert out == out[..n - 1] + [out[n - 1]];
    MergedSnoc(out[..n - 1], out[n - 1]);
  }

  /** Joins the last two blocks while they are the halves of one. */
  method JoinLast(stack: seq<Prefix>) returns (out: seq<Prefix>)
    requires Canonical(stack) && stack != [] && Merged(stack[..|stack| - 1])
    ensures Merged(out) && SameAddresses(out, stack) && out != []
    ensures Leq(out[|out| - 1], stack[|stack| - 1])
  {
    out := stack;
    while |out| >= 2 && Joins(out[|out| - 2], out[|out| - 1])
      invariant Joining(out, stack)
      decreases |out|
    {
      JoinStep(out, stack);
      out := out[..|out| - 2] + [Parent(out[|out| - 2])];
    }
    JoinEnd(out, stack);
  }

  lemma JoinKeeps(front: seq<Prefix>, p: Prefix, q: Prefix)
    requires p.Valid() && q.Valid() && Canonical(front + [p] + [q]) && 0 < p.bits == q.bits && Parent(p) == Parent(q)
    ensures Canonical(front + [Parent(p)]) && SameAddresses(front + [Parent(p)], front + [p] + [q])
    ensures Leq(Parent(p), q)
  {
    var s, n := front + [p] + [q], |front|;
    assert s[n] == p && s[n + 1] == q && forall i :: 0 <= i < n ==> s[i] == front[i];
    assert Before(p, q);
    SiblingsJoin(p, q);
    JoinAddresses(front, p, q);
    forall i, j | 0 <= i < j < n
      ensures Before(front[i], front[j])
    {
      assert Before(s[i], s[j]);
    }
    forall i | 0 <= i < n
      ensures Before(front[i], Parent(p))
    {
      assert Before(s[i], s[n]);
    }
  }

  lemma JoinAddresses(front: seq<Prefix>, p: Prefix, q: Prefix)
    requires p.Valid() && q.Valid() && Before(p, q) && 0 < p.bits == q.bits && Parent(p) == Parent(q)
    ensures SameAddresses(front + [Parent(p)], front + [p] + [q])
  {
    SiblingsJoin(p, q);
    forall f, a
      ensures Covered(front + [Parent(p)], f, a) <==> Covered(front + [p] + [q], f, a)
    {
      CoveredSnoc(front, Parent(p), f, a);
      CoveredSnoc(front, p, f, a);
      CoveredSnoc(front + [p], q, f, a);
    }
  }

  /** Takes in the next value in order. */
  method MergeNext(out: seq<Prefix>, value: Prefix, ghost done: seq<Prefix>) returns (next: seq<Prefix>)
    requires Merged(out) && SameAddresses(out, done) && value.Valid() && (out != [] ==> Leq(out[|out| - 1], value))
    ensures Merged(next) && SameAddresses(next, done + [value]) && next != [] && Leq(next[|next| - 1], value)
  {
    if out != [] && out[|out| - 1].Has(value.fam, value.addr) && out[|out| - 1].bits <= value.bits {
      ghost var last := out[|out| - 1];
      Laminar(last, value);
      EndInFamily(value);
      DropCovered(done, out, value);
      return out;
    }
    PushKeeps(out, value);
    KeepNext(done, out, value);
    var pushed := out + [value];
    assert pushed[..|pushed| - 1] == out;
    next := JoinLast(pushed);
  }

  /** Sorted, disjoint, holding the same addresses, with halves joined. */
  method MergePrefixes(values: seq<Prefix>) returns (out: seq<Prefix>)
    requires forall i :: 0 <= i < |values| ==> values[i].Valid()
    ensures Merged(out) && SameAddresses(out, values)
  {
    LeqTotal();
    var sorted := Sort(Leq, values);
    SameElements(sorted, values);
    out := [];
    for i := 0 to |sorted|
      invariant Merged(out) && SameAddresses(out, sorted[..i])
      invariant out != [] ==> i > 0 && Leq(out[|out| - 1], sorted[i - 1])
    {
      assert sorted[i] in values;
      assert sorted[..i + 1] == sorted[..i] + [sorted[i]];
      assert i > 0 ==> Leq(sorted[i - 1], sorted[i]);
      out := MergeNext(out, sorted[i], sorted[..i]);
    }
    assert sorted[..|sorted|] == sorted;
    forall f, a
      ensures Covered(sorted, f, a) <==> Covered(values, f, a)
    {
      CoveredSameElements(sorted, values, f, a);
      CoveredSameElements(values, sorted, f, a);
    }
  }

  /** A value that starts no earlier than the last block and is not inside it comes after it. */
  lemma PushKeeps(out: seq<Prefix>, value: Prefix)
    requires Canonical(out) && value.Valid()
    requires out != [] ==> var last := out[|out| - 1];
               Leq(last, value) && !(last.Has(value.fam, value.addr) && last.bits <= value.bits)
    ensures Canonical(out + [value])
  {
    if out != [] {
      var last := out[|out| - 1];
      EndInFamily(last);
      EndInFamily(value);
      if last.fam == value.fam && last.Has(value.fam, value.addr) {
        Laminar(value, last);
        assert false;
      }
      forall i | 0 <= i < |out|
        ensures Before(out[i], value)
      {
        assert i < |out| - 1 ==> Before(out[i], last);
      }
    }
  }

  // ---------- One list for one set of addresses ----------

  /** A block held by a merged list lies in one of its blocks. */
  lemma {:induction false} HeldWhole(s: seq<Prefix>, b: Prefix) returns (i: nat)
    requires Merged(s) && b.Valid() && forall a: nat :: b.Has(b.fam, a) ==> Covered(s, b.fam, a)
    ensures i < |s| && s[i].Covers(b)
    decreases Width(b.fam) - b.bits
  {
    EndInFamily(b);
    if b.bits == Width(b.fam) {
      assert b.Has(b.fam, b.addr);
      i :| i < |s| && s[i].Valid() && s[i].Has(b.fam, b.addr);
      Laminar(s[i], b);
    } else {
      HalvesAreSiblings(b);
      Halves(b);
      i := HeldWhole(s, Left(b));
      var j := HeldWhole(s, Right(b));
      HalfOrWhole(s[i], b, Left(b));
      HalfOrWhole(s[j], b, Right(b));
      if !s[i].Covers(b) {
        assert i < j ==> !Siblings(s[i], s[j]);
        assert j < i ==> !Siblings(s[j], s[i]);
        i := j;
      }
    }
  }

  /** What covers half of a block is that half, or covers the block. */
  lemma HalfOrWhole(p: Prefix, b: Prefix, half: Prefix)
    requires p.Valid() && b.Valid() && half.Valid() && p.Covers(half) && b.Covers(half) && half.bits == b.bits + 1
    ensures p == half || p.Covers(b)
  {
    CoversShorter(p, half);
    EndInFamily(half);
    if p != half {
      Laminar(p, b);
    }
  }

  lemma OrderedApart(s: seq<Prefix>, j: nat, k: nat)
    requires Canonical(s) && j < |s| && k < |s|
    ensures j == k || s[j].Disjoint(s[k])
  {
    if j < k {
      assert Before(s[j], s[k]);
    } else if k < j {
      assert Before(s[k], s[j]);
    }
  }

  lemma HeldBlock(s: seq<Prefix>, t: seq<Prefix>, k: nat)
    requires Merged(s) && Merged(t) && SameAddresses(s, t) && k < |s|
    ensures s[k] in t
  {
    var p := s[k];
    assert forall a: nat :: p.Has(p.fam, a) ==> Covered(s, p.fam, a);
    var i := HeldWhole(t, p);
    assert forall a: nat :: t[i].Has(t[i].fam, a) ==> Covered(t, t[i].fam, a);
    var j := HeldWhole(s, t[i]);
    EndInFamily(p);
    OrderedApart(s, j, k);
    CoversAntisymmetric(p, t[i]);
  }

  lemma FirstIsLeast(s: seq<Prefix>, p: Prefix)
    requires Canonical(s) && p in s
    ensures p.Valid() && (p == s[0] || Before(s[0], p))
  {
    var i :| 0 <= i < |s| && s[i] == p;
    if i > 0 {
      assert Before(s[0], s[i]);
    }
  }

  lemma {:induction false} SameOrdered(s: seq<Prefix>, t: seq<Prefix>)
    requires Canonical(s) && Canonical(t) && forall p :: p in s <==> p in t
    ensures s == t
    decreases |s|
  {
    assert |t| > 0 ==> t[0] in t;
    if s != [] {
      assert s[0] in t && t[0] in s;
      EndInFamily(s[0]);
      EndInFamily(t[0]);
      FirstIsLeast(s, t[0]);
      FirstIsLeast(t, s[0]);
      TailOrdered(s, t);
      SameOrdered(s[1..], t[1..]);
    }
  }

  lemma TailOrdered(s: seq<Prefix>, t: seq<Prefix>)
    requires Canonical(s) && Canonical(t) && s != [] && t != [] && s[0] == t[0] && forall p :: p in s <==> p in t
    ensures Canonical(s[1..]) && Canonical(t[1..]) && forall p :: p in s[1..] <==> p in t[1..]
  {
    EndInFamily(s[0]);
    assert s == [s[0]] + s[1..] && t == [t[0]] + t[1..];
    forall i | 1 <= i < |s|
      ensures s[i] != s[0]
    {
      assert Before(s[0], s[i]);
    }
    forall i | 1 <= i < |t|
      ensures t[i] != t[0]
    {
      assert Before(t[0], t[i]);
    }
    forall p
      ensures p in s[1..] <==> p in t[1..]
    {
      assert p in s[1..] <==> p in s && p != s[0];
      assert p in t[1..] <==> p in t && p != t[0];
    }
  }

  /** Merging forgets everything but the addresses: lists with the same ones merge to the same list. */
  lemma MergedUnique(s: seq<Prefix>, t: seq<Prefix>)
    requires Merged(s) && Merged(t) && SameAddresses(s, t)
    ensures s == t
  {
    forall p
      ensures p in s <==> p in t
    {
      if p in s {
        var k :| 0 <= k < |s| && s[k] == p;
        HeldBlock(s, t, k);
      }
      if p in t {
        var k :| 0 <= k < |t| && t[k] == p;
        HeldBlock(t, s, k);
      }
    }
    SameOrdered(s, t);
  }
}
