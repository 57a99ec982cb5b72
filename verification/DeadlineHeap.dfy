/** The deadline heap: a binary heap with the latest deadline at the root, over the
    sift-up and sift-down steps of Go's container/heap
    (internal/crowdsec/projection.go:36-70).
 */
module DeadlineHeap {

  datatype Item = Item(index: nat, deadline: int)

  function Above(c: nat): nat
    requires c >= 1
  {
    (c - 1) / 2
  }

  /** The item at `c` is no later than the one above it. */
  predicate Ok(s: seq<Item>, c: nat)
    requires 1 <= c < |s|
  {
    s[c].deadline <= s[Above(c)].deadline
  }

  ghost predicate Ordered(s: seq<Item>) {
    forall c :: 1 <= c < |s| ==> Ok(s, c)
  }

  function Swap(s: seq<Item>, i: nat, j: nat): (r: seq<Item>)
    requires i < |s| && j < |s|
    ensures multiset(r) == multiset(s) && |r| == |s|
  {
    s[i := s[j]][j := s[i]]
  }

  /** Ordered but for the item at `j`, which may be later than the one above it. */
  ghost predicate OrderedBut(s: seq<Item>, j: nat)
    requires j < |s|
  {
    && (forall c :: 1 <= c < |s| && c != j ==> Ok(s, c))
    && (forall c :: 1 <= c < |s| && Above(c) == j && j >= 1 ==> s[c].deadline <= s[Above(j)].deadline)
  }

  lemma UpStep(s: seq<Item>, j: nat)
    requires 1 <= j < |s| && OrderedBut(s, j) && !Ok(s, j)
    ensures OrderedBut(Swap(s, Above(j), j), Above(j))
  {
    var p := Above(j);
    var t := Swap(s, p, j);
    forall c | 1 <= c < |s| && c != p
      ensures Ok(t, c)
    {
      assert c != j ==> Ok(s, c);
    }
    if p >= 1 {
      forall c | 1 <= c < |s| && Above(c) == p
        ensures t[c].deadline <= t[Above(p)].deadline
      {
        assert Ok(s, p);
        assert c != j ==> Ok(s, c);
      }
    }
  }

  function Up(s: seq<Item>, j: nat): (r: seq<Item>)
    requires j < |s| && OrderedBut(s, j)
    ensures Ordered(r) && multiset(r) == multiset(s)
    decreases j
  {
    if j == 0 || Ok(s, j) then s
    else
      UpStep(s, j);
      Up(Swap(s, Above(j), j), Above(j))
  }

  lemma AppendLast(s: seq<Item>, x: Item)
    requires Ordered(s)
    ensures OrderedBut(s + [x], |s|)
  {
    forall c | 1 <= c < |s|
      ensures Ok(s + [x], c)
    {
      assert Ok(s, c);
    }
  }

  function Push(s: seq<Item>, x: Item): (r: seq<Item>)
    requires Ordered(s)
    ensures Ordered(r) && multiset(r) == multiset(s) + multiset{x}
  {
    AppendLast(s, x);
    Up(s + [x], |s|)
  }

  /** Ordered but below `i`, whose item may be earlier than those under it. */
  ghost predicate OrderedButUnder(s: seq<Item>, i: nat)
    requires i < |s|
  {
    && (forall c :: 1 <= c < |s| && Above(c) != i ==> Ok(s, c))
    && (forall c :: 1 <= c < |s| && Above(c) == i && i >= 1 ==> s[c].deadline <= s[Above(i)].deadline)
  }

  /** The later of the two items under `i`. */
  function LaterUnder(s: seq<Item>, i: nat): (j: nat)
    requires 2 * i + 1 < |s|
    ensures 1 <= j < |s| && Above(j) == i
    ensures forall c :: 1 <= c < |s| && Above(c) == i ==> s[c].deadline <= s[j].deadline
  {
    var l := 2 * i + 1;
    assert forall c :: 1 <= c < |s| && Above(c) == i ==> c == l || c == l + 1;
    if l + 1 < |s| && s[l + 1].deadline > s[l].deadline then l + 1 else l
  }

  lemma DownStep(s: seq<Item>, i: nat, j: nat)
    requires i < |s| && OrderedButUnder(s, i)
    requires 1 <= j < |s| && Above(j) == i && s[i].deadline < s[j].deadline
    requires forall c :: 1 <= c < |s| && Above(c) == i ==> s[c].deadline <= s[j].deadline
    ensures OrderedButUnder(Swap(s, i, j), j)
  {
    var t := Swap(s, i, j);
    forall c | 1 <= c < |s| && Above(c) != j
      ensures Ok(t, c)
    {
      assert Above(c) != i ==> Ok(s, c);
    }
    forall c | 1 <= c < |s| && Above(c) == j
      ensures t[c].deadline <= t[Above(j)].deadline
    {
      assert Ok(s, c);
    }
  }

  function Down(s: seq<Item>, i: nat): (r: seq<Item>)
    requires i < |s| && OrderedButUnder(s, i)
    ensures Ordered(r) && multiset(r) == multiset(s)
    decreases |s| - i
  {
    if 2 * i + 1 >= |s| then
      assert forall c :: 1 <= c < |s| ==> Above(c) != i;
      s
    else
      var j := LaterUnder(s, i);
      if s[j].deadline <= s[i].deadline then s
      else
        DownStep(s, i, j);
        Down(Swap(s, i, j), j)
  }

  /** Removes the root. */
  function Pop(s: seq<Item>): (r: seq<Item>)
    requires Ordered(s) && s != []
    ensures Ordered(r) && multiset(r) + multiset{s[0]} == multiset(s)
  {
    var n := |s| - 1;
    assert s == s[..n] + [s[n]];
    if n == 0 then []
    else
      var t := s[..n][0 := s[n]];
      assert s[..n] == [s[0]] + s[1..n];
      assert t == [s[n]] + s[1..n];
      assert forall c :: 1 <= c < n && Above(c) != 0 ==> Ok(t, c) by {
        forall c | 1 <= c < n && Above(c) != 0
          ensures Ok(t, c)
        {
          assert Ok(s, c);
        }
      }
      Down(t, 0)
  }

  /** The root carries the latest deadline. */
  lemma {:induction false} RootLatest(s: seq<Item>, i: nat)
    requires Ordered(s) && i < |s|
    ensures s[i].deadline <= s[0].deadline
    decreases i
  {
    if i > 0 {
      assert Ok(s, i);
      RootLatest(s, Above(i));
    }
  }
}
