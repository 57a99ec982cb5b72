/** The shape check a projection must pass before it may authorize a kernel change
    (internal/firewall/dynamic.go:31-63).
 */
module Dynamic {
  import opened Address
  import opened Sorting
  import opened PrefixSet
  import opened Projection

  ghost predicate Shaped(v: TimedPrefix) {
    v.prefix.Valid() && v.deadline != 0
  }

  /** Canonical prefixes with deadlines, no two of which share an address. */
  ghost predicate Acceptable(values: seq<TimedPrefix>) {
    && (forall i :: 0 <= i < |values| ==> Shaped(values[i]))
    && (forall i, j :: 0 <= i < |values| && 0 <= j < |values| && i != j ==> values[i].prefix.Disjoint(values[j].prefix))
  }

  predicate TimedLeq(a: TimedPrefix, b: TimedPrefix) {
    Leq(a.prefix, b.prefix)
  }

  lemma TimedLeqTotal()
    ensures TotalPreorder(TimedLeq)
  {
  }

  function Without<T>(s: seq<T>, i: nat): seq<T>
    requires i < |s|
  {
    s[..i] + s[i + 1..]
  }

  lemma WithoutCount<T>(s: seq<T>, i: nat)
    requires i < |s|
    ensures multiset(Without(s, i)) == multiset(s) - multiset{s[i]}
  {
    assert s == s[..i] + ([s[i]] + s[i + 1..]);
  }

  /** Two positions of a list occur, as two positions, in every permutation of it. */
  lemma PermutedPair<T>(s: seq<T>, t: seq<T>, i: nat, j: nat) returns (k: nat, m: nat)
    requires multiset(s) == multiset(t) && i < |s| && j < |s| && i != j
    ensures k < |t| && m < |t| && k != m && t[k] == s[i] && t[m] == s[j]
  {
    SameElements(s, t);
    assert s[i] in t;
    k :| 0 <= k < |t| && t[k] == s[i];
    m := OtherIn(s, t, i, j, k);
  }

  lemma OtherIn<T>(s: seq<T>, t: seq<T>, i: nat, j: nat, k: nat) returns (m: nat)
    requires multiset(s) == multiset(t) && i < |s| && j < |s| && i != j && k < |t| && t[k] == s[i]
    ensures m < |t| && m != k && t[m] == s[j]
  {
    var rest, left := Without(s, i), Without(t, k);
    WithoutCount(s, i);
    WithoutCount(t, k);
    SameElements(rest, left);
    assert rest[if j < i then j else j - 1] == s[j];
    assert s[j] in left;
    var n :| 0 <= n < |left| && left[n] == s[j];
    m := if n < k then n else n + 1;
  }

  lemma AcceptablePermutes(s: seq<TimedPrefix>, t: seq<TimedPrefix>)
    requires multiset(s) == multiset(t) && Acceptable(s)
    ensures Acceptable(t)
  {
    SameElements(s, t);
    forall i | 0 <= i < |t|
      ensures Shaped(t[i])
    {
      assert t[i] in s;
    }
    forall i, j | 0 <= i < |t| && 0 <= j < |t| && i != j
      ensures t[i].prefix.Disjoint(t[j].prefix)
    {
      var k, m := PermutedPair(t, s, i, j);
      assert Shaped(s[k]) && Shaped(s[m]);
    }
  }

  lemma CanonicalAcceptable(s: seq<TimedPrefix>)
    requires Canonical(Prefixes(s)) && forall i :: 0 <= i < |s| ==> s[i].deadline != 0
    ensures Acceptable(s)
  {
    var ps := Prefixes(s);
    forall i, j | 0 <= i < |s| && 0 <= j < |s| && i != j
      ensures s[i].prefix.Valid() && s[j].prefix.Valid() && s[i].prefix.Disjoint(s[j].prefix)
    {
      assert ps[i].Valid() && ps[j].Valid();
      assert i < j ==> Before(ps[i], ps[j]);
      assert j < i ==> Before(ps[j], ps[i]);
    }
    forall i | 0 <= i < |s|
      ensures Shaped(s[i])
    {
      assert ps[i].Valid();
    }
  }

  /** In a sorted list, only neighbours need comparing. */
  method NeighboursApart(ordered: seq<TimedPrefix>) returns (ok: bool)
    requires SortedBy(TimedLeq, ordered) && forall i :: 0 <= i < |ordered| ==> Shaped(ordered[i])
    ensures ok <==> Acceptable(ordered)
  {
    ghost var ps := Prefixes(ordered);
    assert ordered != [] ==> Shaped(ordered[0]) && ps[..1] == [ordered[0].prefix];
    var i := 1;
    while i < |ordered|
      invariant 1 <= i && (i <= |ordered| || ordered == [])
      invariant i <= |ordered| ==> Canonical(ps[..i])
    {
      var p, q := ordered[i - 1].prefix, ordered[i].prefix;
      assert Shaped(ordered[i - 1]) && Shaped(ordered[i]) && TimedLeq(ordered[i - 1], ordered[i]);
      EndInFamily(q);
      if !p.Disjoint(q) {
        return false;
      }
      CanonicalSnoc(ps[..i], q);
      assert ps[..i + 1] == ps[..i] + [q];
      i := i + 1;
    }
    assert ps[..|ordered|] == ps;
    forall i | 0 <= i < |ordered|
      ensures ordered[i].deadline != 0
    {
      assert Shaped(ordered[i]);
    }
    CanonicalAcceptable(ordered);
    ok := true;
  }

  /** Accepts exactly the canonical, dated, pairwise disjoint projections, in any order. */
  method ValidateDynamic(values: seq<TimedPrefix>) returns (ok: bool)
    ensures ok <==> Acceptable(values)
  {
    for i := 0 to |values|
      invariant forall k :: 0 <= k < i ==> Shaped(values[k])
    {
      if !values[i].prefix.Valid() || values[i].deadline == 0 {
        return false;
      }
    }
    TimedLeqTotal();
    var ordered := Sort(TimedLeq, values);
    SameElements(ordered, values);
    forall i | 0 <= i < |ordered|
      ensures Shaped(ordered[i])
    {
      assert ordered[i] in values;
    }
    ok := NeighboursApart(ordered);
    if ok {
      AcceptablePermutes(ordered, values);
    } else if Acceptable(values) {
      AcceptablePermutes(values, ordered);
    }
  }

  lemma ProjectionDeadlines(ts: seq<TimedPrefix>, ds: seq<Decision>, f: Family, now: int, i: nat)
    requires Projects(ts, ds, f, now) && i < |ts|
    requires forall d :: d in ds ==> d.deadline != 0
    ensures ts[i].deadline != 0
  {
    assert Prefixes(ts)[i].Valid() && Prefixes(ts)[i].fam == f;
    EndInFamily(ts[i].prefix);
    assert LatestAt(ds, f, now, ts[i].prefix.addr, ts[i].deadline);
    var k :| Bans(ds, f, now, k, ts[i].prefix.addr) && ds[k].deadline == ts[i].deadline;
    assert ds[k] in ds;
  }

  /** Every projection passes the check. */
  lemma ProjectionsAcceptable(v4: seq<TimedPrefix>, v6: seq<TimedPrefix>, ds: seq<Decision>, now: int)
    requires Projects(v4, ds, V4, now) && Projects(v6, ds, V6, now)
    requires forall d :: d in ds ==> d.deadline != 0
    ensures Acceptable(v4 + v6)
  {
    var all := v4 + v6;
    assert Prefixes(all) == Prefixes(v4) + Prefixes(v6);
    forall i | 0 <= i < |all|
      ensures all[i].deadline != 0
    {
      if i < |v4| {
        ProjectionDeadlines(v4, ds, V4, now, i);
      } else {
        ProjectionDeadlines(v6, ds, V6, now, i - |v4|);
      }
    }
    CanonicalAcceptable(all);
  }
}
