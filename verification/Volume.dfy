/** Disjoint rectangles inside a box cover it exactly when their areas add up to its area.

    Areas are compared instead of points because a box may hold 2^144 of them.
 */
module Volume {

  /** Half-open in both directions. */
  datatype Rect = Rect(a0: nat, a1: nat, p0: nat, p1: nat) {
    ghost predicate Has(a: nat, p: nat) {
      a0 <= a < a1 && p0 <= p < p1
    }

    predicate Valid() {
      a0 <= a1 && p0 <= p1
    }

    function Area(): nat
      requires Valid()
    {
      (a1 - a0) * (p1 - p0)
    }

    predicate Within(b: Rect) {
      b.a0 <= a0 && a1 <= b.a1 && b.p0 <= p0 && p1 <= b.p1
    }

    predicate Meets(r: Rect) {
      a0 < r.a1 && r.a0 < a1 && p0 < r.p1 && r.p0 < p1
    }
  }

  datatype Pt = Pt(a: nat, p: nat)

  ghost function Points(r: Rect): set<Pt> {
    set a: nat, p: nat | r.a0 <= a < r.a1 && r.p0 <= p < r.p1 :: Pt(a, p)
  }

  lemma {:induction false} RowCount(a: nat, p0: nat, p1: nat)
    requires p0 <= p1
    ensures |Points(Rect(a, a + 1, p0, p1))| == p1 - p0
    decreases p1
  {
    var row := Points(Rect(a, a + 1, p0, p1));
    if p0 == p1 {
      assert row == {};
    } else {
      RowCount(a, p0, p1 - 1);
      assert row == Points(Rect(a, a + 1, p0, p1 - 1)) + {Pt(a, p1 - 1)};
    }
  }

  lemma Distributes(x: nat, y: nat)
    ensures (x + 1) * y == x * y + y
  {
  }

  lemma {:induction false} PointCount(r: Rect)
    requires r.Valid()
    ensures |Points(r)| == r.Area()
    decreases r.a1
  {
    if r.a0 == r.a1 {
      assert Points(r) == {};
    } else {
      var less, row := Rect(r.a0, r.a1 - 1, r.p0, r.p1), Rect(r.a1 - 1, r.a1, r.p0, r.p1);
      PointCount(less);
      RowCount(r.a1 - 1, r.p0, r.p1);
      assert Points(r) == Points(less) + Points(row);
      assert Points(less) !! Points(row);
      Distributes(r.a1 - 1 - r.a0, r.p1 - r.p0);
    }
  }

  ghost predicate AllValid(rs: seq<Rect>) {
    forall i :: 0 <= i < |rs| ==> rs[i].Valid()
  }

  /** No two rectangles share a point. */
  ghost predicate Disjoint(rs: seq<Rect>) {
    forall i, j :: 0 <= i < j < |rs| ==> !rs[i].Meets(rs[j])
  }

  function Areas(rs: seq<Rect>): nat
    requires AllValid(rs)
  {
    if rs == [] then 0 else Areas(rs[..|rs| - 1]) + rs[|rs| - 1].Area()
  }

  ghost function Union(rs: seq<Rect>): set<Pt> {
    if rs == [] then {} else Union(rs[..|rs| - 1]) + Points(rs[|rs| - 1])
  }

  lemma {:induction false} UnionHas(rs: seq<Rect>, a: nat, p: nat)
    ensures Pt(a, p) in Union(rs) <==> exists i :: 0 <= i < |rs| && rs[i].Has(a, p)
    decreases |rs|
  {
    if rs != [] {
      var n := |rs| - 1;
      UnionHas(rs[..n], a, p);
      if i :| 0 <= i < |rs| && rs[i].Has(a, p) {
        assert i < n ==> rs[..n][i].Has(a, p);
      }
      if i :| 0 <= i < n && rs[..n][i].Has(a, p) {
        assert rs[i].Has(a, p);
      }
    }
  }

  lemma UnionApart(rs: seq<Rect>, r: Rect)
    requires forall i :: 0 <= i < |rs| ==> !rs[i].Meets(r)
    ensures Union(rs) !! Points(r)
  {
    forall x | x in Union(rs)
      ensures x !in Points(r)
    {
      UnionHas(rs, x.a, x.p);
      var i :| 0 <= i < |rs| && rs[i].Has(x.a, x.p);
      assert !rs[i].Meets(r);
    }
  }

  lemma {:induction false} UnionCount(rs: seq<Rect>)
    requires AllValid(rs) && Disjoint(rs)
    ensures |Union(rs)| == Areas(rs)
    decreases |rs|
  {
    if rs != [] {
      var n := |rs| - 1;
      UnionCount(rs[..n]);
      PointCount(rs[n]);
      UnionApart(rs[..n], rs[n]);
    }
  }

  lemma SubsetCount(s: set<Pt>, t: set<Pt>)
    requires s <= t
    ensures |s| <= |t| && (|s| == |t| <==> s == t)
  {
    assert t == s + (t - s);
  }

  /** Some rectangle has every point of the box. */
  ghost predicate Fills(rs: seq<Rect>, box: Rect) {
    forall a: nat, p: nat :: box.Has(a, p) ==> exists i :: 0 <= i < |rs| && rs[i].Has(a, p)
  }

  /** Equal areas are an exact cover, and conversely. */
  lemma AreasFill(rs: seq<Rect>, box: Rect)
    requires box.Valid() && AllValid(rs) && Disjoint(rs) && forall i :: 0 <= i < |rs| ==> rs[i].Within(box)
    ensures Areas(rs) == box.Area() <==> Fills(rs, box)
  {
    UnionCount(rs);
    PointCount(box);
    forall x | x in Union(rs)
      ensures x in Points(box)
    {
      UnionHas(rs, x.a, x.p);
      var i :| 0 <= i < |rs| && rs[i].Has(x.a, x.p);
    }
    SubsetCount(Union(rs), Points(box));
    if Union(rs) == Points(box) {
      forall a: nat, p: nat | box.Has(a, p)
        ensures exists i :: 0 <= i < |rs| && rs[i].Has(a, p)
      {
        UnionHas(rs, a, p);
        assert Pt(a, p) in Points(box);
      }
    }
    if Fills(rs, box) {
      forall x | x in Points(box)
        ensures x in Union(rs)
      {
        UnionHas(rs, x.a, x.p);
        assert box.Has(x.a, x.p);
      }
    }
  }
}
