/** Addresses, CIDR blocks and their algebra (section 3.1 of RFC 4632).

    An address is a number below two to the width of its family, and a prefix is
    an aligned block of addresses.  Everything that follows rests on `Laminar`:
    two aligned blocks of one family are nested or disjoint, never crossing.
 */
module Address {

  // ---------- Powers of two ----------

  function Pow2(n: nat): (p: nat)
    ensures p >= 1
  {
    if n == 0 then 1 else 2 * Pow2(n - 1)
  }

  lemma {:induction false} Pow2Monotonic(a: nat, b: nat)
    requires a <= b
    ensures Pow2(a) <= Pow2(b)
    ensures a < b ==> 2 * Pow2(a) <= Pow2(b)
    decreases b
  {
    if a < b {
      Pow2Monotonic(a, b - 1);
    }
  }

  lemma {:induction false} Pow2Splits(a: nat, b: nat)
    ensures Pow2(a + b) == Pow2(a) * Pow2(b)
    decreases b
  {
    if b > 0 {
      Pow2Splits(a, b - 1);
      calc {
        Pow2(a + b);
        2 * Pow2(a + (b - 1));
        2 * (Pow2(a) * Pow2(b - 1));
        Pow2(a) * (2 * Pow2(b - 1));
        Pow2(a) * Pow2(b);
      }
    }
  }

  // ---------- Divisibility ----------

  lemma MulMonotonic(a: int, b: int, q: nat)
    requires a <= b
    ensures a * q <= b * q
  {
    assert (b - a) * q >= 0;
  }

  lemma MultipleMod(k: int, q: nat)
    requires q >= 1
    ensures (k * q) % q == 0
  {
    var r, d := (k * q) % q, (k * q) / q;
    assert k * q == d * q + r;
    assert (k - d) * q == r;
    if k - d >= 1 {
      MulMonotonic(1, k - d, q);
    } else if k - d <= -1 {
      MulMonotonic(k - d, -1, q);
    }
  }


  // ---------- Alignment ----------

  /** The low `h` bits are zero. */
  predicate Aligned(x: nat, h: nat) {
    h == 0 || (x % 2 == 0 && Aligned(x / 2, h - 1))
  }

  /** `x` with its low `h` bits cleared: the network address of a host. */
  function ClearLow(x: nat, h: nat): (r: nat)
    ensures Aligned(r, h) && r <= x < r + Pow2(h)
  {
    if h == 0 then x else 2 * ClearLow(x / 2, h - 1)
  }

  /** A number aligned to a large power of two is aligned to every smaller one. */
  lemma {:induction false} AlignedDown(x: nat, a: nat, b: nat)
    requires a <= b && Aligned(x, b)
    ensures Aligned(x, a)
    decreases a
  {
    if a > 0 {
      AlignedDown(x / 2, a - 1, b - 1);
    }
  }

  lemma DoubleAligned(x: nat, q: nat)
    requires q >= 1
    ensures x % q == 0 <==> (2 * x) % (2 * q) == 0
  {
    if x % q == 0 {
      var k := x / q;
      assert 2 * x == k * (2 * q);
      MultipleMod(k, 2 * q);
    }
    if (2 * x) % (2 * q) == 0 {
      var k := (2 * x) / (2 * q);
      assert 2 * x == k * (2 * q);
      assert x == k * q;
      MultipleMod(k, q);
    }
  }

  lemma MultipleOfEven(x: nat, q: nat)
    requires q >= 1 && x % (2 * q) == 0
    ensures x % 2 == 0
  {
    var k := x / (2 * q);
    assert x == k * (2 * q) == 2 * (k * q);
  }

  /** Zero low bits are divisibility by a power of two. */
  lemma {:induction false} AlignedIsMultiple(x: nat, h: nat)
    ensures Aligned(x, h) <==> x % Pow2(h) == 0
    decreases h
  {
    if h > 0 {
      if x % 2 == 0 {
        AlignedIsMultiple(x / 2, h - 1);
        DoubleAligned(x / 2, Pow2(h - 1));
      } else if x % Pow2(h) == 0 {
        MultipleOfEven(x, Pow2(h - 1));
      }
    }
  }

  lemma PowersAligned(a: nat, b: nat)
    requires a <= b
    ensures Aligned(Pow2(b), a)
  {
    Pow2Splits(b - a, a);
    MultipleMod(Pow2(b - a), Pow2(a));
    AlignedIsMultiple(Pow2(b), a);
  }

  lemma AlignedSum(x: nat, y: nat, h: nat)
    requires Aligned(x, h) && Aligned(y, h)
    ensures Aligned(x + y, h)
  {
    if h > 0 {
      AlignedSum(x / 2, y / 2, h - 1);
      assert (x + y) / 2 == x / 2 + y / 2;
    }
  }

  /** Aligned numbers are at least one block apart. */
  lemma {:induction false} AlignedGap(x: nat, y: nat, h: nat)
    requires Aligned(x, h) && Aligned(y, h) && x < y
    ensures x + Pow2(h) <= y
    decreases h
  {
    if h > 0 {
      AlignedGap(x / 2, y / 2, h - 1);
    }
  }

  lemma NestedOrApart(x: nat, a: nat, y: nat, b: nat)
    requires b <= a && Aligned(x, a) && Aligned(y, b)
    ensures (x <= y && y + Pow2(b) <= x + Pow2(a)) || y + Pow2(b) <= x || x + Pow2(a) <= y
  {
    AlignedDown(x, b, a);
    PowersAligned(b, a);
    AlignedSum(x, Pow2(a), b);
    if y < x {
      AlignedGap(y, x, b);
    } else if y < x + Pow2(a) {
      AlignedGap(y, x + Pow2(a), b);
    }
  }

  /** An aligned block inside a block of twice its size is one of its halves. */
  lemma HalfOf(base: nat, x: nat, h: nat)
    requires Aligned(x, h) && Aligned(base, h + 1)
    requires base <= x < base + Pow2(h + 1)
    ensures x == base || x == base + Pow2(h)
  {
    AlignedDown(base, h, h + 1);
    PowersAligned(h, h);
    AlignedSum(base, Pow2(h), h);
    if base < x {
      AlignedGap(base, x, h);
      if base + Pow2(h) < x {
        AlignedGap(base + Pow2(h), x, h);
      }
    }
  }

  // ---------- Prefixes ----------

  datatype Family = V4 | V6

  /** Address length in bits. */
  function Width(f: Family): nat {
    if f.V4? then 32 else 128
  }

  /** `bits` leading bits are fixed; `addr` is the first address of the block. */
  datatype Prefix = Prefix(fam: Family, addr: nat, bits: nat) {

    function Size(): nat
      requires bits <= Width(fam)
    {
      Pow2(Width(fam) - bits)
    }

    /** A masked (host bits cleared) prefix of its family. */
    predicate Valid() {
      bits <= Width(fam) && addr < Pow2(Width(fam)) && Aligned(addr, Width(fam) - bits)
    }

    /** One past the last address. */
    function End(): nat
      requires bits <= Width(fam)
    {
      addr + Size()
    }

    predicate Has(f: Family, a: nat)
      requires bits <= Width(fam)
    {
      f == fam && addr <= a < End()
    }

    predicate Covers(q: Prefix)
      requires bits <= Width(fam) && q.bits <= Width(q.fam)
    {
      fam == q.fam && addr <= q.addr && q.End() <= End()
    }

    predicate Disjoint(q: Prefix)
      requires bits <= Width(fam) && q.bits <= Width(q.fam)
    {
      fam != q.fam || End() <= q.addr || q.End() <= addr
    }
  }

  /** Some block of the list holds the address. */
  ghost predicate Covered(blocks: seq<Prefix>, f: Family, a: nat) {
    exists i :: 0 <= i < |blocks| && blocks[i].Valid() && blocks[i].Has(f, a)
  }

  lemma EndInFamily(p: Prefix)
    requires p.Valid()
    ensures p.addr < p.End() <= Pow2(Width(p.fam))
  {
    var h, w := Width(p.fam) - p.bits, Width(p.fam);
    PowersAligned(h, w);
    AlignedGap(p.addr, Pow2(w), h);
  }

  /** Two aligned blocks of one family are nested, the longer inside the shorter, or disjoint. */
  lemma Laminar(p: Prefix, q: Prefix)
    requires p.Valid() && q.Valid() && p.bits <= q.bits
    ensures p.Covers(q) || p.Disjoint(q)
  {
    if p.fam == q.fam {
      NestedOrApart(p.addr, Width(p.fam) - p.bits, q.addr, Width(p.fam) - q.bits);
    }
  }

  /** Prefixes that cover each other are equal. */
  lemma CoversAntisymmetric(p: Prefix, q: Prefix)
    requires p.Valid() && q.Valid() && p.Covers(q) && q.Covers(p)
    ensures p == q
  {
    var hp, hq := Width(p.fam) - p.bits, Width(p.fam) - q.bits;
    if hp < hq {
      Pow2Monotonic(hp, hq);
    } else if hq < hp {
      Pow2Monotonic(hq, hp);
    }
  }

  /** A block that covers another is no longer (in bits) than it. */
  lemma CoversShorter(p: Prefix, q: Prefix)
    requires p.Valid() && q.Valid() && p.Covers(q)
    ensures p.bits <= q.bits
    ensures p.bits == q.bits ==> p == q
  {
    var hp, hq := Width(p.fam) - p.bits, Width(p.fam) - q.bits;
    if hp < hq {
      Pow2Monotonic(hp, hq);
    }
    if p.bits == q.bits {
      CoversAntisymmetric(p, q);
    }
  }

  // ---------- Halves and parents ----------

  /** The two halves of a block, lower half first (internal/prefix/set.go:249-274). */
  function Left(p: Prefix): Prefix {
    Prefix(p.fam, p.addr, p.bits + 1)
  }

  function Right(p: Prefix): Prefix
    requires p.bits < Width(p.fam)
  {
    Prefix(p.fam, p.addr + Pow2(Width(p.fam) - p.bits - 1), p.bits + 1)
  }

  lemma Halves(p: Prefix)
    requires p.Valid() && p.bits < Width(p.fam)
    ensures Left(p).Valid() && Right(p).Valid()
    ensures Left(p).addr == p.addr && Left(p).End() == Right(p).addr && Right(p).End() == p.End()
  {
    var h := Width(p.fam) - p.bits - 1;
    AlignedDown(p.addr, h, h + 1);
    PowersAligned(h, h);
    AlignedSum(p.addr, Pow2(h), h);
    EndInFamily(p);
  }

  /** The enclosing block, one bit shorter. */
  function Parent(p: Prefix): Prefix
    requires 0 < p.bits <= Width(p.fam)
  {
    Prefix(p.fam, ClearLow(p.addr, Width(p.fam) - p.bits + 1), p.bits - 1)
  }

  lemma ParentIsBlock(p: Prefix)
    requires p.Valid() && 0 < p.bits
    ensures Parent(p).Valid() && Parent(p).Covers(p)
    ensures p == Left(Parent(p)) || p == Right(Parent(p))
  {
    var h := Width(p.fam) - p.bits;
    HalfOf(Parent(p).addr, p.addr, h);
  }

  /** Halves of one block. */
  ghost predicate Siblings(p: Prefix, q: Prefix) {
    p.Valid() && q.Valid() && p != q && 0 < p.bits && 0 < q.bits && Parent(p) == Parent(q)
  }

  /** Of two siblings, one is the lower half of their parent and ends where the other starts. */
  lemma SiblingsMeet(p: Prefix, q: Prefix)
    requires Siblings(p, q)
    ensures Parent(p).Valid() && Parent(p).Covers(p) && Parent(p).Covers(q)
    ensures (p.End() == q.addr && p.addr == Parent(p).addr && q.End() == Parent(p).End())
         || (q.End() == p.addr && q.addr == Parent(p).addr && p.End() == Parent(p).End())
    ensures p.fam == q.fam
  {
    ParentIsBlock(p);
    ParentIsBlock(q);
    Halves(Parent(p));
  }

  lemma HalvesAreSiblings(b: Prefix)
    requires b.Valid() && b.bits < Width(b.fam)
    ensures Siblings(Left(b), Right(b)) && Parent(Left(b)) == b
  {
    Halves(b);
    EndInFamily(Left(b));
    EndInFamily(Right(b));
    HasParent(Left(b), b);
    HasParent(Right(b), b);
  }

  lemma HasParent(p: Prefix, b: Prefix)
    requires p.Valid() && b.Valid() && b.Covers(p) && p.bits == b.bits + 1
    ensures Parent(p) == b
  {
    ParentIsBlock(p);
    EndInFamily(p);
    Laminar(Parent(p), b);
    CoversShorter(Parent(p), b);
  }
}
