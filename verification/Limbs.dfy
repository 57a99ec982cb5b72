/** 128-bit positions as two 64-bit limbs, and the boundary one past the last
    address (internal/crowdsec/projection.go:14-22, 162-257).

    `Pos` gives the number a boundary stands for; the lemmas show that carries,
    comparison and alignment tests on limbs compute with those numbers.
 */
module Limbs {
  import opened Address

  const TWO64: nat := 0x1_0000_0000_0000_0000

  datatype U128 = U128(hi: nat, lo: nat) {
    predicate Valid() {
      hi < TWO64 && lo < TWO64
    }

    function Value(): nat {
      hi * TWO64 + lo
    }
  }

  /** `Top` is the position just past the last address of a family. */
  datatype Boundary = At(value: U128) | Top {
    ghost predicate Valid(f: Family) {
      At? ==> value.Valid() && value.Value() < Pow2(Width(f))
    }

    ghost function Pos(f: Family): nat {
      if Top? then Pow2(Width(f)) else value.Value()
    }
  }

  function Split(x: nat): (u: U128)
    requires x < TWO64 * TWO64
    ensures u.Valid() && u.Value() == x
  {
    U128(x / TWO64, x % TWO64)
  }

  lemma Pow2Square(n: nat, v: nat)
    requires Pow2(n) == v
    ensures Pow2(2 * n) == v * v
  {
    Pow2Splits(n, n);
  }

  lemma Pow2Of32()
    ensures Pow2(32) == 0x1_0000_0000
  {
    Pow2Square(4, 16);
    Pow2Square(8, 256);
    Pow2Square(16, 65536);
  }

  lemma Pow2Of64()
    ensures Pow2(64) == TWO64
  {
    Pow2Of32();
    Pow2Square(32, 0x1_0000_0000);
  }

  lemma Pow2Of128()
    ensures Pow2(128) == TWO64 * TWO64
  {
    Pow2Of64();
    Pow2Square(64, TWO64);
  }

  // ---------- Comparison ----------

  function CompareU128(l: U128, r: U128): int {
    if l.hi < r.hi then -1
    else if l.hi > r.hi then 1
    else if l.lo < r.lo then -1
    else if l.lo > r.lo then 1
    else 0
  }

  function CompareBoundary(l: Boundary, r: Boundary): int {
    if l.Top? then (if r.Top? then 0 else 1)
    else if r.Top? then -1
    else CompareU128(l.value, r.value)
  }

  lemma CompareIsOrder(f: Family, l: Boundary, r: Boundary)
    requires l.Valid(f) && r.Valid(f)
    ensures CompareBoundary(l, r) < 0 <==> l.Pos(f) < r.Pos(f)
    ensures CompareBoundary(l, r) == 0 <==> l.Pos(f) == r.Pos(f)
    ensures CompareBoundary(l, r) == 0 <==> l == r
  {
  }

  // ---------- Adding a power of two ----------

  /** Addition on 64-bit words: the wrapped sum and the carry out. */
  function Add64(x: nat, y: nat, carry: nat): (nat, nat) {
    ((x + y + carry) % TWO64, (x + y + carry) / TWO64)
  }

  function AddPower(start: U128, sizeBits: nat, width: nat): Boundary {
    if sizeBits == width then Top
    else if sizeBits < 64 then
      var (lo, carry) := Add64(start.lo, Pow2(sizeBits), 0);
      var (hi, overflow) := Add64(start.hi, 0, carry);
      if overflow != 0 || (width < 64 && (hi != 0 || lo >= Pow2(width))) then Top else At(U128(hi, lo))
    else if sizeBits == 64 then
      var (hi, overflow) := Add64(start.hi, 1, 0);
      if overflow != 0 then Top else At(U128(hi, start.lo))
    else
      var (hi, overflow) := Add64(start.hi, Pow2(sizeBits - 64), 0);
      if overflow != 0 then Top else At(U128(hi, start.lo))
  }

  lemma CarryLow(u: U128, p: nat)
    requires u.Valid() && p < TWO64
    ensures
      var (lo, carry) := Add64(u.lo, p, 0);
      var (hi, overflow) := Add64(u.hi, 0, carry);
      && U128(hi, lo).Valid()
      && U128(hi, lo).Value() + overflow * (TWO64 * TWO64) == u.Value() + p
  {
    var (lo, carry) := Add64(u.lo, p, 0);
    assert u.lo + p == carry * TWO64 + lo;
  }

  lemma AddPowerV4(start: U128, h: nat)
    requires start.hi == 0 && h < 32 && start.lo + Pow2(h) <= Pow2(32) == 0x1_0000_0000
    ensures AddPower(start, h, 32).Valid(V4)
    ensures AddPower(start, h, 32).Pos(V4) == start.Value() + Pow2(h)
  {
    assert Add64(start.lo, Pow2(h), 0) == (start.lo + Pow2(h), 0);
    assert Add64(0, 0, 0) == (0, 0);
  }

  lemma AddPowerLow(start: U128, h: nat)
    requires start.Valid() && h < 64 && Pow2(h) < TWO64
    requires start.Value() + Pow2(h) <= Pow2(128) == TWO64 * TWO64
    ensures AddPower(start, h, 128).Valid(V6)
    ensures AddPower(start, h, 128).Pos(V6) == start.Value() + Pow2(h)
  {
    CarryLow(start, Pow2(h));
  }

  lemma AddPowerHigh(start: U128, h: nat)
    requires start.Valid() && 64 <= h < 128
    requires start.Value() + Pow2(h) <= Pow2(128) && Pow2(h) == Pow2(h - 64) * TWO64
    ensures AddPower(start, h, 128).Valid(V6)
    ensures AddPower(start, h, 128).Pos(V6) == start.Value() + Pow2(h)
  {
    Pow2Of128();
  }

  /** The end of an aligned block, computed with carries, is the number past its last address. */
  lemma AddPowerCorrect(f: Family, start: U128, h: nat)
    requires start.Valid() && start.Value() < Pow2(Width(f)) && h <= Width(f)
    requires Aligned(start.Value(), h)
    ensures AddPower(start, h, Width(f)).Valid(f)
    ensures AddPower(start, h, Width(f)).Pos(f) == start.Value() + Pow2(h)
  {
    BlockFits(f, start.Value(), h);
    if h == Width(f) {
      AddPowerFull(f, start);
    } else if f.V4? {
      AddPowerNarrow(start, h);
    } else {
      AddPowerWide(start, h);
    }
  }

  lemma AddPowerFull(f: Family, start: U128)
    requires start.Valid() && start.Value() < Pow2(Width(f)) && Aligned(start.Value(), Width(f))
    ensures AddPower(start, Width(f), Width(f)).Valid(f)
    ensures AddPower(start, Width(f), Width(f)).Pos(f) == start.Value() + Pow2(Width(f))
  {
    BelowFullWidth(start.Value(), Width(f));
  }

  lemma AddPowerNarrow(start: U128, h: nat)
    requires start.Valid() && start.Value() < Pow2(32) && h < 32 && start.Value() + Pow2(h) <= Pow2(32)
    ensures AddPower(start, h, 32).Valid(V4) && AddPower(start, h, 32).Pos(V4) == start.Value() + Pow2(h)
  {
    Pow2Of32();
    AddPowerV4(start, h);
  }

  lemma AddPowerWide(start: U128, h: nat)
    requires start.Valid() && h < 128 && start.Value() + Pow2(h) <= Pow2(128)
    ensures AddPower(start, h, 128).Valid(V6) && AddPower(start, h, 128).Pos(V6) == start.Value() + Pow2(h)
  {
    Pow2Of64();
    if h < 64 {
      Pow2Of128();
      Pow2Monotonic(h + 1, 64);
      AddPowerLow(start, h);
    } else {
      Pow2Splits(h - 64, 64);
      AddPowerHigh(start, h);
    }
  }

  lemma BlockFits(f: Family, x: nat, h: nat)
    requires h <= Width(f) && Aligned(x, h) && x < Pow2(Width(f))
    ensures x + Pow2(h) <= Pow2(Width(f))
  {
    PowersAligned(h, Width(f));
    AlignedGap(x, Pow2(Width(f)), h);
  }

  // ---------- Alignment ----------

  function AlignedU128(start: U128, sizeBits: nat, width: nat): bool {
    if sizeBits == 0 then true
    else if sizeBits == width then start.hi == 0 && start.lo == 0
    else if sizeBits < 64 then Aligned(start.lo, sizeBits)
    else if sizeBits == 64 then start.lo == 0
    else start.lo == 0 && Aligned(start.hi, sizeBits - 64)
  }

  lemma {:induction false} AlignedLow(hi: nat, k: nat, lo: nat, s: nat)
    requires s <= k
    ensures Aligned(hi * Pow2(k) + lo, s) <==> Aligned(lo, s)
    decreases s
  {
    if s > 0 {
      Halve(hi, k, lo);
      AlignedLow(hi, k - 1, lo / 2, s - 1);
    }
  }

  lemma Halve(hi: nat, k: nat, lo: nat)
    requires k > 0
    ensures (hi * Pow2(k) + lo) % 2 == lo % 2
    ensures (hi * Pow2(k) + lo) / 2 == hi * Pow2(k - 1) + lo / 2
  {
    assert hi * Pow2(k) == 2 * (hi * Pow2(k - 1));
  }

  lemma {:induction false} AlignedHigh(hi: nat, k: nat, lo: nat, j: nat)
    requires lo < Pow2(k)
    ensures Aligned(hi * Pow2(k) + lo, k + j) <==> lo == 0 && Aligned(hi, j)
    decreases k
  {
    if k > 0 {
      Halve(hi, k, lo);
      AlignedHigh(hi, k - 1, lo / 2, j);
    }
  }

  lemma BelowFullWidth(x: nat, w: nat)
    requires x < Pow2(w)
    ensures Aligned(x, w) <==> x == 0
  {
    AlignedHigh(0, w, x, 0);
  }

  lemma LimbValue(u: U128)
    requires u.Valid()
    ensures u.Value() == u.hi * Pow2(64) + u.lo && u.lo < Pow2(64)
  {
    Pow2Of64();
  }

  lemma AlignedU128Correct(f: Family, start: U128, h: nat)
    requires start.Valid() && start.Value() < Pow2(Width(f)) && h <= Width(f)
    ensures AlignedU128(start, h, Width(f)) <==> Aligned(start.Value(), h)
  {
    if h == Width(f) {
      BelowFullWidth(start.Value(), h);
    } else {
      LimbValue(start);
      if h < 64 {
        AlignedLow(start.hi, 64, start.lo, h);
      } else {
        AlignedHigh(start.hi, 64, start.lo, h - 64);
      }
    }
  }
}
