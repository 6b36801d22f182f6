/** Packing of a version 7 UUID (section 5.7 of RFC 9562) with the bit operations on numbers. */
module Uuid {

  function Pow2(k: nat): (p: nat)
    ensures p >= 1
  {
    if k == 0 then 1 else 2 * Pow2(k - 1)
  }

  function Bit(b: bool): nat { if b then 1 else 0 }

  /** `a | b`. */
  function Or(a: nat, b: nat): nat
    decreases a + b
  {
    if a == 0 then b
    else if b == 0 then a
    else 2 * Or(a / 2, b / 2) + Bit(a % 2 == 1 || b % 2 == 1)
  }

  /** `a & b`. */
  function And(a: nat, b: nat): nat
    decreases a + b
  {
    if a == 0 || b == 0 then 0
    else 2 * And(a / 2, b / 2) + Bit(a % 2 == 1 && b % 2 == 1)
  }

  /** `a << k`. */
  function Shl(a: nat, k: nat): nat { a * Pow2(k) }

  /** `a >> k`. */
  function Shr(a: nat, k: nat): nat { if k == 0 then a else Shr(a / 2, k - 1) }

  const P4: nat := 0x10
  const P12: nat := 0x1000
  const P48: nat := 0x1_0000_0000_0000
  const P62: nat := 0x4000_0000_0000_0000
  const P64: nat := 0x1_0000_0000_0000_0000
  const P76: nat := 0x1000_0000_0000_0000_0000
  const P80: nat := 0x1_0000_0000_0000_0000_0000
  const P128: nat := 0x1_0000_0000_0000_0000_0000_0000_0000_0000

  lemma {:induction false} Pow2Sum(a: nat, b: nat)
    ensures Pow2(a + b) == Pow2(a) * Pow2(b)
  {
    if a > 0 {
      Pow2Sum(a - 1, b);
    }
  }

  function Doubled(a: nat, k: nat): nat { if k == 0 then a else 2 * Doubled(a, k - 1) }

  lemma {:induction false} ShlDoubles(a: nat, k: nat)
    ensures Doubled(a, k) == Shl(a, k)
  {
    if k > 0 {
      ShlDoubles(a, k - 1);
      assert 2 * (a * Pow2(k - 1)) == a * (2 * Pow2(k - 1));
    }
  }

  lemma Pow2Small()
    ensures Pow2(2) == 4 && Pow2(4) == P4 && Pow2(12) == P12 && Pow2(24) == 0x100_0000
  {
    assert Pow2(2) == 4;
    Pow2Sum(2, 2);
    Pow2Sum(4, 4);
    Pow2Sum(4, 8);
    Pow2Sum(12, 12);
  }

  lemma Pow2Large()
    ensures Pow2(48) == P48 && Pow2(62) == P62 && Pow2(64) == P64
  {
    Pow2Small();
    Pow2Sum(24, 24);
    Pow2Sum(48, 12);
    Pow2Sum(60, 2);
    Pow2Sum(62, 2);
  }

  lemma Pow2Values()
    ensures Pow2(2) == 4 && Pow2(4) == P4 && Pow2(12) == P12 && Pow2(48) == P48
    ensures Pow2(62) == P62 && Pow2(64) == P64 && Pow2(76) == P76 && Pow2(80) == P80
  {
    Pow2Small();
    Pow2Large();
    Pow2Sum(64, 12);
    Pow2Sum(76, 4);
  }

  /** Or-ing a number below 2^k into a multiple of 2^k adds it. */
  lemma {:induction false} OrDisjoint(hi: nat, k: nat, lo: nat)
    requires lo < Pow2(k)
    ensures Or(Shl(hi, k), lo) == Shl(hi, k) + lo
    decreases k
  {
    if k == 0 {
      assert lo == 0 && Shl(hi, k) == hi;
    } else {
      assert Shl(hi, k) == 2 * Shl(hi, k - 1);
      OrDisjoint(hi, k - 1, lo / 2);
    }
  }

  lemma {:induction false} SplitDoubled(v: nat, k: nat, q: nat, r: nat)
    requires r < Pow2(k) && v == Doubled(q, k) + r
    ensures Shr(v, k) == q && And(v, Pow2(k) - 1) == r
    decreases k
  {
    if k > 0 {
      SplitDoubled(v / 2, k - 1, q, r / 2);
    }
  }

  /** Shifting right by k, and masking with 2^k - 1, recover the two parts of (q << k) + r. */
  lemma Split(v: nat, k: nat, q: nat, r: nat)
    requires r < Pow2(k) && v == Shl(q, k) + r
    ensures Shr(v, k) == q && And(v, Pow2(k) - 1) == r
  {
    ShlDoubles(q, k);
    SplitDoubled(v, k, q, r);
  }

  /** The layout: 48 bits of milliseconds, version 7, 12 random bits, variant 10, 62 random bits. */
  function Packed(ts: nat, randA: nat, randB: nat): nat {
    ts * P80 + 7 * P76 + randA * P64 + 2 * P62 + randB
  }

  lemma MaskedTime(tsMs: nat)
    ensures And(tsMs, Pow2(48) - 1) == tsMs % P48
  {
    Pow2Values();
    Split(tsMs, 48, tsMs / P48, tsMs % P48);
  }

  method Uuid7(tsMs: nat, randA: nat, randB: nat) returns (value: nat)
    requires randA < P12 && randB < P62
    ensures value == Packed(tsMs % P48, randA, randB)
    ensures value < P128
  {
    Pow2Values();
    MaskedTime(tsMs);
    var ts := And(tsMs, Pow2(48) - 1);
    value := 0;
    value := Or(value, Shl(ts, 80));
    OrDisjoint(ts, 80, Shl(7, 76));
    value := Or(value, Shl(7, 76));
    ghost var top := ts * P4 + 7;
    assert value == Shl(top, 76);
    OrDisjoint(top, 76, Shl(randA, 64));
    value := Or(value, Shl(randA, 64));
    ghost var upper := top * P12 + randA;
    assert value == Shl(upper, 64);
    OrDisjoint(upper, 64, Shl(2, 62));
    value := Or(value, Shl(2, 62));
    ghost var front := upper * 4 + 2;
    assert value == Shl(front, 62);
    OrDisjoint(front, 62, randB);
    value := Or(value, randB);
  }

  /** Every field is recovered by shifting and masking. */
  lemma FieldsRecovered(ts: nat, randA: nat, randB: nat)
    requires ts < P48 && randA < P12 && randB < P62
    ensures var v := Packed(ts, randA, randB);
            && v < P128
            && Shr(v, 80) == ts
            && And(Shr(v, 76), Pow2(4) - 1) == 7
            && And(Shr(v, 64), Pow2(12) - 1) == randA
            && And(Shr(v, 62), Pow2(2) - 1) == 2
            && And(v, Pow2(62) - 1) == randB
  {
    var v := Packed(ts, randA, randB);
    var top := ts * P4 + 7;
    var upper := top * P12 + randA;
    var front := upper * 4 + 2;
    Pow2Values();
    Split(v, 62, front, randB);
    Split(front, 2, upper, 2);
    Split(v, 64, upper, 2 * P62 + randB);
    Split(upper, 12, top, randA);
    Split(v, 76, top, randA * P64 + 2 * P62 + randB);
    Split(top, 4, ts, 7);
    Split(v, 80, ts, 7 * P76 + randA * P64 + 2 * P62 + randB);
  }

  /** Packing is injective, and the order of the numbers is the order of the fields. */
  lemma OrderIsLexicographic(ts: nat, a: nat, b: nat, ts': nat, a': nat, b': nat)
    requires ts < P48 && a < P12 && b < P62 && ts' < P48 && a' < P12 && b' < P62
    ensures Packed(ts, a, b) < Packed(ts', a', b')
            <==> ts < ts' || (ts == ts' && (a < a' || (a == a' && b < b')))
    ensures Packed(ts, a, b) == Packed(ts', a', b') <==> ts == ts' && a == a' && b == b'
  {
  }

  /** A later millisecond sorts later, until the 48 bits wrap around. */
  lemma LaterSortsLater(ms: nat, a: nat, b: nat, ms': nat, a': nat, b': nat)
    requires a < P12 && b < P62 && a' < P12 && b' < P62
    requires ms < ms' && ms / P48 == ms' / P48
    ensures Packed(ms % P48, a, b) < Packed(ms' % P48, a', b')
  {
    OrderIsLexicographic(ms % P48, a, b, ms' % P48, a', b');
  }
}
