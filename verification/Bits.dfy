/**
 * Bit tricks on 32-bit words: the rounding of lib/kvec.h and the bucket mask of lib/cfuhash.c, against the
 * numbers the words stand for.
 */
module Bits {
  import opened TableModel

  function Half(x: bv32): (h: bv32)
    ensures x != 0 ==> h < x
  {
    x >> 1
  }

  predicate Odd(x: bv32) {
    x & 1 == 1
  }

  /** The number a word stands for. */
  function Value(x: bv32): nat {
    if x == 0 then 0 else (if Odd(x) then 1 else 0) + 2 * Value(Half(x))
  }

  lemma Unfold(x: bv32)
    ensures Value(x) == (if Odd(x) then 1 else 0) + 2 * Value(Half(x))
  {
    assert Half(0) == 0;
  }

  /** One bit, and no other, is set. */
  predicate Single(s: bv32) {
    s != 0 && s & (s - 1) == 0
  }

  lemma SingleHalves(s: bv32)
    requires Single(s)
    ensures s != 0
    ensures if Odd(s) then s == 1 else Single(Half(s)) && Half(s - 1) == Half(s) - 1 && Odd(s - 1)
  {}

  /** Words with a single bit stand for the powers of two. */
  lemma {:induction false} SingleBit(s: bv32)
    requires Single(s)
    ensures IsPow2(Value(s))
    decreases s
  {
    hide Single, Half, Odd;
    SingleHalves(s);
    if s != 1 {
      SingleBit(Half(s));
    } else {
      ValueOne();
    }
  }

  lemma ValueOne()
    ensures Value(1) == 1 && Odd(1) && Half(1) == 0
  {
    assert 1 & 1 == 1 as bv32;
    assert Half(1) == 0;
  }

  lemma DoubleRemainder(a: nat, b: nat, bit: nat)
    requires b > 0 && bit <= 1
    ensures (bit + 2 * a) % (2 * b) == bit + 2 * (a % b)
  {
    var q, r := a / b, a % b;
    assert bit + 2 * a == q * (2 * b) + (bit + 2 * r);
    Remainder(bit + 2 * a, 2 * b, q, bit + 2 * r);
  }

  lemma Remainder(a: nat, b: nat, q: nat, r: nat)
    requires 0 <= r < b && a == q * b + r
    ensures a % b == r
  {
    var k := q - a / b;
    assert a == (a / b) * b + a % b;
    assert k * b == q * b - (a / b) * b;
    NoMultiple(k, b);
  }

  lemma NoMultiple(k: int, b: int)
    requires 0 < b && -b < k * b < b
    ensures k == 0
  {
    if k > 0 {
      TimesGrows(k, b);
    } else if k < 0 {
      TimesGrows(-k, b);
      TimesMinus(k, b);
    }
  }

  lemma TimesMinus(k: int, b: int)
    ensures -k * b == -(k * b)
  {}

  lemma {:induction false} TimesGrows(k: int, b: int)
    requires k > 0 && b > 0
    ensures k * b >= b
  {
    if k > 1 {
      TimesGrows(k - 1, b);
      assert k * b == (k - 1) * b + b;
    }
  }

  lemma MaskHalves(h: bv32, m: bv32)
    ensures Half(h & m) == Half(h) & Half(m)
    ensures Odd(h & m) <==> Odd(h) && Odd(m)
  {}

  lemma MaskNone(h: bv32)
    ensures h & (1 - 1) == 0
  {}

  /** Masking with `s - 1` takes the remainder. */
  predicate Masks(h: bv32, s: bv32) {
    Value(s) > 0 && Value(h & (s - 1)) == Value(h) % Value(s)
  }

  lemma MaskOne(h: bv32)
    ensures Masks(h, 1)
  {
    ValueOne();
    MaskNone(h);
    Unfold(0);
    hide Value;
  }

  lemma MaskStep(h: bv32, s: bv32)
    requires Half(s - 1) == Half(s) - 1 && Odd(s - 1) && !Odd(s) && Masks(Half(h), Half(s))
    ensures Masks(h, s)
  {
    MaskParts(h, s);
    DoubleRemainder(Value(Half(h)), Value(Half(s)), if Odd(h) then 1 else 0);
    hide Half, Odd, Value;
  }

  lemma MaskParts(h: bv32, s: bv32)
    requires Half(s - 1) == Half(s) - 1 && Odd(s - 1) && !Odd(s)
    ensures
      var bit := if Odd(h) then 1 else 0;
      && Value(h) == bit + 2 * Value(Half(h)) && Value(s) == 2 * Value(Half(s))
      && Value(h & (s - 1)) == bit + 2 * Value(Half(h) & (Half(s) - 1))
  {
    MaskHalves(h, s - 1);
    Unfold(h);
    Unfold(s);
    Unfold(h & (s - 1));
    hide Half, Odd, Value;
  }

  lemma {:induction false} SingleMasks(h: bv32, s: bv32)
    requires Single(s)
    ensures Masks(h, s)
    decreases s
  {
    hide *;
    SingleHalves(s);
    if s == 1 {
      MaskOne(h);
    } else {
      SingleHalvesEven(s);
      SingleMasks(Half(h), Half(s));
      MaskStep(h, s);
    }
  }

  lemma SingleHalvesEven(s: bv32)
    requires Single(s) && s != 1
    ensures !Odd(s)
  {}

  lemma SingleDouble(s: bv32)
    requires !Odd(s) && Single(Half(s))
    ensures Single(s)
  {}

  lemma OddAlone(s: bv32)
    requires Odd(s) && Half(s) == 0
    ensures Single(s)
  {}

  lemma {:induction false} ValueZero(x: bv32)
    requires Value(x) == 0
    ensures x == 0
    decreases x
  {
    if x != 0 {
      ValueZero(Half(x));
      ZeroHalf(x);
    }
  }

  lemma ZeroHalf(x: bv32)
    requires !Odd(x) && Half(x) == 0
    ensures x == 0
  {}

  lemma Pow2Half(n: nat, h: nat, odd: bool)
    requires IsPow2(n) && n == (if odd then 1 else 0) + 2 * h
    ensures if odd then h == 0 else IsPow2(h)
  {}

  /** Words that stand for powers of two have a single bit. */
  lemma {:induction false} PowerIsSingle(s: bv32)
    requires IsPow2(Value(s))
    ensures Single(s)
    decreases s
  {
    Unfold(s);
    Unfold(0);
    hide Single, Half, Odd, Value, IsPow2;
    Pow2Half(Value(s), Value(Half(s)), Odd(s));
    if Odd(s) {
      ValueZero(Half(s));
      OddAlone(s);
    } else {
      PowerNotZero(s);
      PowerIsSingle(Half(s));
      SingleDouble(s);
    }
  }

  lemma PowerNotZero(s: bv32)
    requires IsPow2(Value(s))
    ensures s != 0
  {}

  /** The bucket index: masking with a power of two less one takes the remainder. */
  lemma MaskIsRemainder(h: bv32, s: bv32)
    requires IsPow2(Value(s))
    ensures Value(h & (s - 1)) == Value(h) % Value(s)
  {
    PowerIsSingle(s);
    SingleMasks(h, s);
    hide Value, IsPow2;
  }

  /** The table's bucket is the hash word masked with the bucket count less one. */
  lemma BucketIsMasked(cfg: Config, k: Key, h: bv32, s: bv32)
    requires IsPow2(Value(s)) && cfg.hash(Canon(cfg.flags, k)) == Value(h)
    ensures Bucket(cfg, k, Value(s)) == Value(h & (s - 1))
  {
    MaskIsRemainder(h, s);
    hide Value, IsPow2;
  }

  lemma LessHalves(x: bv32)
    requires x != 0
    ensures if Odd(x) then Half(x - 1) == Half(x) && !Odd(x - 1) else Half(x) != 0 && Half(x - 1) == Half(x) - 1 && Odd(x - 1)
  {}

  lemma ValueLessOdd(x: bv32)
    requires x != 0 && Odd(x)
    ensures Value(x - 1) == Value(x) - 1
  {
    LessHalves(x);
    Unfold(x - 1);
    Unfold(x);
    hide *;
  }

  lemma ValueLessEven(x: bv32)
    requires x != 0 && !Odd(x) && Value(Half(x) - 1) == Value(Half(x)) - 1
    ensures Value(x - 1) == Value(x) - 1
  {
    LessHalves(x);
    Unfold(x - 1);
    Unfold(x);
    hide *;
  }

  lemma EvenHalf(x: bv32)
    requires x != 0 && !Odd(x)
    ensures Half(x) != 0
  {}

  lemma {:induction false} ValueLess(x: bv32)
    requires x != 0
    ensures Value(x - 1) == Value(x) - 1
    decreases x
  {
    hide *;
    if Odd(x) {
      ValueLessOdd(x);
    } else {
      EvenHalf(x);
      ValueLess(Half(x));
      ValueLessEven(x);
    }
  }

  lemma SubsetHalves(a: bv32, b: bv32)
    requires a & b == b
    ensures Half(a) & Half(b) == Half(b) && (Odd(b) ==> Odd(a))
  {}

  lemma SubsetStep(a: bv32, b: bv32)
    requires (Odd(b) ==> Odd(a)) && Value(Half(b)) <= Value(Half(a))
    ensures Value(b) <= Value(a)
  {
    Unfold(a);
    Unfold(b);
    hide *;
  }

  lemma SubsetNone(a: bv32)
    ensures Value(0) <= Value(a)
  {}

  /** A word with more ones stands for no smaller number. */
  lemma {:induction false} SubsetOrder(a: bv32, b: bv32)
    requires a & b == b
    ensures Value(b) <= Value(a)
    decreases b
  {
    hide *;
    if b == 0 {
      SubsetNone(a);
    } else {
      SubsetHalves(a, b);
      SubsetOrder(Half(a), Half(b));
      SubsetStep(a, b);
    }
  }

  const TOP: bv32 := 0x8000_0000

  /** The five steps that copy the highest one of a word to all the places below it. */
  function Smear(a: bv32): bv32 {
    var b := a | (a >> 1);
    var c := b | (b >> 2);
    var d := c | (c >> 4);
    var e := d | (d >> 8);
    e | (e >> 16)
  }

  /** `a` lies below the bit `p`. */
  predicate Covers(a: bv32, p: bv32) {
    a & (p - 1) == a
  }

  /** The bit half of `p`, if there is one, is set in `a`. */
  predicate Touches(a: bv32, p: bv32) {
    p != 1 ==> a & Half(p) == Half(p)
  }

  lemma SmearCovers(a: bv32)
    ensures Covers(a, Smear(a) + 1)
  {}

  lemma SmearTouches(a: bv32)
    requires a & TOP == 0
    ensures Touches(a, Smear(a) + 1)
  {}

  lemma SmearSingle(a: bv32)
    requires a & TOP == 0
    ensures Single(Smear(a) + 1)
  {
    SmearFills(a);
    hide Smear;
    FilledIsSingle(Smear(a));
  }

  lemma SmearFills(a: bv32)
    ensures Smear(a) & (Smear(a) >> 1) == Smear(a) >> 1
    ensures a & TOP == 0 ==> Smear(a) & TOP == 0
  {}

  lemma FilledIsSingle(m: bv32)
    requires m & (m >> 1) == m >> 1 && m & TOP == 0
    ensures Single(m + 1)
  {}

  lemma TopClear(x: bv32)
    requires 1 <= x <= TOP
    ensures (x - 1) & TOP == 0 && x != 0
  {}

  lemma SmearBounds(a: bv32)
    requires a & TOP == 0
    ensures
      var p := Smear(a) + 1;
      Value(a) < Value(p) && IsPow2(Value(p)) && (Value(p) == 1 || Value(p) <= 2 * Value(a))
  {
    hide *;
    SmearSingle(a);
    SmearCovers(a);
    SmearTouches(a);
    BitBounds(a, Smear(a) + 1);
  }

  lemma BitBounds(a: bv32, p: bv32)
    requires Single(p) && Covers(a, p) && Touches(a, p)
    ensures Value(a) < Value(p) && IsPow2(Value(p)) && (Value(p) == 1 || Value(p) <= 2 * Value(a))
  {
    hide Value, Single, Half, Odd;
    SingleBit(p);
    hide IsPow2;
    MaskIsRemainder(a, p);
    RemainderBelow(Value(a), Value(p));
    if p != 1 {
      SingleHalvesEven(p);
      Unfold(p);
      SubsetOrder(a, Half(p));
    } else {
      ValueOne();
    }
  }

  lemma RemainderBelow(a: nat, b: nat)
    requires b > 0 && a == a % b
    ensures a < b
  {}

  lemma LeastPower(v: nat, w: nat)
    requires v > 0 && v - 1 < w && IsPow2(w) && (w == 1 || w <= 2 * (v - 1))
    ensures w == HashSize(v)
  {
    HashSizeIsLeast(v);
    if HashSize(v) < w {
      Pow2Apart(HashSize(v), w);
    }
  }

  /** The smeared word, plus one, stands for the least power of two that is not below the number. */
  lemma RoundupIsHashSize(x: bv32)
    requires 1 <= x <= TOP
    ensures Value(x) > 0 && Value(Smear(x - 1) + 1) == HashSize(Value(x))
  {
    hide *;
    TopClear(x);
    SmearBounds(x - 1);
    ValueLess(x);
    LeastPower(Value(x), Value(Smear(x - 1) + 1));
  }

  /** `kv_roundup32`, which rewrites its argument: from 1 to 2^31 it agrees with the loop of `hash_size`. */
  method Roundup32(size: bv32) returns (x: bv32)
    requires 1 <= size <= TOP
    ensures Value(x) == HashSize(Value(size))
    ensures IsPow2(Value(x)) && Value(size) <= Value(x) < 2 * Value(size)
  {
    hide Value, IsPow2;
    x := size - 1;
    x := x | (x >> 1);
    x := x | (x >> 2);
    x := x | (x >> 4);
    x := x | (x >> 8);
    x := x | (x >> 16);
    x := x + 1;
    RoundupIsHashSize(size);
    HashSizeIsLeast(Value(size));
  }
}
