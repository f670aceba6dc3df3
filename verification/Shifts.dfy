/** Bits of limbs: or, shifts by less than a limb, and the highest bit. */
module Shifts {
  import opened Numerals
  import opened Limbs

  /** `x | y`. */
  function BitOr(x: nat, y: nat): nat {
    if x == 0 then y else if y == 0 then x
    else (if x % 2 == 1 || y % 2 == 1 then 1 else 0) + 2 * BitOr(x / 2, y / 2)
  }

  /** Bits above `k` and bits below `k` do not meet. */
  lemma {:induction false} OrDisjoint(x: nat, y: nat, k: nat)
    requires x % Pow(2, k) == 0 && y < Pow(2, k)
    ensures BitOr(x, y) == BitOr(y, x) == x + y
    decreases k
  {
    if k > 0 {
      var q := x / Pow(2, k);
      assert x == q * Pow(2, k);
      PowNext(2, k - 1);
      Regroup(q, Pow(2, k - 1), 2);
      assert x == 2 * (q * Pow(2, k - 1));
      QuotientAndRest(q, Pow(2, k - 1), 0);
      OrDisjoint(x / 2, y / 2, k - 1);
    }
  }

  lemma LimbIsPower()
    ensures Pow(2, 32) == LIMB
  {
    hide Pow;
    SmallPower();
    PowAdd(2, 8, 8);
    PowAdd(2, 16, 16);
  }

  lemma {:induction false} LimbPower(i: nat)
    ensures Pow(LIMB, i) == Pow(2, 32 * i)
  {
    LimbIsPower();
    PowMul(2, 32, i);
  }

  /** `x << s`, in a limb. */
  function Shl(x: nat, s: nat): nat {
    x * Pow(2, s) % LIMB
  }

  /** `x >> s`. */
  function Shr(x: nat, s: nat): nat {
    x / Pow(2, s)
  }

  /** The bits of `x` that `x >> s` drops. */
  function LowBits(x: nat, s: nat): nat {
    x % Pow(2, s)
  }

  /** Splitting a limb that is moved up by `s` bits: what stays in the limb, and what goes to the next. */
  lemma UpParts(x: nat, s: nat, carry: nat)
    requires x < LIMB && s < 32 && carry < Pow(2, s)
    ensures var n := carry + Pow(2, s) * x;
            && n % LIMB == BitOr(carry, Shl(x, s))
            && n / LIMB == (if s == 0 then 0 else Shr(x, 32 - s)) < Pow(2, s)
  {
    hide Pow, BitOr;
    LimbIsPower();
    PowAdd(2, s, 32 - s);
    var p, q := Pow(2, s), Pow(2, 32 - s);
    var hi, lo := x / q, x % q;
    UpSplit(x, p, q, hi, lo, carry);
    QuotientAndRest(hi, LIMB, lo * p);
    QuotientAndRest(hi, LIMB, lo * p + carry);
    QuotientAndRest(lo, p, 0);
    OrDisjoint(lo * p, carry, s);
    HighPart(x, hi, q, p);
    if s == 0 {
      PowZero(2);
    }
  }

  lemma UpSplit(x: nat, p: nat, q: nat, hi: nat, lo: nat, carry: nat)
    requires LIMB == p * q && q > 0 && hi == x / q && lo == x % q && carry < p
    ensures x * p == p * x == hi * LIMB + lo * p && lo * p + carry < LIMB
  {
    assert x == hi * q + lo;
    Distribute(hi * q, lo, p);
    Regroup(hi, q, p);
    assert q * p == LIMB;
    MulMonotone(lo + 1, q, p, p);
    Distribute(lo, 1, p);
  }

  lemma HighPart(x: nat, hi: nat, q: nat, p: nat)
    requires x < LIMB == p * q && q > 0 && hi == x / q
    ensures hi < p && (p == 1 ==> hi == 0)
  {
    if hi >= p {
      MulMonotone(p, hi, q, q);
    }
  }

  /** Splitting a limb that is moved down by `s` bits: what goes to the limb below, and what stays. */
  lemma DownParts(x: nat, s: nat)
    requires x < LIMB && s < 32
    ensures s > 0 ==> Shl(x, 32 - s) == LowBits(x, s) * Pow(2, 32 - s)
    ensures Shr(x, s) < Pow(2, 32 - s)
    ensures LowBits(x, s) < Pow(2, s)
  {
    hide Pow;
    LimbIsPower();
    PowAdd(2, s, 32 - s);
    var p, q := Pow(2, s), Pow(2, 32 - s);
    UpSplit(x, q, p, x / p, x % p, 0);
    QuotientAndRest(x / p, LIMB, x % p * q);
    HighPart(x, x / p, p, q);
  }

  // ----- The highest bit -----

  /** `bits` is the position of the highest bit of `v`, plus one. */
  ghost predicate IsBitLength(v: nat, bits: nat) {
    v < Pow(2, bits) && (bits > 0 ==> v >= Pow(2, bits - 1))
  }

  lemma PowUpTo(b: nat, m: nat, n: nat)
    requires b > 1 && m <= n
    ensures Pow(b, m) <= Pow(b, n)
  {
    if m < n {
      PowGrows(b, m, n);
    }
  }

  /** The highest bit of a limb: `x & (1 << k)` from the top. */
  method TopBit(x: nat) returns (b: nat)
    requires 0 < x < LIMB
    ensures b < 32 && Pow(2, b) <= x < Pow(2, b + 1)
  {
    hide Pow;
    LimbIsPower();
    b := 31;
    while b > 0
      invariant b <= 31 && x < Pow(2, b + 1)
    {
      PowNext(2, b);
      if x / Pow(2, b) % 2 == 1 {
        BitSet(x, Pow(2, b));
        return;
      }
      BitClear(x, Pow(2, b));
      b := b - 1;
    }
    PowZero(2);
  }

  lemma BitSet(x: nat, p: nat)
    requires p > 0 && x / p % 2 == 1
    ensures x >= p
  {
  }

  lemma BitClear(x: nat, p: nat)
    requires p > 0 && x / p % 2 == 0 && x < p * 2
    ensures x < p
  {
    if x >= p {
      QuotientAndRest(1, p, x - p);
    }
  }
}
