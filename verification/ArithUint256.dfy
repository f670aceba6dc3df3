/** 256-bit unsigned arithmetic on 32-bit limbs (`base_uint<256>`, `arith_uint256`). */
module ArithUint256 {
  import opened Numerals
  import opened Limbs
  import opened Shifts

  /** 2^256. */
  const TOP := Pow(LIMB, WIDTH)

  /** Dividing a sum by the base gives the limb to keep and the carry. */
  lemma CarryOut(sum: nat)
    ensures sum == sum / LIMB * LIMB + sum % LIMB
  {
  }

  lemma AddStep(v: int, carry: int, w: int, p: int, x: int, carry': int, add: int)
    requires v + carry * p == w && carry + add == carry' * LIMB + x
    ensures v + x * p + carry' * (p * LIMB) == w + add * p
  {
    Distribute(carry, add, p);
    Distribute(carry' * LIMB, x, p);
    Regroup(carry', LIMB, p);
  }

  /** What is left after the carry out of the highest limb is dropped. */
  lemma DropCarry(v: nat, carry: int, w: int, top: nat)
    requires v < top && v + carry * top == w
    ensures v == w % top
  {
    QuotientAndRest(carry, top, v);
  }

  class Uint256 {
    var pn: seq<nat>

    predicate Valid()
      reads this
    {
      |pn| == WIDTH && IsLimbs(pn)
    }

    ghost function Value(): nat
      reads this
    {
      Num(pn)
    }

    constructor (b: nat)
      requires b < LIMB * LIMB
      ensures Valid() && Value() == b
    {
      pn := [b % LIMB, b / LIMB, 0, 0, 0, 0, 0, 0];
      new;
      assert pn == [b % LIMB, b / LIMB] + [0, 0, 0, 0, 0, 0];
      TwoLimbs(b % LIMB, b / LIMB, [0, 0, 0, 0, 0, 0]);
    }

    constructor Copy(b: Uint256)
      requires b.Valid()
      ensures Valid() && pn == b.pn
    {
      pn := b.pn;
    }

    /** `this = b`, for a 64-bit number. */
    method Assign(b: nat)
      requires b < LIMB * LIMB
      modifies this
      ensures Valid() && Value() == b
    {
      pn := [b % LIMB, b / LIMB] + [0, 0, 0, 0, 0, 0];
      TwoLimbs(b % LIMB, b / LIMB, [0, 0, 0, 0, 0, 0]);
    }

    method SetZero()
      modifies this
      ensures Valid() && Value() == 0 && pn == Zero()
    {
      pn := Zero();
      NumZeros(pn);
    }

    /** `this += b`, modulo 2^256; `b` may be this number. */
    method AddAssign(b: Uint256)
      requires Valid() && b.Valid()
      modifies this
      ensures Valid() && Value() == (old(Value()) + old(b.Value())) % TOP
    {
      hide Num, Pow;
      ghost var s, t := pn, b.pn;
      var carry: nat := 0;
      NumStep(s, 0);
      NumStep(t, 0);
      assert pn[..0] == s[..0];
      for i := 0 to WIDTH
        invariant Valid() && b.Valid() && carry <= 1
        invariant pn[i..] == s[i..] && b.pn[i..] == t[i..]
        invariant Num(pn[..i]) + carry * Pow(LIMB, i) == Num(s[..i]) + Num(t[..i])
      {
        assert pn[i] == s[i..][0] == s[i] && b.pn[i] == t[i..][0] == t[i];
        var n := carry + pn[i] + b.pn[i];
        assert n < LIMB * LIMB;
        ghost var low := pn[..i];
        CarryOut(n);
        AddStep(Num(low), carry, Num(s[..i]) + Num(t[..i]), Pow(LIMB, i), n % LIMB, n / LIMB, s[i] + t[i]);
        Distribute(s[i], t[i], Pow(LIMB, i));
        pn := pn[i := n % LIMB];
        carry := n / LIMB;
        assert pn[..i] == low;
        NumStep(pn, i);
        NumStep(s, i);
        NumStep(t, i);
        PowNext(LIMB, i);
      }
      assert pn[..WIDTH] == pn && s[..WIDTH] == s && t[..WIDTH] == t;
      NumBound(pn);
      DropCarry(Num(pn), carry, Num(s) + Num(t), TOP);
    }

    /** `this *= b`, modulo 2^256. */
    method MulAssign32(b: nat)
      requires Valid() && b < LIMB
      modifies this
      ensures Valid() && Value() == (old(Value()) * b) % TOP
    {
      hide Num, Pow;
      ghost var s := pn;
      var carry: nat := 0;
      NumStep(s, 0);
      assert pn[..0] == s[..0];
      for i := 0 to WIDTH
        invariant Valid() && carry < LIMB
        invariant pn[i..] == s[i..]
        invariant Num(pn[..i]) + carry * Pow(LIMB, i) == Num(s[..i]) * b
      {
        assert pn[i] == s[i..][0] == s[i];
        var n := carry + b * pn[i];
        ProductFits(b, pn[i], carry, 0);
        assert n < LIMB * LIMB;
        ghost var low := pn[..i];
        CarryOut(n);
        AddStep(Num(low), carry, Num(s[..i]) * b, Pow(LIMB, i), n % LIMB, n / LIMB, b * s[i]);
        Distribute(Num(s[..i]), s[i] * Pow(LIMB, i), b);
        Regroup(b, s[i], Pow(LIMB, i));
        pn := pn[i := n % LIMB];
        carry := n / LIMB;
        assert pn[..i] == low;
        NumStep(pn, i);
        NumStep(s, i);
        PowNext(LIMB, i);
      }
      assert pn[..WIDTH] == pn && s[..WIDTH] == s;
      NumBound(pn);
      DropCarry(Num(pn), carry, Num(s) * b, TOP);
    }

    /** `this *= b`, modulo 2^256. The limbs of this number are cleared before those of `b` are read, so
        multiplying a number by itself in place gives 0. */
    method MulAssign(b: Uint256)
      requires Valid() && b.Valid()
      modifies this
      ensures Valid()
      ensures b != this ==> Value() == (old(Value()) * b.Value()) % TOP
      ensures b == this ==> Value() == 0
    {
      hide Num, Pow;
      var a := pn;
      SetZero();
      NumStep(a, 0);
      SmallMod(0);
      for j := 0 to WIDTH
        invariant Valid() && b.Valid()
        invariant b != this ==> Value() == (Num(a[..j]) * b.Value()) % TOP
        invariant b == this ==> pn == Zero()
      {
        MulRow(a[j], j, b);
        NumStep(a, j);
        if b != this {
          Distribute(Num(a[..j]), a[j] * Pow(LIMB, j), b.Value());
          ModAdd(Num(a[..j]) * b.Value(), a[j] * Pow(LIMB, j) * b.Value(), TOP);
        }
      }
      assert a[..WIDTH] == a;
      NumZeros(Zero());
    }

    /** Adds `x * b`, `j` limbs up, to this number. */
    method MulRow(x: nat, j: nat, b: Uint256)
      requires Valid() && b.Valid() && x < LIMB && j < WIDTH && (b == this ==> pn == Zero())
      modifies this
      ensures Valid()
      ensures b != this ==> Value() == (old(Value()) + x * Pow(LIMB, j) * b.Value()) % TOP
      ensures b == this ==> pn == Zero()
    {
      hide RowSum;
      ghost var s, t := pn, b.pn;
      var carry: nat := 0;
      RowStarts(s, t, x, j);
      for i := 0 to WIDTH - j
        invariant Valid() && b.Valid() && carry < LIMB && (b != this ==> b.pn == t)
        invariant b == this ==> pn == Zero() && carry == 0
        invariant RowSum(pn, s, t, x, j, i, carry)
      {
        var n := carry + pn[i + j] + x * b.pn[i];
        ProductFits(x, b.pn[i], pn[i + j], carry);
        assert n < LIMB * LIMB && b.pn[i] == t[i];
        RowNext(pn, s, t, x, j, i, carry, n);
        pn := pn[i + j := n % LIMB];
        carry := n / LIMB;
      }
      RowEnds(pn, s, t, x, j, carry);
    }

    /** `++this`, modulo 2^256. */
    method Increment()
      requires Valid()
      modifies this
      ensures Valid() && Value() == (old(Value()) + 1) % TOP
    {
      hide CarryOne;
      ghost var s := pn;
      var i := 0;
      CarryStarts(s);
      while true
        invariant 0 <= i < WIDTH && Valid() && CarryOne(pn, s, i)
        decreases WIDTH - i
      {
        CarryNext(pn, s, i);
        pn := pn[i := (pn[i] + 1) % LIMB];
        if pn[i] != 0 || i >= WIDTH - 1 {
          return;
        }
        i := i + 1;
      }
    }

    /** `-this`, modulo 2^256. */
    method Negated() returns (r: Uint256)
      requires Valid()
      ensures fresh(r) && r.Valid() && r.Value() == (TOP - Value()) % TOP
    {
      hide Num, Pow;
      r := new Uint256(0);
      for i := 0 to WIDTH
        invariant r.Valid() && fresh(r) && forall k | 0 <= k < i :: r.pn[k] == LIMB - 1 - pn[k]
      {
        r.pn := r.pn[i := LIMB - 1 - pn[i]];
      }
      Complement(pn, r.pn);
      NumBound(pn);
      r.Increment();
    }

    /** `this -= b`, modulo 2^256. */
    method SubAssign(b: Uint256)
      requires Valid() && b.Valid()
      modifies this
      ensures Valid()
      ensures Value() == if old(Value()) >= old(b.Value()) then old(Value()) - old(b.Value())
                         else TOP + old(Value()) - old(b.Value())
    {
      hide Num, Pow;
      NumBound(pn);
      NumBound(b.pn);
      var c := b.Negated();
      ghost var x, y := Value(), b.Value();
      AddAssign(c);
      SubMod(x, y, TOP);
    }

    /** -1, 0 or 1, as this number is below, equal to or above `b`. */
    method CompareTo(b: Uint256) returns (r: int)
      requires Valid() && b.Valid()
      ensures r == if Value() < b.Value() then -1 else if Value() > b.Value() then 1 else 0
    {
      hide Num, Pow;
      var i := WIDTH;
      while i > 0
        invariant 0 <= i <= WIDTH && pn[i..] == b.pn[i..]
      {
        i := i - 1;
        if pn[i] < b.pn[i] {
          HighestDiffers(pn, b.pn, i);
          return -1;
        }
        if pn[i] > b.pn[i] {
          HighestDiffers(b.pn, pn, i);
          return 1;
        }
      }
      assert pn[0..] == pn && b.pn[0..] == b.pn;
      r := 0;
    }

    /** The position of the highest bit set plus one, or zero. */
    method Bits() returns (r: nat)
      requires Valid()
      ensures IsBitLength(Value(), r) && r <= 256
    {
      hide Num, Pow, IsBitLength;
      var pos := WIDTH;
      while pos > 0
        invariant 0 <= pos <= WIDTH && forall i | pos <= i < WIDTH :: pn[i] == 0
      {
        pos := pos - 1;
        if pn[pos] != 0 {
          var b := TopBit(pn[pos]);
          HighestLimb(pn, pos, b);
          return 32 * pos + b + 1;
        }
      }
      NumZeros(pn);
      NoBits();
      r := 0;
    }

    /** `this <<= shift`, modulo 2^256. */
    method ShiftLeft(shift: nat)
      requires Valid()
      modifies this
      ensures Valid() && Value() == (old(Value()) * Pow(2, shift)) % TOP
    {
      hide UpTo, BitOr, Num, Pow, Shl, Shr, MovedUp;
      var a := pn;
      SetZero();
      var k, s := shift / 32, shift % 32;
      UpStarts(a, k, s);
      for i := 0 to WIDTH
        invariant Valid() && (i + k >= WIDTH || UpTo(pn, a, k, s, i))
        invariant k >= WIDTH ==> pn == Zero()
        invariant i + k >= WIDTH && k < WIDTH ==> Num(pn) == MovedUp(a, k, s)
      {
        ghost var r := pn;
        if i + k < WIDTH {
          UpNext(r, a, k, s, i);
        }
        if i + k + 1 < WIDTH && s != 0 {
          pn := pn[i + k + 1 := BitOr(pn[i + k + 1], Shr(a[i], 32 - s))];
        }
        if i + k < WIDTH {
          pn := pn[i + k := BitOr(pn[i + k], Shl(a[i], s))];
        }
      }
      ShiftedUp(a, shift);
      NumZeros(Zero());
    }

    /** `this >>= shift`. */
    method ShiftRight(shift: nat)
      requires Valid()
      modifies this
      ensures Valid() && Value() == old(Value()) / Pow(2, shift)
    {
      hide DownTo, BitOr, Num, Pow, Shl, Shr;
      var a := pn;
      SetZero();
      var k, s := shift / 32, shift % 32;
      if k < WIDTH {
        DownStarts(a, k, s);
      }
      for i := 0 to WIDTH
        invariant Valid() && (i <= k ==> pn == Zero()) && (i >= k ==> k < WIDTH ==> DownTo(pn, a, k, s, i - k))
      {
        ghost var r := pn;
        if i >= k {
          DownNext(r, a, k, s, i - k);
        }
        if i - k - 1 >= 0 && s != 0 {
          pn := pn[i - k - 1 := BitOr(pn[i - k - 1], Shl(a[i], 32 - s))];
        }
        if i - k >= 0 {
          pn := pn[i - k := BitOr(pn[i - k], Shr(a[i], s))];
        }
      }
      if k < WIDTH {
        DownEnds(pn, a, k, s, shift);
      } else {
        NumZeros(Zero());
        AllGone(a, shift);
      }
    }

    /** `this /= b`, rounded down. Division by zero fails and leaves 0; `b` may be this number. */
    method DivAssign(b: Uint256) returns (ok: bool)
      requires Valid() && b.Valid()
      modifies this
      ensures Valid() && (ok <==> old(b.Value()) != 0)
      ensures Value() == if ok then old(Value()) / old(b.Value()) else 0
    {
      hide Num, Pow, IsBitLength, DivSoFar, LowClear;
      ghost var n, d := Value(), b.Value();
      var div := new Uint256.Copy(b);
      var num := new Uint256.Copy(this);
      SetZero();
      var numBits := num.Bits();
      var divBits := div.Bits();
      ZeroBits(d, divBits);
      if divBits == 0 {
        return false;
      }
      if divBits > numBits {
        Shorter(n, d, numBits, divBits);
        return true;
      }
      var shift: int := numBits - divBits;
      DivStarts(n, d, numBits, divBits);
      div.ShiftLeft(shift);
      while shift >= 0
        invariant -1 <= shift < 256 && Valid() && num.Valid() && div.Valid()
        invariant shift >= 0 ==> div.Value() == d * Pow(2, shift)
        invariant DivSoFar(n, d, Value(), num.Value(), shift + 1) && LowClear(pn, shift + 1)
      {
        DivNext(n, d, Value(), num.Value(), shift);
        LowStays(pn, shift);
        var c := num.CompareTo(div);
        if c >= 0 {
          num.SubAssign(div);
          SetBit(shift);
        }
        HalveDivisor(d, shift);
        div.ShiftRight(1);
        shift := shift - 1;
      }
      DivEnds(n, d, Value(), num.Value());
      ok := true;
    }

    /** Sets a bit of a number that is clear below it and there. */
    method SetBit(shift: nat)
      requires Valid() && shift < 256 && LowClear(pn, shift + 1)
      modifies this
      ensures Valid() && Value() == old(Value()) + Pow(2, shift) && LowClear(pn, shift)
    {
      hide Num, Pow, BitOr, LowClear;
      ghost var s := pn;
      BitAdds(s, shift);
      pn := pn[shift / 32 := BitOr(pn[shift / 32], Pow(2, shift % 32))];
    }

    method GetLow64() returns (r: nat)
      requires Valid()
      ensures r == Value() % (LIMB * LIMB)
    {
      hide Num, Pow;
      LowLimbs(pn);
      r := pn[0] + pn[1] * LIMB;
    }
  }

  function Zero(): seq<nat> {
    [0, 0, 0, 0, 0, 0, 0, 0]
  }

  lemma TwoLimbs(lo: nat, hi: nat, rest: seq<nat>)
    requires forall i | 0 <= i < |rest| :: rest[i] == 0
    ensures Num([lo, hi] + rest) == lo + hi * LIMB
  {
    hide Num, Pow;
    NumConcat([lo, hi], rest);
    NumZeros(rest);
    NumStep([lo, hi], 0);
    NumStep([lo, hi], 1);
    assert [lo, hi][..2] == [lo, hi] && [lo, hi][..0] == [];
    PowNext(LIMB, 0);
    OneLimb();
  }

  lemma OneLimb()
    ensures Pow(LIMB, 0) == 1
  {
  }

  /** The sum of a product of limbs, a limb and a carry fits into 64 bits. */
  /** Multiplying 3 by itself in place. */
  method SquareInPlace() returns (before: nat, after: nat)
    ensures before == 3 && after == 0
  {
    hide Num, Pow;
    var x := new Uint256(3);
    before := x.GetLow64();
    x.MulAssign(x);
    after := x.GetLow64();
  }

  lemma ProductFits(a: nat, b: nat, c: nat, d: nat)
    requires a < LIMB && b < LIMB && c < LIMB && d < LIMB
    ensures a * b + c + d < LIMB * LIMB && (a * b + c + d) / LIMB < LIMB
  {
    MulMonotone(a, LIMB - 1, b, LIMB - 1);
  }

  lemma SmallMod(x: nat)
    requires x < TOP
    ensures x % TOP == x && (0 * x) % TOP == 0
  {
  }

  lemma SubMod(x: nat, y: nat, m: nat)
    requires x < m && y < m
    ensures (x + (m - y) % m) % m == if x >= y then x - y else m + x - y
  {
    if y > 0 {
      QuotientAndRest(0, m, m - y);
    } else {
      QuotientAndRest(1, m, 0);
    }
    if x >= y {
      QuotientAndRest(if y > 0 then 1 else 0, m, x - y);
    } else {
      QuotientAndRest(0, m, m + x - y);
    }
  }

  /** The lowest `i + j` limbs and the carry hold the sum so far. */
  ghost predicate RowSum(r: seq<nat>, s: seq<nat>, t: seq<nat>, x: nat, j: nat, i: nat, carry: nat) {
    && |r| == |s| == |t| == WIDTH && i + j <= WIDTH
    && r[i + j..] == s[i + j..]
    && Num(r[..i + j]) + carry * Pow(LIMB, i + j) == Num(s[..i + j]) + x * Pow(LIMB, j) * Num(t[..i])
  }

  lemma RowStarts(s: seq<nat>, t: seq<nat>, x: nat, j: nat)
    requires |s| == |t| == WIDTH && j <= WIDTH
    ensures RowSum(s, s, t, x, j, 0, 0)
  {
    hide Num, Pow;
    NumStep(t, 0);
  }

  lemma RowNext(r: seq<nat>, s: seq<nat>, t: seq<nat>, x: nat, j: nat, i: nat, carry: nat, n: nat)
    requires RowSum(r, s, t, x, j, i, carry) && i + j < WIDTH && n == carry + r[i + j] + x * t[i]
    ensures RowSum(r[i + j := n % LIMB], s, t, x, j, i + 1, n / LIMB)
  {
    hide Num, Pow;
    var k := i + j;
    var r' := r[k := n % LIMB];
    assert r[k] == r[k..][0] == s[k];
    assert r'[..k] == r[..k] && r'[k + 1..] == r[k + 1..] == r[k..][1..] && s[k + 1..] == s[k..][1..];
    NumStep(r', k);
    NumStep(s, k);
    NumStep(t, i);
    PowNext(LIMB, k);
    CarryOut(n);
    RowArithmetic(Num(r[..k]), carry, Num(s[..k]), x, Num(t[..i]), t[i], s[k], n, i, j);
  }

  lemma RowArithmetic(r: int, carry: int, s: int, x: int, t: int, ti: int, sk: int, n: nat, i: nat, j: nat)
    requires r + carry * Pow(LIMB, i + j) == s + x * Pow(LIMB, j) * t && n == carry + sk + x * ti
    ensures r + n % LIMB * Pow(LIMB, i + j) + n / LIMB * (Pow(LIMB, i + j) * LIMB)
            == s + sk * Pow(LIMB, i + j) + x * Pow(LIMB, j) * (t + ti * Pow(LIMB, i))
  {
    hide Pow;
    var p, pi, pj := Pow(LIMB, i + j), Pow(LIMB, i), Pow(LIMB, j);
    PowAdd(LIMB, i, j);
    CarryOut(n);
    AddStep(r, carry, s + x * pj * t, p, n % LIMB, n / LIMB, sk + x * ti);
    Distribute(sk, x * ti, p);
    DistributeLeft(x * pj, t, ti * pi);
    Shuffle(x, ti, pi, pj);
  }

  lemma Shuffle(x: int, ti: int, pi: int, pj: int)
    ensures x * ti * (pi * pj) == x * pj * (ti * pi)
  {
    calc {
      x * ti * (pi * pj);
    ==  { Regroup(x, ti, pi * pj); Regroup(ti, pi, pj); }
      x * (ti * pi * pj);
    ==
      x * (pj * (ti * pi));
    ==  { Regroup(x, pj, ti * pi); }
      x * pj * (ti * pi);
    }
  }

  lemma RowEnds(r: seq<nat>, s: seq<nat>, t: seq<nat>, x: nat, j: nat, carry: nat)
    requires j < WIDTH && RowSum(r, s, t, x, j, WIDTH - j, carry) && IsLimbs(r)
    ensures Num(r) == (Num(s) + x * Pow(LIMB, j) * Num(t)) % TOP
  {
    hide Num, Pow;
    assert r[..WIDTH] == r && s[..WIDTH] == s;
    NumBound(r);
    DropCarry(Num(r), carry, Num(s) + x * Pow(LIMB, j) * Num(t[..WIDTH - j]), TOP);
    CutOff(t, x, j, Num(s));
  }

  /** The limbs of `t` that would go beyond the highest one do not matter. */
  lemma CutOff(t: seq<nat>, x: int, j: nat, v: int)
    requires |t| == WIDTH && j < WIDTH
    ensures (v + x * Pow(LIMB, j) * Num(t[..WIDTH - j])) % TOP == (v + x * Pow(LIMB, j) * Num(t)) % TOP
  {
    hide Num, Pow;
    var lo, hi := t[..WIDTH - j], t[WIDTH - j..];
    assert t == lo + hi;
    NumConcat(lo, hi);
    PowAdd(LIMB, WIDTH - j, j);
    CutScalars(v, x, Pow(LIMB, j), Num(lo), Num(hi), Pow(LIMB, WIDTH - j), Num(t));
  }

  lemma CutScalars(v: int, x: int, q: int, lo: int, hi: int, p: int, n: int)
    requires n == lo + hi * p && TOP == p * q
    ensures (v + x * q * lo) % TOP == (v + x * q * n) % TOP
  {
    hide Pow;
    CutArithmetic(x, q, lo, hi, p);
    CutMod(v, x * q * lo, x * hi, x * q * n);
  }

  lemma CutMod(v: int, a: int, b: int, c: int)
    requires c == a + b * TOP
    ensures (v + a) % TOP == (v + c) % TOP
  {
    hide Pow;
    ModSkip(v + a, b, TOP);
  }

  lemma CutArithmetic(x: int, q: int, lo: int, hi: int, p: int)
    ensures x * q * (lo + hi * p) == x * q * lo + x * hi * (p * q)
  {
    DistributeLeft(x * q, lo, hi * p);
    calc {
      x * q * (hi * p);
    ==  { Regroup(x, q, hi * p); }
      x * (q * (hi * p));
    ==
      x * (hi * p * q);
    ==  { Regroup(hi, p, q); Regroup(x, hi, p * q); }
      x * hi * (p * q);
    }
  }

  /** One is still to be added at limb `i`. */
  ghost predicate CarryOne(r: seq<nat>, s: seq<nat>, i: nat) {
    |r| == |s| == WIDTH && i <= WIDTH && r[i..] == s[i..] && Num(r[..i]) + Pow(LIMB, i) == Num(s[..i]) + 1
  }

  lemma CarryStarts(s: seq<nat>)
    requires |s| == WIDTH
    ensures CarryOne(s, s, 0)
  {
  }

  lemma CarryNext(r: seq<nat>, s: seq<nat>, i: nat)
    requires CarryOne(r, s, i) && i < WIDTH && IsLimbs(r)
    ensures var r' := r[i := (r[i] + 1) % LIMB];
            && (r'[i] == 0 ==> CarryOne(r', s, i + 1))
            && (r'[i] != 0 || i == WIDTH - 1 ==> Num(r') == (Num(s) + 1) % TOP)
  {
    hide Num, Pow;
    var x := (r[i] + 1) % LIMB;
    var r' := r[i := x];
    assert r[i] == r[i..][0] == s[i];
    assert r'[..i] == r[..i] && r'[i + 1..] == r[i + 1..] == r[i..][1..] && s[i + 1..] == s[i..][1..];
    NumStep(r', i);
    NumStep(s, i);
    PowNext(LIMB, i);
    assert x == 0 ==> s[i] == LIMB - 1;
    assert x != 0 ==> x == s[i] + 1;
    if x == 0 {
      assert (LIMB - 1) * Pow(LIMB, i) + Pow(LIMB, i) == Pow(LIMB, i) * LIMB;
    } else {
      Distribute(s[i], 1, Pow(LIMB, i));
    }
    NumBound(r');
    if x != 0 {
      NoMoreCarry(r', s, i + 1);
    } else if i == WIDTH - 1 {
      assert r'[..WIDTH] == r' && s[..WIDTH] == s;
      DropCarry(Num(r'), 1, Num(s) + 1, TOP);
    }
  }

  lemma NoMoreCarry(r: seq<nat>, s: seq<nat>, i: nat)
    requires |r| == |s| == WIDTH && i <= WIDTH && r[i..] == s[i..] && Num(r[..i]) == Num(s[..i]) + 1 && Num(r) < TOP
    ensures Num(r) == (Num(s) + 1) % TOP
  {
    hide Num, Pow;
    assert s == s[..i] + s[i..] && r == r[..i] + r[i..];
    NumConcat(s[..i], s[i..]);
    NumConcat(r[..i], r[i..]);
    SmallMod(Num(r));
  }

  lemma {:induction false} Complement(s: seq<nat>, t: seq<nat>)
    requires |s| == |t| && IsLimbs(s) && forall k | 0 <= k < |s| :: t[k] == LIMB - 1 - s[k]
    ensures Num(s) + Num(t) == Pow(LIMB, |s|) - 1
  {
    hide Pow;
    if s == [] {
      OneLimb();
    } else {
      var n := |s| - 1;
      Complement(s[..n], t[..n]);
      Distribute(s[n], t[n], Pow(LIMB, n));
      PowNext(LIMB, n);
      assert (LIMB - 1) * Pow(LIMB, n) + Pow(LIMB, n) == Pow(LIMB, n) * LIMB;
    }
  }

  // ----- The highest bit -----

  lemma NoBits()
    ensures IsBitLength(0, 0)
  {
  }

  lemma HighestLimb(s: seq<nat>, pos: nat, b: nat)
    requires |s| == WIDTH && IsLimbs(s) && pos < WIDTH && b < 32 && Pow(2, b) <= s[pos] < Pow(2, b + 1)
    requires forall i | pos < i < WIDTH :: s[i] == 0
    ensures IsBitLength(Num(s), 32 * pos + b + 1)
  {
    hide Num, Pow;
    assert s == s[..pos + 1] + s[pos + 1..];
    NumConcat(s[..pos + 1], s[pos + 1..]);
    NumZeros(s[pos + 1..]);
    NumStep(s, pos);
    NumBound(s[..pos]);
    LimbPower(pos);
    PowAdd(2, b, 32 * pos);
    PowAdd(2, b + 1, 32 * pos);
    var p := Pow(LIMB, pos);
    MulMonotone(Pow(2, b), s[pos], p, p);
    MulMonotone(s[pos] + 1, Pow(2, b + 1), p, p);
    Distribute(s[pos], 1, p);
    assert Num(s) == Num(s[..pos]) + s[pos] * p;
  }

  // ----- Shifting up -----

  /** After `i` limbs of `a`: what is shifted so far, and in limb `i + k` what they carry into it. */
  ghost predicate UpTo(r: seq<nat>, a: seq<nat>, k: nat, s: nat, i: nat) {
    && |r| == |a| == WIDTH && i + k < WIDTH && s < 32
    && r[i + k] < Pow(2, s)
    && (forall m | i + k < m < WIDTH :: r[m] == 0)
    && RowSum(r[i + k := 0], Zero(), a, Pow(2, s), k, i, r[i + k])
  }

  lemma UpStarts(a: seq<nat>, k: nat, s: nat)
    requires |a| == WIDTH && s < 32
    ensures k < WIDTH ==> UpTo(Zero(), a, k, s, 0)
  {
    hide RowSum;
    if k < WIDTH {
      assert Zero()[k := 0] == Zero();
      RowStarts(Zero(), a, Pow(2, s), k);
    }
  }

  /** The value of `a`, shifted up by `k` limbs and `s` bits. */
  ghost function MovedUp(a: seq<nat>, k: nat, s: nat): nat {
    (Pow(2, s) * Pow(LIMB, k) * Num(a)) % TOP
  }

  /** One limb more: the two places it is written to. */
  lemma UpNext(r: seq<nat>, a: seq<nat>, k: nat, s: nat, i: nat)
    requires UpTo(r, a, k, s, i) && IsLimbs(r) && IsLimbs(a) && i < WIDTH
    ensures var lo := BitOr(r[i + k], Shl(a[i], s));
            var r1 := if i + k + 1 < WIDTH && s != 0 then r[i + k + 1 := BitOr(r[i + k + 1], Shr(a[i], 32 - s))] else r;
            var r2 := r1[i + k := lo];
            && IsLimbs(r1) && IsLimbs(r2)
            && (i + k + 1 < WIDTH ==> UpTo(r2, a, k, s, i + 1))
            && (i + k + 1 == WIDTH ==> Num(r2) == MovedUp(a, k, s))
  {
    hide RowSum, Num, Pow, BitOr, Shl, Shr, MovedUp;
    var m, carry := i + k, r[i + k];
    UpParts(a[i], s, carry);
    ProductNat(Pow(2, s), a[i]);
    var n: nat := carry + Pow(2, s) * a[i];
    var lo, hi := n % LIMB, n / LIMB;
    RowNext(r[m := 0], Zero(), a, Pow(2, s), k, i, carry, n);
    var r' := r[m := 0][m := lo];
    LimbIsPower();
    PowUpTo(2, s, 32);
    if m + 1 < WIDTH {
      OrZero(hi);
      var r2 := r[m + 1 := hi][m := lo];
      assert r2[m + 1 := 0] == r';
      assert s == 0 ==> r2 == r[m := lo];
    } else {
      assert r' == r[m := lo];
      UpEnds(r', a, k, s, hi);
    }
  }

  lemma UpEnds(r: seq<nat>, a: seq<nat>, k: nat, s: nat, carry: nat)
    requires k < WIDTH && RowSum(r, Zero(), a, Pow(2, s), k, WIDTH - k, carry) && IsLimbs(r)
    ensures Num(r) == MovedUp(a, k, s)
  {
    hide RowSum, Num, Pow;
    RowEnds(r, Zero(), a, Pow(2, s), k, carry);
    NumZeros(Zero());
  }

  lemma OrZero(x: nat)
    ensures BitOr(0, x) == x
  {
  }

  lemma ShiftPower(shift: nat)
    ensures Pow(2, shift) == Pow(2, shift % 32) * Pow(LIMB, shift / 32)
  {
    hide Pow;
    var k, s := shift / 32, shift % 32;
    LimbPower(k);
    PowAdd(2, s, 32 * k);
    assert shift == s + 32 * k;
  }

  lemma ShiftedUp(a: seq<nat>, shift: nat)
    requires |a| == WIDTH
    ensures var k, s := shift / 32, shift % 32;
            && (k < WIDTH ==> (Num(a) * Pow(2, shift)) % TOP == MovedUp(a, k, s))
            && (k >= WIDTH ==> (Num(a) * Pow(2, shift)) % TOP == 0)
  {
    hide Num, Pow;
    if shift / 32 < WIDTH {
      ShiftPower(shift);
      Commute(Num(a), Pow(2, shift));
    } else {
      ShiftedOut(Num(a), shift);
    }
  }

  lemma ShiftedOut(n: nat, shift: nat)
    requires shift >= 256
    ensures (n * Pow(2, shift)) % TOP == 0
  {
    hide Pow;
    LimbPower(WIDTH);
    PowAdd(2, shift - 256, 256);
    Regroup(n, Pow(2, shift - 256), TOP);
    ModSkip(0, n * Pow(2, shift - 256), TOP);
  }

  // ----- Shifting down -----

  /** `w` shifted down by `s` bits is `v`, and `out` is shifted out. */
  ghost predicate Scaled(v: int, out: int, w: int, s: nat) {
    Pow(2, s) * v + out == w
  }

  /** After `c` limbs from limb `k` on: what is there is their value shifted down. */
  ghost predicate DownTo(r: seq<nat>, a: seq<nat>, k: nat, s: nat, c: nat) {
    && |r| == |a| == WIDTH && k < WIDTH && c + k <= WIDTH && s < 32
    && (forall m | c <= m < WIDTH :: r[m] == 0)
    && (c > 0 ==> r[c - 1] < Pow(2, 32 - s))
    && Scaled(Num(r[..c]), if c > 0 then LowBits(a[k], s) else 0, Num(a[k..k + c]), s)
  }

  lemma DownStarts(a: seq<nat>, k: nat, s: nat)
    requires |a| == WIDTH && k < WIDTH && s < 32
    ensures DownTo(Zero(), a, k, s, 0)
  {
    hide Pow, LowBits;
    NoLimbs();
    assert a[k..k + 0] == [] && Zero()[..0] == [];
  }

  lemma DownNext(r: seq<nat>, a: seq<nat>, k: nat, s: nat, c: nat)
    requires DownTo(r, a, k, s, c) && IsLimbs(r) && IsLimbs(a) && c + k < WIDTH
    ensures var x := a[c + k];
            var r1 := if c >= 1 && s != 0 then r[c - 1 := BitOr(r[c - 1], Shl(x, 32 - s))] else r;
            var r2 := r1[c := BitOr(r1[c], Shr(x, s))];
            && IsLimbs(r1) && IsLimbs(r2) && DownTo(r2, a, k, s, c + 1)
  {
    hide Num, Pow, BitOr, Shl, Shr, Scaled, LowBits, CarriedDown;
    var x := a[c + k];
    OrZero(Shr(x, s));
    var low := CarriedDown(x, s);
    var r1 := if c >= 1 then r[c - 1 := r[c - 1] + low] else r;
    DownLimb(r, x, s, c);
    assert c >= 1 && s == 0 ==> r1 == r;
    var r2 := r1[c := Shr(x, s)];
    assert a[k..k + c + 1] == a[k..k + c] + [x];
    NumSnoc(a[k..k + c], x);
    assert r2[..c + 1] == r1[..c] + [Shr(x, s)];
    NumSnoc(r1[..c], Shr(x, s));
    if c >= 1 {
      assert r1[..c] == r[..c][c - 1 := r[c - 1] + low];
      AddAt(r[..c], c - 1, low);
      DownArithmetic(Num(r[..c]), LowBits(a[k], s), Num(a[k..k + c]), x, c, s);
    } else {
      assert r1[..c] == [] && a[k..k + c] == [];
      NoLimbs();
      FirstScaled(x, s);
    }
  }

  lemma NoLimbs()
    ensures Num([]) == 0 && Pow(LIMB, 0) == 1
  {
  }

  lemma FirstScaled(x: nat, s: nat)
    ensures Scaled(0 + Shr(x, s) * 1, LowBits(x, s), 0 + x * 1, s)
  {
    hide Pow;
    var p := Pow(2, s);
    assert x == x / p * p + x % p;
  }

  /** What the limb below gets from `x`. */
  function CarriedDown(x: nat, s: nat): nat {
    if 0 < s < 32 then LowBits(x, s) * Pow(2, 32 - s) else 0
  }

  /** The limb below takes the low bits of `x` as its high bits. */
  lemma DownLimb(r: seq<nat>, x: nat, s: nat, c: nat)
    requires |r| == WIDTH && IsLimbs(r) && x < LIMB && s < 32 && c < WIDTH && (c > 0 ==> r[c - 1] < Pow(2, 32 - s))
    ensures Shr(x, s) < Pow(2, 32 - s) <= LIMB
    ensures s == 0 ==> CarriedDown(x, s) == 0
    ensures c >= 1 && s != 0 ==> BitOr(r[c - 1], Shl(x, 32 - s)) == r[c - 1] + CarriedDown(x, s) < LIMB
  {
    hide Pow, BitOr, Shl, Shr, LowBits;
    LimbIsPower();
    PowUpTo(2, 32 - s, 32);
    DownParts(x, s);
    if c >= 1 && s != 0 {
      var low, p, q := LowBits(x, s), Pow(2, s), Pow(2, 32 - s);
      PowAdd(2, s, 32 - s);
      QuotientAndRest(low, q, 0);
      OrDisjoint(low * q, r[c - 1], 32 - s);
      MulMonotone(low + 1, p, q, q);
      Distribute(low, 1, q);
    }
  }

  lemma AddAt(s: seq<nat>, i: nat, d: nat)
    requires i == |s| - 1
    ensures Num(s[i := s[i] + d]) == Num(s) + d * Pow(LIMB, i)
  {
    hide Pow;
    assert s == s[..i] + [s[i]] && s[i := s[i] + d] == s[..i] + [s[i] + d];
    NumSnoc(s[..i], s[i]);
    NumSnoc(s[..i], s[i] + d);
    Distribute(s[i], d, Pow(LIMB, i));
  }

  lemma DownArithmetic(v: nat, out: nat, w: nat, x: nat, c: nat, s: nat)
    requires c >= 1 && s < 32 && Scaled(v, out, w, s)
    ensures Scaled(v + CarriedDown(x, s) * Pow(LIMB, c - 1) + Shr(x, s) * Pow(LIMB, c), out, w + x * Pow(LIMB, c), s)
  {
    hide Pow, CarriedDown, LowBits, Shr;
    var p, b, low, high := Pow(2, s), Pow(LIMB, c - 1), CarriedDown(x, s), Shr(x, s);
    PowNext(LIMB, c - 1);
    LowAsHigh(x, s);
    MoveFactor(p, low, b, LowBits(x, s));
    WholeLimb(x, s, b * LIMB);
    Distribute3(p, v, low * b, high * (b * LIMB));
  }

  /** The low bits of a limb, moved up to the top of the limb below, are worth a whole limb each. */
  lemma LowAsHigh(x: nat, s: nat)
    requires s < 32
    ensures Pow(2, s) * CarriedDown(x, s) == LowBits(x, s) * LIMB
  {
    hide Pow;
    if s == 0 {
      PowZero(2);
    } else {
      LimbIsPower();
      PowAdd(2, s, 32 - s);
      Regroup(LowBits(x, s), Pow(2, 32 - s), Pow(2, s));
    }
  }

  lemma MoveFactor(p: int, low: int, b: int, rest: int)
    requires p * low == rest * LIMB
    ensures p * (low * b) == rest * (b * LIMB)
  {
    Regroup(p, low, b);
    Regroup(rest, LIMB, b);
  }

  lemma WholeLimb(x: nat, s: nat, b: int)
    ensures Pow(2, s) * (Shr(x, s) * b) + LowBits(x, s) * b == x * b
  {
    hide Pow;
    var p := Pow(2, s);
    var q := x / p;
    assert x == q * p + x % p;
    Regroup(p, q, b);
    Distribute(q * p, x % p, b);
  }

  lemma Distribute3(p: int, a: int, b: int, c: int)
    ensures p * (a + b + c) == p * a + p * b + p * c
  {
    DistributeLeft(p, a + b, c);
    DistributeLeft(p, a, b);
  }

  lemma DownEnds(r: seq<nat>, a: seq<nat>, k: nat, s: nat, shift: nat)
    requires k < WIDTH && DownTo(r, a, k, s, WIDTH - k) && IsLimbs(a) && k == shift / 32 && s == shift % 32
    ensures Num(r) == Num(a) / Pow(2, shift)
  {
    hide Num, Pow;
    assert r == r[..WIDTH - k] + r[WIDTH - k..];
    NumConcat(r[..WIDTH - k], r[WIDTH - k..]);
    NumZeros(r[WIDTH - k..]);
    assert a == a[..k] + a[k..] && a[k..WIDTH] == a[k..];
    NumConcat(a[..k], a[k..]);
    NumBound(a[..k]);
    DownScalars(Num(a), Num(a[..k]), Num(a[k..]), Num(r), a[k], k, s);
  }

  lemma DownScalars(n: nat, low: nat, high: nat, v: nat, x: nat, k: nat, s: nat)
    requires n == low + high * Pow(LIMB, k) && low < Pow(LIMB, k) && Scaled(v, LowBits(x, s), high, s)
    ensures n / Pow(2, 32 * k + s) == v
  {
    hide Pow;
    LimbPower(k);
    PowAdd(2, s, 32 * k);
    FloorTwice(low, Pow(LIMB, k), Pow(2, s), v, x % Pow(2, s));
  }

  lemma FloorTwice(low: nat, q: nat, p: nat, v: nat, out: nat)
    requires low < q && out < p
    ensures (low + (p * v + out) * q) / (p * q) == v
  {
    Distribute(p * v, out, q);
    assert p * v * q == v * (p * q);
    MulMonotone(out + 1, p, q, q);
    Distribute(out, 1, q);
    QuotientAndRest(v, p * q, low + out * q);
  }

  lemma AllGone(a: seq<nat>, shift: nat)
    requires |a| == WIDTH && IsLimbs(a) && shift >= 256
    ensures Num(a) / Pow(2, shift) == 0
  {
    hide Num, Pow;
    NumBound(a);
    LimbPower(WIDTH);
    PowUpTo(2, 256, shift);
    QuotientAndRest(0, Pow(2, shift), Num(a));
  }

  // ----- Division -----

  /** The bits below `t` are clear. */
  ghost predicate LowClear(s: seq<nat>, t: nat) {
    && |s| == WIDTH
    && (forall i | 0 <= i < WIDTH && i < t / 32 :: s[i] == 0)
    && (t / 32 < WIDTH ==> s[t / 32] % Pow(2, t % 32) == 0)
  }

  lemma LowStays(s: seq<nat>, shift: nat)
    requires LowClear(s, shift + 1) && shift < 256
    ensures LowClear(s, shift)
  {
    hide Pow;
    var k, r := shift / 32, shift % 32;
    if r < 31 {
      PowNext(2, r);
      MultipleOf(s[k], Pow(2, r));
    }
  }

  lemma MultipleOf(x: nat, p: nat)
    requires p > 0 && x % (p * 2) == 0
    ensures x % p == 0
  {
    var q := x / (p * 2);
    assert x == q * (p * 2) == (q * 2) * p;
    QuotientAndRest(q * 2, p, 0);
  }

  lemma BitAdds(s: seq<nat>, shift: nat)
    requires LowClear(s, shift + 1) && IsLimbs(s) && shift < 256
    ensures var t := s[shift / 32 := BitOr(s[shift / 32], Pow(2, shift % 32))];
            IsLimbs(t) && Num(t) == Num(s) + Pow(2, shift) && LowClear(t, shift)
  {
    hide Num, Pow, BitOr;
    var k, r := shift / 32, shift % 32;
    var x, p := s[k], Pow(2, r);
    LimbIsPower();
    if r == 31 {
      assert x == 0;
      OrZero(p);
      PowGrows(2, 31, 32);
      QuotientAndRest(1, p, 0);
    } else {
      PowGrows(2, r, r + 1);
      OrDisjoint(x, p, r + 1);
      RoomForBit(x, r);
      PowNext(2, r);
      MultipleOf(x, p);
      assert x == x / p * p;
      Distribute(x / p, 1, p);
      QuotientAndRest(x / p + 1, p, 0);
    }
    var t := s[k := x + p];
    ChangeAt(s, k, p);
    LimbPower(k);
    PowAdd(2, r, 32 * k);
    assert shift == r + 32 * k;
  }

  /** A limb whose low `r + 1` bits are clear has room for bit `r`. */
  lemma RoomForBit(x: nat, r: nat)
    requires x < LIMB && r < 31 && x % Pow(2, r + 1) == 0
    ensures x + Pow(2, r) < LIMB
  {
    hide Pow;
    LimbIsPower();
    PowAdd(2, r + 1, 31 - r);
    PowGrows(2, r, r + 1);
    RoomBelow(x, Pow(2, r + 1), Pow(2, 31 - r), Pow(2, r));
  }

  lemma RoomBelow(x: nat, p: nat, q: nat, d: nat)
    requires d < p && x % p == 0 && x < p * q
    ensures x + d < p * q
  {
    var n := x / p;
    assert x == p * n;
    if n >= q {
      MulMonotone(q, n, p, p);
      assert false;
    }
    MulMonotone(n + 1, q, p, p);
    Distribute(n, 1, p);
  }

  lemma ChangeAt(s: seq<nat>, k: nat, d: nat)
    requires k < |s|
    ensures Num(s[k := s[k] + d]) == Num(s) + d * Pow(LIMB, k)
  {
    hide Num, Pow;
    var t := s[k := s[k] + d];
    assert s == s[..k + 1] + s[k + 1..] && t == t[..k + 1] + s[k + 1..] && t[..k] == s[..k];
    NumConcat(s[..k + 1], s[k + 1..]);
    NumConcat(t[..k + 1], s[k + 1..]);
    NumStep(s, k);
    NumStep(t, k);
    Distribute(s[k], d, Pow(LIMB, k));
  }

  /** `q` times the divisor and the rest make up the number; the rest is below the next step. */
  ghost predicate DivSoFar(n: nat, d: nat, q: nat, rest: nat, t: nat) {
    n == q * d + rest && rest < d * Pow(2, t)
  }

  lemma ZeroBits(d: nat, bits: nat)
    requires IsBitLength(d, bits)
    ensures bits == 0 <==> d == 0
  {
    hide Pow;
    PowZero(2);
  }

  lemma Shorter(n: nat, d: nat, a: nat, b: nat)
    requires IsBitLength(n, a) && IsBitLength(d, b) && a < b
    ensures d > 0 && n / d == 0
  {
    hide Pow;
    PowUpTo(2, a, b - 1);
    QuotientAndRest(0, d, n);
  }

  lemma DivStarts(n: nat, d: nat, a: nat, b: nat)
    requires IsBitLength(n, a) && IsBitLength(d, b) && 0 < b <= a <= 256
    ensures DivSoFar(n, d, 0, n, a - b + 1) && LowClear(Zero(), a - b + 1)
    ensures (d * Pow(2, a - b)) % TOP == d * Pow(2, a - b)
  {
    hide Pow;
    PowAdd(2, b - 1, a - b + 1);
    MulMonotone(Pow(2, b - 1), d, Pow(2, a - b + 1), Pow(2, a - b + 1));
    PowAdd(2, b, a - b);
    MulMonotone(d + 1, Pow(2, b), Pow(2, a - b), Pow(2, a - b));
    Distribute(d, 1, Pow(2, a - b));
    PowUpTo(2, a, 256);
    LimbPower(WIDTH);
    SmallMod(d * Pow(2, a - b));
    ZeroLow(a - b + 1);
  }

  lemma ZeroLow(t: nat)
    ensures LowClear(Zero(), t)
  {
    hide Pow;
    if t / 32 < WIDTH {
      QuotientAndRest(0, Pow(2, t % 32), 0);
    }
  }

  lemma DivNext(n: nat, d: nat, q: nat, rest: nat, shift: nat)
    requires DivSoFar(n, d, q, rest, shift + 1)
    ensures var step := d * Pow(2, shift);
            if rest >= step then DivSoFar(n, d, q + Pow(2, shift), rest - step, shift) else DivSoFar(n, d, q, rest, shift)
  {
    hide Pow;
    PowNext(2, shift);
    Regroup(d, Pow(2, shift), 2);
    Distribute(q, Pow(2, shift), d);
  }

  lemma HalveDivisor(d: nat, shift: nat)
    ensures Pow(2, 1) == 2
    ensures shift >= 1 ==> d * Pow(2, shift) / 2 == d * Pow(2, shift - 1)
  {
    if shift >= 1 {
      PowNext(2, shift - 1);
      Regroup(d, Pow(2, shift - 1), 2);
      QuotientAndRest(d * Pow(2, shift - 1), 2, 0);
    }
  }

  lemma DivEnds(n: nat, d: nat, q: nat, rest: nat)
    requires DivSoFar(n, d, q, rest, 0)
    ensures d > 0 && q == n / d
  {
    PowZero(2);
    QuotientAndRest(q, d, rest);
  }

  lemma LowLimbs(s: seq<nat>)
    requires |s| == WIDTH && IsLimbs(s)
    ensures Num(s) % (LIMB * LIMB) == s[0] + s[1] * LIMB
  {
    hide Num, Pow;
    assert s == s[..2] + s[2..];
    NumConcat(s[..2], s[2..]);
    NumStep(s, 0);
    NumStep(s, 1);
    OneLimb();
    PowNext(LIMB, 0);
    PowNext(LIMB, 1);
    QuotientAndRest(Num(s[2..]), LIMB * LIMB, s[0] + s[1] * LIMB);
  }
}
