/** The compact form of 256-bit numbers: a mantissa of 23 bits, a sign bit and a size in bytes. */
module Compact {
  import opened Numerals
  import opened Limbs
  import opened Shifts
  import opened ArithUint256

  const MANTISSA := 0x80_0000   // 2^23, also the sign bit
  const SIZE_UNIT := 0x100_0000 // 2^24

  /** The number of bytes of `v`. */
  function ByteLength(v: nat): (n: nat)
    ensures v < Pow(256, n) && (n > 0 ==> v >= Pow(256, n - 1))
  {
    if v == 0 then 0
    else
      var n := ByteLength(v / 256);
      LengthStep(v, n);
      n + 1
  }

  lemma LengthStep(v: nat, n: nat)
    requires v > 0 && v / 256 < Pow(256, n) && (n > 0 ==> v / 256 >= Pow(256, n - 1))
    ensures v < Pow(256, n + 1) && v >= Pow(256, n)
  {
    PowNext(256, n);
    if n > 0 {
      PowNext(256, n - 1);
    }
  }

  lemma ByteLengthUnique(v: nat, n: nat)
    requires v < Pow(256, n) && (n > 0 ==> v >= Pow(256, n - 1))
    ensures ByteLength(v) == n
  {
    hide Pow, ByteLength;
    var m := ByteLength(v);
    if m < n {
      PowUpTo(256, m, n - 1);
    } else if n < m {
      PowUpTo(256, n, m - 1);
    }
  }

  /** Bytes from bits, as `GetCompact` counts them. */
  lemma BytesFromBits(v: nat, bits: nat)
    requires IsBitLength(v, bits)
    ensures ByteLength(v) == (bits + 7) / 8
  {
    hide Pow, ByteLength;
    var n := (bits + 7) / 8;
    BytePower(n);
    PowUpTo(2, bits, 8 * n);
    if n > 0 {
      BytePower(n - 1);
      PowUpTo(2, 8 * (n - 1), bits - 1);
    }
    ByteLengthUnique(v, n);
  }

  lemma BytePower(n: nat)
    ensures Pow(256, n) == Pow(2, 8 * n)
  {
    SmallPower();
    PowMul(2, 8, n);
  }

  // ----- The two directions -----

  /** The three highest bytes. */
  function TopBytes(v: nat): nat {
    var n := ByteLength(v);
    if n <= 3 then v * Pow(256, 3 - n) else v / Pow(256, n - 3)
  }

  /** Mantissa and size: when the top bit of the three bytes is set, one byte less is kept. */
  function Parts(v: nat): (nat, nat) {
    var n, m := ByteLength(v), TopBytes(v);
    if m >= MANTISSA then (m / 256, n + 1) else (m, n)
  }

  function CompactOf(v: nat, negative: bool): nat {
    var (m, n) := Parts(v);
    m + n * SIZE_UNIT + if negative && m != 0 then MANTISSA else 0
  }

  function SizeOf(c: nat): nat {
    c / SIZE_UNIT
  }

  /** The mantissa, moved down when the size is less than 3. */
  function WordOf(c: nat): nat {
    if SizeOf(c) <= 3 then c % MANTISSA / Pow(256, 3 - SizeOf(c)) else c % MANTISSA
  }

  function ValueOf(c: nat): nat {
    if SizeOf(c) <= 3 then WordOf(c) else WordOf(c) * Pow(256, SizeOf(c) - 3)
  }

  predicate SignOf(c: nat) {
    c / MANTISSA % 2 == 1
  }

  /** The overflow flag of `SetCompact`. */
  predicate Overflows(word: nat, size: nat) {
    word != 0 && (size > 34 || (word > 0xff && size > 33) || (word > 0xffff && size > 32))
  }

  lemma TopIsPower()
    ensures TOP == Pow(256, 32)
  {
    hide Pow;
    LimbPower(WIDTH);
    BytePower(32);
  }

  /** The flag holds exactly when the value is at least 2^256. */
  lemma OverflowExactly(c: nat)
    ensures Overflows(WordOf(c), SizeOf(c)) <==> ValueOf(c) >= TOP
  {
    hide Pow;
    TopIsPower();
    var word, size := WordOf(c), SizeOf(c);
    SmallSizes();
    if size <= 3 {
      WordIsSmall(c);
      PowUpTo(256, 3, 32);
    } else if size >= 35 {
      PowUpTo(256, 32, size - 3);
      if word > 0 {
        MulMonotone(1, word, Pow(256, 32), Pow(256, size - 3));
      }
    } else if size <= 32 {
      PowAdd(256, 3, size - 3);
      PowUpTo(256, size, 32);
      MulMonotone(word + 1, Pow(256, 3), Pow(256, size - 3), Pow(256, size - 3));
      Distribute(word, 1, Pow(256, size - 3));
    } else {
      var k := 35 - size;
      PowAdd(256, k, size - 3);
      Threshold(word, Pow(256, k), Pow(256, size - 3));
    }
  }

  lemma SmallSizes()
    ensures Pow(256, 0) == 1 && Pow(256, 1) == 256 && Pow(256, 2) == 65536 && Pow(256, 3) == 16777216
  {
  }

  lemma WordIsSmall(c: nat)
    ensures WordOf(c) < MANTISSA
  {
    var p := if SizeOf(c) <= 3 then Pow(256, 3 - SizeOf(c)) else 1;
    assert c % MANTISSA / p <= c % MANTISSA by {
      DivBelow(c % MANTISSA, p);
    }
  }

  lemma DivBelow(x: nat, p: nat)
    requires p > 0
    ensures x / p <= x
  {
    assert x / p * p <= x;
    MulMonotone(x / p, x / p, 1, p);
  }

  lemma Threshold(word: nat, a: nat, b: nat)
    requires b > 0
    ensures word >= a <==> word * b >= a * b
  {
    if word >= a {
      MulMonotone(a, word, b, b);
    } else {
      MulMonotone(word + 1, a, b, b);
      Distribute(word, 1, b);
    }
  }

  // ----- Round trip -----

  /** Three bytes: below 2^24, and at least 2^16 unless the number is 0. */
  lemma TopBytesBound(v: nat)
    ensures TopBytes(v) < SIZE_UNIT && (v > 0 ==> TopBytes(v) >= 0x1_0000)
  {
    hide Pow, ByteLength;
    SmallSizes();
    var n := ByteLength(v);
    if n == 0 {
      assert v == 0 && 0 * Pow(256, 3) == 0;
    } else if n <= 3 {
      var p := Pow(256, 3 - n);
      PowAdd(256, n, 3 - n);
      PowAdd(256, n - 1, 3 - n);
      MulMonotone(v + 1, Pow(256, n), p, p);
      Distribute(v, 1, p);
      MulMonotone(Pow(256, n - 1), v, p, p);
    } else {
      var p := Pow(256, n - 3);
      PowAdd(256, 3, n - 3);
      PowAdd(256, 2, n - 3);
      QuotientBetween(v, p, Pow(256, 2), Pow(256, 3));
    }
  }

  lemma QuotientBetween(v: nat, p: nat, a: nat, b: nat)
    requires p > 0 && a * p <= v < b * p
    ensures a <= v / p < b
  {
    var q := v / p;
    assert q * p <= v < q * p + p;
    if q < a {
      MulMonotone(q + 1, a, p, p);
      Distribute(q, 1, p);
    }
    if q >= b {
      MulMonotone(b, q, p, p);
    }
  }

  /** `v` without what is below a multiple of `p`. */
  function Floor(v: nat, p: nat): nat
    requires p > 0
  {
    QuotientNat(v, p);
    ProductNat(v / p, p);
    v / p * p
  }

  /** The number that the compact form of `v` stands for: low bytes beyond the mantissa are cleared. */
  function Truncated(v: nat): nat {
    var n := Parts(v).1;
    if n <= 3 then v else Floor(v, Pow(256, n - 3))
  }

  lemma PartsMeaning(v: nat)
    ensures var (m, n) := Parts(v);
            && m < MANTISSA && n >= ByteLength(v)
            && (n <= 3 ==> m / Pow(256, 3 - n) == v)
            && (n > 3 ==> m == v / Pow(256, n - 3))
  {
    hide Pow, ByteLength;
    SmallSizes();
    TopBytesBound(v);
    var n0, m0 := ByteLength(v), TopBytes(v);
    if n0 <= 3 {
      SmallParts(v, n0, m0);
    } else {
      PowNext(256, n0 - 3);
      DivTwice(v, Pow(256, n0 - 3));
    }
  }

  lemma DivTwice(v: nat, p: nat)
    requires p > 0
    ensures v / p / 256 == v / (p * 256)
  {
    var q := v / p;
    var a, b := q / 256, q % 256;
    assert q == a * 256 + b && v == q * p + v % p;
    Distribute(a * 256, b, p);
    Regroup(a, 256, p);
    MulMonotone(b + 1, 256, p, p);
    Distribute(b, 1, p);
    QuotientAndRest(a, p * 256, b * p + v % p);
  }

  lemma SmallParts(v: nat, n: nat, m: nat)
    requires n <= 3 && m == v * Pow(256, 3 - n) && v < Pow(256, n) && (v == 0 ==> m < MANTISSA)
    ensures m < MANTISSA ==> m / Pow(256, 3 - n) == v
    ensures m >= MANTISSA && n < 3 ==> m / 256 / Pow(256, 2 - n) == v
    ensures m >= MANTISSA && n == 3 ==> m / 256 == v / 256
  {
    SmallSizes();
    QuotientAndRest(v, Pow(256, 3 - n), 0);
    if n < 3 {
      PowNext(256, 2 - n);
      Regroup(v, Pow(256, 2 - n), 256);
      QuotientAndRest(v * Pow(256, 2 - n), 256, 0);
      QuotientAndRest(v, Pow(256, 2 - n), 0);
    }
  }

  /** Taking the fields of a compact number apart again. */
  lemma Fields(m: nat, n: nat, sign: bool)
    requires m < MANTISSA
    ensures var c := m + n * SIZE_UNIT + if sign then MANTISSA else 0;
            SizeOf(c) == n && c % MANTISSA == m && (SignOf(c) <==> sign)
  {
    var c := m + n * SIZE_UNIT + if sign then MANTISSA else 0;
    var k := 2 * n + if sign then 1 else 0;
    assert c == k * MANTISSA + m;
    QuotientAndRest(k, MANTISSA, m);
  }

  lemma CompactFields(v: nat, negative: bool)
    ensures var c := CompactOf(v, negative);
            SizeOf(c) == Parts(v).1 && c % MANTISSA == Parts(v).0 && (SignOf(c) <==> negative && Parts(v).0 != 0)
  {
    hide Pow, Parts, SizeOf, SignOf;
    var (m, n) := Parts(v);
    PartsMeaning(v);
    Fields(m, n, negative && m != 0);
  }

  lemma DecodedValue(c: nat, v: nat, m: nat, n: nat)
    requires SizeOf(c) == n && c % MANTISSA == m
    requires if n <= 3 then m / Pow(256, 3 - n) == v else m == v / Pow(256, n - 3)
    ensures ValueOf(c) == (if n <= 3 then v else v / Pow(256, n - 3) * Pow(256, n - 3)) <= v
  {
    hide Pow, SizeOf;
    if n > 3 {
      var p := Pow(256, n - 3);
      assert v == v / p * p + v % p;
    }
  }

  /** Decoding the compact form of a number clears its bytes below the mantissa, and nothing else. */
  lemma CompactTruncates(v: nat, negative: bool)
    ensures ValueOf(CompactOf(v, negative)) == Truncated(v) <= v
    ensures SignOf(CompactOf(v, negative)) <==> negative && Parts(v).0 != 0
    ensures v < TOP ==> !Overflows(WordOf(CompactOf(v, negative)), SizeOf(CompactOf(v, negative)))
  {
    hide Pow, Parts, CompactOf, ValueOf, WordOf, SizeOf, SignOf, Overflows;
    var c := CompactOf(v, negative);
    PartsMeaning(v);
    CompactFields(v, negative);
    DecodedValue(c, v, Parts(v).0, Parts(v).1);
    OverflowExactly(c);
  }

  /** The truncated number has the same compact form. */
  lemma CompactStable(v: nat, negative: bool)
    ensures CompactOf(Truncated(v), negative) == CompactOf(v, negative)
    ensures Truncated(Truncated(v)) == Truncated(v)
  {
    hide Pow, ByteLength, TopBytes;
    var n0 := ByteLength(v);
    var (m, n) := Parts(v);
    PartsMeaning(v);
    if n > 3 {
      var p, w := Pow(256, n - 3), Truncated(v);
      SameLength(v, n0, n);
      SameTop(v, n0, m, n);
      assert Parts(w) == Parts(v);
      QuotientAndRest(m, p, 0);
    }
  }

  lemma SameLength(v: nat, n0: nat, n: nat)
    requires n0 == ByteLength(v) && n > 3 && (n == n0 || n == n0 + 1)
    ensures ByteLength(Floor(v, Pow(256, n - 3))) == n0
  {
    hide Pow, ByteLength;
    var p := Pow(256, n - 3);
    var q := Pow(256, n0 - 1 - (n - 3));
    PowAdd(256, n0 - 1 - (n - 3), n - 3);
    assert v / p >= q by {
      QuotientAtLeast(v, p, q);
    }
    MulMonotone(q, v / p, p, p);
    assert v / p * p <= v;
    ByteLengthUnique(Floor(v, p), n0);
  }

  lemma QuotientAtLeast(v: nat, p: nat, a: nat)
    requires p > 0 && a * p <= v
    ensures a <= v / p
  {
    var q := v / p;
    assert v < q * p + p;
    if q < a {
      MulMonotone(q + 1, a, p, p);
      Distribute(q, 1, p);
    }
  }

  lemma SameTop(v: nat, n0: nat, m: nat, n: nat)
    requires n0 == ByteLength(v) && (m, n) == Parts(v) && n > 3 && m == v / Pow(256, n - 3)
    requires ByteLength(Floor(v, Pow(256, n - 3))) == n0
    ensures Parts(Floor(v, Pow(256, n - 3))) == Parts(v)
  {
    hide Pow, ByteLength, TopBytes;
    var w := Floor(v, Pow(256, n - 3));
    if n == n0 {
      TopIs(w, n0, m);
    } else {
      PowNext(256, n0 - 3);
      Regroup(m, Pow(256, n0 - 3), 256);
      Regroup(m, 256, Pow(256, n0 - 3));
      TopIs(w, n0, m * 256);
      assert m * 256 >= MANTISSA && m * 256 / 256 == m;
    }
  }

  lemma TopIs(w: nat, n: nat, x: nat)
    requires n >= 3 && ByteLength(w) == n && w == x * Pow(256, n - 3)
    ensures TopBytes(w) == x
  {
    hide Pow, ByteLength;
    SmallSizes();
    QuotientAndRest(x, Pow(256, n - 3), 0);
  }

  // ----- The operations -----

  /** Sets `x` from its compact form; reports a negative number and one too large. */
  method SetCompact(x: Uint256, c: nat) returns (negative: bool, overflow: bool)
    requires c < LIMB
    modifies x
    ensures x.Valid() && x.Value() == ValueOf(c) % TOP
    ensures negative <==> WordOf(c) != 0 && SignOf(c)
    ensures overflow <==> ValueOf(c) >= TOP
  {
    hide Pow, Num;
    var size, word := c / SIZE_UNIT, c % MANTISSA;
    WordIsSmall(c);
    OverflowExactly(c);
    if size <= 3 {
      word := word / Pow(256, 3 - size);
      x.Assign(word);
      SmallWord(word);
    } else {
      x.Assign(word);
      BytePower(size - 3);
      x.ShiftLeft(8 * (size - 3));
    }
    negative := word != 0 && c / MANTISSA % 2 == 1;
    overflow := word != 0 && (size > 34 || (word > 0xff && size > 33) || (word > 0xffff && size > 32));
  }

  lemma SmallWord(word: nat)
    requires word < MANTISSA
    ensures word % TOP == word
  {
    hide Pow;
    TopIsPower();
    SmallSizes();
    PowUpTo(256, 3, 32);
    SmallMod(word);
  }

  /** The compact form of `x`. Its mantissa leaves the sign bit free and its size fits into a byte. */
  method GetCompact(x: Uint256, negative: bool) returns (c: nat)
    requires x.Valid()
    ensures c == CompactOf(x.Value(), negative) < LIMB
  {
    hide Pow, Num, ByteLength, Parts, IsBitLength;
    var bits := x.Bits();
    ghost var v := x.Value();
    BytesFromBits(v, bits);
    PartsMeaning(v);
    TopBytesBound(v);
    var size := (bits + 7) / 8;
    var low;
    if size <= 3 {
      low := x.GetLow64();
      LowIsWhole(v, size);
      c := low * Pow(256, 3 - size);
    } else {
      var bn := new Uint256.Copy(x);
      BytePower(size - 3);
      bn.ShiftRight(8 * (size - 3));
      c := bn.GetLow64();
      LowIsTop(v);
    }
    assert c == TopBytes(v);
    PartsAre(v);
    if c / MANTISSA % 2 == 1 {
      c := c / 256;
      size := size + 1;
    }
    assert c < MANTISSA && size < 256;
    c := c + size * SIZE_UNIT + if negative && c != 0 then MANTISSA else 0;
  }

  lemma LowIsWhole(v: nat, size: nat)
    requires size <= 3 && v < Pow(256, size)
    ensures v % (LIMB * LIMB) == v
  {
    hide Pow;
    SmallSizes();
    PowUpTo(256, size, 3);
  }

  lemma LowIsTop(v: nat)
    requires TopBytes(v) < SIZE_UNIT
    ensures TopBytes(v) % (LIMB * LIMB) == TopBytes(v)
  {
    hide TopBytes;
  }

  lemma PartsAre(v: nat)
    requires TopBytes(v) < SIZE_UNIT
    ensures Parts(v) == if TopBytes(v) / MANTISSA % 2 == 1 then (TopBytes(v) / 256, ByteLength(v) + 1)
                        else (TopBytes(v), ByteLength(v))
  {
    hide TopBytes, ByteLength;
  }
}
