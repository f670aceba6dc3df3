/** The compressed form of amounts (`CTxOutCompressor`), in 64-bit arithmetic. */
module Amounts {
  import opened Primitives
  import opened Numerals

  const TWO_64 := 0x1_0000_0000_0000_0000

  /** How often 10 divides `n`, up to 9 times. */
  function Tens(n: nat, e: nat): (r: nat)
    requires n > 0 && e <= 9
    ensures e <= r <= 9
    decreases 9 - e
  {
    if n % 10 == 0 && e < 9 then Tens(n / 10, e + 1) else e
  }

  /** `n` without the factors of 10 counted by `Tens`. */
  function Reduced(n: nat, e: nat): (r: nat)
    requires n > 0 && e <= 9
    ensures r > 0 && (r % 10 != 0 || Tens(n, e) == 9)
    ensures n == r * Pow(10, Tens(n, e) - e)
    decreases 9 - e
  {
    if n % 10 == 0 && e < 9 then
      var r := Reduced(n / 10, e + 1);
      PowNext(10, Tens(n / 10, e + 1) - (e + 1));
      Regroup(r, Pow(10, Tens(n / 10, e + 1) - (e + 1)), 10);
      r
    else n
  }

  function Compressed(n: nat): nat {
    if n == 0 then 0
    else
      var e, r := Tens(n, 0), Reduced(n, 0);
      if e < 9 then 1 + (r / 10 * 9 + r % 10 - 1) * 10 + e else 1 + (r - 1) * 10 + 9
  }

  function Decompressed(x: nat): nat {
    if x == 0 then 0
    else
      var e, y := (x - 1) % 10, (x - 1) / 10;
      (if e < 9 then y / 9 * 10 + y % 9 + 1 else y + 1) * Pow(10, e)
  }

  /** Over all naturals the two are inverse to each other. */
  lemma DecompressedCompressed(n: nat)
    ensures Decompressed(Compressed(n)) == n
  {
    hide Pow, Tens, Reduced;
    if n > 0 {
      var e, r := Tens(n, 0), Reduced(n, 0);
      if e < 9 {
        var y := r / 10 * 9 + r % 10 - 1;
        QuotientAndRest(r / 10, 9, r % 10 - 1);
        QuotientAndRest(y, 10, e);
        assert y / 9 * 10 + y % 9 + 1 == r;
      } else {
        QuotientAndRest(r - 1, 10, 9);
      }
    }
  }

  lemma {:induction false} TensOf(r: nat, e: nat, from: nat)
    requires r > 0 && from + e <= 9 && (r % 10 != 0 || from + e == 9)
    ensures r * Pow(10, e) > 0 && Tens(r * Pow(10, e), from) == from + e && Reduced(r * Pow(10, e), from) == r
    decreases e
  {
    if e == 0 {
      PowZero(10);
    } else {
      TensOf(r, e - 1, from + 1);
      PowNext(10, e - 1);
      Regroup(r, Pow(10, e - 1), 10);
      QuotientAndRest(r * Pow(10, e - 1), 10, 0);
    }
  }

  lemma CompressedDecompressed(x: nat)
    ensures Compressed(Decompressed(x)) == x
  {
    hide Pow, Tens, Reduced;
    if x > 0 {
      var e, y := (x - 1) % 10, (x - 1) / 10;
      if e < 9 {
        var r := y / 9 * 10 + y % 9 + 1;
        QuotientAndRest(y / 9, 10, y % 9 + 1);
        TensOf(r, e, 0);
      } else {
        TensOf(y + 1, 9, 0);
      }
    }
  }

  /** The format: an amount of `q` and a last digit `d`, followed by `e` zeros, and one with nine zeros or
      more. */
  lemma CompressedForm(q: nat, d: nat, e: nat)
    requires 1 <= d <= 9 && e < 9
    ensures Compressed((10 * q + d) * Pow(10, e)) == 1 + 10 * (9 * q + d - 1) + e
  {
    hide Pow, Tens, Reduced;
    TensOf(10 * q + d, e, 0);
  }

  lemma CompressedRound(q: nat)
    ensures Compressed(0) == 0 && Compressed((q + 1) * Pow(10, 9)) == 1 + 10 * q + 9
  {
    hide Pow, Tens, Reduced;
    TensOf(q + 1, 9, 0);
  }

  // ----- In 64 bits -----

  /** What an unsigned integer of 64 bits keeps of a number. */
  function Cut(n: nat): (r: nat)
    ensures r < TWO_64
  {
    n % TWO_64
  }

  lemma CutSmall(n: nat)
    requires n < TWO_64
    ensures Cut(n) == n
  {
  }

  lemma CutAdd(n: nat, d: nat)
    ensures Cut(Cut(n) + d) == Cut(n + d)
  {
    ModAdd(n, d, TWO_64);
  }

  lemma CutMul(n: nat, c: nat)
    ensures Cut(Cut(n) * c) == Cut(n * c)
  {
    ModMul(n, c, TWO_64);
  }

  /** What is lost is a multiple of 2^64. */
  lemma CutParts(n: nat) returns (j: nat)
    ensures n == Cut(n) + j * TWO_64
  {
    j := n / TWO_64;
  }

  /** What the two functions give: the exact values, cut to 64 bits. */
  function Compress64(n: nat): nat {
    Cut(Compressed(n))
  }

  function Decompress64(x: nat): nat {
    Cut(Decompressed(x))
  }

  /** Every operation is one on 64 bits; for an amount up to `MAX_MONEY` none of them wraps. */
  method CompressAmount(n0: nat) returns (x: nat)
    requires n0 < TWO_64
    ensures x == Compress64(n0) && (n0 <= MAX_MONEY ==> x == Compressed(n0))
  {
    hide Cut, Compressed, Tens, Reduced;
    MoneyFits(n0);
    if n0 <= MAX_MONEY {
      CutSmall(Compressed(n0));
    }
    if n0 == 0 {
      NoCode();
      return 0;
    }
    var n, e := n0, 0;
    while n % 10 == 0 && e < 9
      invariant 0 < n <= n0 && e <= 9 && Tens(n, e) == Tens(n0, 0) && Reduced(n, e) == Reduced(n0, 0)
      decreases 9 - e
    {
      TensStep(n, e);
      n := n / 10;
      e := e + 1;
    }
    TensStep(n, e);
    CodeParts(n0, n, e);
    if e < 9 {
      var d := n % 10;
      assert 1 <= d <= 9;
      n := n / 10;
      NoWrap(n, d);
      CutAdd((n * 9 + d - 1) * 10, 1 + e);
      var digits := Cut(Cut(n * 9) + d - 1);
      x := Cut(Cut(digits * 10) + (1 + e));
    } else {
      CutAdd((n - 1) * 10, 10);
      x := Cut(Cut((n - 1) * 10) + 10);
    }
  }

  lemma TensStep(n: nat, e: nat)
    requires n > 0 && e <= 9
    ensures if n % 10 == 0 && e < 9 then Tens(n, e) == Tens(n / 10, e + 1) && Reduced(n, e) == Reduced(n / 10, e + 1)
            else Tens(n, e) == e && Reduced(n, e) == n
  {
  }

  lemma NoWrap(n: nat, d: nat)
    requires n <= TWO_64 / 10 && 1 <= d <= 9
    ensures Cut(Cut(n * 9) + d - 1) == n * 9 + d - 1
  {
  }

  lemma NoCode()
    ensures Compressed(0) == 0 && Cut(0) == 0
  {
  }

  lemma CodeParts(n0: nat, r: nat, e: nat)
    requires n0 > 0 && e == Tens(n0, 0) && r == Reduced(n0, 0)
    ensures r > 0 && (e < 9 ==> r % 10 != 0)
    ensures Compressed(n0) == if e < 9 then (r / 10 * 9 + r % 10 - 1) * 10 + (1 + e) else (r - 1) * 10 + 10
  {
    hide Tens, Reduced;
  }

  /** Takes a code apart. */
  method ReadCode(x0: nat) returns (n: nat, e: nat)
    requires 0 < x0 < TWO_64
    ensures n == Mantissa(x0) < TWO_64 && e == (x0 - 1) % 10
  {
    hide Cut, Mantissa;
    MantissaIs(x0);
    var x := x0 - 1;
    e := x % 10;
    x := x / 10;
    if e < 9 {
      var d := x % 9 + 1;
      x := x / 9;
      CutSmall(x * 10);
      CutSmall(x * 10 + d);
      n := Cut(Cut(x * 10) + d);
    } else {
      CutSmall(x + 1);
      n := Cut(x + 1);
    }
  }

  method DecompressAmount(x0: nat) returns (n: nat)
    requires x0 < TWO_64
    ensures n == Decompress64(x0)
  {
    hide Pow, Cut, Decompressed, Mantissa;
    if x0 == 0 {
      NoAmount();
      return 0;
    }
    MantissaIs(x0);
    var e;
    n, e := ReadCode(x0);
    CutSmall(n);
    n := Scale(n, e);
  }

  /** Multiplies by 10, `e0` times. */
  method Scale(n0: nat, e0: nat) returns (n: nat)
    requires n0 < TWO_64
    ensures n == Cut(n0 * Pow(10, e0))
  {
    hide Pow, Cut;
    n := n0;
    CutSmall(n);
    ghost var exact := n0;
    var e := e0;
    while e > 0
      invariant e >= 0 && exact * Pow(10, e) == n0 * Pow(10, e0) && n == Cut(exact)
    {
      TenTimes(exact, e);
      CutMul(exact, 10);
      exact := exact * 10;
      n := Cut(n * 10);
      e := e - 1;
    }
    PowZero(10);
  }

  lemma TenTimes(n: nat, e: nat)
    requires e > 0
    ensures n * Pow(10, e) == n * 10 * Pow(10, e - 1)
  {
    hide Pow;
    PowNext(10, e - 1);
    Regroup(n, 10, Pow(10, e - 1));
  }

  lemma NoAmount()
    ensures Decompressed(0) == 0 && Cut(0) == 0
  {
  }

  lemma MantissaIs(x: nat)
    requires x > 0
    ensures var y := (x - 1) / 10;
            Mantissa(x) == if (x - 1) % 10 < 9 then y / 9 * 10 + y % 9 + 1 else y + 1
    ensures Decompressed(x) == Mantissa(x) * Pow(10, (x - 1) % 10)
  {
    hide Pow;
  }

  // ----- When the round trips hold -----

  /** The code of a number that is no multiple of 10. */
  lemma PlainCode(n: nat)
    requires n % 10 != 0
    ensures Compressed(n) == 9 * n + n % 10 - 9
  {
  }

  /** Only a number that is no multiple of 10 has a code beyond 64 bits. */
  lemma TenfoldFits(n: nat)
    requires n % 10 == 0 && n < TWO_64
    ensures Compressed(n) < TWO_64
  {
    hide Pow, Tens, Reduced;
    if n > 0 {
      ReducedTenfold(n);
    }
  }

  lemma ReducedTenfold(n: nat)
    requires n > 0 && n % 10 == 0
    ensures Tens(n, 0) > 0 && 10 * Reduced(n, 0) <= n
  {
    ReducedBelow(n / 10, 1);
  }

  lemma {:induction false} ReducedBelow(n: nat, e: nat)
    requires n > 0 && e <= 9
    ensures Reduced(n, e) <= n
    decreases 9 - e
  {
    if n % 10 == 0 && e < 9 {
      ReducedBelow(n / 10, e + 1);
    }
  }

  /** The part of a code before its exponent. */
  function Mantissa(x: nat): (r: nat)
    requires x > 0
    ensures r > 0
    ensures (x - 1) % 10 < 9 ==> r % 10 != 0 && x == 9 * r + r % 10 - 9 + (x - 1) % 10
    ensures (x - 1) % 10 == 9 ==> x == 10 * r
  {
    var y := (x - 1) / 10;
    NineToTen(y);
    if (x - 1) % 10 < 9 then y / 9 * 10 + y % 9 + 1 else y + 1
  }

  /** Of ten digits one does not occur as the last. */
  lemma NineToTen(y: nat)
    ensures var r := y / 9 * 10 + y % 9 + 1;
            r % 10 == y % 9 + 1 && 10 * y == 9 * r + r % 10 - 10
  {
    QuotientAndRest(y / 9, 10, y % 9 + 1);
  }

  /** `r * p` exceeds 64 bits; `n` is what is left of it, and the code of `n` exceeds 64 bits too. */
  ghost predicate Wrapped(r: nat, p: nat, j: nat, w: nat, n: nat) {
    n == r * p - j * TWO_64 && n < TWO_64 && n % 10 != 0 && j >= 1 && 1 <= w <= 8
  }

  /** With an odd exponent the code is even, and that of `n` is odd. */
  lemma MissesOdd(n: nat, x: nat, w: nat)
    requires x % 2 == 0
    ensures 9 * n + n % 10 - 9 != x + w * TWO_64
  {
    var q := n / 10;
    assert 9 * n + n % 10 - 9 == 2 * (45 * q + 5 * (n % 10) - 5) + 1;
    assert x + w * TWO_64 == 2 * (x / 2 + w * (TWO_64 / 2));
  }

  // With an even exponent e, `Compress64(n) == x` would make 9 * (10^e - 1) * r a multiple k of 2^64 but
  // for a small rest c. As 2^64 is invertible modulo 9 * (10^e - 1), each c leaves one k, and where that
  // one is small enough the last digit of `n` does not fit.

  lemma Residue2(k: int, c: int, z: int)
    requires k == 891 * z - 229 * c && 10 <= k < 100 && -6 <= c <= 10
    ensures (c == -4 && k == 25)
  {
  }

  lemma Misses2(r: nat, j: nat, w: nat, n: nat, x: nat)
    requires Wrapped(r, 100, j, w, n) && r % 10 != 0 && x == 9 * r + r % 10 - 9 + 2 < TWO_64
    ensures 9 * n + n % 10 - 9 != x + w * TWO_64
  {
    var k, c := 9 * j + w, r % 10 + 2 - n % 10;
    if 9 * n + n % 10 - 9 == x + w * TWO_64 {
      assert 891 * r == k * TWO_64 + c;
      Residue2(k, c, 229 * r - 4741082371357449293 * k);
    }
  }

  lemma Residue4(k: int, c: int, z: int)
    requires k == 89991 * z - 12703 * c && 10 <= k < 10000 && -4 <= c <= 12
    ensures (c == 7 && k == 1070)
  {
  }

  lemma Misses4(r: nat, j: nat, w: nat, n: nat, x: nat)
    requires Wrapped(r, 10000, j, w, n) && r % 10 != 0 && x == 9 * r + r % 10 - 9 + 4 < TWO_64
    ensures 9 * n + n % 10 - 9 != x + w * TWO_64
  {
    var k, c := 9 * j + w, r % 10 + 4 - n % 10;
    if 9 * n + n % 10 - 9 == x + w * TWO_64 {
      assert 89991 * r == k * TWO_64 + c;
      Residue4(k, c, 12703 * r - 2603915835676150217 * k);
    }
  }

  lemma Residue6(k: int, c: int, z: int)
    requires k == 8999991 * z - 2909344 * c && 10 <= k < 1000000 && -2 <= c <= 14
    ensures (c == 3 && k == 271959) || (c == 6 && k == 543918) || (c == 9 && k == 815877)
  {
  }

  lemma Misses6(r: nat, j: nat, w: nat, n: nat, x: nat)
    requires Wrapped(r, 1000000, j, w, n) && r % 10 != 0 && x == 9 * r + r % 10 - 9 + 6 < TWO_64
    ensures 9 * n + n % 10 - 9 != x + w * TWO_64
  {
    var k, c := 9 * j + w, r % 10 + 6 - n % 10;
    if 9 * n + n % 10 - 9 == x + w * TWO_64 {
      assert 8999991 * r == k * TWO_64 + c;
      Residue6(k, c, 2909344 * r - 5963108650928922233 * k);
    }
  }

  lemma Residue8(k: int, c: int, z: int)
    requires k == 899999991 * z - 98372866 * c && 10 <= k < 100000000 && 0 <= c <= 16
    ensures (c == 9 && k == 14644197)
  {
  }

  lemma Misses8(r: nat, j: nat, w: nat, n: nat, x: nat)
    requires Wrapped(r, 100000000, j, w, n) && r % 10 != 0 && x == 9 * r + r % 10 - 9 + 8 < TWO_64
    ensures 9 * n + n % 10 - 9 != x + w * TWO_64
  {
    var k, c := 9 * j + w, r % 10 + 8 - n % 10;
    if 9 * n + n % 10 - 9 == x + w * TWO_64 {
      assert 899999991 * r == k * TWO_64 + c;
      Residue8(k, c, 98372866 * r - 2016287890051016505 * k);
    }
  }

  lemma TenPowers()
    ensures Pow(10, 0) == 1 && Pow(10, 1) == 10 && Pow(10, 2) == 100 && Pow(10, 3) == 1000 && Pow(10, 4) == 10000
    ensures Pow(10, 5) == 100000 && Pow(10, 6) == 1000000 && Pow(10, 7) == 10000000 && Pow(10, 8) == 100000000
    ensures Pow(10, 9) == 1000000000
  {
    assert Pow(10, 4) == 10000;
    assert Pow(10, 7) == 10000000;
  }

  lemma Misses(e: nat, r: nat, j: nat, w: nat, n: nat, x: nat)
    requires e <= 9 && Wrapped(r, Pow(10, e), j, w, n) && x < TWO_64
    requires if e < 9 then r % 10 != 0 && x == 9 * r + r % 10 - 9 + e else x == 10 * r
    ensures 9 * n + n % 10 - 9 != x + w * TWO_64
  {
    hide Pow;
    TenPowers();
    if e % 2 == 1 {
      OddCode(e, r, x);
      MissesOdd(n, x, w);
    } else if e == 2 {
      Misses2(r, j, w, n, x);
    } else if e == 4 {
      Misses4(r, j, w, n, x);
    } else if e == 6 {
      Misses6(r, j, w, n, x);
    } else if e == 8 {
      Misses8(r, j, w, n, x);
    }
  }

  lemma OddCode(e: nat, r: nat, x: nat)
    requires e % 2 == 1 && (x == 10 * r || x == 9 * r + r % 10 - 9 + e)
    ensures x % 2 == 0
  {
    assert r == 10 * (r / 10) + r % 10;
  }

  /** The code of what is left of a number beyond 64 bits is beyond 64 bits itself, if it is the code
      that the number has. */
  lemma CodeBeyond(n: nat)
    requires n < TWO_64 <= Compressed(n)
    ensures n % 10 != 0 && Compressed(n) == 9 * n + n % 10 - 9
  {
    hide Compressed;
    if n % 10 == 0 {
      TenfoldFits(n);
    }
    PlainCode(n);
  }

  /** An amount that is cut to 64 bits never has the code it came from. */
  lemma NoCoincidence(x: nat)
    requires x < TWO_64 <= Decompressed(x)
    ensures Compress64(Decompress64(x)) != x
  {
    hide Pow, Compressed, Decompressed, Cut, Mantissa;
    var n := Decompress64(x);
    if Compress64(n) == x {
      DecompressedCompressed(n);
      if Compressed(n) < TWO_64 {
        CutSmall(Compressed(n));
      }
      CodeBeyond(n);
      NoAmount();
      MantissaIs(x);
      var j := CutParts(Decompressed(x));
      var w := CutParts(Compressed(n));
      assert Wrapped(Mantissa(x), Pow(10, (x - 1) % 10), j, w, n);
      Misses((x - 1) % 10, Mantissa(x), j, w, n, x);
    }
  }

  /** An amount comes back exactly when its code fits into 64 bits, as that of every amount in the
      money range does. */
  lemma CompressThenDecompress(n: nat)
    requires n < TWO_64
    ensures Decompress64(Compress64(n)) == n <==> Compressed(n) < TWO_64
    ensures n <= MAX_MONEY ==> Compressed(n) < TWO_64
  {
    hide Compressed, Decompressed, Cut;
    var x := Compress64(n);
    DecompressedCompressed(n);
    CutSmall(n);
    if Compressed(n) < TWO_64 {
      CutSmall(Compressed(n));
    } else if Decompress64(x) == n {
      if Decompressed(x) < TWO_64 {
        CutSmall(Decompressed(x));
      }
      CompressedDecompressed(x);
      NoCoincidence(x);
    }
    MoneyFits(n);
  }

  /** A code comes back exactly when the amount it stands for fits into 64 bits. */
  lemma DecompressThenCompress(x: nat)
    requires x < TWO_64
    ensures Compress64(Decompress64(x)) == x <==> Decompressed(x) < TWO_64
  {
    hide Compressed, Decompressed, Cut;
    CutSmall(x);
    if Decompressed(x) < TWO_64 {
      CutSmall(Decompressed(x));
      CompressedDecompressed(x);
    } else {
      NoCoincidence(x);
    }
  }

  lemma MoneyFits(n: nat)
    ensures n <= MAX_MONEY ==> Compressed(n) < TWO_64
  {
    if n % 10 != 0 {
      PlainCode(n);
    } else if n <= MAX_MONEY {
      TenfoldFits(n);
    }
  }

  /** A code whose amount does not fit: it decompresses to an amount with another code. */
  lemma WrappingCode()
    ensures Decompress64(184467440740) == 290448384 && Compress64(290448384) == 2614035451
  {
    hide Pow;
    TenPowers();
    PlainCode(290448384);
  }

  /** No code decompresses to 2^64 - 1, which as an amount would be -1, the mark of a spent output. */
  lemma NeverMinusOne(x: nat)
    requires x < TWO_64
    ensures Decompress64(x) < TWO_64 - 1
  {
    hide Pow, Cut, Decompressed, Mantissa;
    if x == 0 {
      NoAmount();
    } else {
      MantissaIs(x);
      var e := (x - 1) % 10;
      if e == 0 {
        PowZero(10);
        CutSmall(Mantissa(x));
      } else {
        PowNext(10, e - 1);
        Regroup(Mantissa(x), Pow(10, e - 1), 10);
        ProductNat(Mantissa(x), Pow(10, e - 1));
        EvenStays(Mantissa(x) * Pow(10, e - 1));
      }
    }
  }

  lemma EvenStays(h: nat)
    ensures Cut(h * 10) < TWO_64 - 1
  {
    var j := CutParts(h * 10);
    assert Cut(h * 10) == 2 * (5 * h - j * (TWO_64 / 2));
  }
}
