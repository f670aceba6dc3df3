/** Numbers written in a base, most significant digit first. */
module Numerals {
  function Pow(b: nat, n: nat): (r: nat)
    ensures b > 0 ==> r > 0
  {
    if n == 0 then 1 else Pow(b, n - 1) * b
  }

  lemma PowZero(b: nat)
    ensures Pow(b, 0) == 1
  {
  }

  lemma SmallPower()
    ensures Pow(2, 8) == 256
  {
  }

  lemma {:induction false} PowAdd(b: nat, m: nat, n: nat)
    ensures Pow(b, m + n) == Pow(b, m) * Pow(b, n)
  {
    if n > 0 {
      PowAdd(b, m, n - 1);
      assert Pow(b, m) * Pow(b, n - 1) * b == Pow(b, m) * (Pow(b, n - 1) * b);
    }
  }

  lemma {:induction false} PowMul(b: nat, m: nat, n: nat)
    ensures Pow(b, m * n) == Pow(Pow(b, m), n)
  {
    if n > 0 {
      PowMul(b, m, n - 1);
      PowAdd(b, m * (n - 1), m);
      assert m * (n - 1) + m == m * n;
    } else {
      assert m * 0 == 0;
    }
  }

  lemma {:induction false} PowGrows(b: nat, m: nat, n: nat)
    requires b > 1 && m < n
    ensures Pow(b, m) < Pow(b, n)
  {
    if m < n - 1 {
      PowGrows(b, m, n - 1);
    }
    assert Pow(b, n - 1) * b >= Pow(b, n - 1) * 2;
  }

  lemma {:induction false} PowMonotone(a: nat, b: nat, n: nat)
    requires a <= b
    ensures Pow(a, n) <= Pow(b, n)
  {
    if n > 0 {
      PowMonotone(a, b, n - 1);
      MulMonotone(Pow(a, n - 1), Pow(b, n - 1), a, b);
    }
  }

  lemma PowNext(base: nat, n: nat)
    ensures Pow(base, n + 1) == Pow(base, n) * base
  {
  }

  lemma Distribute(a: int, b: int, c: int)
    ensures (a + b) * c == a * c + b * c
  {
  }

  lemma DistributeLeft(a: int, b: int, c: int)
    ensures a * (b + c) == a * b + a * c
  {
  }

  lemma Commute(a: int, b: int)
    ensures a * b == b * a
  {
  }

  lemma RestParts(n: nat, d: nat)
    requires d > 0
    ensures n == n / d * d + n % d && n / d >= 0 && 0 <= n % d < d
  {
  }

  lemma Regroup(a: int, b: int, c: int)
    ensures a * b * c == a * (b * c)
  {
  }

  lemma ProductNat(a: nat, b: nat)
    ensures a * b >= 0
  {
  }

  lemma QuotientNat(a: nat, b: nat)
    requires b > 0
    ensures a / b >= 0
  {
  }

  lemma MulMonotone(a: nat, b: nat, c: nat, d: nat)
    requires a <= b && c <= d
    ensures a * c <= b * d
  {
    assert a * c <= b * c;
    assert b * c <= b * d;
  }

  lemma MulLess(a: int, b: int, c: nat)
    requires a <= b
    ensures a * c <= b * c
  {
  }

  // ----- Bits -----

  /** Bit `i` of `n`. */
  predicate Bit(n: nat, i: nat) {
    if i == 0 then n % 2 == 1 else Bit(n / 2, i - 1)
  }

  lemma {:induction false} BitIs(n: nat, i: nat)
    ensures Bit(n, i) <==> n / Pow(2, i) % 2 == 1
    decreases i
  {
    hide Pow;
    if i == 0 {
      PowZero(2);
    } else {
      BitIs(n / 2, i - 1);
      PowNext(2, i - 1);
      DivTwo(n, Pow(2, i - 1));
    }
  }

  lemma DivTwo(n: nat, p: nat)
    requires p > 0
    ensures n / (p * 2) == n / 2 / p
  {
    var h := n / 2;
    var q, r := h / p, h % p;
    assert h == q * p + r;
    Regroup(q, p, 2);
    Distribute(q * p, r, 2);
    QuotientAndRest(q, p * 2, 2 * r + n % 2);
  }

  // ----- Values -----

  predicate IsDigits(base: nat, s: seq<nat>) {
    forall i | 0 <= i < |s| :: s[i] < base
  }

  function Value(base: nat, s: seq<nat>): nat {
    if s == [] then 0 else Value(base, s[..|s| - 1]) * base + s[|s| - 1]
  }

  lemma ValueSnoc(base: nat, s: seq<nat>, d: nat)
    ensures Value(base, s + [d]) == Value(base, s) * base + d
  {
    assert (s + [d])[..|s|] == s;
  }

  lemma {:induction false} ValueCons(base: nat, d: nat, s: seq<nat>)
    ensures Value(base, [d] + s) == d * Pow(base, |s|) + Value(base, s)
  {
    if s == [] {
      assert [d] + s == [d];
      assert [d][..0] == [];
    } else {
      var init, last := s[..|s| - 1], s[|s| - 1];
      assert [d] + s == ([d] + init) + [last];
      ValueSnoc(base, [d] + init, last);
      ValueCons(base, d, init);
      assert (d * Pow(base, |init|) + Value(base, init)) * base
             == d * (Pow(base, |init|) * base) + Value(base, init) * base;
    }
  }

  lemma {:induction false} ValueBound(base: nat, s: seq<nat>)
    requires IsDigits(base, s)
    ensures Value(base, s) < Pow(base, |s|)
  {
    if s != [] {
      var init := s[..|s| - 1];
      ValueBound(base, init);
      MulMonotone(Value(base, init) + 1, Pow(base, |init|), base, base);
      Distribute(Value(base, init), 1, base);
    }
  }

  lemma Smaller(v: nat, base: nat)
    requires v > 0 && base >= 2
    ensures v / base < v
  {
    var q := v / base;
    RestParts(v, base);
    MulMonotone(q, q, 2, base);
  }

  /** The shortest numeral of `v`; none for 0. */
  function Digits(base: nat, v: nat): (s: seq<nat>)
    requires base >= 2
    ensures IsDigits(base, s)
    ensures s != [] ==> s[0] != 0
    ensures Value(base, s) == v
    ensures v == 0 <==> s == []
  {
    if v == 0 then []
    else
      Smaller(v, base);
      RestParts(v, base);
      ValueSnoc(base, Digits(base, v / base), v % base);
      Digits(base, v / base) + [v % base]
  }

  lemma DigitsStep(base: nat, v: nat, d: nat)
    requires base >= 2 && d < base && (v > 0 || d > 0)
    ensures Digits(base, v * base + d) == Digits(base, v) + [d]
  {
    hide Digits, Value;
    ProductNat(v, base);
    QuotientAndRest(v, base, d);
    if v > 0 {
      MulMonotone(1, v, 1, base);
    }
    DigitsLast(base, v * base + d);
  }

  lemma DigitsLast(base: nat, v: nat)
    requires base >= 2 && v > 0
    ensures Digits(base, v) == Digits(base, v / base) + [v % base]
  {
  }

  /** A numeral without leading zeros is the shortest of its value. */
  lemma {:induction false} DigitsUnique(base: nat, s: seq<nat>)
    requires base >= 2 && IsDigits(base, s) && (s != [] ==> s[0] != 0)
    ensures Digits(base, Value(base, s)) == s
  {
    hide Digits;
    if s != [] {
      var init, last := s[..|s| - 1], s[|s| - 1];
      assert s == init + [last];
      DigitsUnique(base, init);
      assert init != [] ==> init[0] == s[0];
      DigitsStep(base, Value(base, init), last);
    } else {
      assert Value(base, s) == 0;
    }
  }

  lemma QuotientAndRest(v: int, base: nat, d: nat)
    requires d < base
    ensures (v * base + d) / base == v && (v * base + d) % base == d
  {
    var q := (v * base + d) / base;
    assert q * base <= v * base + d < q * base + base;
    if q < v {
      MulLess(q + 1, v, base);
      Distribute(q, 1, base);
    } else if q > v {
      MulLess(v + 1, q, base);
      Distribute(v, 1, base);
    }
  }

  lemma ModAdd(x: int, y: int, m: nat)
    requires m > 0
    ensures (x % m + y) % m == (x + y) % m
  {
    var q := x / m;
    assert x == q * m + x % m;
    ModSkip(x % m + y, q, m);
  }

  lemma ModSkip(x: int, k: int, m: nat)
    requires m > 0
    ensures (x + k * m) % m == x % m
  {
    var q, r := x / m, x % m;
    assert x == q * m + r;
    Distribute(q, k, m);
    QuotientAndRest(q + k, m, r);
  }

  lemma ModMul(x: int, c: int, m: nat)
    requires m > 0
    ensures x % m * c % m == x * c % m
  {
    var q, r := x / m, x % m;
    assert x == q * m + r;
    Distribute(q * m, r, c);
    assert q * m * c == q * c * m;
    ModSkip(r * c, q * c, m);
  }

  /** Leading zeros left out. */
  function Significant(s: seq<nat>): (r: seq<nat>)
    ensures r != [] ==> r[0] != 0
    ensures |r| <= |s| && r == s[|s| - |r|..]
    ensures forall i | 0 <= i < |s| - |r| :: s[i] == 0
  {
    if s != [] && s[0] == 0 then Significant(s[1..]) else s
  }

  lemma {:induction false} SignificantValue(base: nat, s: seq<nat>)
    ensures Value(base, Significant(s)) == Value(base, s)
  {
    if s != [] && s[0] == 0 {
      SignificantValue(base, s[1..]);
      assert s == [0] + s[1..];
      ValueCons(base, 0, s[1..]);
    }
  }

  /** The trimmed digits are the shortest numeral. */
  lemma SignificantDigits(base: nat, s: seq<nat>)
    requires base >= 2 && IsDigits(base, s)
    ensures Significant(s) == Digits(base, Value(base, s))
  {
    SignificantValue(base, s);
    DigitsUnique(base, Significant(s));
  }
}
