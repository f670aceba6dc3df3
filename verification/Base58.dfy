/** Base58 text and its checksummed form. */
module Base58 {
  import opened Primitives
  import opened Numerals

  /** All alphanumeric characters except 0, I, O and l, in ascending order. */
  const ALPHABET := "123456789" + "ABCDEFGH" + "JKLMN" + "PQRSTUVWXYZ" + "abcdefghijk" + "mnopqrstuvwxyz"

  predicate Ascends(s: string) {
    |s| < 2 || (s[0] < s[1] && Ascends(s[1..]))
  }

  lemma {:induction false} AscendsMeans(s: string, i: nat, j: nat)
    requires Ascends(s) && i < j < |s|
    ensures s[i] < s[j]
  {
    if i > 0 {
      AscendsMeans(s[1..], i - 1, j - 1);
    } else if j > 1 {
      AscendsMeans(s[1..], 0, j - 1);
    }
  }

  lemma {:induction false} AscendsConcat(a: string, b: string)
    requires Ascends(a) && Ascends(b) && a != [] && b != [] && a[|a| - 1] < b[0]
    ensures Ascends(a + b)
  {
    if |a| > 1 {
      AscendsConcat(a[1..], b);
      assert (a + b)[1..] == a[1..] + b;
    } else {
      assert (a + b)[1..] == b;
    }
  }

  lemma FirstPieces()
    ensures Ascends("123456789") && Ascends("ABCDEFGH") && Ascends("JKLMN")
  {
  }

  lemma UpperPiece()
    ensures Ascends("PQRSTUVWXYZ")
  {
  }

  lemma LowerPiece()
    ensures Ascends("abcdefghijk")
  {
  }

  lemma LastPiece()
    ensures Ascends("mnopqrstuvwxyz")
  {
  }

  lemma Alphabet()
    ensures |ALPHABET| == 58 && Ascends(ALPHABET) && ALPHABET[0] == '1'
  {
    hide Ascends;
    FirstPieces();
    UpperPiece();
    LowerPiece();
    LastPiece();
    var a := "123456789" + "ABCDEFGH";
    AscendsConcat("123456789", "ABCDEFGH");
    var b := a + "JKLMN";
    AscendsConcat(a, "JKLMN");
    var c := b + "PQRSTUVWXYZ";
    AscendsConcat(b, "PQRSTUVWXYZ");
    var d := c + "abcdefghijk";
    AscendsConcat(c, "abcdefghijk");
    AscendsConcat(d, "mnopqrstuvwxyz");
  }

  function Char(d: nat): char
    requires d < 58
  {
    Alphabet();
    ALPHABET[d]
  }

  /** `strchr`: the place of a character in the alphabet. */
  function DigitOf(c: char): (d: Option<nat>)
    ensures d.Some? ==> d.value < 58 && Char(d.value) == c
    ensures d.None? ==> forall i | 0 <= i < 58 :: Char(i) != c
  {
    FindFrom(c, 0)
  }

  function FindFrom(c: char, i: nat): (d: Option<nat>)
    requires i <= 58
    ensures d.Some? ==> d.value < 58 && Char(d.value) == c
    ensures d.None? ==> forall j | i <= j < 58 :: Char(j) != c
    decreases 58 - i
  {
    if i == 58 then None else if Char(i) == c then Some(i) else FindFrom(c, i + 1)
  }

  lemma CharDigit(d: nat)
    requires d < 58
    ensures DigitOf(Char(d)) == Some(d)
    ensures d == 0 <==> Char(d) == '1'
  {
    hide DigitOf, Ascends;
    Alphabet();
    var found := DigitOf(Char(d));
    if found.value != d {
      var lo, hi := if d < found.value then d else found.value, if d < found.value then found.value else d;
      AscendsMeans(ALPHABET, lo, hi);
    }
    if d > 0 {
      AscendsMeans(ALPHABET, 0, d);
    }
  }

  predicate IsBase58(t: string) {
    forall i | 0 <= i < |t| :: DigitOf(t[i]).Some?
  }

  function DigitsOf(t: string): (s: seq<nat>)
    requires IsBase58(t)
    ensures |s| == |t| && forall i | 0 <= i < |t| :: DigitOf(t[i]) == Some(s[i]) && s[i] < 58
  {
    if t == [] then [] else DigitsOf(t[..|t| - 1]) + [DigitOf(t[|t| - 1]).value]
  }

  function Chars(s: seq<nat>): (t: string)
    requires IsDigits(58, s)
    ensures |t| == |s| && forall i | 0 <= i < |s| :: t[i] == Char(s[i])
  {
    if s == [] then [] else Chars(s[..|s| - 1]) + [Char(s[|s| - 1])]
  }

  lemma CharsDigits(s: seq<nat>)
    requires IsDigits(58, s)
    ensures IsBase58(Chars(s)) && DigitsOf(Chars(s)) == s
  {
    hide Char, DigitOf, Chars, DigitsOf;
    forall i | 0 <= i < |s|
      ensures DigitOf(Chars(s)[i]) == Some(s[i])
    {
      CharDigit(s[i]);
    }
  }

  lemma DigitsChars(t: string)
    requires IsBase58(t)
    ensures IsDigits(58, DigitsOf(t)) && Chars(DigitsOf(t)) == t
  {
    hide Char, DigitOf, Chars, DigitsOf;
  }

  // ----- The two forms -----

  function Zeros(n: nat): (s: seq<nat>)
    ensures |s| == n && forall i | 0 <= i < n :: s[i] == 0
  {
    seq(n, _ => 0)
  }

  /** `n` zeros and the numeral of `v`: what both directions produce. */
  function Padded(base: nat, n: nat, v: nat): seq<nat>
    requires base >= 2
  {
    Zeros(n) + Digits(base, v)
  }

  function LeadingZeros(s: seq<nat>): nat {
    |s| - |Significant(s)|
  }

  /** Digits are their leading zeros and the numeral of their value. */
  lemma PaddedAgain(base: nat, s: seq<nat>)
    requires base >= 2 && IsDigits(base, s)
    ensures Padded(base, LeadingZeros(s), Value(base, s)) == s
  {
    hide Value, Digits, Significant, LeadingZeros, Zeros;
    SignificantDigits(base, s);
    SplitZeros(s);
  }

  lemma SplitZeros(s: seq<nat>)
    ensures Zeros(LeadingZeros(s)) + Significant(s) == s
  {
    hide Significant, Zeros;
  }

  lemma {:induction false} PaddedParts(base: nat, n: nat, v: nat)
    requires base >= 2
    ensures IsDigits(base, Padded(base, n, v)) && LeadingZeros(Padded(base, n, v)) == n && Value(base, Padded(base, n, v)) == v
  {
    hide Value, Digits, Significant;
    if n == 0 {
      assert Padded(base, n, v) == Digits(base, v);
      NoZeros(Digits(base, v));
    } else {
      PaddedParts(base, n - 1, v);
      var rest := Padded(base, n - 1, v);
      assert Padded(base, n, v) == [0] + rest;
      ValueCons(base, 0, rest);
      OneMoreZero(rest);
    }
  }

  lemma NoZeros(s: seq<nat>)
    requires s != [] ==> s[0] != 0
    ensures LeadingZeros(s) == 0
  {
  }

  lemma OneMoreZero(s: seq<nat>)
    ensures LeadingZeros([0] + s) == LeadingZeros(s) + 1
  {
    assert ([0] + s)[1..] == s;
  }

  /** The text of a byte string: a `1` for every leading zero byte, then the base 58 numeral. */
  function Encoded(b: seq<Byte>): string {
    PaddedParts(58, LeadingZeros(b), Value(256, b));
    Chars(Padded(58, LeadingZeros(b), Value(256, b)))
  }

  function BytesOf(t: string): seq<Byte>
    requires IsBase58(t)
  {
    var s := DigitsOf(t);
    PaddedParts(256, LeadingZeros(s), Value(58, s));
    Padded(256, LeadingZeros(s), Value(58, s))
  }

  /** Decoding undoes encoding, for every byte string. */
  lemma EncodeThenDecode(b: seq<Byte>)
    ensures IsBase58(Encoded(b)) && BytesOf(Encoded(b)) == b
  {
    hide Char, DigitOf, Chars, DigitsOf, Padded, LeadingZeros;
    var n, v := LeadingZeros(b), Value(256, b);
    PaddedParts(58, n, v);
    CharsDigits(Padded(58, n, v));
    PaddedAgain(256, b);
  }

  /** Encoding undoes decoding, for every Base58 text. */
  lemma DecodeThenEncode(t: string)
    requires IsBase58(t)
    ensures Encoded(BytesOf(t)) == t
  {
    hide Char, DigitOf, Chars, DigitsOf, Padded, LeadingZeros;
    DigitsChars(t);
    var s := DigitsOf(t);
    var n, v := LeadingZeros(s), Value(58, s);
    PaddedParts(256, n, v);
    PaddedAgain(58, s);
  }

  // ----- The buffers suffice -----

  /** If `a^p <= b^q`, then `m` digits of base `a` fit into `l` digits of base `b` when `q * m < p * l`. */
  lemma Room(a: nat, p: nat, b: nat, q: nat, m: nat, l: nat, qm: nat, pl: nat)
    requires b > 1 && Pow(a, p) <= Pow(b, q)
    requires qm == q * m && pl == p * l && qm < pl
    ensures Pow(a, m) < Pow(b, l)
  {
    hide Pow;
    PowSwap(a, m, p);
    PowMonotone(Pow(a, p), Pow(b, q), m);
    PowOf(b, q, m, qm);
    PowOf(b, p, l, pl);
    PowSwap(b, p, l);
    PowGrows(b, qm, pl);
    NotLess(Pow(a, m), Pow(b, l), p);
  }

  lemma PowOf(b: nat, m: nat, n: nat, mn: nat)
    requires mn == m * n
    ensures Pow(b, mn) == Pow(Pow(b, m), n)
  {
    PowMul(b, m, n);
  }

  lemma NotLess(x: nat, y: nat, p: nat)
    requires Pow(x, p) < Pow(y, p)
    ensures x < y
  {
    hide Pow;
    if x >= y {
      PowMonotone(y, x, p);
    }
  }

  lemma PowSwap(a: nat, m: nat, p: nat)
    ensures Pow(Pow(a, m), p) == Pow(Pow(a, p), m)
  {
    hide Pow;
    PowMul(a, m, p);
    PowMul(a, p, m);
    assert m * p == p * m;
  }

  lemma EncodeRoom(m: nat)
    ensures Pow(256, m) < Pow(58, m * 138 / 100 + 1)
  {
    assert Pow(256, 8) <= Pow(58, 11) by {
      PowAdd(256, 4, 4);
      PowAdd(58, 5, 6);
      assert Pow(256, 4) == 4294967296 && Pow(58, 5) == 656356768 && Pow(58, 6) == 38068692544;
    }
    Room(256, 8, 58, 11, m, m * 138 / 100 + 1, 11 * m, 8 * (m * 138 / 100 + 1));
  }

  lemma DecodeRoom(m: nat)
    ensures Pow(58, m) < Pow(256, m * 733 / 1000 + 1)
  {
    hide Pow;
    BigPowers();
    Room(58, 71, 256, 52, m, m * 733 / 1000 + 1, 52 * m, 71 * (m * 733 / 1000 + 1));
  }

  lemma BigPowers()
    ensures Pow(58, 71) <= Pow(256, 52)
  {
    hide Pow;
    SmallPowers();
    Power(58, 9, 8, 7427658739644928, 128063081718016, 951208868148684143308060622848);
    Power(58, 9, 9, 7427658739644928, 7427658739644928, 55170114352623680311867516125184);
    Power(58, 18, 17,
          55170114352623680311867516125184,
          951208868148684143308060622848,
          52478302028992644968172978478148648556151605660894866578604032);
    Power(58, 18, 18,
          55170114352623680311867516125184,
          55170114352623680311867516125184,
          3043741517681573408154032751732621616256793128331902261559033856);
    Power(58, 36, 35,
          3043741517681573408154032751732621616256793128331902261559033856,
          52478302028992644968172978478148648556151605660894866578604032,
          159730386663078066345306447337161584696769904898410078913243029577507397293846405390982563136983769384625594118558891106107392);
    Power(256, 7, 6, 72057594037927936, 281474976710656, 20282409603651670423947251286016);
    Power(256, 13, 13,
          20282409603651670423947251286016,
          20282409603651670423947251286016,
          411376139330301510538742295639337626245683966408394965837152256);
    Power(256, 26, 26,
          411376139330301510538742295639337626245683966408394965837152256,
          411376139330301510538742295639337626245683966408394965837152256,
          169230328010303641331690318856389386196071598838855992136870091590247882556495704531248437872567112920983350278405979725889536);
  }

  lemma SmallPowers()
    ensures Pow(58, 9) == 7427658739644928 && Pow(58, 8) == 128063081718016
    ensures Pow(256, 7) == 72057594037927936 && Pow(256, 6) == 281474976710656
  {
  }

  lemma Power(b: nat, m: nat, n: nat, x: nat, y: nat, z: nat)
    requires Pow(b, m) == x && Pow(b, n) == y && x * y == z
    ensures Pow(b, m + n) == z
  {
    hide Pow;
    PowAdd(b, m, n);
  }

  // ----- Arithmetic in place -----

  lemma CarryStep(base: nat, factor: nat, x: nat, d: nat, carry: int, carry': int, s: seq<nat>, olds: seq<nat>, digit: int)
    requires |s| == |olds| && carry + factor * x == carry' * base + d
    requires Value(base, s) + carry * Pow(base, |s|) == factor * Value(base, olds) + digit
    ensures Value(base, [d] + s) + carry' * Pow(base, |s| + 1) == factor * Value(base, [x] + olds) + digit
  {
    hide Value, Pow;
    ValueCons(base, d, s);
    ValueCons(base, x, olds);
    PowNext(base, |s|);
    CarryArithmetic(base, factor, x, d, carry, carry', Pow(base, |s|), Value(base, s), Value(base, olds), digit);
  }

  lemma CarryArithmetic(
    base: int, factor: int, x: int, d: int, carry: int, carry': int, p: int, v: int, w: int, digit: int)
    requires carry + factor * x == carry' * base + d && v + carry * p == factor * w + digit
    ensures d * p + v + carry' * (p * base) == factor * (x * p + w) + digit
  {
    var sum := carry + factor * x;
    assert sum * p == carry * p + factor * x * p by {
      Distribute(carry, factor * x, p);
    }
    assert sum * p == carry' * base * p + d * p by {
      Distribute(carry' * base, d, p);
    }
    Regroup(carry', base, p);
    Regroup(factor, x, p);
    DistributeLeft(factor, x * p, w);
    assert carry' * (p * base) == carry' * (base * p);
  }

  /** `a := a * factor + digit`, on the digits of `a`, from the last one up. The final carry is 0. */
  method MulAdd(a: array<nat>, base: nat, factor: nat, digit: nat)
    requires base >= 2 && IsDigits(base, a[..])
    requires factor * Value(base, a[..]) + digit < Pow(base, a.Length)
    modifies a
    ensures IsDigits(base, a[..]) && Value(base, a[..]) == factor * Value(base, old(a[..])) + digit
  {
    hide Value, Pow;
    ghost var was := a[..];
    var carry: nat, i: nat := digit, a.Length;
    EmptyTail(base, was);
    assert a[i..] == was[i..];
    while i > 0
      invariant 0 <= i <= a.Length
      invariant IsDigits(base, a[..]) && a[..i] == was[..i]
      invariant Value(base, a[i..]) + carry * Pow(base, a.Length - i) == factor * Value(base, was[i..]) + digit
    {
      i := i - 1;
      ghost var tail := a[i + 1..];
      assert a[i] == was[..i + 1][i] == was[i];
      ProductNat(factor, a[i]);
      var sum: nat := carry + factor * a[i];
      RestParts(sum, base);
      CarryStep(base, factor, was[i], sum % base, carry, sum / base, tail, was[i + 1..], digit);
      assert was[i..] == [was[i]] + was[i + 1..];
      a[i] := sum % base;
      carry := sum / base;
      assert a[i..] == [sum % base] + tail;
    }
    assert a[0..] == a[..] && was[0..] == was;
    NoCarry(carry, Pow(base, a.Length), Value(base, a[..]));
    assert carry == 0;
  }

  lemma EmptyTail(base: nat, s: seq<nat>)
    ensures Value(base, s[|s|..]) == 0 && Pow(base, 0) == 1
  {
  }

  lemma NoCarry(carry: nat, p: nat, v: nat)
    requires v + carry * p < p
    ensures carry == 0
  {
    assert carry > 0 ==> carry * p >= p;
  }

  // ----- Encoding -----

  method EncodeBase58(b: seq<Byte>) returns (str: string)
    ensures str == Encoded(b)
  {
    hide *;
    var zeroes := 0;
    while zeroes < |b| && b[zeroes] == 0
      invariant zeroes <= |b| && forall i | 0 <= i < zeroes :: b[i] == 0
    {
      zeroes := zeroes + 1;
    }
    CountedZeros(b, zeroes);
    var rest := b[zeroes..];
    var b58 := new nat[|rest| * 138 / 100 + 1](_ => 0);
    ZeroBuffer(58, b58[..]);
    EncodeRoom(|rest|);
    NoDigits(256, rest);
    for k := 0 to |rest|
      invariant IsDigits(58, b58[..]) && Value(58, b58[..]) == Value(256, rest[..k])
    {
      Prefix(256, rest, k);
      MulAdd(b58, 58, 256, rest[k]);
    }
    assert rest[..|rest|] == rest;
    var digits := SkipZeros(b58);
    SignificantDigits(58, b58[..]);
    EncodedParts(b, zeroes, digits);
    str := ToText(zeroes, digits);
  }

  lemma CountedZeros(b: seq<nat>, n: nat)
    requires n <= |b| && (forall i | 0 <= i < n :: b[i] == 0) && (n < |b| ==> b[n] != 0)
    ensures LeadingZeros(b) == n && b[n..] == Significant(b)
    decreases n
  {
    if n > 0 {
      assert b[1..][n - 1..] == b[n..];
      CountedZeros(b[1..], n - 1);
    } else {
      assert b[0..] == b;
    }
  }

  lemma {:induction false} ZeroBuffer(base: nat, s: seq<nat>)
    requires base > 0 && forall i | 0 <= i < |s| :: s[i] == 0
    ensures IsDigits(base, s) && Value(base, s) == 0
  {
    if s != [] {
      ZeroBuffer(base, s[..|s| - 1]);
    }
  }

  lemma NoDigits(base: nat, s: seq<nat>)
    ensures Value(base, s[..0]) == 0
  {
  }

  /** The next digit of a numeral, and the bound of what has been read with it. */
  lemma Prefix(base: nat, s: seq<nat>, k: nat)
    requires base > 1 && IsDigits(base, s) && k < |s|
    ensures Value(base, s[..k + 1]) == base * Value(base, s[..k]) + s[k]
    ensures Value(base, s[..k + 1]) < Pow(base, |s|)
  {
    assert s[..k + 1] == s[..k] + [s[k]];
    ValueSnoc(base, s[..k], s[k]);
    ValueBound(base, s[..k + 1]);
    if k + 1 < |s| {
      PowGrows(base, k + 1, |s|);
    }
  }

  method SkipZeros(a: array<nat>) returns (s: seq<nat>)
    ensures s == Significant(a[..])
  {
    var i := 0;
    while i < a.Length && a[i] == 0
      invariant i <= a.Length && forall j | 0 <= j < i :: a[j] == 0
    {
      i := i + 1;
    }
    CountedZeros(a[..], i);
    s := a[i..];
  }

  lemma EncodedParts(b: seq<Byte>, zeroes: nat, digits: seq<nat>)
    requires LeadingZeros(b) == zeroes
    requires digits == Digits(58, Value(256, b[zeroes..])) && b[zeroes..] == Significant(b)
    ensures IsDigits(58, Zeros(zeroes) + digits) && Encoded(b) == Chars(Zeros(zeroes) + digits)
  {
    hide Value, Digits, Significant, LeadingZeros, Chars;
    SignificantValue(256, b);
    PaddedParts(58, zeroes, Value(256, b));
  }

  method ToText(zeroes: nat, digits: seq<nat>) returns (str: string)
    requires IsDigits(58, Zeros(zeroes) + digits)
    ensures str == Chars(Zeros(zeroes) + digits)
  {
    hide Char, Chars;
    str := seq(zeroes, _ => '1');
    Ones(zeroes, str);
    for i := 0 to |digits|
      invariant IsDigits(58, Zeros(zeroes) + digits[..i]) && str == Chars(Zeros(zeroes) + digits[..i])
    {
      var before := Zeros(zeroes) + digits[..i];
      assert (Zeros(zeroes) + digits)[zeroes + i] == digits[i];
      assert Zeros(zeroes) + digits[..i + 1] == before + [digits[i]];
      CharsSnoc(before, digits[i]);
      str := str + [Char(digits[i])];
    }
    assert digits[..|digits|] == digits;
  }

  lemma Ones(n: nat, str: string)
    requires |str| == n && forall i | 0 <= i < n :: str[i] == '1'
    ensures IsDigits(58, Zeros(n) + []) && str == Chars(Zeros(n) + [])
  {
    hide Char, Chars;
    CharDigit(0);
  }

  lemma CharsSnoc(s: seq<nat>, d: nat)
    requires IsDigits(58, s) && d < 58
    ensures Chars(s + [d]) == Chars(s) + [Char(d)]
  {
    hide Char;
    assert (s + [d])[..|s|] == s;
  }

  // ----- Decoding -----

  /** `isspace` in the C locale. */
  predicate IsSpace(c: char) {
    c == ' ' || '\t' <= c <= '\r'
  }

  predicate AllSpaces(s: string) {
    forall i | 0 <= i < |s| :: IsSpace(s[i])
  }

  /** A C string ends before its first null character. */
  function CString(s: string): (r: string)
    ensures r <= s && '\0' !in r && (|r| < |s| ==> s[|r|] == '\0')
  {
    if s == [] || s[0] == '\0' then [] else [s[0]] + CString(s[1..])
  }

  /** The first place from `i` on that is not a space, or is one. */
  function SkipSpaces(s: string, i: nat): (j: nat)
    requires i <= |s|
    ensures i <= j <= |s| && AllSpaces(s[i..j]) && (j < |s| ==> !IsSpace(s[j]))
    decreases |s| - i
  {
    if i < |s| && IsSpace(s[i]) then
      assert forall j | i < j <= |s| :: s[i..j] == [s[i]] + s[i + 1..j];
      SkipSpaces(s, i + 1)
    else i
  }

  function SkipText(s: string, i: nat): (j: nat)
    requires i <= |s|
    ensures i <= j <= |s| && (forall k | i <= k < j :: !IsSpace(s[k])) && (j < |s| ==> IsSpace(s[j]))
    decreases |s| - i
  {
    if i < |s| && !IsSpace(s[i]) then SkipText(s, i + 1) else i
  }

  /** Spaces, Base58 characters, spaces; nothing else is accepted. */
  function Decoded(s: string): Option<seq<Byte>> {
    var i := SkipSpaces(s, 0);
    var j := SkipText(s, i);
    if IsBase58(s[i..j]) && SkipSpaces(s, j) == |s| then Some(BytesOf(s[i..j])) else None
  }

  lemma TextHasNoSpaces(t: string)
    requires IsBase58(t)
    ensures forall i | 0 <= i < |t| :: !IsSpace(t[i])
  {
    hide Char, DigitOf, Ascends;
    forall i | 0 <= i < |t|
      ensures !IsSpace(t[i])
    {
      NotSpace(DigitOf(t[i]).value);
    }
  }

  lemma NotSpace(d: nat)
    requires d < 58
    ensures !IsSpace(Char(d))
  {
    hide Ascends;
    Alphabet();
    if d > 0 {
      AscendsMeans(ALPHABET, 0, d);
    }
  }

  /** A text between spaces is found by the scan. */
  lemma ScanFinds(a: string, t: string, c: string)
    requires AllSpaces(a) && AllSpaces(c) && forall i | 0 <= i < |t| :: !IsSpace(t[i])
    ensures var s := a + t + c;
            var i := SkipSpaces(s, 0);
            var j := SkipText(s, i);
            && s[i..j] == t && SkipSpaces(s, j) == |s|
  {
    hide SkipSpaces, SkipText;
    var s := a + t + c;
    if t != [] {
      SpacesTo(s, 0, |a|);
      TextTo(s, |a|, |a| + |t|);
      SpacesTo(s, |a| + |t|, |s|);
    } else {
      SpacesTo(s, 0, |s|);
      TextTo(s, |s|, |s|);
      SpacesTo(s, |s|, |s|);
    }
  }

  lemma {:induction false} SpacesTo(s: string, i: nat, n: nat)
    requires i <= n <= |s| && (forall k | i <= k < n :: IsSpace(s[k])) && (n < |s| ==> !IsSpace(s[n]))
    ensures SkipSpaces(s, i) == n
    decreases n - i
  {
    if i < n {
      SpacesTo(s, i + 1, n);
    }
  }

  lemma {:induction false} TextTo(s: string, i: nat, n: nat)
    requires i <= n <= |s| && (forall k | i <= k < n :: !IsSpace(s[k])) && (n < |s| ==> IsSpace(s[n]))
    ensures SkipText(s, i) == n
    decreases n - i
  {
    if i < n {
      TextTo(s, i + 1, n);
    }
  }

  /** Decoding a text between any spaces gives back the bytes it encodes; every text that decodes is
      the encoding of its bytes between spaces. */
  lemma DecodedExactly(s: string, b: seq<Byte>)
    ensures Decoded(s) == Some(b) <==> exists a, c :: AllSpaces(a) && AllSpaces(c) && s == a + Encoded(b) + c
  {
    hide SkipSpaces, SkipText, IsBase58, BytesOf, Encoded;
    var i := SkipSpaces(s, 0);
    var j := SkipText(s, i);
    if Decoded(s) == Some(b) {
      DecodeThenEncode(s[i..j]);
      assert s == s[0..i] + Encoded(b) + s[j..|s|];
    }
    if a, c :| AllSpaces(a) && AllSpaces(c) && s == a + Encoded(b) + c {
      EncodeThenDecode(b);
      TextHasNoSpaces(Encoded(b));
      ScanFinds(a, Encoded(b), c);
    }
  }

  method DecodeBase58(str: string) returns (r: Option<seq<Byte>>)
    ensures r == Decoded(CString(str))
  {
    hide *;
    var s := CString(str);
    var i := Spaces(s, 0);
    ghost var start, end := i, SkipText(s, i);
    var zeroes := 0;
    while i < |s| && s[i] == '1'
      invariant start <= i <= end && i == start + zeroes
      invariant forall k | start <= k < i :: s[k] == '1'
    {
      NotAtEnd(s, start, end, i);
      i, zeroes := i + 1, zeroes + 1;
    }
    ghost var text := s[start..end];
    var b256 := new nat[(|s| - i) * 733 / 1000 + 1](_ => 0);
    ZeroBuffer(256, b256[..]);
    DecodeRoom(|s| - i);
    NothingRead(text, zeroes);
    AfterOnes(s, start, end, i);
    var ok;
    ok, i := ReadText(s, start, end, i, b256);
    if !ok {
      BadCharacter(s, start, end, i);
      return None;
    }
    i := Spaces(s, i);
    if i != |s| {
      DecodedIs(s, start, end, i);
      return None;
    }
    var digits := SkipZeros(b256);
    SignificantDigits(256, b256[..]);
    DecodedIs(s, start, end, i);
    DecodedParts(text, zeroes, digits);
    r := Some(Zeros(zeroes) + digits);
  }

  /** Reads the characters up to the next space into the buffer; stops at one that is not Base58. */
  method ReadText(s: string, ghost start: nat, ghost end: nat, from: nat, b256: array<nat>) returns (ok: bool, i: nat)
    requires start <= from <= end <= |s| && end == SkipText(s, start)
    requires IsBase58(s[start..end][..from - start]) && IsDigits(256, b256[..])
    requires Value(256, b256[..]) == Value(58, DigitsOf(s[start..end][..from - start])) < Pow(58, 0)
    requires Pow(58, |s| - from) < Pow(256, b256.Length)
    modifies b256
    ensures ok ==> i == end && IsBase58(s[start..end]) && IsDigits(256, b256[..])
    ensures ok ==> Value(256, b256[..]) == Value(58, DigitsOf(s[start..end]))
    ensures !ok ==> start <= i < end && DigitOf(s[i]).None?
  {
    hide *;
    ghost var text := s[start..end];
    i := from;
    while i < |s| && !IsSpace(s[i])
      invariant from <= i <= end && IsBase58(text[..i - start]) && IsDigits(256, b256[..])
      invariant Value(256, b256[..]) == Value(58, DigitsOf(text[..i - start])) < Pow(58, i - from)
    {
      NotAtEnd(s, start, end, i);
      var d := DigitOf(s[i]);
      assert text[i - start] == s[i];
      if d.None? {
        return false, i;
      }
      NextCharacter(text, i - start, i - from);
      FitsStill(i + 1 - from, |s| - from);
      MulAdd(b256, 256, 58, d.value);
      i := i + 1;
    }
    AtEnd(s, start, end, i);
    assert text[..i - start] == text;
    ok := true;
  }

  method Spaces(s: string, i: nat) returns (j: nat)
    requires i <= |s|
    ensures j == SkipSpaces(s, i)
  {
    j := i;
    while j < |s| && IsSpace(s[j])
      invariant i <= j <= |s| && SkipSpaces(s, j) == SkipSpaces(s, i)
    {
      j := j + 1;
    }
  }

  lemma NotAtEnd(s: string, start: nat, end: nat, i: nat)
    requires start <= |s| && end == SkipText(s, start) && start <= i <= end && i < |s| && (s[i] == '1' || !IsSpace(s[i]))
    ensures i < end <= |s|
  {
    hide SkipText;
  }

  lemma AtEnd(s: string, start: nat, end: nat, i: nat)
    requires start <= |s| && end == SkipText(s, start) && start <= i <= end && (i < |s| ==> IsSpace(s[i]))
    ensures i == end
  {
    hide SkipText;
  }

  /** After the leading ones, the text ends or has another character. */
  lemma AfterOnes(s: string, start: nat, end: nat, i: nat)
    requires start <= i <= end <= |s| && (i < |s| ==> s[i] != '1')
    ensures i < end ==> s[start..end][i - start] != '1'
  {
  }

  lemma NothingRead(text: string, zeroes: nat)
    requires zeroes <= |text| && forall k | 0 <= k < zeroes :: text[k] == '1'
    ensures IsBase58(text[..zeroes]) && Value(58, DigitsOf(text[..zeroes])) == 0 < Pow(58, 0)
  {
    hide DigitOf, Char, DigitsOf;
    var t := text[..zeroes];
    forall i | 0 <= i < |t|
      ensures DigitOf(t[i]) == Some(0)
    {
      CharDigit(0);
    }
    ZeroBuffer(58, DigitsOf(t));
  }

  lemma BadCharacter(s: string, start: nat, end: nat, i: nat)
    requires start == SkipSpaces(s, 0) && end == SkipText(s, start) && start <= i < end <= |s| && DigitOf(s[i]).None?
    ensures Decoded(s) == None
  {
    hide SkipSpaces, SkipText, DigitOf, BytesOf;
    assert s[start..end][i - start] == s[i];
  }

  lemma NextCharacter(text: string, k: nat, n: nat)
    requires k < |text| && IsBase58(text[..k]) && DigitOf(text[k]).Some? && Value(58, DigitsOf(text[..k])) < Pow(58, n)
    ensures IsBase58(text[..k + 1]) && DigitOf(text[k]).value < 58
    ensures Value(58, DigitsOf(text[..k + 1])) == 58 * Value(58, DigitsOf(text[..k])) + DigitOf(text[k]).value
    ensures Value(58, DigitsOf(text[..k + 1])) < Pow(58, n + 1)
  {
    hide DigitOf, Value;
    var t, d := text[..k], DigitOf(text[k]).value;
    assert text[..k + 1] == t + [text[k]];
    assert (t + [text[k]])[..k] == t;
    ValueSnoc(58, DigitsOf(t), d);
  }

  lemma FitsStill(n: nat, m: nat)
    requires n <= m
    ensures Pow(58, n) <= Pow(58, m)
  {
    if n < m {
      PowGrows(58, n, m);
    }
  }

  lemma DecodedIs(s: string, start: nat, end: nat, k: nat)
    requires start == SkipSpaces(s, 0) && end == SkipText(s, start) && start <= end <= |s| && k == SkipSpaces(s, end)
    requires IsBase58(s[start..end])
    ensures Decoded(s) == if k == |s| then Some(BytesOf(s[start..end])) else None
  {
    hide SkipSpaces, SkipText, IsBase58, BytesOf;
  }

  lemma DecodedParts(text: string, zeroes: nat, digits: seq<nat>)
    requires IsBase58(text) && zeroes <= |text| && (forall k | 0 <= k < zeroes :: text[k] == '1')
    requires (zeroes < |text| ==> text[zeroes] != '1') && digits == Digits(256, Value(58, DigitsOf(text)))
    ensures BytesOf(text) == Zeros(zeroes) + digits
  {
    hide DigitOf, Char, DigitsOf, Value, Digits, LeadingZeros;
    var s := DigitsOf(text);
    forall i | 0 <= i < |text|
      ensures s[i] == 0 <==> text[i] == '1'
    {
      CharDigit(s[i]);
    }
    CountedZeros(s, zeroes);
  }

  // ----- With a checksum -----

  /** The first four bytes of the hash of a byte string. */
  type Checksum = f: seq<Byte> -> seq<Byte> | forall b :: |f(b)| == 4 witness (_ => [0, 0, 0, 0])

  method EncodeBase58Check(sum: Checksum, b: seq<Byte>) returns (str: string)
    ensures str == Encoded(b + sum(b))
  {
    str := EncodeBase58(b + sum(b));
  }

  method DecodeBase58Check(sum: Checksum, str: string) returns (r: Option<seq<Byte>>)
    ensures r.Some? <==> exists b :: Checked(sum, CString(str), b)
    ensures r.Some? ==> Checked(sum, CString(str), r.value)
  {
    hide Decoded, Encoded;
    var v := DecodeBase58(str);
    if v.None? || |v.value| < 4 {
      return None;
    }
    var b, c := v.value[..|v.value| - 4], v.value[|v.value| - 4..];
    assert v.value == b + c;
    if sum(b) != c {
      forall d
        ensures !Checked(sum, CString(str), d)
      {
        if Checked(sum, CString(str), d) {
          SumSplit(sum, d, v.value);
        }
      }
      return None;
    }
    assert Checked(sum, CString(str), b);
    r := Some(b);
  }

  lemma SumSplit(sum: Checksum, d: seq<Byte>, w: seq<Byte>)
    requires w == d + sum(d)
    ensures |w| >= 4 && d == w[..|w| - 4] && sum(d) == w[|w| - 4..]
  {
  }

  /** `s` decodes to `b` followed by its checksum. */
  ghost predicate Checked(sum: Checksum, s: string, b: seq<Byte>) {
    Decoded(s) == Some(b + sum(b))
  }

  /** The checksummed form decodes to exactly what was encoded. */
  lemma CheckThenDecode(sum: Checksum, b: seq<Byte>, d: seq<Byte>)
    ensures Checked(sum, Encoded(b + sum(b)), d) <==> d == b
  {
    hide Decoded, Encoded;
    DecodedExactly(Encoded(b + sum(b)), b + sum(b));
    assert Encoded(b + sum(b)) == [] + Encoded(b + sum(b)) + [];
    assert AllSpaces([]);
    if d + sum(d) == b + sum(b) {
      assert d == (d + sum(d))[..|d|] && b == (b + sum(b))[..|b|];
    }
  }

  /** An encoded text has no null character. */
  lemma EncodedIsCString(b: seq<Byte>)
    ensures CString(Encoded(b)) == Encoded(b)
  {
    hide Encoded, IsBase58, DigitOf, Char;
    EncodeThenDecode(b);
    NoNull(Encoded(b));
    WholeCString(Encoded(b));
  }

  lemma NoNull(t: string)
    requires IsBase58(t)
    ensures '\0' !in t
  {
    hide DigitOf, Char, Ascends;
    forall i | 0 <= i < |t|
      ensures t[i] != '\0'
    {
      var d := DigitOf(t[i]).value;
      NotNull(d);
    }
  }

  lemma NotNull(d: nat)
    requires d < 58
    ensures Char(d) != '\0'
  {
    hide Ascends;
    Alphabet();
    if d > 0 {
      AscendsMeans(ALPHABET, 0, d);
    }
  }

  lemma {:induction false} WholeCString(s: string)
    requires '\0' !in s
    ensures CString(s) == s
  {
    if s != [] {
      WholeCString(s[1..]);
    }
  }

  /** What was encoded with its checksum is decoded again, by the two operations themselves. */
  method CheckRoundTrip(sum: Checksum, b: seq<Byte>) returns (str: string, r: Option<seq<Byte>>)
    ensures str == Encoded(b + sum(b)) && r == Some(b)
  {
    hide Decoded, Encoded, CString, Checked;
    str := EncodeBase58Check(sum, b);
    EncodedIsCString(b + sum(b));
    CheckThenDecode(sum, b, b);
    r := DecodeBase58Check(sum, str);
    CheckThenDecode(sum, b, r.value);
  }
}
