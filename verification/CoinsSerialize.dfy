/** The stored form of `CCoins`: version, a code with the first two outputs, a bitmask of the others, the
    unspent outputs, and the height. */
module CoinsSerialize {
  import opened Primitives
  import opened Numerals
  import opened Coins
  import opened Amounts
  import opened Compressor

  predicate Avail(outs: seq<TxOut>, i: nat) {
    i < |outs| && !outs[i].IsNull()
  }

  // ----- The mask -----

  /** Bit `i` tells whether output `start + i` is unspent. */
  function MaskBits(outs: seq<TxOut>, start: nat, i: nat): (m: nat)
    ensures m < Pow(2, i)
  {
    if i == 0 then 0
    else
      PowNext(2, i - 1);
      MaskBits(outs, start, i - 1) + if Avail(outs, start + i - 1) then Pow(2, i - 1) else 0
  }

  lemma {:induction false} MaskBit(outs: seq<TxOut>, start: nat, i: nat, p: nat)
    requires p < i
    ensures Bit(MaskBits(outs, start, i), p) <==> Avail(outs, start + p)
  {
    hide Pow, Bit;
    var rest, top := MaskBits(outs, start, i - 1), Pow(2, i - 1);
    if p == i - 1 {
      TopBit(rest, p, Avail(outs, start + p));
    } else {
      MaskBit(outs, start, i - 1, p);
      HigherBit(rest, p, i - 1);
    }
  }

  lemma TopBit(rest: nat, p: nat, on: bool)
    requires rest < Pow(2, p)
    ensures Bit(rest + if on then Pow(2, p) else 0, p) <==> on
  {
    hide Pow, Bit;
    BitIs(rest + if on then Pow(2, p) else 0, p);
    QuotientAndRest(if on then 1 else 0, Pow(2, p), rest);
  }

  /** A higher bit does not change bit `p`. */
  lemma HigherBit(m: nat, p: nat, k: nat)
    requires p < k
    ensures Bit(m + Pow(2, k), p) <==> Bit(m, p)
  {
    hide Pow, Bit;
    BitIs(m, p);
    BitIs(m + Pow(2, k), p);
    PowAdd(2, k - p - 1, p + 1);
    PowNext(2, p);
    EvenShift(m, Pow(2, p), Pow(2, k - p - 1), Pow(2, k));
  }

  lemma EvenShift(m: nat, q: nat, half: nat, top: nat)
    requires q > 0 && top == half * (q * 2)
    ensures (m + top) / q % 2 == m / q % 2
  {
    var a, r := m / q, m % q;
    assert m == a * q + r;
    TwiceAs(half, q);
    Distribute(a, 2 * half, q);
    QuotientAndRest(a + 2 * half, q, r);
    SameParity(a, half);
  }

  lemma TwiceAs(half: int, q: int)
    ensures half * (q * 2) == 2 * half * q
  {
  }

  lemma SameParity(a: int, half: int)
    ensures (a + 2 * half) % 2 == a % 2
  {
  }

  /** The mask byte `b`. */
  function MaskByte(outs: seq<TxOut>, b: nat): Byte {
    SmallPower();
    MaskBits(outs, 2 + 8 * b, 8)
  }

  lemma {:induction false} NoBits(outs: seq<TxOut>, start: nat, i: nat)
    ensures MaskBits(outs, start, i) == 0 <==> NoneAvail(outs, start, start + i)
  {
    hide Pow;
    if i > 0 {
      NoBits(outs, start, i - 1);
    }
  }

  predicate NoneAvail(outs: seq<TxOut>, lo: nat, hi: nat) {
    forall i | lo <= i < hi :: !Avail(outs, i)
  }

  /** One past the last byte below `n` that is not zero. */
  function LastUsed(outs: seq<TxOut>, n: nat): (r: nat)
    ensures r <= n
    ensures r > 0 ==> MaskByte(outs, r - 1) != 0
    ensures forall b | r <= b < n :: MaskByte(outs, b) == 0
  {
    if n == 0 then 0 else if MaskByte(outs, n - 1) != 0 then n else LastUsed(outs, n - 1)
  }

  function NonZero(outs: seq<TxOut>, n: nat): nat {
    if n == 0 then 0 else NonZero(outs, n - 1) + if MaskByte(outs, n - 1) != 0 then 1 else 0
  }

  /** The bytes that have an output at all. */
  function MaskBytes(outs: seq<TxOut>): nat {
    if |outs| <= 2 then 0 else (|outs| + 5) / 8
  }

  function MaskSize(outs: seq<TxOut>): nat {
    LastUsed(outs, MaskBytes(outs))
  }

  lemma {:induction false} NonZeroUpTo(outs: seq<TxOut>, a: nat, b: nat)
    requires a <= b && forall k | a <= k < b :: MaskByte(outs, k) == 0
    ensures NonZero(outs, b) == NonZero(outs, a)
  {
    if a < b {
      NonZeroUpTo(outs, a, b - 1);
    }
  }

  lemma {:induction false} NonZeroGrows(outs: seq<TxOut>, a: nat, b: nat)
    requires a <= b
    ensures NonZero(outs, a) <= NonZero(outs, b)
  {
    if a < b {
      NonZeroGrows(outs, a, b - 1);
    }
  }

  /** Counting non-zero bytes tells where the mask ends. */
  lemma MaskEnds(outs: seq<TxOut>, b: nat)
    requires b <= MaskSize(outs)
    ensures b == MaskSize(outs) <==> NonZero(outs, b) == NonZero(outs, MaskBytes(outs))
  {
    hide MaskByte;
    var size := MaskSize(outs);
    NonZeroUpTo(outs, size, MaskBytes(outs));
    if b < size {
      NonZeroGrows(outs, b, size - 1);
    }
  }

  method CalcMaskSize(outs: seq<TxOut>) returns (bytes: nat, nonzero: nat)
    ensures bytes == MaskSize(outs) && nonzero == NonZero(outs, MaskBytes(outs))
  {
    hide MaskByte;
    bytes, nonzero := 0, 0;
    var b := 0;
    while 2 + b * 8 < |outs|
      invariant b <= MaskBytes(outs) && bytes == LastUsed(outs, b) && nonzero == NonZero(outs, b)
    {
      var zero := true;
      var i := 0;
      while i < 8 && 2 + b * 8 + i < |outs|
        invariant i <= 8 && (zero <==> NoneAvail(outs, 2 + 8 * b, 2 + 8 * b + i))
      {
        assert Avail(outs, 2 + 8 * b + i) <==> !outs[2 + b * 8 + i].IsNull();
        if !outs[2 + b * 8 + i].IsNull() {
          zero := false;
        }
        i := i + 1;
      }
      ZeroByte(outs, b, i);
      if !zero {
        bytes, nonzero := b + 1, nonzero + 1;
      }
      b := b + 1;
    }
  }

  lemma ZeroByte(outs: seq<TxOut>, b: nat, i: nat)
    requires i <= 8 && (i == 8 || 2 + b * 8 + i >= |outs|)
    ensures MaskByte(outs, b) == 0 <==> NoneAvail(outs, 2 + 8 * b, 2 + 8 * b + i)
  {
    hide Pow;
    NoBits(outs, 2 + 8 * b, 8);
  }

  // ----- What is written -----

  predicate First(outs: seq<TxOut>) { Avail(outs, 0) }
  predicate Second(outs: seq<TxOut>) { Avail(outs, 1) }

  /** The code: how many mask bytes are not zero, and the flags. */
  function Code(c: Coins): int {
    var nonzero := NonZero(c.outs, MaskBytes(c.outs));
    var either := First(c.outs) || Second(c.outs);
    8 * (nonzero - if either then 0 else 1)
      + (if c.coinBase then 1 else 0) + (if First(c.outs) then 2 else 0) + if Second(c.outs) then 4 else 0
  }

  const TWO_31 := 0x8000_0000

  /** What can be stored: cleaned up, not fully spent, and no negative numbers. Version and height are of
      type `int`, and the number of outputs is one of 32 bits with room for the code. */
  predicate CanStore(c: Coins) {
    && 0 <= c.version < TWO_31 && 0 <= c.height < TWO_31
    && c.IsClean() && 0 < |c.outs| < TWO_31
    && forall i | 0 <= i < |c.outs| :: c.outs[i] == NULL_OUT || Storable(c.outs[i])
  }

  lemma {:induction false} NonZeroBound(outs: seq<TxOut>, n: nat)
    ensures NonZero(outs, n) <= n
  {
    hide MaskByte;
    if n > 0 {
      NonZeroBound(outs, n - 1);
    }
  }

  /** The assertion before writing: something is unspent. */
  lemma SomethingLeft(c: Coins)
    requires CanStore(c)
    ensures First(c.outs) || Second(c.outs) || NonZero(c.outs, MaskBytes(c.outs)) > 0
    ensures Code(c) >= 0
    ensures Code(c) < TWO_32
    ensures |c.outs| <= 2 + 8 * MaskSize(c.outs)
  {
    hide Pow;
    NonZeroBound(c.outs, MaskBytes(c.outs));
    var last := |c.outs| - 1;
    if last >= 2 {
      var b := (last - 2) / 8;
      assert Avail(c.outs, 2 + 8 * b + (last - 2) % 8);
      NoBits(c.outs, 2 + 8 * b, 8);
      assert b + 1 == MaskBytes(c.outs);
    }
  }

  function Mask(outs: seq<TxOut>, n: nat): (r: seq<Byte>)
    ensures |r| == n
  {
    if n == 0 then [] else Mask(outs, n - 1) + [MaskByte(outs, n - 1)]
  }

  function OutsBytes(k: Curve, outs: seq<TxOut>, n: nat): seq<Byte>
    requires n <= |outs| && forall i | 0 <= i < |outs| :: outs[i] == NULL_OUT || Storable(outs[i])
  {
    if n == 0 then [] else OutsBytes(k, outs, n - 1) + if outs[n - 1].IsNull() then [] else OutBytes(k, outs[n - 1])
  }

  function CoinBytes(k: Curve, c: Coins): seq<Byte>
    requires CanStore(c)
  {
    SomethingLeft(c);
    VarInt(c.version) + (VarInt(Code(c)) + (Mask(c.outs, MaskSize(c.outs))
      + (OutsBytes(k, c.outs, |c.outs|) + VarInt(c.height))))
  }

  method Serialize(k: Curve, c: Coins) returns (s: seq<Byte>)
    requires CanStore(c)
    ensures s == CoinBytes(k, c)
  {
    hide VarInt, Mask, OutsBytes, MaskSize, NonZero, MaskBytes;
    var maskSize, maskCode := CalcMaskSize(c.outs);
    var first, second := |c.outs| > 0 && !c.outs[0].IsNull(), |c.outs| > 1 && !c.outs[1].IsNull();
    SomethingLeft(c);
    assert first || second || maskCode > 0;
    var code := 8 * (maskCode - if first || second then 0 else 1)
                  + (if c.coinBase then 1 else 0) + (if first then 2 else 0) + if second then 4 else 0;
    var version := WriteVarInt(c.version);
    var header := WriteVarInt(code);
    var mask := WriteMask(c.outs, maskSize);
    var outs := WriteOuts(k, c.outs);
    var height := WriteVarInt(c.height);
    s := version + (header + (mask + (outs + height)));
  }

  method WriteMask(outs: seq<TxOut>, n: nat) returns (r: seq<Byte>)
    ensures r == Mask(outs, n)
  {
    hide MaskByte, Pow;
    r := [];
    for b := 0 to n
      invariant r == Mask(outs, b)
    {
      var ch := WriteMaskByte(outs, b);
      r := r + [ch];
    }
  }

  method WriteMaskByte(outs: seq<TxOut>, b: nat) returns (ch: Byte)
    ensures ch == MaskByte(outs, b)
  {
    hide Pow;
    SmallPower();
    var m, i := 0, 0;
    while i < 8 && 2 + b * 8 + i < |outs|
      invariant 0 <= i <= 8 && m == MaskBits(outs, 2 + 8 * b, i)
    {
      if !outs[2 + b * 8 + i].IsNull() {
        m := m + Pow(2, i);
      }
      i := i + 1;
    }
    BeyondEnd(outs, 2 + 8 * b, i, 8);
    ch := m;
  }

  lemma {:induction false} BeyondEnd(outs: seq<TxOut>, start: nat, i: nat, j: nat)
    requires i <= j && (i == j || start + i >= |outs|)
    ensures MaskBits(outs, start, j) == MaskBits(outs, start, i)
  {
    hide Pow;
    if i < j {
      BeyondEnd(outs, start, i, j - 1);
    }
  }

  method WriteOuts(k: Curve, outs: seq<TxOut>) returns (r: seq<Byte>)
    requires forall i | 0 <= i < |outs| :: outs[i] == NULL_OUT || Storable(outs[i])
    ensures r == OutsBytes(k, outs, |outs|)
  {
    hide VarInt, Compressed, ScriptBytes;
    r := [];
    for i := 0 to |outs|
      invariant r == OutsBytes(k, outs, i)
    {
      if !outs[i].IsNull() {
        r := r + OutBytes(k, outs[i]);
      }
    }
  }

  /** The size agrees with what is written. */
  method GetSerializeSize(k: Curve, c: Coins) returns (size: nat)
    requires CanStore(c)
    ensures size == |CoinBytes(k, c)|
  {
    hide VarInt, Mask, MaskSize, NonZero, MaskBytes, OutBytes;
    var maskSize, maskCode := CalcMaskSize(c.outs);
    var first, second := |c.outs| > 0 && !c.outs[0].IsNull(), |c.outs| > 1 && !c.outs[1].IsNull();
    SomethingLeft(c);
    var code := 8 * (maskCode - if first || second then 0 else 1)
                  + (if c.coinBase then 1 else 0) + (if first then 2 else 0) + if second then 4 else 0;
    size := GetSizeOfVarInt(c.version);
    var header := GetSizeOfVarInt(code);
    size := size + header + maskSize;
    for i := 0 to |c.outs|
      invariant size == |VarInt(c.version)| + |VarInt(Code(c))| + MaskSize(c.outs) + |OutsBytes(k, c.outs, i)|
    {
      if !c.outs[i].IsNull() {
        size := size + |OutBytes(k, c.outs[i])|;
      }
    }
    var height := GetSizeOfVarInt(c.height);
    size := size + height;
  }

  // ----- What is read back -----

  function KeptOuts(k: Curve, outs: seq<TxOut>): (r: seq<TxOut>)
    ensures |r| == |outs| && forall i | 0 <= i < |outs| :: r[i] == Kept(k, outs[i])
  {
    if outs == [] then [] else KeptOuts(k, outs[..|outs| - 1]) + [Kept(k, outs[|outs| - 1])]
  }

  /** The flags of the first `n` outputs. */
  ghost predicate Flags(outs: seq<TxOut>, avail: seq<bool>, n: nat) {
    |avail| == n && forall i | 0 <= i < n :: avail[i] <==> Avail(outs, i)
  }

  /** The code taken apart. */
  lemma CodeFields(c: Coins)
    requires CanStore(c)
    ensures var code, nonzero := Code(c), NonZero(c.outs, MaskBytes(c.outs));
            && code >= 0
            && (code % 2 == 1 <==> c.coinBase)
            && (code / 2 % 2 == 1 <==> First(c.outs))
            && (code / 4 % 2 == 1 <==> Second(c.outs))
            && code / 8 + (if code / 2 % 4 != 0 then 0 else 1) == nonzero
  {
    hide NonZero, MaskBytes, First, Second, CanStore;
    SomethingLeft(c);
    var either := First(c.outs) || Second(c.outs);
    var bytes := NonZero(c.outs, MaskBytes(c.outs)) - if either then 0 else 1;
    CodeBits(bytes, c.coinBase, First(c.outs), Second(c.outs));
  }

  lemma CodeBits(bytes: nat, a: bool, b: bool, c: bool)
    ensures var code := 8 * bytes + (if a then 1 else 0) + (if b then 2 else 0) + if c then 4 else 0;
            && (code % 2 == 1 <==> a) && (code / 2 % 2 == 1 <==> b) && (code / 4 % 2 == 1 <==> c)
            && code / 8 == bytes && (code / 2 % 4 != 0 <==> b || c)
  {
    var x, y, z := if a then 1 else 0, if b then 1 else 0, if c then 1 else 0;
    QuotientAndRest(4 * bytes + 2 * z + y, 2, x);
    QuotientAndRest(2 * bytes + z, 4, 2 * y + x);
    QuotientAndRest(bytes, 8, 4 * z + 2 * y + x);
    QuotientAndRest(2 * bytes + z, 2, y);
    QuotientAndRest(bytes, 2, z);
    QuotientAndRest(bytes, 4, 2 * z + y);
  }

  /** Reads mask bytes until enough of them are not zero. */
  method ReadMask(s: seq<Byte>, at0: nat, avail0: seq<bool>, count: nat, ghost outs: seq<TxOut>, ghost good: bool)
    returns (ok: bool, avail: seq<bool>, at: nat)
    requires at0 <= |s|
    requires good ==>
               && Flags(outs, avail0, 2) && count == NonZero(outs, MaskBytes(outs))
               && Next(s, at0, Mask(outs, MaskSize(outs)))
    ensures ok ==> at <= |s|
    ensures good ==> ok && Flags(outs, avail, 2 + 8 * MaskSize(outs)) && at == at0 + MaskSize(outs)
  {
    hide MaskByte, MaskSize, NonZero, MaskBytes, Next, Mask, Flags;
    avail, at := avail0, at0;
    var left, b := count, 0;
    MaskStarts(outs);
    while left > 0
      invariant at == at0 + b <= |s|
      invariant good ==> b <= MaskSize(outs) && Flags(outs, avail, 2 + 8 * b) && left == count - NonZero(outs, b)
      decreases |s| - at
    {
      if good {
        MaskEnds(outs, b);
        MaskNext(s, at0, outs, b);
      }
      if at >= |s| {
        return false, avail, at;
      }
      var ch := s[at];
      ghost var before := avail;
      avail := ReadFlags(avail, ch);
      if good {
        MoreFlags(outs, before, avail, b);
      }
      if ch != 0 {
        left := left - 1;
      }
      at, b := at + 1, b + 1;
    }
    if good {
      MaskEnds(outs, b);
    }
    ok := true;
  }

  lemma MaskStarts(outs: seq<TxOut>)
    ensures NonZero(outs, 0) == 0
  {
  }

  lemma {:induction false} MaskAt(outs: seq<TxOut>, n: nat, b: nat)
    requires b < n
    ensures Mask(outs, n)[b] == MaskByte(outs, b)
  {
    hide MaskByte;
    if b < n - 1 {
      MaskAt(outs, n - 1, b);
    }
  }

  /** The next mask byte, and what it adds to the count. */
  lemma MaskNext(s: seq<Byte>, at: nat, outs: seq<TxOut>, b: nat)
    requires Next(s, at, Mask(outs, MaskSize(outs))) && b < MaskSize(outs)
    ensures at + b < |s| && s[at + b] == MaskByte(outs, b)
    ensures NonZero(outs, b + 1) == NonZero(outs, b) + if MaskByte(outs, b) != 0 then 1 else 0
  {
    hide MaskByte;
    var n := MaskSize(outs);
    MaskAt(outs, n, b);
    assert s[at..at + n][b] == s[at + b];
  }

  method ReadFlags(avail0: seq<bool>, ch: Byte) returns (avail: seq<bool>)
    ensures |avail| == |avail0| + 8 && avail[..|avail0|] == avail0
    ensures forall p | 0 <= p < 8 :: avail[|avail0|..][p] <==> Bit(ch, p)
  {
    hide Pow, Bit;
    avail := avail0;
    for p := 0 to 8
      invariant |avail| == |avail0| + p && avail[..|avail0|] == avail0
      invariant forall q | 0 <= q < p :: avail[|avail0|..][q] <==> Bit(ch, q)
    {
      BitIs(ch, p);
      avail := avail + [ch / Pow(2, p) % 2 == 1];
    }
  }

  lemma MoreFlags(outs: seq<TxOut>, before: seq<bool>, avail: seq<bool>, b: nat)
    requires Flags(outs, before, 2 + 8 * b) && |avail| == |before| + 8 && avail[..|before|] == before
    requires forall p | 0 <= p < 8 :: avail[|before|..][p] <==> Bit(MaskByte(outs, b), p)
    ensures Flags(outs, avail, 2 + 8 * (b + 1))
  {
    hide Pow, Bit;
    forall i | 0 <= i < |avail|
      ensures avail[i] <==> Avail(outs, i)
    {
      if i < |before| {
        assert avail[i] == avail[..|before|][i];
      } else {
        MaskBit(outs, 2 + 8 * b, 8, i - |before|);
        assert avail[i] == avail[|before|..][i - |before|];
      }
    }
  }

  /** Reads the outputs whose flags are set. */
  method ReadOuts(k: Curve, s: seq<Byte>, at0: nat, avail: seq<bool>, ghost outs: seq<TxOut>, ghost good: bool)
    returns (ok: bool, r: seq<TxOut>, at: nat)
    requires at0 <= |s|
    requires good ==>
               && IsCurve(k) && |outs| <= |avail| && Flags(outs, avail, |avail|)
               && (forall i | 0 <= i < |outs| :: outs[i] == NULL_OUT || Storable(outs[i]))
               && Next(s, at0, OutsBytes(k, outs, |outs|))
    ensures ok ==> at <= |s| && |r| == |avail|
    ensures good ==> ok && at == at0 + |OutsBytes(k, outs, |outs|)|
    ensures good ==> r[..|outs|] == KeptOuts(k, outs) && forall i | |outs| <= i < |r| :: r[i] == NULL_OUT
  {
    hide IsCurve, Next, OutBytes, ReadOut, OutsBytes, Storable, Kept, KeptOuts;
    r := seq(|avail|, _ => NULL_OUT);
    at := at0;
    if good {
      OutsStart(k, outs);
    }
    for i := 0 to |avail|
      invariant at <= |s| && |r| == |avail|
      invariant good ==> at == at0 + |OutsBytes(k, outs, if i < |outs| then i else |outs|)|
      invariant good ==> forall j | 0 <= j < i && j < |outs| :: r[j] == Kept(k, outs[j])
      invariant good ==> forall j | 0 <= j < |r| && (j >= i || j >= |outs|) :: r[j] == NULL_OUT
    {
      if good && i < |outs| {
        NextOut(k, s, at0, outs, i);
      }
      if avail[i] {
        var out := ReadOut(k, s, at);
        if out.None? {
          return false, r, at;
        }
        ReadOutAt(k, s, at);
        r := r[i := out.value.0];
        at := out.value.1;
      }
    }
    ok := true;
  }

  lemma OutsStart(k: Curve, outs: seq<TxOut>)
    requires forall i | 0 <= i < |outs| :: outs[i] == NULL_OUT || Storable(outs[i])
    ensures OutsBytes(k, outs, 0) == []
  {
  }

  lemma ReadOutAt(k: Curve, s: seq<Byte>, at: nat)
    requires ReadOut(k, s, at).Some?
    ensures ReadOut(k, s, at).value.1 <= |s|
  {
    hide ReadWord;
  }

  lemma {:induction false} OutsUpTo(k: Curve, s: seq<Byte>, at: nat, outs: seq<TxOut>, n: nat, m: nat)
    requires n <= m <= |outs| && forall i | 0 <= i < |outs| :: outs[i] == NULL_OUT || Storable(outs[i])
    requires Next(s, at, OutsBytes(k, outs, m))
    ensures Next(s, at, OutsBytes(k, outs, n))
    decreases m - n
  {
    hide OutBytes, Next;
    if n < m {
      NextParts(s, at, OutsBytes(k, outs, m - 1), if outs[m - 1].IsNull() then [] else OutBytes(k, outs[m - 1]));
      OutsUpTo(k, s, at, outs, n, m - 1);
    }
  }

  /** The next output in the stream, if it is unspent. */
  lemma NextOut(k: Curve, s: seq<Byte>, at: nat, outs: seq<TxOut>, i: nat)
    requires IsCurve(k) && i < |outs| && forall j | 0 <= j < |outs| :: outs[j] == NULL_OUT || Storable(outs[j])
    requires Next(s, at, OutsBytes(k, outs, |outs|))
    ensures var next := at + |OutsBytes(k, outs, i)|;
            if outs[i].IsNull() then Kept(k, outs[i]) == NULL_OUT && |OutsBytes(k, outs, i + 1)| == |OutsBytes(k, outs, i)|
            else ReadOut(k, s, next) == Some((Kept(k, outs[i]), at + |OutsBytes(k, outs, i + 1)|))
  {
    hide OutBytes, Next, ReadOut, IsCurve;
    OutsUpTo(k, s, at, outs, i + 1, |outs|);
    if !outs[i].IsNull() {
      NextParts(s, at, OutsBytes(k, outs, i), OutBytes(k, outs[i]));
      OutRoundTrip(k, outs[i], s, at + |OutsBytes(k, outs, i)|);
    }
  }

  /** Reads a stored value. What was written is read back to its last byte, exactly as it was unless an
      unspent output has a script that is too long to be kept. */
  method Unserialize(k: Curve, s: seq<Byte>, at: nat, ghost c: Coins) returns (r: Option<(Coins, nat)>)
    requires at <= |s|
    ensures IsCurve(k) && CanStore(c) && Next(s, at, CoinBytes(k, c)) ==>
              r == Some((c.(outs := KeptOuts(k, c.outs)), at + |CoinBytes(k, c)|))
  {
    hide Read, ReadWord, VarInt, IsCurve, CanStore, Next, CoinBytes, Code, Mask, MaskSize, MaskBytes, NonZero,
      OutsBytes, KeptOuts, Flags, First, Second, Trimmed, AsInt;
    ghost var good := IsCurve(k) && CanStore(c) && Next(s, at, CoinBytes(k, c));
    if good {
      CoinParts(k, c, s, at);
      CodeFields(c);
    }
    var version := ReadVarInt(s, at, TWO_32);
    if version.None? {
      return None;
    }
    ReadStops(s, at, TWO_32);
    var header := ReadVarInt(s, version.value.1, TWO_32);
    if header.None? {
      return None;
    }
    ReadStops(s, version.value.1, TWO_32);
    var code := header.value.0;
    var avail0 := [code / 2 % 2 == 1, code / 4 % 2 == 1];
    if good {
      FirstFlags(c.outs, avail0);
    }
    var count := code / 8 + if code / 2 % 4 != 0 then 0 else 1;
    var ok, avail, next := ReadMask(s, header.value.1, avail0, count, if good then c.outs else [], good);
    if !ok {
      return None;
    }
    if good {
      LastFlags(c, avail);
    }
    var outs;
    ok, outs, next := ReadOuts(k, s, next, avail, if good then c.outs else [], good);
    if !ok {
      return None;
    }
    var height := ReadVarInt(s, next, TWO_32);
    if height.None? {
      return None;
    }
    var cleaned := CleanupLoop(outs);
    if good {
      KeptClean(k, c, outs);
    }
    AsIntSmall();
    r := Some((Coins(code % 2 == 1, cleaned, AsInt(height.value.0), AsInt(version.value.0)), height.value.1));
  }

  /** 32 bits as an `int`. */
  function AsInt(n: nat): int {
    if n < TWO_31 then n else n - TWO_32
  }

  lemma AsIntSmall()
    ensures forall n: nat {:trigger AsInt(n)} | n < TWO_31 :: AsInt(n) == n
  {
  }

  lemma ReadStops(s: seq<Byte>, at: nat, top: nat)
    requires top > 0 && ReadWord(s, at, top).Some?
    ensures ReadWord(s, at, top).value.1 <= |s|
  {
    ReadStopsFrom(s, at, 0);
  }

  lemma {:induction false} ReadStopsFrom(s: seq<Byte>, at: nat, n: nat)
    requires Read(s, at, n).Some?
    ensures Read(s, at, n).value.1 <= |s|
    decreases |s| - at
  {
    if s[at] >= 128 {
      ReadStopsFrom(s, at + 1, n * 128 + s[at] % 128 + 1);
    }
  }

  lemma FirstFlags(outs: seq<TxOut>, avail: seq<bool>)
    requires |avail| == 2 && (avail[0] <==> First(outs)) && (avail[1] <==> Second(outs))
    ensures Flags(outs, avail, 2)
  {
  }

  lemma LastFlags(c: Coins, avail: seq<bool>)
    requires CanStore(c) && Flags(c.outs, avail, 2 + 8 * MaskSize(c.outs))
    ensures |c.outs| <= |avail| && Flags(c.outs, avail, |avail|)
    ensures forall i | 0 <= i < |c.outs| :: c.outs[i] == NULL_OUT || Storable(c.outs[i])
  {
    hide MaskSize;
    SomethingLeft(c);
  }

  /** The parts of a stored value in the stream. */
  lemma CoinParts(k: Curve, c: Coins, s: seq<Byte>, at: nat)
    requires CanStore(c) && Next(s, at, CoinBytes(k, c))
    ensures Code(c) >= 0
    ensures forall i | 0 <= i < |c.outs| :: c.outs[i] == NULL_OUT || Storable(c.outs[i])
    ensures var a := at + |VarInt(c.version)|;
            var b := a + |VarInt(Code(c))|;
            var d := b + MaskSize(c.outs);
            var e := d + |OutsBytes(k, c.outs, |c.outs|)|;
            && 0 <= c.version < TWO_31 && 0 <= c.height < TWO_31
            && ReadWord(s, at, TWO_32) == Some((c.version, a)) && ReadWord(s, a, TWO_32) == Some((Code(c), b))
            && Next(s, b, Mask(c.outs, MaskSize(c.outs))) && Next(s, d, OutsBytes(k, c.outs, |c.outs|))
            && ReadWord(s, e, TWO_32) == Some((c.height, at + |CoinBytes(k, c)|))
  {
    hide VarInt, Mask, OutsBytes, MaskSize, Code, Next, ReadWord;
    SomethingLeft(c);
    var mask, outs := Mask(c.outs, MaskSize(c.outs)), OutsBytes(k, c.outs, |c.outs|);
    var height, code := VarInt(c.height), VarInt(Code(c));
    NextParts(s, at, VarInt(c.version), code + (mask + (outs + height)));
    var a := at + |VarInt(c.version)|;
    NextParts(s, a, code, mask + (outs + height));
    NextParts(s, a + |code|, mask, outs + height);
    NextParts(s, a + |code| + |mask|, outs, height);
    WordWritten(s, at, c.version, TWO_32);
    WordWritten(s, a, Code(c), TWO_32);
    WordWritten(s, a + |code| + |mask| + |outs|, c.height, TWO_32);
  }

  lemma KeptClean(k: Curve, c: Coins, r: seq<TxOut>)
    requires CanStore(c) && |r| >= |c.outs| && r[..|c.outs|] == KeptOuts(k, c.outs)
    requires forall i | |c.outs| <= i < |r| :: r[i] == NULL_OUT
    ensures Trimmed(r) == KeptOuts(k, c.outs)
  {
    hide Kept, Storable;
    var kept := KeptOuts(k, c.outs);
    assert kept[|kept| - 1] == Kept(k, c.outs[|kept| - 1]);
    KeptExactly(k, c.outs[|kept| - 1]);
    TrimmedUnique(r, kept);
  }

  ghost predicate AllSurvive(k: Curve, outs: seq<TxOut>) {
    forall i | 0 <= i < |outs| && !outs[i].IsNull() :: Survives(k, outs[i])
  }

  /** The exact condition: a value comes back unchanged just when every unspent output survives. */
  lemma UnchangedExactly(k: Curve, c: Coins)
    requires CanStore(c)
    ensures c.(outs := KeptOuts(k, c.outs)) == c <==> AllSurvive(k, c.outs)
  {
    hide Kept, Survives, Storable;
    var kept := KeptOuts(k, c.outs);
    forall i | 0 <= i < |c.outs|
      ensures kept[i] == c.outs[i] <==> c.outs[i].IsNull() || Survives(k, c.outs[i])
    {
      KeptOut(k, c.outs[i]);
    }
    assert kept == c.outs <==> forall i | 0 <= i < |c.outs| :: kept[i] == c.outs[i];
  }

  lemma KeptOut(k: Curve, out: TxOut)
    requires out == NULL_OUT || Storable(out)
    ensures Kept(k, out) == out <==> out.IsNull() || Survives(k, out)
  {
    if out != NULL_OUT {
      KeptExactly(k, out);
    }
  }
}
