/** The values that the repository's own tests write down, as facts about the model. */
module Vectors {
  import opened Primitives
  import opened Numerals
  import opened Coins
  import opened Amounts
  import opened Compressor
  import opened CoinsSerialize
  import opened Base58
  import opened Compact

  // ----- Amounts -----

  lemma AmountVectors()
    ensures Compressed(0) == 0x0
    ensures Compressed(1) == 0x1
    ensures Compressed(1_000_000) == 0x7
    ensures Compressed(COIN) == 0x9
    ensures Compressed(50 * COIN) == 0x32
    ensures Compressed(21_000_000 * COIN) == 0x1406f40
  {
    hide Compressed;
    TensPowers();
    CompressedForm(0, 1, 0);
    CompressedForm(0, 1, 6);
    CompressedForm(0, 1, 8);
    CompressedRound(4);
    CompressedRound(2_099_999);
  }

  lemma TensPowers()
    ensures Pow(10, 0) == 1 && Pow(10, 6) == 1_000_000 && Pow(10, 8) == 100_000_000 && Pow(10, 9) == 1_000_000_000
  {
    assert Pow(10, 3) == 1_000;
    assert Pow(10, 6) == 1_000_000;
  }

  // ----- Variable-length integers -----

  lemma VarIntVectors()
    ensures VarInt(0) == [0x00] && VarInt(127) == [0x7f]
    ensures VarInt(128) == [0x80, 0x00] && VarInt(600) == [0x83, 0x58]
    ensures VarInt(3_000_000_000) == [0x8a, 0x95, 0xc0, 0xbb, 0x00]
  {
    assert VarHigh(10) == [0x8a];
    assert VarHigh(1_429) == [0x8a, 0x95];
    assert VarHigh(183_104) == [0x8a, 0x95, 0xc0];
    assert VarHigh(23_437_499) == [0x8a, 0x95, 0xc0, 0xbb];
  }

  // ----- Stored coins -----

  /** Pays to the hash of a key. */
  function ToKey(hash: seq<Byte>): seq<nat> {
    [0x76, 0xa9, 20] + hash + [0x88, 0xac]
  }

  lemma ToKeyBytes(k: Curve, value: nat, hash: seq<Byte>)
    requires |hash| == 20 && value < MAX_MONEY
    ensures Storable(TxOut(value, ToKey(hash))) && !TxOut(value, ToKey(hash)).IsNull()
    ensures OutBytes(k, TxOut(value, ToKey(hash))) == VarInt(Compress64(value)) + [0x00] + hash
  {
    hide VarInt, Compress64;
    var script := ToKey(hash);
    assert script[3..23] == hash;
    assert ScriptBytes(k, script) == [0x00] + hash;
    assert VarInt(Compress64(value)) + ([0x00] + hash) == VarInt(Compress64(value)) + [0x00] + hash;
  }

  lemma Fits(n: nat, x: nat)
    requires Compressed(n) == x < TWO_64
    ensures Compress64(n) == x
  {
    hide Compressed;
  }

  /** Two outputs, the first of them spent. */
  lemma SecondOutput(k: Curve, hash: seq<Byte>)
    requires |hash| == 20
    ensures var c := Coins(false, [NULL_OUT, TxOut(60_000_000_000, ToKey(hash))], 203_998, 1);
            CanStore(c) && CoinBytes(k, c) == [0x01, 0x04, 0x83, 0x58, 0x00] + hash + [0x8b, 0xb8, 0x5e]
  {
    hide *;
    var out := TxOut(60_000_000_000, ToKey(hash));
    var c := Coins(false, [NULL_OUT, out], 203_998, 1);
    BelowMax(out.value);
    ToKeyBytes(k, out.value, hash);
    TensPowers();
    CompressedRound(59);
    WidthOf64();
    Fits(out.value, 600);
    VarIntVectors();
    SmallNumbers();
    SecondOnly(c);
    OneOutput(k, c.outs);
    Assemble(k, c);
    assert [0x01] + ([0x04] + ([] + ([0x83, 0x58] + [0x00] + hash + [0x8b, 0xb8, 0x5e])))
           == [0x01, 0x04, 0x83, 0x58, 0x00] + hash + [0x8b, 0xb8, 0x5e];
  }

  lemma BelowMax(value: nat)
    ensures value <= 60_000_000_000 ==> value < MAX_MONEY
  {
  }

  lemma WidthOf64()
    ensures 3_000_000_000 < TWO_64
  {
  }

  lemma Assemble(k: Curve, c: Coins)
    requires CanStore(c) && Code(c) >= 0
    ensures CoinBytes(k, c) == VarInt(c.version) + (VarInt(Code(c)) + (Mask(c.outs, MaskSize(c.outs))
              + (OutsBytes(k, c.outs, |c.outs|) + VarInt(c.height))))
  {
    hide VarInt, Mask, OutsBytes, MaskSize, Code;
  }

  lemma SecondOnly(c: Coins)
    requires !c.coinBase && |c.outs| == 2 && c.outs[0] == NULL_OUT && !c.outs[1].IsNull() && Storable(c.outs[1])
    requires 0 <= c.version < 10 && 0 <= c.height < 1_000_000
    ensures CanStore(c) && Code(c) == 4 && Mask(c.outs, MaskSize(c.outs)) == []
    ensures NULL_OUT.IsNull()
  {
    hide Storable;
  }

  lemma OneOutput(k: Curve, outs: seq<TxOut>)
    requires |outs| == 2 && outs[0] == NULL_OUT && !outs[1].IsNull() && Storable(outs[1])
    ensures OutsBytes(k, outs, 2) == OutBytes(k, outs[1])
  {
    hide OutBytes, Storable;
    assert OutsBytes(k, outs, 1) == [];
    assert OutsBytes(k, outs, 2) == [] + OutBytes(k, outs[1]);
  }

  lemma SmallNumbers()
    ensures VarInt(1) == [0x01] && VarInt(2) == [0x02] && VarInt(4) == [0x04] && VarInt(6) == [0x06] && VarInt(9) == [0x09]
    ensures VarInt(203_998) == [0x8b, 0xb8, 0x5e] && VarInt(120_891) == [0x86, 0xaf, 0x3b]
    ensures VarInt(2_114_333_561) == [0x86, 0xef, 0x97, 0xd5, 0x79] && VarInt(993_571) == [0xbb, 0xd1, 0x23]
  {
    assert VarHigh(11) == [0x8b];
    assert VarHigh(1_592) == [0x8b, 0xb8];
    assert VarHigh(6) == [0x86];
    assert VarHigh(943) == [0x86, 0xaf];
    assert VarHigh(1_007) == [0x86, 0xef];
    assert VarHigh(129_047) == [0x86, 0xef, 0x97];
    assert VarHigh(16_518_229) == [0x86, 0xef, 0x97, 0xd5];
    assert VarHigh(59) == [0xbb];
    assert VarHigh(7_761) == [0xbb, 0xd1];
  }

  /** The smallest coins: version and height 0, one output of no value and an empty script. */
  lemma SmallestCoins(k: Curve)
    ensures var c := Coins(false, [TxOut(0, [])], 0, 0);
            CanStore(c) && CoinBytes(k, c) == [0x00, 0x02, 0x00, 0x06, 0x00]
  {
    hide *;
    var c := Coins(false, [TxOut(0, [])], 0, 0);
    VarIntVectors();
    SmallNumbers();
    EmptyOut(k);
    FirstOnly(k, c);
    Assemble(k, c);
    assert [0x00] + ([0x02] + ([] + ([0x00, 0x06] + [0x00]))) == [0x00, 0x02, 0x00, 0x06, 0x00];
  }

  lemma EmptyOut(k: Curve)
    ensures var out := TxOut(0, []);
            Storable(out) && !out.IsNull() && OutBytes(k, out) == [0x00, 0x06]
  {
    hide VarInt, Compress64;
    Fits(0, 0);
    VarIntVectors();
    SmallNumbers();
    assert ScriptBytes(k, []) == VarInt(6) + [];
  }

  lemma FirstOnly(k: Curve, c: Coins)
    requires !c.coinBase && |c.outs| == 1 && !c.outs[0].IsNull() && Storable(c.outs[0])
    requires 0 <= c.version < 10 && 0 <= c.height < 1_000_000
    ensures CanStore(c) && Code(c) == 2 && Mask(c.outs, MaskSize(c.outs)) == []
    ensures OutsBytes(k, c.outs, 1) == OutBytes(k, c.outs[0])
  {
    hide Storable, OutBytes;
    assert OutsBytes(k, c.outs, 0) == [];
    assert OutsBytes(k, c.outs, 1) == [] + OutBytes(k, c.outs[0]);
  }

  /** A coinbase with 17 outputs, of which two are left: no flag for the first two, and two mask bytes. */
  lemma TwoOfSeventeen(k: Curve, c: Coins, hash4: seq<Byte>, hash16: seq<Byte>)
    requires |hash4| == |hash16| == 20
    requires c.coinBase && c.version == 1 && c.height == 120_891 && |c.outs| == 17
    requires c.outs[4] == TxOut(234_925_952, ToKey(hash4)) && c.outs[16] == TxOut(110_397, ToKey(hash16))
    requires forall i | 0 <= i < 17 && i != 4 && i != 16 :: c.outs[i] == NULL_OUT
    ensures CanStore(c)
    ensures CoinBytes(k, c) ==
              [0x01, 0x09, 0x04, 0x40] + [0x86, 0xef, 0x97, 0xd5, 0x79, 0x00] + hash4
                + [0xbb, 0xd1, 0x23, 0x00] + hash16 + [0x86, 0xaf, 0x3b]
  {
    hide *;
    BelowMax(234_925_952);
    BelowMax(110_397);
    ToKeyBytes(k, 234_925_952, hash4);
    ToKeyBytes(k, 110_397, hash16);
    TensPowers();
    CompressedForm(23_492_595, 2, 0);
    CompressedForm(11_039, 7, 0);
    WidthOf64();
    Fits(234_925_952, 2_114_333_561);
    Fits(110_397, 993_571);
    SmallNumbers();
    IsOnly(c.outs);
    SeventeenCode(c);
    SeventeenOuts(k, c.outs);
    Assemble(k, c);
    assert [0x01] + ([0x09] + ([0x04, 0x40] + ([0x86, 0xef, 0x97, 0xd5, 0x79] + [0x00] + hash4
             + ([0xbb, 0xd1, 0x23] + [0x00] + hash16) + [0x86, 0xaf, 0x3b])))
           == [0x01, 0x09, 0x04, 0x40] + [0x86, 0xef, 0x97, 0xd5, 0x79, 0x00] + hash4
                + [0xbb, 0xd1, 0x23, 0x00] + hash16 + [0x86, 0xaf, 0x3b];
  }

  ghost predicate OnlyFourAndSixteen(outs: seq<TxOut>) {
    && |outs| == 17 && !outs[4].IsNull() && !outs[16].IsNull()
    && forall i | 0 <= i < 17 && i != 4 && i != 16 :: outs[i] == NULL_OUT
  }

  lemma IsOnly(outs: seq<TxOut>)
    requires |outs| == 17 && !outs[4].IsNull() && !outs[16].IsNull()
    requires forall i | 0 <= i < 17 && i != 4 && i != 16 :: outs[i] == NULL_OUT
    ensures OnlyFourAndSixteen(outs)
  {
  }

  lemma SeventeenCode(c: Coins)
    requires c.coinBase && OnlyFourAndSixteen(c.outs) && Storable(c.outs[4]) && Storable(c.outs[16])
    requires 0 <= c.version < 10 && 0 <= c.height < 1_000_000
    ensures CanStore(c) && Code(c) == 9 && Mask(c.outs, MaskSize(c.outs)) == [0x04, 0x40]
  {
    hide Storable, MaskByte;
    MaskFour(c.outs);
    assert MaskBytes(c.outs) == 2;
    assert Mask(c.outs, 1) == [0x04];
    assert Mask(c.outs, 2) == [0x04, 0x40];
    assert NonZero(c.outs, 1) == 1;
  }

  lemma MaskFour(outs: seq<TxOut>)
    requires OnlyFourAndSixteen(outs)
    ensures MaskByte(outs, 0) == 0x04 && MaskByte(outs, 1) == 0x40
  {
    hide MaskBits;
    OneBit(outs, 2, 8, 2);
    OneBit(outs, 10, 8, 6);
    assert Pow(2, 2) == 4 && Pow(2, 6) == 64;
  }

  lemma {:induction false} OneBit(outs: seq<TxOut>, start: nat, i: nat, p: nat)
    requires forall r | start <= r < start + i :: Avail(outs, r) <==> r == start + p
    ensures MaskBits(outs, start, i) == if p < i then Pow(2, p) else 0
  {
    if i > 0 {
      OneBit(outs, start, i - 1, p);
    }
  }

  lemma SeventeenOuts(k: Curve, outs: seq<TxOut>)
    requires OnlyFourAndSixteen(outs) && Storable(outs[4]) && Storable(outs[16])
    ensures OutsBytes(k, outs, 17) == OutBytes(k, outs[4]) + OutBytes(k, outs[16])
  {
    hide OutBytes, Storable;
    NullOuts(k, outs, 0, 4);
    NullOuts(k, outs, 5, 16);
    assert OutsBytes(k, outs, 0) == [];
    assert OutsBytes(k, outs, 5) == [] + OutBytes(k, outs[4]);
  }

  lemma {:induction false} NullOuts(k: Curve, outs: seq<TxOut>, from: nat, to: nat)
    requires from <= to <= |outs| && forall i | 0 <= i < |outs| :: outs[i] == NULL_OUT || Storable(outs[i])
    requires forall i | from <= i < to :: outs[i] == NULL_OUT
    ensures OutsBytes(k, outs, to) == OutsBytes(k, outs, from)
  {
    hide OutBytes, Storable;
    if from < to {
      NullOuts(k, outs, from, to - 1);
    }
  }

  // ----- Base58 -----

  lemma Encodes(b: seq<Byte>, s: seq<nat>)
    requires LeadingZeros(b) == 0 && IsDigits(58, s) && (s != [] ==> s[0] != 0) && Value(256, b) == Value(58, s)
    ensures Encoded(b) == Chars(s)
  {
    hide Value, Digits, LeadingZeros, Chars;
    DigitsUnique(58, s);
    assert Padded(58, 0, Value(256, b)) == s;
  }

  lemma ValueOfTwo(base: nat, a: nat, b: nat)
    ensures Value(base, [a]) == a && Value(base, [a, b]) == a * base + b
  {
    ValueSnoc(base, [], a);
    ValueSnoc(base, [a], b);
    assert [] + [a] == [a] && [a] + [b] == [a, b];
  }

  lemma ValueOfFour(base: nat, a: nat, b: nat, c: nat, d: nat)
    ensures Value(base, [a, b, c]) == (a * base + b) * base + c
    ensures Value(base, [a, b, c, d]) == ((a * base + b) * base + c) * base + d
  {
    hide Value;
    ValueOfTwo(base, a, b);
    ValueSnoc(base, [a, b], c);
    ValueSnoc(base, [a, b, c], d);
    assert [a, b] + [c] == [a, b, c] && [a, b, c] + [d] == [a, b, c, d];
  }

  /** One letter. */
  lemma OneByte()
    ensures Encoded([0x61]) == "2g"
  {
    hide Value, LeadingZeros, Encoded;
    ValueOfTwo(256, 0x61, 0);
    ValueOfTwo(58, 1, 39);
    NoZeros([0x61]);
    Encodes([0x61], [1, 39]);
    Alphabet();
    assert Char(1) == '2' && Char(39) == 'g';
    assert Chars([1, 39]) == "2g";
  }

  lemma ThreeBytes()
    ensures Encoded([0x62, 0x62, 0x62]) == "a3gV"
  {
    hide Value, LeadingZeros, Encoded;
    ValueOfFour(256, 0x62, 0x62, 0x62, 0);
    ValueOfFour(58, 33, 2, 39, 28);
    NoZeros([0x62, 0x62, 0x62]);
    Encodes([0x62, 0x62, 0x62], [33, 2, 39, 28]);
    Alphabet();
    assert Char(33) == 'a' && Char(2) == '3' && Char(39) == 'g' && Char(28) == 'V';
    assert Chars([33, 2, 39, 28]) == "a3gV";
  }

  lemma FourBytes()
    ensures Encoded([0x10, 0xc8, 0x51, 0x1e]) == "Rt5zm"
  {
    hide Value, LeadingZeros, Encoded;
    ValueOfFour(256, 0x10, 0xc8, 0x51, 0x1e);
    ValueOfFour(58, 24, 51, 4, 57);
    ValueSnoc(58, [24, 51, 4, 57], 44);
    assert [24, 51, 4, 57] + [44] == [24, 51, 4, 57, 44];
    NoZeros([0x10, 0xc8, 0x51, 0x1e]);
    Encodes([0x10, 0xc8, 0x51, 0x1e], [24, 51, 4, 57, 44]);
    Rt5zm();
  }

  lemma Rt5zm()
    ensures Chars([24, 51, 4, 57, 44]) == "Rt5zm"
  {
    Alphabet();
    assert Char(24) == 'R' && Char(51) == 't' && Char(4) == '5' && Char(57) == 'z' && Char(44) == 'm';
  }

  /** Nothing, and zeros only. */
  lemma {:induction false} OnlyZeros(n: nat)
    ensures |Encoded(Zeros(n))| == n && forall i | 0 <= i < n :: Encoded(Zeros(n))[i] == '1'
  {
    hide Digits;
    assert Padded(256, n, 0) == Zeros(n);
    PaddedParts(256, n, 0);
    assert Padded(58, n, 0) == Zeros(n);
    CharDigit(0);
  }

  /** A text between spaces. */
  lemma SpacesSkipped(a: string, c: string)
    requires forall i | 0 <= i < |a| :: a[i] in {' ', '\t', '\n', '\U{0B}', '\U{0C}', '\r'}
    requires forall i | 0 <= i < |c| :: c[i] in {' ', '\t', '\n', '\U{0B}', '\U{0C}', '\r'}
    ensures Decoded(a + "skip" + c) == Some([0x97, 0x1a, 0x55])
  {
    hide Decoded, Encoded;
    Skip();
    assert AllSpaces(a) && AllSpaces(c);
    DecodedExactly(a + "skip" + c, [0x97, 0x1a, 0x55]);
  }

  lemma Skip()
    ensures Encoded([0x97, 0x1a, 0x55]) == "skip"
  {
    hide Value, LeadingZeros, Encoded;
    ValueOfFour(256, 0x97, 0x1a, 0x55, 0);
    ValueOfFour(58, 50, 43, 41, 47);
    NoZeros([0x97, 0x1a, 0x55]);
    Encodes([0x97, 0x1a, 0x55], [50, 43, 41, 47]);
    Alphabet();
    assert Char(50) == 's' && Char(43) == 'k' && Char(41) == 'i' && Char(47) == 'p';
    assert Chars([50, 43, 41, 47]) == "skip";
  }

  // ----- The compact form -----

  lemma CompactToNumber()
    ensures ValueOf(0x01123456) == 0x12 && ValueOf(0x02123456) == 0x1234 && ValueOf(0x03123456) == 0x123456
    ensures ValueOf(0x04123456) == 0x12345600 && ValueOf(0x05009234) == 0x92340000
    ensures ValueOf(0x01fedcba) == 0x7e && SignOf(0x01fedcba)
    ensures ValueOf(0x04923456) == 0x12345600 && SignOf(0x04923456) && !SignOf(0x04123456)
    ensures ValueOf(0x20123456) == 0x123456 * Pow(256, 29) && !Overflows(WordOf(0x20123456), SizeOf(0x20123456))
    ensures Overflows(WordOf(0xff123456), SizeOf(0xff123456))
  {
    SmallSizes();
  }

  lemma NumberToCompact()
    ensures CompactOf(0, false) == 0 && CompactOf(0x12, false) == 0x01120000 && CompactOf(0x80, false) == 0x02008000
    ensures CompactOf(0x7e, true) == 0x01fe0000 && CompactOf(0x1234, false) == 0x02123400
    ensures CompactOf(0x123456, false) == 0x03123456 && CompactOf(0x12345600, false) == 0x04123456
    ensures CompactOf(0x12345600, true) == 0x04923456 && CompactOf(0x92340000, false) == 0x05009234
  {
    SmallSizes();
    PowNext(256, 3);
    hide Pow, ByteLength;
    ByteLengthUnique(0, 0);
    ByteLengthUnique(0x12, 1);
    ByteLengthUnique(0x80, 1);
    ByteLengthUnique(0x7e, 1);
    ByteLengthUnique(0x1234, 2);
    ByteLengthUnique(0x123456, 3);
    ByteLengthUnique(0x12345600, 4);
    ByteLengthUnique(0x92340000, 4);
  }
}
