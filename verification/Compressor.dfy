/** Variable-length integers, and the compressed form of amounts and outputs. */
module Compressor {
  import opened Primitives
  import opened Numerals
  import opened Amounts

  // ----- Variable-length integers -----

  /** The bytes of `n` when another byte follows: each with its top bit set. */
  function VarHigh(n: nat): seq<Byte> {
    if n <= 127 then [n + 128] else VarHigh(n / 128 - 1) + [n % 128 + 128]
  }

  function VarInt(n: nat): (r: seq<Byte>)
    ensures |r| > 0
  {
    if n <= 127 then [n] else VarHigh(n / 128 - 1) + [n % 128]
  }

  /** Fills the bytes from the last one, then writes them out in reverse. */
  method WriteVarInt(n0: nat) returns (r: seq<Byte>)
    ensures r == VarInt(n0)
  {
    var n := n0;
    r := [];
    while true
      invariant VarInt(n0) == (if r == [] then VarInt(n) else VarHigh(n)) + r
      decreases n
    {
      var low: Byte := n % 128 + if r == [] then 0 else 128;
      if n <= 127 {
        assert VarInt(n0) == [low] + r;
        return [low] + r;
      }
      var high := VarHigh(n / 128 - 1);
      assert high + [low] + r == high + ([low] + r);
      r := [low] + r;
      n := n / 128 - 1;
    }
  }

  method GetSizeOfVarInt(n0: nat) returns (size: nat)
    ensures size == |VarInt(n0)|
  {
    var n := n0;
    size := 1;
    while n > 127
      invariant |VarInt(n0)| == size - 1 + if size == 1 then |VarInt(n)| else |VarHigh(n)|
      decreases n
    {
      n := n / 128 - 1;
      size := size + 1;
    }
  }

  /** Where reading stops and what it gives; nothing when the stream ends first. */
  function Read(s: seq<Byte>, at: nat, n: nat): Option<(nat, nat)>
    decreases |s| - at
  {
    if at >= |s| then None
    else if s[at] >= 128 then Read(s, at + 1, n * 128 + s[at] % 128 + 1)
    else Some((n * 128 + s[at], at + 1))
  }

  const TWO_32 := 0x1_0000_0000

  /** What a variable of `top` values holds after reading. */
  function ReadWord(s: seq<Byte>, at: nat, top: nat): Option<(nat, nat)>
    requires top > 0
  {
    match Read(s, at, 0)
    case None => None
    case Some((n, end)) => Some((n % top, end))
  }

  /** Reads into an unsigned integer of 32 or 64 bits. A number that is too large is cut to its low bits,
      and the stream is read to the number's end all the same. */
  method ReadVarInt(s: seq<Byte>, at0: nat, top: nat) returns (r: Option<(nat, nat)>)
    requires top == TWO_32 || top == TWO_64
    ensures r == ReadWord(s, at0, top)
  {
    hide Read;
    var n: nat, at: nat := 0, at0;
    ghost var exact: nat := 0;
    while at < |s|
      invariant Read(s, at, exact) == Read(s, at0, 0) && n == exact % top
    {
      CutStep(exact, s[at] % 128, top);
      n := n * 128 % top + s[at] % 128;
      if s[at] >= 128 {
        ReadOn(s, at, exact);
        exact := exact * 128 + s[at] % 128 + 1;
        n := (n + 1) % top;
      } else {
        ReadLast(s, at, exact);
        return Some((n, at + 1));
      }
      at := at + 1;
    }
    ReadNothing(s, at, exact);
    r := None;
  }

  lemma ReadLast(s: seq<Byte>, at: nat, n: nat)
    requires at < |s| && s[at] < 128
    ensures Read(s, at, n) == Some((n * 128 + s[at], at + 1)) && s[at] % 128 == s[at]
  {
  }

  lemma ReadNothing(s: seq<Byte>, at: nat, n: nat)
    requires at >= |s|
    ensures Read(s, at, n) == None
  {
  }

  /** Seven bits more: the low bits of the shifted number are clear. */
  lemma CutStep(n: nat, b: nat, top: nat)
    requires b < 128 && (top == TWO_32 || top == TWO_64)
    ensures n % top * 128 % top + b == (n * 128 + b) % top
    ensures ((n * 128 + b) % top + 1) % top == (n * 128 + b + 1) % top
  {
    CutShift(n, b, if top == TWO_32 then TWO_32 / 128 else TWO_64 / 128);
    ModAdd(n * 128 + b, 1, top);
  }

  lemma CutShift(n: nat, b: nat, t: nat)
    requires b < 128 && t > 0
    ensures n % (128 * t) * 128 % (128 * t) + b == (n * 128 + b) % (128 * t)
  {
    var top := 128 * t;
    var q, r := n / top, n % top;
    var u, w := r / t, r % t;
    RestParts(n, top);
    RestParts(r, t);
    Regroup(128, u, t);
    Commute(128 * u, t);
    assert r * 128 == u * top + 128 * w;
    QuotientAndRest(u, top, 128 * w);
    Distribute(128 * q, u, top);
    Regroup(128, q, top);
    assert n * 128 + b == (128 * q + u) * top + (128 * w + b);
    QuotientAndRest(128 * q + u, top, 128 * w + b);
  }

  /** The stream `s` continues with `part` at `at`. */
  ghost predicate Next(s: seq<Byte>, at: nat, part: seq<Byte>) {
    at + |part| <= |s| && s[at..at + |part|] == part
  }

  lemma NextParts(s: seq<Byte>, at: nat, a: seq<Byte>, b: seq<Byte>)
    requires Next(s, at, a + b)
    ensures Next(s, at, a) && Next(s, at + |a|, b)
  {
    assert s[at..at + |a|] == (a + b)[..|a|];
    assert s[at + |a|..at + |a| + |b|] == (a + b)[|a|..];
  }

  lemma NextByte(s: seq<Byte>, at: nat, b: Byte)
    requires Next(s, at, [b])
    ensures at < |s| && s[at] == b
  {
    assert s[at..at + 1][0] == s[at];
  }

  lemma {:induction false} ReadHigh(s: seq<Byte>, at: nat, n: nat)
    requires Next(s, at, VarHigh(n))
    ensures Read(s, at, 0) == Read(s, at + |VarHigh(n)|, n + 1)
    decreases n
  {
    hide Read, Next;
    if n <= 127 {
      NextByte(s, at, n + 128);
      ReadOn(s, at, 0);
    } else {
      var m := n / 128 - 1;
      NextParts(s, at, VarHigh(m), [n % 128 + 128]);
      ReadHigh(s, at, m);
      NextByte(s, at + |VarHigh(m)|, n % 128 + 128);
      ReadOn(s, at + |VarHigh(m)|, m + 1);
      assert (m + 1) * 128 + n % 128 + 1 == n + 1;
    }
  }

  lemma ReadOn(s: seq<Byte>, at: nat, n: nat)
    requires at < |s| && s[at] >= 128
    ensures Read(s, at, n) == Read(s, at + 1, n * 128 + s[at] % 128 + 1)
  {
  }

  /** Reading gives back what was written and stops right after it, whatever follows. */
  lemma ReadWritten(s: seq<Byte>, at: nat, n: nat)
    requires Next(s, at, VarInt(n))
    ensures Read(s, at, 0) == Some((n, at + |VarInt(n)|))
  {
    if n <= 127 {
      NextByte(s, at, n);
    } else {
      var m := n / 128 - 1;
      NextParts(s, at, VarHigh(m), [n % 128]);
      ReadHigh(s, at, m);
      NextByte(s, at + |VarHigh(m)|, n % 128);
    }
  }

  /** The same for a number that fits. */
  lemma WordWritten(s: seq<Byte>, at: nat, n: nat, top: nat)
    requires n < top && Next(s, at, VarInt(n))
    ensures ReadWord(s, at, top) == Some((n, at + |VarInt(n)|))
  {
    hide Read, Next, VarInt;
    ReadWritten(s, at, n);
  }

  // ----- Special scripts -----

  const OP_DUP := 0x76
  const OP_EQUAL := 0x87
  const OP_EQUALVERIFY := 0x88
  const OP_HASH160 := 0xa9
  const OP_CHECKSIG := 0xac

  const SPECIAL_SCRIPTS := 6

  /** How many bytes follow the kind of a special script. */
  function SpecialSize(kind: nat): nat {
    if kind == 0 || kind == 1 then 20 else if kind <= 5 then 32 else 0
  }

  /** Which keys of 65 bytes are points of the curve, and the 65 bytes of a key of 33. */
  datatype Curve = Curve(isFullyValid: seq<nat> -> bool, decompress: seq<nat> -> Option<seq<nat>>)

  /** A point is given by its first coordinate and the parity of the second. */
  ghost predicate IsCurve(k: Curve) {
    && (forall key {:trigger k.isFullyValid(key)} | |key| == 65 && key[0] == 4 && k.isFullyValid(key) ::
          k.decompress([2 + key[64] % 2] + key[1..33]) == Some(key))
    && (forall key {:trigger k.decompress(key)} | k.decompress(key).Some? :: |k.decompress(key).value| == 65)
  }

  predicate IsToKeyID(s: seq<nat>) {
    && |s| == 25 && s[0] == OP_DUP && s[1] == OP_HASH160 && s[2] == 20
    && s[23] == OP_EQUALVERIFY && s[24] == OP_CHECKSIG
  }

  predicate IsToScriptID(s: seq<nat>) {
    |s| == 23 && s[0] == OP_HASH160 && s[1] == 20 && s[22] == OP_EQUAL
  }

  predicate IsToShortKey(s: seq<nat>) {
    |s| == 35 && s[0] == 33 && s[34] == OP_CHECKSIG && (s[1] == 2 || s[1] == 3)
  }

  predicate IsToLongKey(k: Curve, s: seq<nat>) {
    |s| == 67 && s[0] == 65 && s[66] == OP_CHECKSIG && s[1] == 4 && k.isFullyValid(s[1..66])
  }

  /** The short form of a special script: its kind, and the bytes that vary. */
  function Compress(k: Curve, s: seq<nat>): Option<seq<nat>> {
    if IsToKeyID(s) then Some([0] + s[3..23])
    else if IsToScriptID(s) then Some([1] + s[2..22])
    else if IsToShortKey(s) then Some([s[1]] + s[2..34])
    else if IsToLongKey(k, s) then Some([4 + s[65] % 2] + s[2..34])
    else None
  }

  /** The script of a short form; a key that is not on the curve leaves it empty. */
  function Decompress(k: Curve, kind: nat, data: seq<nat>): seq<nat> {
    if kind == 0 then [OP_DUP, OP_HASH160, 20] + data + [OP_EQUALVERIFY, OP_CHECKSIG]
    else if kind == 1 then [OP_HASH160, 20] + data + [OP_EQUAL]
    else if kind <= 3 then [33, kind] + data + [OP_CHECKSIG]
    else if kind <= 5 then
      match k.decompress([kind - 2] + data)
      case None => []
      case Some(key) => [65] + key + [OP_CHECKSIG]
    else []
  }

  /** A special script comes back from its short form. */
  lemma CompressThenExpand(k: Curve, s: seq<nat>)
    requires IsCurve(k) && Compress(k, s).Some?
    ensures var out := Compress(k, s).value;
            && out != [] && out[0] < SPECIAL_SCRIPTS && |out| == 1 + SpecialSize(out[0])
            && Decompress(k, out[0], out[1..]) == s
  {
    var out := Compress(k, s).value;
    if IsToKeyID(s) {
      assert out[1..] == s[3..23];
      assert s == [s[0], s[1], s[2]] + s[3..23] + [s[23], s[24]];
    } else if IsToScriptID(s) {
      assert out[1..] == s[2..22];
      assert s == [s[0], s[1]] + s[2..22] + [s[22]];
    } else if IsToShortKey(s) {
      assert out[1..] == s[2..34];
      assert s == [s[0], s[1]] + s[2..34] + [s[34]];
    } else {
      LongKeyBack(k, s);
    }
  }

  lemma LongKeyBack(k: Curve, s: seq<nat>)
    requires IsCurve(k) && IsToLongKey(k, s)
    ensures Decompress(k, 4 + s[65] % 2, s[2..34]) == s
  {
    var key := s[1..66];
    assert key[0] == s[1] && key[64] == s[65] && key[1..33] == s[2..34];
    assert s == [s[0]] + key + [s[66]];
  }

  /** The short forms without a point of the curve all stand for a special script. */
  lemma ExpandThenCompress(k: Curve, kind: nat, data: seq<nat>)
    requires kind <= 3 && |data| == SpecialSize(kind)
    ensures Compress(k, Decompress(k, kind, data)) == Some([kind] + data)
  {
    var s := Decompress(k, kind, data);
    if kind == 0 {
      assert s[3..23] == data;
    } else if kind == 1 {
      assert s[2..22] == data;
    } else {
      assert s[2..34] == data;
    }
  }

  // ----- Scripts and outputs -----

  predicate IsBytes(s: seq<nat>) {
    forall i | 0 <= i < |s| :: s[i] < 256
  }

  lemma SpecialBytes(k: Curve, s: seq<nat>)
    requires IsBytes(s) && Compress(k, s).Some?
    ensures IsBytes(Compress(k, s).value)
  {
  }

  /** The size of a script that is not special is written as a number of 32 bits. */
  function ScriptBytes(k: Curve, script: seq<nat>): seq<Byte>
    requires IsBytes(script)
  {
    if Compress(k, script).Some? then
      SpecialBytes(k, script);
      Compress(k, script).value
    else
      VarInt((|script| + SPECIAL_SCRIPTS) % TWO_32) + script
  }

  /** Reads a script. One that is too long is skipped and replaced by an invalid one. */
  function ReadScript(k: Curve, s: seq<Byte>, at: nat): Option<(seq<nat>, nat)> {
    match ReadWord(s, at, TWO_32)
    case None => None
    case Some((n, next)) =>
      var size := if n < SPECIAL_SCRIPTS then SpecialSize(n) else n - SPECIAL_SCRIPTS;
      if next + size > |s| then None
      else
        var bytes := s[next..next + size];
        Some((if n < SPECIAL_SCRIPTS then Decompress(k, n, bytes)
              else if size > MAX_SCRIPT_SIZE then [OP_RETURN] else bytes,
              next + size))
  }

  /** The script is special or not too long. */
  predicate ScriptSurvives(k: Curve, script: seq<nat>) {
    Compress(k, script).Some? || |script| <= MAX_SCRIPT_SIZE
  }

  /** A script comes back exactly when it is special or not too long; as long as its size fits into
      32 bits, any other becomes an unspendable one of a single byte, and reading stops where it ended. */
  lemma ScriptRoundTrip(k: Curve, script: seq<nat>, s: seq<Byte>, at: nat)
    requires IsCurve(k) && IsBytes(script) && Next(s, at, ScriptBytes(k, script))
    ensures |script| + SPECIAL_SCRIPTS < TWO_32 ==>
              ReadScript(k, s, at) ==
              Some((if ScriptSurvives(k, script) then script else [OP_RETURN], at + |ScriptBytes(k, script)|))
    ensures ReadScript(k, s, at).Some? && ReadScript(k, s, at).value.0 == script <==> ScriptSurvives(k, script)
  {
    hide Read, ReadWord, Compress, Decompress, IsCurve, Next, VarInt;
    if Compress(k, script).Some? {
      SpecialRead(k, script, s, at);
    } else {
      var n := (|script| + SPECIAL_SCRIPTS) % TWO_32;
      NextParts(s, at, VarInt(n), script);
      WordWritten(s, at, n, TWO_32);
      PlainBytes(s, at + |VarInt(n)|, script);
    }
    ShortScripts(k, s, at);
  }

  lemma PlainBytes(s: seq<Byte>, at: nat, part: seq<Byte>)
    requires Next(s, at, part)
    ensures at + |part| <= |s| && s[at..at + |part|] == part
  {
  }

  lemma SpecialRead(k: Curve, script: seq<nat>, s: seq<Byte>, at: nat)
    requires IsCurve(k) && IsBytes(script) && Compress(k, script).Some? && Next(s, at, ScriptBytes(k, script))
    ensures ReadScript(k, s, at) == Some((script, at + |ScriptBytes(k, script)|))
  {
    hide Read, ReadWord, Compress, Decompress, IsCurve, Next, VarInt;
    var out: seq<Byte> := ScriptBytes(k, script);
    CompressThenExpand(k, script);
    assert out == [out[0]] + out[1..];
    NextParts(s, at, [out[0]], out[1..]);
    OneByte(out[0]);
    WordWritten(s, at, out[0], TWO_32);
    PlainBytes(s, at + 1, out[1..]);
  }

  lemma OneByte(b: Byte)
    requires b < 128
    ensures VarInt(b) == [b]
  {
  }

  /** Whatever the stream holds, a script that is read is not too long. */
  lemma ShortScripts(k: Curve, s: seq<Byte>, at: nat)
    requires IsCurve(k)
    ensures ReadScript(k, s, at).Some? ==> |ReadScript(k, s, at).value.0| <= MAX_SCRIPT_SIZE
  {
    hide ReadWord;
    var r := ReadWord(s, at, TWO_32);
    if r.Some? && r.value.0 < SPECIAL_SCRIPTS && r.value.1 + SpecialSize(r.value.0) <= |s| {
      ShortSpecials(k, r.value.0, s[r.value.1..r.value.1 + SpecialSize(r.value.0)]);
    }
  }

  lemma ShortSpecials(k: Curve, kind: nat, data: seq<nat>)
    requires IsCurve(k) && kind < SPECIAL_SCRIPTS && |data| == SpecialSize(kind)
    ensures |Decompress(k, kind, data)| <= 67
  {
  }

  const TWO_63 := 0x8000_0000_0000_0000

  /** An output in the types that hold it: a `CAmount` that is not negative, and a script of bytes. */
  predicate Storable(out: TxOut) {
    0 <= out.value < TWO_63 && IsBytes(out.script) && |out.script| + SPECIAL_SCRIPTS < TWO_32
  }

  function OutBytes(k: Curve, out: TxOut): (r: seq<Byte>)
    requires Storable(out)
  {
    VarInt(Compress64(out.value)) + ScriptBytes(k, out.script)
  }

  /** 64 bits as a `CAmount`. */
  function AsAmount(n: nat): int {
    if n < TWO_63 then n else n - TWO_64
  }

  function ReadOut(k: Curve, s: seq<Byte>, at: nat): Option<(TxOut, nat)> {
    match ReadWord(s, at, TWO_64)
    case None => None
    case Some((x, next)) =>
      match ReadScript(k, s, next)
      case None => None
      case Some((script, end)) => Some((TxOut(AsAmount(Decompress64(x)), script), end))
  }

  /** The output survives being stored. */
  predicate Survives(k: Curve, out: TxOut) {
    ScriptSurvives(k, out.script) && out.value >= 0 && Compressed(out.value) < TWO_64
  }

  /** What an output has become after it was stored. */
  function Kept(k: Curve, out: TxOut): TxOut {
    if out.value < 0 then out
    else
      TxOut(AsAmount(Decompress64(Compress64(out.value))),
            if ScriptSurvives(k, out.script) then out.script else [OP_RETURN])
  }

  lemma OutRoundTrip(k: Curve, out: TxOut, s: seq<Byte>, at: nat)
    requires IsCurve(k) && Storable(out) && Next(s, at, OutBytes(k, out))
    ensures ReadOut(k, s, at) == Some((Kept(k, out), at + |OutBytes(k, out)|))
    ensures Kept(k, out) == out <==> Survives(k, out)
    ensures !Kept(k, out).IsNull()
  {
    hide Read, ReadWord, ReadScript, ScriptBytes, ScriptSurvives, Compress64, Decompress64, VarInt, Next;
    var x := Compress64(out.value);
    NextParts(s, at, VarInt(x), ScriptBytes(k, out.script));
    CodeIsWord(out.value);
    WordWritten(s, at, x, TWO_64);
    ScriptRoundTrip(k, out.script, s, at + |VarInt(x)|);
    KeptExactly(k, out);
  }

  lemma CodeIsWord(n: nat)
    ensures Compress64(n) < TWO_64
  {
  }

  /** An output is unchanged exactly when it survives; even one that does not is not taken for a spent one. */
  lemma KeptExactly(k: Curve, out: TxOut)
    requires Storable(out)
    ensures Kept(k, out) == out <==> Survives(k, out)
    ensures !Kept(k, out).IsNull()
  {
    hide ScriptSurvives, Compressed, Compress64, Decompress64;
    CompressThenDecompress(out.value);
    CodeIsWord(out.value);
    NeverMinusOne(Compress64(out.value));
    assert |out.script| > MAX_SCRIPT_SIZE ==> out.script != [OP_RETURN];
    LongChanges(k, out.script);
  }

  lemma LongChanges(k: Curve, script: seq<nat>)
    ensures !ScriptSurvives(k, script) ==> script != [OP_RETURN]
  {
    hide Compress;
  }
}
