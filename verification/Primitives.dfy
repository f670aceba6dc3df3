/** Amounts, identifiers, transactions and blocks, as far as the chain state needs them. */
module Primitives {

  datatype Option<+T> = None | Some(value: T)

  /** A 256-bit identifier (transaction id, block hash, nullifier, note commitment).
      Identifiers are opaque; 0 stands for the null value `uint256()`. */
  type Hash = nat

  const NULL_HASH: Hash := 0

  const COIN := 100_000_000
  const MAX_MONEY := 840_000_000 * COIN

  predicate MoneyRange(amount: int) {
    0 <= amount <= MAX_MONEY
  }

  const OP_RETURN := 0x6a
  const MAX_SCRIPT_SIZE := 10_000
  const MAX_UINT32 := 0xFFFF_FFFF

  /** A transaction output. A spent or removed output has value -1. */
  datatype TxOut = TxOut(value: int, script: seq<nat>) {
    predicate IsNull() {
      value == -1
    }

    predicate IsUnspendable() {
      (|script| > 0 && script[0] == OP_RETURN) || |script| > MAX_SCRIPT_SIZE
    }
  }

  const NULL_OUT := TxOut(-1, [])

  datatype OutPoint = OutPoint(hash: Hash, n: nat) {
    predicate IsNull() {
      hash == NULL_HASH && n == MAX_UINT32
    }
  }

  datatype TxIn = TxIn(prevout: OutPoint, scriptSig: seq<nat>)

  /** The note commitment tree is the sequence of its commitments. */
  type Tree = seq<Hash>

  /** The root of a commitment tree. `RootOf` is injective, as the tree hash is assumed to be;
      `Foreign` covers 256-bit values that are the root of no tree. */
  datatype Root = NullRoot | RootOf(leaves: Tree) | Foreign(bits: nat)

  const EMPTY_ROOT := RootOf([])

  /** A JoinSplit takes `pubOld` from the transparent pool, gives `pubNew` to it,
      reveals nullifiers and adds note commitments. */
  datatype JoinSplit = JoinSplit(
    pubOld: int,
    pubNew: int,
    anchor: Root,
    nullifiers: seq<Hash>,
    commitments: seq<Hash>)

  datatype Tx = Tx(
    hash: Hash,
    version: int,
    vin: seq<TxIn>,
    vout: seq<TxOut>,
    joinSplits: seq<JoinSplit>)
  {
    predicate IsCoinBase() {
      |vin| == 1 && vin[0].prevout.IsNull()
    }
  }

  datatype Block = Block(hash: Hash, hashPrev: Hash, vtx: seq<Tx>)

  type Byte = x: nat | x < 256

  ghost predicate Distinct<T>(s: seq<T>) {
    forall i, j | 0 <= i < j < |s| :: s[i] != s[j]
  }

  function ToSet<T>(s: seq<T>): set<T> {
    set x | x in s
  }

  lemma {:induction false} DistinctSize<T>(s: seq<T>)
    requires Distinct(s)
    ensures |ToSet(s)| == |s|
  {
    if s == [] {
      assert ToSet(s) == {};
    } else {
      var init, last := s[..|s| - 1], s[|s| - 1];
      DistinctSize(init);
      assert ToSet(s) == ToSet(init) + {last};
    }
  }

  lemma {:induction false} SubsetSize<T>(a: set<T>, b: set<T>)
    requires a <= b
    ensures |a| <= |b|
    decreases a
  {
    if a != {} {
      var x :| x in a;
      SubsetSize(a - {x}, b - {x});
    }
  }

  /** One element less to do is one more done. */
  lemma OneMoreDone<T>(all: set<T>, rest: set<T>, x: T)
    requires rest <= all && x in rest
    ensures all - rest + {x} == all - (rest - {x})
  {
  }

  /** A prefix and the element after it. */
  lemma PrefixSnoc<T>(s: seq<T>, k: nat)
    requires k < |s|
    ensures s[..k] + [s[k]] == s[..k + 1]
    ensures s[..k + 1][..k] == s[..k]
    ensures s[..k + 1][k] == s[k]
  {
  }

  lemma WholePrefix<T>(s: seq<T>)
    ensures s[..|s|] == s
  {
  }
}
