/** The unspent outputs of one transaction (`CCoins`). */
module Coins {
  import opened Primitives

  datatype Coins = Coins(coinBase: bool, outs: seq<TxOut>, height: int, version: int) {

    /** No output is left unspent. */
    predicate IsPruned() {
      forall i | 0 <= i < |outs| :: outs[i].IsNull()
    }

    predicate IsAvailable(n: nat) {
      n < |outs| && !outs[n].IsNull()
    }

    /** Spent outputs at the end have been dropped. */
    predicate IsClean() {
      |outs| > 0 ==> !outs[|outs| - 1].IsNull()
    }

    function Cleanup(): Coins {
      this.(outs := Trimmed(outs))
    }

    function ClearUnspendable(): Coins {
      this.(outs := Trimmed(Spendable(outs)))
    }

    /** Marks output `n` spent; the flag says whether it was there to be spent. */
    function Spend(n: nat): (Coins, bool) {
      if IsAvailable(n) then
        (this.(outs := Trimmed(outs[n := NULL_OUT])), true)
      else
        (this, false)
    }
  }

  /** Equality as `operator==` has it: all fully spent values are equal. */
  predicate SameCoins(a: Coins, b: Coins) {
    (a.IsPruned() && b.IsPruned()) || a == b
  }

  const EMPTY_COINS := Coins(false, [], 0, 0)

  /** `outs` without the null outputs at its end. */
  function Trimmed(outs: seq<TxOut>): (r: seq<TxOut>)
    ensures r <= outs
    ensures |r| > 0 ==> !r[|r| - 1].IsNull()
    ensures forall i | |r| <= i < |outs| :: outs[i].IsNull()
  {
    if |outs| > 0 && outs[|outs| - 1].IsNull() then Trimmed(outs[..|outs| - 1]) else outs
  }

  /** `out` as the coin set keeps it: nulled when no script can ever spend it. */
  function SpendableOut(out: TxOut): TxOut {
    if out.IsUnspendable() then NULL_OUT else out
  }

  /** `outs` with every unspendable output nulled. */
  function Spendable(outs: seq<TxOut>): (r: seq<TxOut>)
    ensures |r| == |outs|
    ensures forall i | 0 <= i < |outs| :: r[i] == SpendableOut(outs[i])
  {
    if outs == [] then [] else Spendable(outs[..|outs| - 1]) + [SpendableOut(outs[|outs| - 1])]
  }

  function FromTx(tx: Tx, height: int): Coins {
    Coins(tx.IsCoinBase(), tx.vout, height, tx.version).ClearUnspendable()
  }

  /** The three postconditions of `Trimmed` determine it. */
  lemma TrimmedUnique(outs: seq<TxOut>, r: seq<TxOut>)
    requires r <= outs
    requires |r| > 0 ==> !r[|r| - 1].IsNull()
    requires forall i | |r| <= i < |outs| :: outs[i].IsNull()
    ensures r == Trimmed(outs)
  {
    var t := Trimmed(outs);
    assert |r| > 0 ==> !outs[|r| - 1].IsNull();
    assert |t| > 0 ==> !outs[|t| - 1].IsNull();
  }

  /** The loop of `CCoins::Cleanup`. */
  method CleanupLoop(outs: seq<TxOut>) returns (r: seq<TxOut>)
    ensures r == Trimmed(outs)
  {
    r := outs;
    while |r| > 0 && r[|r| - 1].IsNull()
      invariant Trimmed(r) == Trimmed(outs)
    {
      r := r[..|r| - 1];
    }
  }

  /** The loop of `CCoins::ClearUnspendable`, on an output vector. */
  method ClearUnspendableLoop(outs: seq<TxOut>) returns (r: seq<TxOut>)
    ensures r == Trimmed(Spendable(outs))
  {
    r := outs;
    for i := 0 to |outs|
      invariant |r| == |outs|
      invariant forall k | 0 <= k < i :: r[k] == SpendableOut(outs[k])
      invariant forall k | i <= k < |outs| :: r[k] == outs[k]
    {
      if outs[i].IsUnspendable() {
        r := r[i := NULL_OUT];
      }
    }
    assert r == Spendable(outs);
    r := CleanupLoop(r);
  }

  /** A clean value is fully spent exactly when it has no outputs left. */
  lemma CleanPruned(c: Coins)
    requires c.IsClean()
    ensures c.IsPruned() <==> c.outs == []
  {
    if c.outs != [] {
      assert !c.outs[|c.outs| - 1].IsNull();
    }
  }
}
