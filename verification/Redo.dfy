/** The other way round: what a clean disconnect leads to, connected again, gives exactly what was there. */
module Redo {
  import opened Primitives
  import opened Coins
  import opened ChainView
  import opened Blocks
  import opened Inversion

  // ----- One input -----

  /** Undo data as it is written and read: an output that was spent, and metadata only with a height. */
  predicate IsRecord(u: TxInUndo) {
    && !u.out.IsNull() && !u.out.IsUnspendable()
    && u.height >= 0 && (u.height == 0 ==> !u.coinBase && u.version == 0)
  }

  /** Setting an output that was null, and trimming after setting it back, gives the same outputs. */
  lemma RestoreOuts(outs: seq<TxOut>, n: nat, out: TxOut)
    requires !out.IsNull() && (n < |outs| ==> outs[n] == NULL_OUT)
    requires |outs| > 0 ==> !outs[|outs| - 1].IsNull()
    ensures var full := Resized(outs, n)[n := out];
            Trimmed(full) == full && Trimmed(full[n := NULL_OUT]) == outs
  {
    var full := Resized(outs, n)[n := out];
    TrimmedUnique(full, full);
    assert full[n := NULL_OUT] == Resized(outs, n);
    TrimmedUnique(Resized(outs, n), outs);
  }

  /** The coins after one output is brought back. */
  ghost function Restored(base: Coins, n: nat, out: TxOut): Coins {
    base.(outs := Resized(base.outs, n)[n := out])
  }

  lemma RestoredIsWellFormed(base: Coins, n: nat, out: TxOut)
    requires !out.IsNull() && !base.IsAvailable(n) && base.height >= 1
    requires base.outs == [] || WellFormedCoins(base)
    ensures var d := Restored(base, n, out);
            && WellFormedCoins(d) && d.Cleanup() == d && d.IsAvailable(n) && d.outs[n] == out
            && d.Spend(n).0 == base
  {
    RestoreOuts(base.outs, n, out);
  }

  /** Undoing an input succeeds exactly for what spending that output leaves. */
  lemma UndoInputExactly(m: CoinMap, u: TxInUndo, op: OutPoint, m': CoinMap)
    requires WellFormedMap(m) && IsRecord(u)
    ensures UndoInput(m, u, op) == Some(m') <==>
              WellFormedMap(m') && Available(m', op) && SpendInput(m', op) == (m, u)
  {
    if UndoInput(m, u, op) == Some(m') {
      UndoneCanBeSpent(m, u, op);
    }
    if WellFormedMap(m') && Available(m', op) && SpendInput(m', op) == (m, u) {
      UndoSpendInput(m', op);
    }
  }

  lemma UndoneCanBeSpent(m: CoinMap, u: TxInUndo, op: OutPoint)
    requires WellFormedMap(m) && IsRecord(u) && UndoInput(m, u, op).Some?
    ensures var m' := UndoInput(m, u, op).value;
            WellFormedMap(m') && Available(m', op) && SpendInput(m', op) == (m, u)
  {
    hide Resized;
    var c, m' := Lookup(m, op.hash), UndoInput(m, u, op).value;
    if op.hash in m {
      CleanCoins(c);
    }
    var base := if u.height != 0 then Coins(u.coinBase, [], u.height, u.version) else c;
    RestoredIsWellFormed(base, op.n, u.out);
    var d := Restored(base, op.n, u.out);
    CleanCoins(d);
    assert m' == m[op.hash := d];
    assert UndoFor(d, op.n) == u;
    assert Store(m', op.hash, base) == m;
  }

  /** Inputs brought back can be spent again. */
  lemma {:induction false} RedoInputs(m: CoinMap, vin: seq<TxIn>, us: TxUndo)
    requires WellFormedMap(m) && |vin| == |us| && (forall i | 0 <= i < |us| :: IsRecord(us[i]))
    requires UndoInputs(m, vin, us).Some?
    ensures var m' := UndoInputs(m, vin, us).value;
            WellFormedMap(m') && CanSpend(m', vin) && SpendInputs(m', vin) == (m, us)
    decreases |vin|
  {
    hide WellFormedMap, UndoInput, SpendInput, IsRecord, Available;
    if vin != [] {
      var last := |vin| - 1;
      UndoneCanBeSpent(m, us[last], vin[last].prevout);
      var m1 := UndoInput(m, us[last], vin[last].prevout).value;
      RedoInputs(m1, vin[..last], us[..last]);
      assert us[..last] + [us[last]] == us;
    }
  }

  /** The inputs of a transaction, in any number. */
  lemma UndoInputsExactly(m: CoinMap, vin: seq<TxIn>, us: TxUndo, m': CoinMap)
    requires WellFormedMap(m) && |vin| == |us| && forall i | 0 <= i < |us| :: IsRecord(us[i])
    ensures UndoInputs(m, vin, us) == Some(m') <==>
              WellFormedMap(m') && CanSpend(m', vin) && SpendInputs(m', vin) == (m, us)
  {
    hide WellFormedMap, UndoInputs, SpendInputs, IsRecord, CanSpend;
    if WellFormedMap(m') && CanSpend(m', vin) && SpendInputs(m', vin) == (m, us) {
      UndoSpendInputs(m', vin);
    }
    if UndoInputs(m, vin, us) == Some(m') {
      RedoInputs(m, vin, us);
    }
  }

  // ----- One transaction -----

  /** No entry keeps an output that cannot be spent. */
  ghost predicate ClearMap(m: CoinMap) {
    forall h | h in m :: ClearOuts(m[h].outs)
  }

  ghost predicate ClearOuts(outs: seq<TxOut>) {
    forall i | 0 <= i < |outs| :: !outs[i].IsUnspendable()
  }

  lemma NothingToClear(c: Coins)
    requires WellFormedCoins(c) && ClearOuts(c.outs)
    ensures c.ClearUnspendable() == c
  {
    assert Spendable(c.outs) == c.outs;
    TrimmedUnique(c.outs, c.outs);
  }

  lemma UndoneIsClear(m: CoinMap, u: TxInUndo, op: OutPoint)
    requires ClearMap(m) && IsRecord(u) && UndoInput(m, u, op).Some?
    ensures ClearMap(UndoInput(m, u, op).value)
  {
    hide Resized;
    var c := Lookup(m, op.hash);
    var base := if u.height != 0 then Coins(u.coinBase, [], u.height, u.version) else c;
    var outs := Resized(base.outs, op.n)[op.n := u.out];
    assert ClearOuts(outs);
    assert ClearOuts(Trimmed(outs));
  }

  lemma {:induction false} AllUndoneIsClear(m: CoinMap, vin: seq<TxIn>, us: TxUndo)
    requires ClearMap(m) && |vin| == |us| && (forall i | 0 <= i < |us| :: IsRecord(us[i]))
    requires UndoInputs(m, vin, us).Some?
    ensures ClearMap(UndoInputs(m, vin, us).value)
    decreases |vin|
  {
    hide ClearMap, UndoInput, IsRecord;
    if vin != [] {
      var last := |vin| - 1;
      UndoneIsClear(m, us[last], vin[last].prevout);
      AllUndoneIsClear(UndoInput(m, us[last], vin[last].prevout).value, vin[..last], us[..last]);
    }
  }

  /** What is found for a transaction is what the transaction made. */
  lemma FoundIsMade(m: CoinMap, tx: Tx, height: int)
    requires WellFormedMap(m) && ClearMap(m) && WellFormedTx(tx) && MatchesOutputs(m, tx, height)
    ensures Store(m - {tx.hash}, tx.hash, FromTx(tx, height)) == m
  {
    hide WellFormedTx, FromTx;
    assert FromTx(tx, height).version >= 0 by {
      FormedVersion(tx, height);
    }
    if tx.hash in m {
      CleanCoins(m[tx.hash]);
      NothingToClear(m[tx.hash]);
    } else {
      assert EMPTY_COINS.ClearUnspendable().IsPruned();
      assert m - {tx.hash} == m;
    }
  }

  lemma FormedVersion(tx: Tx, height: int)
    requires WellFormedTx(tx)
    ensures FromTx(tx, height).version >= 0
  {
  }

  ghost predicate IsTxRecord(tx: Tx, undo: Option<TxUndo>) {
    && (undo.None? <==> tx.IsCoinBase())
    && (undo.Some? ==> forall i | 0 <= i < |undo.value| :: IsRecord(undo.value[i]))
  }

  /** The coins and the undo data after one more transaction; None when an input is missing. */
  function Applied(m: CoinMap, tx: Tx, height: int): Option<(CoinMap, TxUndo)> {
    if tx.IsCoinBase() then Some((Store(m, tx.hash, FromTx(tx, height)), []))
    else if CanSpend(m, tx.vin) then
      var (m1, us) := SpendInputs(m, tx.vin);
      Some((Store(m1, tx.hash, FromTx(tx, height)), us))
    else None
  }

  /** A transaction that was taken back cleanly can be applied again, and gives the same coins and the same
      undo data. */
  lemma RedoTx(v: View, tx: Tx, height: int, undo: Option<TxUndo>)
    requires WellFormedMap(v.coins) && ClearMap(v.coins) && WellFormedTx(tx) && IsTxRecord(tx, undo)
    requires UndoTx(v, tx, height, undo).Some?
    ensures var w := UndoTx(v, tx, height, undo).value;
            && WellFormedMap(w.coins) && ClearMap(w.coins)
            && Applied(w.coins, tx, height) == Some((v.coins, if undo.Some? then undo.value else []))
            && v.nullifiers <= w.nullifiers + ToSet(AllNullifiers(tx.joinSplits)) && w.nullifiers <= v.nullifiers
  {
    hide WellFormedTx, FromTx, SpendInputs, UndoInputs, CanSpend, MatchesOutputs, ClearOuts, IsRecord;
    var w := UndoTx(v, tx, height, undo).value;
    FoundIsMade(v.coins, tx, height);
    var m := v.coins - {tx.hash};
    assert WellFormedMap(m) && ClearMap(m);
    if undo.Some? {
      UndoInputsExactly(m, tx.vin, undo.value, w.coins);
      AllUndoneIsClear(m, tx.vin, undo.value);
    }
  }

  // ----- What connecting writes -----

  lemma SpentIsRecord(m: CoinMap, op: OutPoint)
    requires WellFormedMap(m) && ClearMap(m) && Available(m, op)
    ensures IsRecord(SpendInput(m, op).1) && ClearMap(SpendInput(m, op).0)
  {
    var c := m[op.hash];
    assert ClearOuts(c.outs[op.n := NULL_OUT]);
    assert ClearOuts(c.Spend(op.n).0.outs);
  }

  /** Spending inputs writes records. */
  lemma {:induction false} SpentAreRecords(m: CoinMap, vin: seq<TxIn>)
    requires WellFormedMap(m) && ClearMap(m) && CanSpend(m, vin)
    ensures ClearMap(SpendInputs(m, vin).0)
    ensures forall i | 0 <= i < |vin| :: IsRecord(SpendInputs(m, vin).1[i])
  {
    hide WellFormedMap, ClearMap, SpendInput, IsRecord, Available;
    if vin != [] {
      var init := vin[..|vin| - 1];
      SpentAreRecords(m, init);
      SpendInputsKeepsWellFormed(m, init);
      SpentIsRecord(SpendInputs(m, init).0, vin[|vin| - 1].prevout);
    }
  }

  // ----- A block -----

  /** The coins after all transactions, and the undo data of all but the first. */
  function AllApplied(m: CoinMap, vtx: seq<Tx>, height: int): Option<(CoinMap, seq<TxUndo>)>
    decreases |vtx|
  {
    if vtx == [] then Some((m, []))
    else
      var last := |vtx| - 1;
      match AllApplied(m, vtx[..last], height)
      case None => None
      case Some((m1, us)) =>
        match Applied(m1, vtx[last], height)
        case None => None
        case Some((m2, u)) => Some((m2, if last == 0 then us else us + [u]))
  }

  ghost predicate AreRecords(undos: seq<TxUndo>) {
    forall i, j | 0 <= i < |undos| && 0 <= j < |undos[i]| :: IsRecord(undos[i][j])
  }

  lemma {:induction false} RedoTxs(v: View, vtx: seq<Tx>, undos: seq<TxUndo>, height: int)
    requires WellFormedMap(v.coins) && ClearMap(v.coins) && CheckedTxs(vtx) && AreRecords(undos)
    requires |undos| == (if |vtx| > 0 then |vtx| - 1 else 0) && UndoTxs(v, vtx, undos, height).Some?
    ensures AllApplied(UndoTxs(v, vtx, undos, height).value.coins, vtx, height) == Some((v.coins, undos))
    decreases |vtx|
  {
    hide WellFormedMap, ClearMap, WellFormedTx, IsRecord, UndoTx, Applied, Tx.IsCoinBase;
    if vtx != [] {
      var last := |vtx| - 1;
      var undo := if last > 0 then Some(undos[last - 1]) else None;
      var rest := if last > 0 then undos[..last - 1] else [];
      RedoTx(v, vtx[last], height, undo);
      RedoTxs(UndoTx(v, vtx[last], height, undo).value, vtx[..last], rest, height);
      if last > 0 {
        assert rest + [undos[last - 1]] == undos;
      }
    }
  }

  /** A block that is disconnected cleanly had left exactly these coins and this undo data: its transactions,
      applied again to what is left, give both back. */
  lemma DisconnectedCanReturn(v: View, block: Block, undo: BlockUndo, height: nat)
    requires WellFormedMap(v.coins) && ClearMap(v.coins) && CheckedTxs(block.vtx) && AreRecords(undo.txs)
    requires DisconnectBlock(v, block, undo, height).Some?
    ensures var w := DisconnectBlock(v, block, undo, height).value;
            && AllApplied(w.coins, block.vtx, height) == Some((v.coins, undo.txs))
            && w.bestBlock == block.hashPrev && w.bestAnchor == undo.oldRoot
  {
    hide WellFormedMap, ClearMap, CheckedTxs, AreRecords, AllApplied, UndoTxs;
    RedoTxs(v, block.vtx, undo.txs, height);
  }
}
