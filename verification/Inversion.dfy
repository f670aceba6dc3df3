/** Disconnecting a block undoes connecting it. */
module Inversion {
  import opened Primitives
  import opened Coins
  import opened ChainView
  import opened Blocks

  /** Transaction ids are injective on `vtx`. */
  ghost predicate InjectiveIds(vtx: seq<Tx>) {
    forall i, j | 0 <= i < |vtx| && 0 <= j < |vtx| && vtx[i].hash == vtx[j].hash :: vtx[i] == vtx[j]
  }

  /** What every state reached by connecting blocks satisfies. */
  ghost predicate SoundView(v: View) {
    && WellFormedMap(v.coins)
    && v.bestAnchor.RootOf?
    && v.bestAnchor in v.anchors
    && EMPTY_ROOT in v.anchors
    && forall a | a in v.anchors :: a.RootOf? && |a.leaves| <= |v.bestAnchor.leaves|
  }

  /** What `ConnectTxs` may assume of its transactions after `CheckBlock`. */
  ghost predicate CheckedTxs(vtx: seq<Tx>) {
    && (forall i | 0 <= i < |vtx| :: WellFormedTx(vtx[i]))
    && (forall i | 0 <= i < |vtx| :: vtx[i].IsCoinBase() <==> i == 0)
  }

  // ----- One transaction -----

  lemma FromTxWellFormed(tx: Tx, height: int)
    requires WellFormedTx(tx) && height >= 1
    ensures var c := FromTx(tx, height); c.IsClean() && (c.IsPruned() || WellFormedCoins(c))
  {
    var c := FromTx(tx, height);
    CleanPruned(c);
    forall i | 0 <= i < |c.outs| && c.outs[i].IsNull()
      ensures c.outs[i] == NULL_OUT
    {
      assert c.outs[i] == SpendableOut(tx.vout[i]);
      assert MoneyRange(tx.vout[i].value);
    }
  }

  lemma UpdateCoinsKeepsWellFormed(v: View, tx: Tx, height: int)
    requires WellFormedMap(v.coins) && WellFormedTx(tx) && height >= 1
    requires !tx.IsCoinBase() ==> CanSpend(v.coins, tx.vin)
    ensures WellFormedMap(UpdateCoins(v, tx, height).0.coins)
  {
    FromTxWellFormed(tx, height);
    if !tx.IsCoinBase() {
      SpendInputsKeepsWellFormed(v.coins, tx.vin);
    }
  }

  /** Clearing unspendable outputs changes nothing that `FromTx` produced. */
  lemma ClearTwice(tx: Tx, height: int)
    requires WellFormedTx(tx)
    ensures FromTx(tx, height).ClearUnspendable() == FromTx(tx, height)
  {
    var c := FromTx(tx, height);
    assert Spendable(c.outs) == c.outs by {
      forall i | 0 <= i < |c.outs|
        ensures SpendableOut(c.outs[i]) == c.outs[i]
      {
        assert c.outs[i] == SpendableOut(tx.vout[i]);
      }
    }
    TrimmedUnique(c.outs, c.outs);
  }

  /** Adding coins under an unused id and removing them again. */
  lemma RemoveStored(m: CoinMap, h: Hash, c: Coins)
    requires h !in m
    ensures Store(m, h, c) - {h} == m
    ensures SameCoins(Lookup(Store(m, h, c), h), c)
    ensures !c.IsPruned() ==> Lookup(Store(m, h, c), h) == c
  {
  }

  /** Undoing a transaction whose id was unused and whose nullifiers were new restores the state. */
  lemma UndoUpdateCoins(v: View, tx: Tx, height: int)
    requires WellFormedMap(v.coins) && WellFormedTx(tx)
    requires !tx.IsCoinBase() ==> CanSpend(v.coins, tx.vin)
    requires tx.hash !in v.coins
    requires ToSet(AllNullifiers(tx.joinSplits)) !! v.nullifiers
    ensures var (w, undo) := UpdateCoins(v, tx, height);
            UndoTx(w, tx, height, if tx.IsCoinBase() then None else Some(undo)) == Some(v)
  {
    var (w, undo) := UpdateCoins(v, tx, height);
    var m1 := if tx.IsCoinBase() then v.coins else SpendInputs(v.coins, tx.vin).0;
    if !tx.IsCoinBase() {
      SpendInputsKeys(v.coins, tx.vin);
      UndoSpendInputs(v.coins, tx.vin);
    }
    RemoveStored(m1, tx.hash, FromTx(tx, height));
    ClearTwice(tx, height);
    hide SpendInputs, UndoInputs, WellFormedMap;
    assert w.nullifiers - ToSet(AllNullifiers(tx.joinSplits)) == v.nullifiers;
  }

  /** The nullifiers of an accepted transaction are new. */
  lemma {:induction false} NullifiersNew(v: View, js: seq<JoinSplit>, nf: Hash)
    requires forall k | 0 <= k < |js| :: JoinSplitOk(v, js, k)
    requires nf in AllNullifiers(js)
    ensures nf !in v.nullifiers
  {
    var last := |js| - 1;
    if nf in js[last].nullifiers {
      var i :| 0 <= i < |js[last].nullifiers| && js[last].nullifiers[i] == nf;
      assert JoinSplitOk(v, js, last);
    } else {
      forall k | 0 <= k < last
        ensures JoinSplitOk(v, js[..last], k)
      {
        assert JoinSplitOk(v, js, k);
      }
      NullifiersNew(v, js[..last], nf);
    }
  }

  /** What an accepted transaction guarantees, and what it changes. */
  lemma AcceptedFacts(rules: Rules, p: Progress, tx: Tx, height: int, first: bool)
    requires WellFormedTx(tx) && Step(rules, Some(p), tx, height, first).Some?
    ensures !tx.IsCoinBase() ==> HaveInputs(p.view.coins, tx.vin) && CanSpend(p.view.coins, tx.vin)
    ensures ToSet(AllNullifiers(tx.joinSplits)) !! p.view.nullifiers
    ensures var q := Step(rules, Some(p), tx, height, first).value;
            var (view, undo) := UpdateCoins(p.view, tx, height);
            && q.view == view
            && q.undos == (if first then p.undos else p.undos + [undo])
            && q.tree == p.tree + AllCommitments(tx.joinSplits)
  {
    if !tx.IsCoinBase() {
      DistinctInputsCanBeSpent(p.view.coins, tx.vin);
    }
    forall nf | nf in AllNullifiers(tx.joinSplits)
      ensures nf !in p.view.nullifiers
    {
      NullifiersNew(p.view, tx.joinSplits, nf);
    }
  }

  // ----- Inside one block, no id is used twice -----

  ghost function Ids(vtx: seq<Tx>): set<Hash> {
    set i | 0 <= i < |vtx| :: vtx[i].hash
  }

  /** Everything the transactions consumed is gone, and was either there at the start of the
      block or created in it. */
  ghost predicate Consumed(start: CoinMap, vtx: seq<Tx>, now: CoinMap) {
    forall i, j | 0 <= i < |vtx| && !vtx[i].IsCoinBase() && 0 <= j < |vtx[i].vin| ::
      var op := vtx[i].vin[j].prevout;
      !Available(now, op) && op.hash in start.Keys + Ids(vtx)
  }

  ghost predicate Revealed(vtx: seq<Tx>, nullifiers: set<Hash>) {
    forall i | 0 <= i < |vtx| :: ToSet(AllNullifiers(vtx[i].joinSplits)) <= nullifiers
  }

  /** What holds between the state at the start of a block and the state after its
      transactions `vtx`. */
  ghost predicate Inside(start: View, vtx: seq<Tx>, now: View) {
    && WellFormedMap(now.coins)
    && now.coins.Keys <= start.coins.Keys + Ids(vtx)
    && Consumed(start.coins, vtx, now.coins)
    && Revealed(vtx, now.nullifiers)
  }

  /** An accepted transaction cannot repeat one of the same block: what it consumed or
      revealed the first time is no longer there. */
  lemma NoRepeat(start: View, vtx: seq<Tx>, now: View, tx: Tx, i: nat)
    requires Inside(start, vtx, now)
    requires WellFormedTx(tx) && !tx.IsCoinBase() && HaveInputs(now.coins, tx.vin)
    requires ToSet(AllNullifiers(tx.joinSplits)) !! now.nullifiers
    requires i < |vtx|
    ensures vtx[i] != tx
  {
    var other := vtx[i];
    if tx.joinSplits != [] {
      var js := tx.joinSplits;
      var nf := js[|js| - 1].nullifiers[0];
      assert nf in AllNullifiers(js);
      assert nf in ToSet(AllNullifiers(js));
      assert nf !in ToSet(AllNullifiers(other.joinSplits));
    } else {
      assert Available(now.coins, tx.vin[0].prevout);
      assert !other.IsCoinBase() && |other.vin| > 0 ==> !Available(now.coins, other.vin[0].prevout);
    }
  }

  /** The next transaction's id has no unspent outputs and is new in the block. */
  lemma FreshId(start: View, vtx: seq<Tx>, k: nat, now: View)
    requires k < |vtx| && Inside(start, vtx[..k], now)
    requires CheckedTxs(vtx) && InjectiveIds(vtx) && NoOverwrite(start.coins, vtx)
    requires k > 0 ==> HaveInputs(now.coins, vtx[k].vin)
    requires ToSet(AllNullifiers(vtx[k].joinSplits)) !! now.nullifiers
    ensures vtx[k].hash !in Ids(vtx[..k])
    ensures vtx[k].hash !in now.coins
  {
    forall i | 0 <= i < k
      ensures vtx[i].hash != vtx[k].hash
    {
      assert vtx[..k][i] == vtx[i];
      NoRepeat(start, vtx[..k], now, vtx[k], i);
    }
  }

  /** An outpoint of an earlier transaction's id is not made available again. */
  lemma UpdateCoinsAvailability(v: View, tx: Tx, height: int, op: OutPoint)
    requires !tx.IsCoinBase() ==> CanSpend(v.coins, tx.vin)
    requires op.hash != tx.hash
    ensures Available(UpdateCoins(v, tx, height).0.coins, op) <==>
              Available(v.coins, op) &&
              (tx.IsCoinBase() || forall i | 0 <= i < |tx.vin| :: tx.vin[i].prevout != op)
  {
    if !tx.IsCoinBase() {
      SpendInputsAvailability(v.coins, tx.vin, op);
    }
  }

  lemma InsideConsumed(start: View, vtx: seq<Tx>, now: View, tx: Tx, height: int)
    requires Inside(start, vtx, now)
    requires WellFormedTx(tx)
    requires !tx.IsCoinBase() ==> HaveInputs(now.coins, tx.vin) && CanSpend(now.coins, tx.vin)
    requires tx.hash !in start.coins && tx.hash !in Ids(vtx) && tx.hash !in now.coins
    ensures Consumed(start.coins, vtx + [tx], UpdateCoins(now, tx, height).0.coins)
  {
    var all := vtx + [tx];
    var after := UpdateCoins(now, tx, height).0.coins;
    assert Ids(all) == Ids(vtx) + {tx.hash} by {
      assert all[|vtx|] == tx;
      assert forall i | 0 <= i < |vtx| :: all[i] == vtx[i];
    }
    forall i, j | 0 <= i < |all| && !all[i].IsCoinBase() && 0 <= j < |all[i].vin|
      ensures !Available(after, all[i].vin[j].prevout)
      ensures all[i].vin[j].prevout.hash in start.coins.Keys + Ids(all)
    {
      var op := all[i].vin[j].prevout;
      if i < |vtx| {
        assert all[i] == vtx[i];
        assert !Available(now.coins, op);
      } else {
        assert Available(now.coins, op);
      }
      UpdateCoinsAvailability(now, tx, height, op);
    }
  }

  lemma InsideStep(start: View, vtx: seq<Tx>, now: View, tx: Tx, height: int)
    requires Inside(start, vtx, now)
    requires WellFormedTx(tx) && height >= 1
    requires !tx.IsCoinBase() ==> HaveInputs(now.coins, tx.vin) && CanSpend(now.coins, tx.vin)
    requires tx.hash !in start.coins && tx.hash !in Ids(vtx) && tx.hash !in now.coins
    ensures Inside(start, vtx + [tx], UpdateCoins(now, tx, height).0)
  {
    var all := vtx + [tx];
    var after := UpdateCoins(now, tx, height).0;
    UpdateCoinsKeepsWellFormed(now, tx, height);
    InsideConsumed(start, vtx, now, tx, height);
    assert all[|vtx|] == tx;
    assert forall i | 0 <= i < |vtx| :: all[i] == vtx[i];
    assert tx.hash in Ids(all);
    assert Ids(vtx) <= Ids(all);
    if !tx.IsCoinBase() {
      SpendInputsKeys(now.coins, tx.vin);
    }
  }

  // ----- The whole block -----

  /** What the transactions `vtx`, connected from `start`, have led to. */
  ghost predicate Undoable(start: View, vtx: seq<Tx>, q: Progress, height: int) {
    && |q.undos| == (if |vtx| > 0 then |vtx| - 1 else 0)
    && UndoTxs(q.view, vtx, q.undos, height) == Some(start)
  }

  lemma UndoableStep(start: View, init: seq<Tx>, q: Progress, tx: Tx, height: int, r: Progress)
    requires Undoable(start, init, q, height)
    requires WellFormedMap(q.view.coins) && WellFormedTx(tx) && tx.hash !in q.view.coins
    requires ToSet(AllNullifiers(tx.joinSplits)) !! q.view.nullifiers
    requires tx.IsCoinBase() <==> init == []
    requires !tx.IsCoinBase() ==> CanSpend(q.view.coins, tx.vin)
    requires r.view == UpdateCoins(q.view, tx, height).0
    requires r.undos == (if init == [] then q.undos else q.undos + [UpdateCoins(q.view, tx, height).1])
    ensures Undoable(start, init + [tx], r, height)
  {
    hide UpdateCoins, UndoTx, UndoTxs, WellFormedTx, WellFormedMap, CanSpend;
    UndoUpdateCoins(q.view, tx, height);
    UndoTxsSnoc(r.view, init, tx, if init == [] then [] else q.undos, UpdateCoins(q.view, tx, height).1, height);
  }

  /** Undoing a list of transactions begins with the last one. */
  lemma UndoTxsSnoc(v: View, init: seq<Tx>, tx: Tx, undos: seq<TxUndo>, undo: TxUndo, height: int)
    requires |undos| == if |init| > 0 then |init| - 1 else 0
    ensures UndoTxs(v, init + [tx], if init == [] then [] else undos + [undo], height) ==
            match UndoTx(v, tx, height, if init == [] then None else Some(undo))
            case None => None
            case Some(w) => UndoTxs(w, init, undos, height)
  {
    hide UndoTx;
    var vtx, last := init + [tx], |init|;
    assert vtx[last] == tx && vtx[..last] == init;
    if last > 0 {
      assert (undos + [undo])[..last - 1] == undos;
    }
  }

  ghost predicate Reached(start: View, tree: Tree, vtx: seq<Tx>, q: Progress, height: int) {
    && Inside(start, vtx, q.view)
    && Undoable(start, vtx, q, height)
    && q.view.anchors == start.anchors
    && q.view.bestAnchor == start.bestAnchor
    && q.view.bestBlock == start.bestBlock
    && tree <= q.tree
  }

  lemma ReachedStep(rules: Rules, start: View, tree: Tree, vtx: seq<Tx>, k: nat, q: Progress, height: int)
    requires k < |vtx| && Reached(start, tree, vtx[..k], q, height) && height >= 1
    requires CheckedTxs(vtx) && InjectiveIds(vtx) && NoOverwrite(start.coins, vtx)
    requires Step(rules, Some(q), vtx[k], height, k == 0).Some?
    ensures Reached(start, tree, vtx[..k + 1], Step(rules, Some(q), vtx[k], height, k == 0).value, height)
  {
    var init, tx := vtx[..k], vtx[k];
    PrefixSnoc(vtx, k);
    AcceptedFacts(rules, q, tx, height, k == 0);
    FreshId(start, vtx, k, q.view);
    InsideStep(start, init, q.view, tx, height);
    UndoableStep(start, init, q, tx, height, Step(rules, Some(q), tx, height, k == 0).value);
  }

  lemma ConnectTxsStep(rules: Rules, p: Progress, vtx: seq<Tx>, k: nat, height: int)
    requires k < |vtx| && AllDistinctInputs(vtx)
    ensures ConnectTxs(rules, p, vtx[..k + 1], height) ==
            Step(rules, ConnectTxs(rules, p, vtx[..k], height), vtx[k], height, k == 0)
    ensures ConnectTxs(rules, p, vtx[..k + 1], height).Some? ==> ConnectTxs(rules, p, vtx[..k], height).Some?
  {
    PrefixSnoc(vtx, k);
  }

  lemma ReachedStart(p: Progress, height: int)
    requires p.undos == [] && WellFormedMap(p.view.coins)
    ensures Reached(p.view, p.tree, [], p, height)
  {
  }

  /** What `ConnectBlock` has checked before it turns to the transactions `vtx`, on a sound state. */
  ghost predicate Ready(p: Progress, vtx: seq<Tx>, height: int) {
    && p.undos == []
    && WellFormedMap(p.view.coins)
    && height >= 1
    && CheckedTxs(vtx)
    && InjectiveIds(vtx)
    && NoOverwrite(p.view.coins, vtx)
  }

  /** The transactions of a connected block, taken back in reverse, lead to where it started. */
  lemma {:induction false} UndoConnectTxs(rules: Rules, p: Progress, vtx: seq<Tx>, k: nat, height: int)
    requires Ready(p, vtx, height) && AllDistinctInputs(vtx)
    requires k <= |vtx| && ConnectTxs(rules, p, vtx[..k], height).Some?
    ensures Reached(p.view, p.tree, vtx[..k], ConnectTxs(rules, p, vtx[..k], height).value, height)
  {
    hide Step, Reached, CheckedTxs;
    if k == 0 {
      ReachedStart(p, height);
    } else {
      ConnectTxsStep(rules, p, vtx, k - 1, height);
      UndoConnectTxs(rules, p, vtx, k - 1, height);
      ReachedStep(rules, p.view, p.tree, vtx, k - 1, ConnectTxs(rules, p, vtx[..k - 1], height).value, height);
    }
  }

  /** Everything known about transaction `k` of a connected block when its turn comes. */
  lemma TurnOf(rules: Rules, p: Progress, vtx: seq<Tx>, k: nat, height: int)
    requires Ready(p, vtx, height) && AllDistinctInputs(vtx)
    requires k < |vtx| && ConnectTxs(rules, p, vtx[..k + 1], height).Some?
    ensures ConnectTxs(rules, p, vtx[..k], height).Some?
    ensures var q := ConnectTxs(rules, p, vtx[..k], height).value;
            var tx := vtx[k];
            && WellFormedTx(tx)
            && (tx.IsCoinBase() <==> k == 0)
            && WellFormedMap(q.view.coins)
            && tx.hash !in q.view.coins
            && (!tx.IsCoinBase() ==> HaveInputs(q.view.coins, tx.vin) && CanSpend(q.view.coins, tx.vin))
            && ToSet(AllNullifiers(tx.joinSplits)) !! q.view.nullifiers
            && ConnectTxs(rules, p, vtx[..k + 1], height).value.view == UpdateCoins(q.view, tx, height).0
  {
    hide Step, UpdateCoins, ConnectTxs, Undoable, WellFormedTx, Consumed, Revealed;
    ConnectTxsStep(rules, p, vtx, k, height);
    UndoConnectTxs(rules, p, vtx, k, height);
    var q := ConnectTxs(rules, p, vtx[..k], height).value;
    AcceptedFacts(rules, q, vtx[k], height, k == 0);
    FreshId(p.view, vtx, k, q.view);
  }

  lemma PopPushAnchor(v: View, w: View, tree: Tree)
    requires SoundView(v)
    requires w.anchors == v.anchors && w.bestAnchor == v.bestAnchor
    requires v.bestAnchor.leaves <= tree
    ensures PopAnchor(PushAnchor(w, tree), v.bestAnchor) == w
  {
    if RootOf(tree) != v.bestAnchor {
      assert |tree| > |v.bestAnchor.leaves|;
      assert RootOf(tree) !in v.anchors;
      assert v.anchors + {RootOf(tree)} - {RootOf(tree)} == v.anchors;
    }
  }

  /** Undoing transactions leaves the anchors and the best block alone, and does not look at them. */
  lemma {:induction false} UndoTxsFrame(v: View, w: View, vtx: seq<Tx>, undos: seq<TxUndo>, height: int)
    requires |undos| == if |vtx| > 0 then |vtx| - 1 else 0
    requires w.coins == v.coins && w.nullifiers == v.nullifiers
    requires UndoTxs(v, vtx, undos, height).Some?
    ensures UndoTxs(w, vtx, undos, height) ==
            Some(w.(coins := UndoTxs(v, vtx, undos, height).value.coins,
                    nullifiers := UndoTxs(v, vtx, undos, height).value.nullifiers))
    decreases |vtx|
  {
    if vtx != [] {
      var last := |vtx| - 1;
      var u := if last > 0 then Some(undos[last - 1]) else None;
      var v1, w1 := UndoTx(v, vtx[last], height, u), UndoTx(w, vtx[last], height, u);
      UndoTxsFrame(v1.value, w1.value, vtx[..last], if last > 0 then undos[..last - 1] else [], height);
    }
  }

  /** The state in which `ConnectBlock` leaves the view after its transactions. */
  ghost function Finished(p: Progress, block: Block): View {
    PushAnchor(p.view, p.tree).(bestBlock := block.hash)
  }

  lemma FinishedIsSound(v: View, p: Progress, block: Block)
    requires SoundView(v) && WellFormedMap(p.view.coins)
    requires p.view.anchors == v.anchors && p.view.bestAnchor == v.bestAnchor
    requires v.bestAnchor.leaves <= p.tree
    ensures SoundView(Finished(p, block))
  {
  }

  lemma DisconnectFinished(v: View, p: Progress, block: Block, height: nat)
    requires SoundView(v) && block.hashPrev == v.bestBlock
    requires |block.vtx| > 0 && Reached(v, v.bestAnchor.leaves, block.vtx, p, height)
    ensures DisconnectBlock(Finished(p, block), block, BlockUndo(p.undos, v.bestAnchor), height) == Some(v)
  {
    hide Inside;
    var w := Finished(p, block);
    UndoTxsFrame(p.view, w, block.vtx, p.undos, height);
    PopPushAnchor(v, v, p.tree);
  }

  /** The pieces of a successful `ConnectBlock`. */
  lemma ConnectedParts(rules: Rules, v: View, block: Block, height: nat)
    requires rules.halvingInterval > 0 && block.hash != rules.genesis
    requires ConnectBlock(rules, v, block, height).Some?
    ensures CheckedTxs(block.vtx) && |block.vtx| > 0 && AllDistinctInputs(block.vtx)
    ensures NoOverwrite(v.coins, block.vtx)
    ensures ConnectTxs(rules, Start(v), block.vtx, height).Some?
    ensures var p := ConnectTxs(rules, Start(v), block.vtx, height).value;
            && ConnectBlock(rules, v, block, height).value ==
               Connected(Finished(p, block), Some(BlockUndo(p.undos, v.bestAnchor)))
            && ValueOut(block.vtx[0]) <= p.fees + Subsidy(height, rules.halvingInterval)
  {
    hide ConnectTxs;
  }

  /** Connect then disconnect is the identity. */
  lemma DisconnectUndoesConnect(rules: Rules, v: View, block: Block, height: nat)
    requires rules.halvingInterval > 0
    requires SoundView(v) && height >= 1 && InjectiveIds(block.vtx)
    requires block.hash != rules.genesis && block.hashPrev == v.bestBlock
    requires ConnectBlock(rules, v, block, height).Some?
    ensures var c := ConnectBlock(rules, v, block, height).value;
            && c.undo.Some?
            && DisconnectBlock(c.view, block, c.undo.value, height) == Some(v)
            && SoundView(c.view)
  {
    hide ConnectTxs, WellFormedTx, ConnectBlock, DisconnectBlock, Finished;
    ConnectedParts(rules, v, block, height);
    WholePrefix(block.vtx);
    UndoConnectTxs(rules, Start(v), block.vtx, |block.vtx|, height);
    var p := ConnectTxs(rules, Start(v), block.vtx, height).value;
    FinishedIsSound(v, p, block);
    DisconnectFinished(v, p, block, height);
  }
}
