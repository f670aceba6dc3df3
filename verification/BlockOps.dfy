/** Connecting and disconnecting blocks on a coins cache, step by step, against the effective
    states of module Blocks. */
module BlockOps {
  import opened Primitives
  import opened Coins
  import opened ChainView
  import opened Blocks
  import opened CoinsCache
  import Inversion
  import TxChecks

  // ----- UpdateCoins -----

  /** Trimming what is trimmed changes nothing. */
  lemma CleanupClean(c: Coins)
    requires c.IsClean()
    ensures c.Cleanup() == c
  {
  }

  /** Spends one input. The output is there: this is where the code has `assert(false)`. */
  method SpendInput(view: CoinsViewCache, op: OutPoint) returns (undo: TxInUndo)
    requires view.Valid() && !view.hasModifier && Available(view.Effective().coins, op)
    modifies view.Repr
    ensures view.Valid() && !view.hasModifier && view.Levels()[1..] == old(view.Levels())[1..]
    ensures var (m, u) := ChainView.SpendInput(old(view.Effective()).coins, op);
            view.Effective() == old(view.Effective()).(coins := m) && undo == u
  {
    hide CoinsViewCache.Valid, CoinsViewCache.Shape, CoinsViewCache.Levels, CoinsViewCache.Effective,
      CoinsViewCache.BaseView, CoinsViewCache.BaseValid;
    ghost var v := view.Effective();
    var c := view.ModifyCoins(op.hash);
    assert c == v.coins[op.hash];
    assert c.IsAvailable(op.n);
    var spent := c.Spend(op.n).0;
    undo := if |spent.outs| == 0 then TxInUndo(c.outs[op.n], c.coinBase, c.height, c.version)
            else TxInUndo(c.outs[op.n], false, 0, 0);
    CleanupClean(spent);
    view.Release(op.hash, spent);
  }

  method SpendInputs(view: CoinsViewCache, vin: seq<TxIn>) returns (undo: TxUndo)
    requires view.Valid() && !view.hasModifier && CanSpend(view.Effective().coins, vin)
    modifies view.Repr
    ensures view.Valid() && !view.hasModifier && view.Levels()[1..] == old(view.Levels())[1..]
    ensures var (m, u) := ChainView.SpendInputs(old(view.Effective()).coins, vin);
            view.Effective() == old(view.Effective()).(coins := m) && undo == u
  {
    hide CoinsViewCache.Valid, CoinsViewCache.Shape, CoinsViewCache.Levels, CoinsViewCache.Effective,
      CoinsViewCache.BaseView, CoinsViewCache.BaseValid;
    ghost var v := view.Effective();
    undo := [];
    WholePrefix(vin);
    for i := 0 to |vin|
      invariant view.Valid() && !view.hasModifier && view.Levels()[1..] == old(view.Levels())[1..]
      invariant CanSpend(v.coins, vin[..i])
      invariant view.Effective() == v.(coins := ChainView.SpendInputs(v.coins, vin[..i]).0)
      invariant undo == ChainView.SpendInputs(v.coins, vin[..i]).1
    {
      CanSpendPrefix(v.coins, vin, i + 1);
      PrefixSnoc(vin, i);
      hide ChainView.SpendInput;
      var u := SpendInput(view, vin[i].prevout);
      undo := undo + [u];
    }
  }

  lemma {:induction false} CanSpendPrefix(m: CoinMap, vin: seq<TxIn>, k: nat)
    requires k <= |vin| && CanSpend(m, vin)
    ensures CanSpend(m, vin[..k])
    decreases |vin|
  {
    if k == |vin| {
      WholePrefix(vin);
    } else {
      CanSpendPrefix(m, vin[..|vin| - 1], k);
      assert vin[..|vin| - 1][..k] == vin[..k];
    }
  }

  /** Marks the nullifiers of all JoinSplits as spent or unspent. */
  method SetNullifiers(view: CoinsViewCache, nullifiers: seq<Hash>, spent: bool)
    requires view.Valid()
    modifies view.Repr
    ensures view.Valid() && view.hasModifier == old(view.hasModifier)
    ensures view.Levels()[1..] == old(view.Levels())[1..]
    ensures view.Effective() == old(view.Effective()).(nullifiers :=
              if spent then old(view.Effective()).nullifiers + ToSet(nullifiers)
              else old(view.Effective()).nullifiers - ToSet(nullifiers))
  {
    hide CoinsViewCache.Valid, CoinsViewCache.Shape, CoinsViewCache.Levels, CoinsViewCache.Effective,
      CoinsViewCache.BaseView, CoinsViewCache.BaseValid;
    ghost var v := view.Effective();
    WholePrefix(nullifiers);
    for i := 0 to |nullifiers|
      invariant view.Valid() && view.hasModifier == old(view.hasModifier)
      invariant view.Levels()[1..] == old(view.Levels())[1..]
      invariant view.Effective() == v.(nullifiers :=
                  if spent then v.nullifiers + ToSet(nullifiers[..i]) else v.nullifiers - ToSet(nullifiers[..i]))
    {
      ToSetSnoc(nullifiers, i, v.nullifiers);
      hide ToSet;
      view.SetNullifier(nullifiers[i], spent);
    }
  }

  lemma ToSetSnoc(s: seq<Hash>, i: nat, base: set<Hash>)
    requires i < |s|
    ensures base + ToSet(s[..i]) + {s[i]} == base + ToSet(s[..i + 1])
    ensures base - ToSet(s[..i]) - {s[i]} == base - ToSet(s[..i + 1])
  {
    PrefixSnoc(s, i);
    assert ToSet(s[..i + 1]) == ToSet(s[..i]) + {s[i]};
  }

  /** Replaces the coins of `h` with clean coins. */
  method SetCoins(view: CoinsViewCache, h: Hash, c: Coins)
    requires view.Valid() && !view.hasModifier && c.IsClean()
    modifies view.Repr
    ensures view.Valid() && !view.hasModifier && view.Levels()[1..] == old(view.Levels())[1..]
    ensures view.Effective() == old(view.Effective()).(coins := Store(old(view.Effective()).coins, h, c))
  {
    hide CoinsViewCache.Valid, CoinsViewCache.Shape, CoinsViewCache.Levels, CoinsViewCache.Effective,
      CoinsViewCache.BaseView, CoinsViewCache.BaseValid;
    var _ := view.ModifyCoins(h);
    CleanupClean(c);
    view.Release(h, c);
  }

  method UpdateCoins(view: CoinsViewCache, tx: Tx, height: int) returns (undo: TxUndo)
    requires view.Valid() && !view.hasModifier
    requires !tx.IsCoinBase() ==> CanSpend(view.Effective().coins, tx.vin)
    modifies view.Repr
    ensures view.Valid() && !view.hasModifier && view.Levels()[1..] == old(view.Levels())[1..]
    ensures var (w, u) := Blocks.UpdateCoins(old(view.Effective()), tx, height);
            view.Effective() == w && undo == u
  {
    hide CoinsViewCache.Valid, CoinsViewCache.Shape, CoinsViewCache.Levels, CoinsViewCache.Effective,
      CoinsViewCache.BaseView, CoinsViewCache.BaseValid;
    undo := [];
    if !tx.IsCoinBase() {
      undo := SpendInputs(view, tx.vin);
    }
    SetNullifiers(view, AllNullifiers(tx.joinSplits), true);
    SetCoins(view, tx.hash, FromTx(tx, height));
  }

  // ----- Checking inputs -----

  lemma SpentValuesInRange(m: CoinMap, vin: seq<TxIn>)
    requires HaveInputs(m, vin)
    ensures TxChecks.ValuesInRange(SpentOutputs(m, vin)) <==>
              forall i | 0 <= i < |vin| :: MoneyRange(m[vin[i].prevout.hash].outs[vin[i].prevout.n].value)
  {
    SpentOutputsAt(m, vin);
  }

  /** A coinbase may be spent only when it is mature, and, where that is enforced, only into the
      shielded pool. */
  method CheckMature(rules: Rules, view: CoinsViewCache, tx: Tx, op: OutPoint, height: int) returns (ok: bool)
    requires view.Valid() && Available(view.Effective().coins, op)
    modifies view.Repr
    ensures view.Valid() && view.hasModifier == old(view.hasModifier) && view.Levels() == old(view.Levels())
    ensures ok <==> MatureInput(rules, old(view.Effective()).coins, tx, op, height)
  {
    hide CoinsViewCache.Valid, CoinsViewCache.Shape, CoinsViewCache.Levels, CoinsViewCache.Effective,
      CoinsViewCache.BaseView, CoinsViewCache.BaseValid;
    var found, c := view.GetCoins(op.hash);
    ok := !c.coinBase ||
          (height - c.height >= COINBASE_MATURITY && (!rules.coinbaseProtected || tx.vout == []));
  }

  ghost predicate AllMature(rules: Rules, m: CoinMap, tx: Tx, height: int)
    requires HaveInputs(m, tx.vin)
  {
    forall i | 0 <= i < |tx.vin| :: MatureInput(rules, m, tx, tx.vin[i].prevout, height)
  }

  lemma MaturityMeaning(rules: Rules, m: CoinMap, tx: Tx, height: int)
    requires HaveInputs(m, tx.vin)
    ensures forall i | 0 <= i < |tx.vin| :: Available(m, tx.vin[i].prevout)
    ensures AllMature(rules, m, tx, height) <==>
              forall i | 0 <= i < |tx.vin| :: MatureInput(rules, m, tx, tx.vin[i].prevout, height)
  {
    hide Available, MatureInput;
  }

  method CheckMaturity(rules: Rules, view: CoinsViewCache, tx: Tx, height: int) returns (ok: bool)
    requires view.Valid() && HaveInputs(view.Effective().coins, tx.vin)
    modifies view.Repr
    ensures view.Valid() && view.hasModifier == old(view.hasModifier) && view.Levels() == old(view.Levels())
    ensures ok <==> AllMature(rules, old(view.Effective()).coins, tx, height)
  {
    hide *;
    ghost var m := view.Effective().coins;
    MaturityMeaning(rules, m, tx, height);
    var i := 0;
    ok := true;
    while i < |tx.vin| && ok
      invariant 0 <= i <= |tx.vin|
      invariant view.Valid() && view.hasModifier == old(view.hasModifier) && view.Levels() == old(view.Levels())
      invariant ok ==> forall j | 0 <= j < i :: MatureInput(rules, m, tx, tx.vin[j].prevout, height)
      invariant !ok ==> !AllMature(rules, m, tx, height)
    {
      ok := CheckMature(rules, view, tx, tx.vin[i].prevout, height);
      i := i + 1;
    }
  }

  lemma InputsChecked(rules: Rules, v: View, tx: Tx, height: int)
    requires HaveInputs(v.coins, tx.vin)
    ensures var outs := SpentOutputs(v.coins, tx.vin);
            && ValueIn(v.coins, tx) == SumOuts(outs) + SumPubNew(tx.joinSplits)
            && (Blocks.CheckTxInputs(rules, v, tx, height) <==>
                  && JoinSplitsOk(v, tx.joinSplits) && AllMature(rules, v.coins, tx, height)
                  && TxChecks.ValuesInRange(outs) && MoneyRange(SumOuts(outs))
                  && MoneyRange(ValueIn(v.coins, tx)) && ValueIn(v.coins, tx) >= ValueOut(tx))
  {
    hide JoinSplitsOk, SpentOutputs, SumOuts, SumPubNew, ValueOut, TxChecks.ValuesInRange;
    SpentValuesInRange(v.coins, tx.vin);
  }

  lemma InputsNeeded(rules: Rules, v: View, tx: Tx, height: int)
    ensures Blocks.CheckTxInputs(rules, v, tx, height) ==> HaveInputs(v.coins, tx.vin)
  {
    hide HaveInputs;
  }

  /** `CheckTxInputs`; also returns the outputs spent and the value coming in. */
  method CheckTxInputs(rules: Rules, view: CoinsViewCache, tx: Tx, height: int)
    returns (ok: bool, outs: seq<TxOut>, valueIn: int)
    requires view.Valid() && !tx.IsCoinBase()
    modifies view.Repr
    ensures view.Valid() && view.hasModifier == old(view.hasModifier) && view.Levels() == old(view.Levels())
    ensures ok <==> Blocks.CheckTxInputs(rules, old(view.Effective()), tx, height)
    ensures ok ==> outs == Blocks.SpentOutputs(old(view.Effective()).coins, tx.vin)
    ensures ok ==> valueIn == ValueIn(old(view.Effective()).coins, tx)
  {
    hide *;
    ghost var v := view.Effective();
    outs, valueIn := [], 0;
    ok := view.HaveInputs(tx);
    InputsNeeded(rules, v, tx, height);
    if !ok {
      return;
    }
    InputsChecked(rules, v, tx, height);
    ok := view.HaveJoinSplitRequirements(tx);
    if !ok {
      return;
    }
    ok := CheckMaturity(rules, view, tx, height);
    if !ok {
      return;
    }
    var sum, total;
    outs, sum := view.SpentOutputs(tx);
    ok, total := TxChecks.CheckOutputs(outs);
    valueIn := sum + SumPubNew(tx.joinSplits);
    ok := ok && MoneyRange(valueIn) && valueIn >= ValueOut(tx);
  }

  // ----- ConnectBlock -----

  /** All checks on one transaction of the block. */
  method CheckTx(rules: Rules, view: CoinsViewCache, p: Tally, tx: Tx, height: int)
    returns (ok: bool, fees: int, sigOps: nat)
    requires view.Valid() && DistinctInputs(tx.vin)
    modifies view.Repr
    ensures view.Valid() && view.hasModifier == old(view.hasModifier) && view.Levels() == old(view.Levels())
    ensures ok <==> AcceptTx(rules, p.With(old(view.Effective())), tx, height)
    ensures ok && !tx.IsCoinBase() ==> HaveInputs(old(view.Effective()).coins, tx.vin)
    ensures ok ==> fees == FeesAfter(p.With(old(view.Effective())), tx)
    ensures ok ==> sigOps == SigOpsAfter(rules, p.With(old(view.Effective())), tx)
  {
    hide CoinsViewCache.Valid, CoinsViewCache.Shape, CoinsViewCache.Levels, CoinsViewCache.Effective,
      CoinsViewCache.BaseView, CoinsViewCache.BaseValid;
    ghost var v := view.Effective();
    fees, sigOps := p.fees, p.sigOps + rules.legacySigOps(tx);
    ok := sigOps <= MAX_BLOCK_SIGOPS;
    if ok && !tx.IsCoinBase() {
      var outs, valueIn;
      ok, outs, valueIn := CheckTxInputs(rules, view, tx, height);
      if ok {
        CheckedInputs(rules, v, tx, height);
        fees := fees + valueIn - ValueOut(tx);
        sigOps := sigOps + rules.p2shSigOps(tx, outs);
        ok := sigOps <= MAX_BLOCK_SIGOPS && rules.scriptsOk(tx, outs);
      }
      hide Blocks.CheckTxInputs;
    }
  }

  lemma CheckedInputs(rules: Rules, v: View, tx: Tx, height: int)
    requires DistinctInputs(tx.vin) && Blocks.CheckTxInputs(rules, v, tx, height)
    ensures HaveInputs(v.coins, tx.vin) && CanSpend(v.coins, tx.vin)
  {
    DistinctInputsCanBeSpent(v.coins, tx.vin);
  }

  /** One transaction of the block. */
  method ConnectTx(rules: Rules, view: CoinsViewCache, p: Tally, tx: Tx, height: int, first: bool)
    returns (ok: bool, q: Tally)
    requires view.Valid() && !view.hasModifier && DistinctInputs(tx.vin)
    modifies view.Repr
    ensures view.Valid() && !view.hasModifier && view.Levels()[1..] == old(view.Levels())[1..]
    ensures ok <==> Step(rules, Some(p.With(old(view.Effective()))), tx, height, first).Some?
    ensures ok ==> q.With(view.Effective()) ==
                   Step(rules, Some(p.With(old(view.Effective()))), tx, height, first).value
  {
    hide CoinsViewCache.Valid, CoinsViewCache.Shape, CoinsViewCache.Levels, CoinsViewCache.Effective,
      CoinsViewCache.BaseView, CoinsViewCache.BaseValid;
    ghost var v := view.Effective();
    q := p;
    var fees, sigOps;
    ok, fees, sigOps := CheckTx(rules, view, p, tx, height);
    if ok {
      AcceptedCanSpend(rules, p.With(v), tx, height);
      hide AcceptTx, Blocks.UpdateCoins, FeesAfter, SigOpsAfter, CanSpend, HaveInputs;
      var undo := UpdateCoins(view, tx, height);
      q := Tally(if first then p.undos else p.undos + [undo], fees, sigOps, p.tree + AllCommitments(tx.joinSplits));
    }
  }

  /** The running values of `ConnectBlock` that are not in the view. */
  datatype Tally = Tally(undos: seq<TxUndo>, fees: int, sigOps: nat, tree: Tree) {
    function With(view: View): Progress {
      Progress(view, undos, fees, sigOps, tree)
    }
  }

  /** No transaction of the block has the id of a transaction with unspent outputs. */
  method CheckNoOverwrite(view: CoinsViewCache, vtx: seq<Tx>) returns (ok: bool)
    requires view.Valid()
    modifies view.Repr
    ensures view.Valid() && view.hasModifier == old(view.hasModifier) && view.Levels() == old(view.Levels())
    ensures ok <==> NoOverwrite(old(view.Effective()).coins, vtx)
  {
    hide CoinsViewCache.Valid, CoinsViewCache.Shape, CoinsViewCache.Levels, CoinsViewCache.Effective,
      CoinsViewCache.BaseView, CoinsViewCache.BaseValid;
    ghost var m := view.Effective().coins;
    var i := 0;
    ok := true;
    while i < |vtx| && ok
      invariant 0 <= i <= |vtx|
      invariant view.Valid() && view.hasModifier == old(view.hasModifier) && view.Levels() == old(view.Levels())
      invariant ok ==> forall j | 0 <= j < i :: vtx[j].hash !in m
      invariant !ok ==> exists j | 0 <= j < |vtx| :: vtx[j].hash in m
    {
      var unspent := view.HaveUnspent(vtx[i].hash);
      ok := !unspent;
      i := i + 1;
    }
  }

  /** The loop of `ConnectBlock` over the transactions. */
  method ConnectAll(rules: Rules, view: CoinsViewCache, start: Tally, vtx: seq<Tx>, height: int)
    returns (ok: bool, q: Tally)
    requires view.Valid() && !view.hasModifier && AllDistinctInputs(vtx)
    modifies view.Repr
    ensures view.Valid() && !view.hasModifier && view.Levels()[1..] == old(view.Levels())[1..]
    ensures ok <==> ConnectTxs(rules, start.With(old(view.Effective())), vtx, height).Some?
    ensures ok ==> q.With(view.Effective()) ==
                   ConnectTxs(rules, start.With(old(view.Effective())), vtx, height).value
  {
    hide *;
    ghost var p := start.With(view.Effective());
    ConnectNone(rules, p, height);
    Distincts(vtx);
    q, ok := start, true;
    var i := 0;
    while i < |vtx| && ok
      invariant 0 <= i <= |vtx|
      invariant view.Valid() && !view.hasModifier && view.Levels()[1..] == old(view.Levels())[1..]
      invariant ConnectTxs(rules, p, vtx[..i], height) == if ok then Some(q.With(view.Effective())) else None
    {
      Inversion.ConnectTxsStep(rules, p, vtx, i, height);
      ok, q := ConnectTx(rules, view, q, vtx[i], height, i == 0);
      i := i + 1;
    }
    if ok {
      WholePrefix(vtx);
    } else {
      RejectedStays(rules, p, vtx, i, height);
    }
  }

  /** Once a prefix is rejected, the whole is. */
  lemma {:induction false} RejectedStays(rules: Rules, p: Progress, vtx: seq<Tx>, k: nat, height: int)
    requires k <= |vtx| && AllDistinctInputs(vtx) && ConnectTxs(rules, p, vtx[..k], height).None?
    ensures ConnectTxs(rules, p, vtx, height).None?
    decreases |vtx| - k
  {
    hide Step;
    if k == |vtx| {
      WholePrefix(vtx);
    } else {
      Inversion.ConnectTxsStep(rules, p, vtx, k, height);
      RejectedStays(rules, p, vtx, k + 1, height);
    }
  }

  method ConnectBlock(rules: Rules, view: CoinsViewCache, block: Block, height: nat)
    returns (ok: bool, undo: Option<BlockUndo>)
    requires rules.halvingInterval > 0 && block.hash != NULL_HASH
    requires view.Valid() && !view.hasModifier
    requires view.Effective().bestBlock == block.hashPrev
    requires view.Effective().bestAnchor in view.Effective().anchors
    modifies view.Repr
    ensures view.Valid() && !view.hasModifier && view.Levels()[1..] == old(view.Levels())[1..]
    ensures ok <==> Blocks.ConnectBlock(rules, old(view.Effective()), block, height).Some?
    ensures ok ==> Connected(view.Effective(), undo) ==
                   Blocks.ConnectBlock(rules, old(view.Effective()), block, height).value
    ensures ok ==> view.hashBlock == block.hash && (block.hash != rules.genesis ==> view.hashAnchor != NullRoot)
  {
    hide CoinsViewCache.Valid, CoinsViewCache.Shape, CoinsViewCache.Levels, CoinsViewCache.Effective,
      CoinsViewCache.BaseView, CoinsViewCache.BaseValid;
    ghost var v := view.Effective();
    undo := None;
    ok := TxChecks.CheckBlock(rules, block);
    if !ok {
      return;
    }
    if block.hash == rules.genesis {
      view.SetBestBlock(block.hash);
      return;
    }
    assert AllDistinctInputs(block.vtx);
    hide Blocks.CheckBlock;
    ok := CheckNoOverwrite(view, block.vtx);
    if !ok {
      return;
    }
    var oldRoot := view.GetBestAnchor();
    var found, tree := view.GetAnchorAt(oldRoot);
    assert found && RootOf(tree) == oldRoot;
    var q;
    hide ConnectTxs, NoOverwrite;
    ok, q := ConnectAll(rules, view, Tally([], 0, 0, tree), block.vtx, height);
    if !ok {
      return;
    }
    view.PushAnchor(q.tree);
    ok := ValueOut(block.vtx[0]) <= q.fees + Subsidy(height, rules.halvingInterval);
    if ok {
      undo := Some(BlockUndo(q.undos, oldRoot));
      view.SetBestBlock(block.hash);
    }
  }

  // ----- DisconnectBlock -----

  /** Brings one spent output back. `clean` says that the undo data fitted what was found. */
  method ApplyTxInUndo(view: CoinsViewCache, u: TxInUndo, op: OutPoint) returns (clean: bool)
    requires view.Valid() && !view.hasModifier
    modifies view.Repr
    ensures view.Valid() && !view.hasModifier && view.Levels()[1..] == old(view.Levels())[1..]
    ensures view.Effective() == old(view.Effective()).(coins := view.Effective().coins)
    ensures UndoInput(old(view.Effective()).coins, u, op) == if clean then Some(view.Effective().coins) else None
  {
    hide CoinsViewCache.Valid, CoinsViewCache.Shape, CoinsViewCache.Levels, CoinsViewCache.Effective,
      CoinsViewCache.BaseView, CoinsViewCache.BaseValid;
    var c := view.ModifyCoins(op.hash);
    clean := true;
    if u.height != 0 {
      if !c.IsPruned() {
        clean := false;
      }
      c := Coins(u.coinBase, [], u.height, u.version);
    } else if c.IsPruned() {
      clean := false;
    }
    if c.IsAvailable(op.n) {
      clean := false;
    }
    hide Store;
    view.Release(op.hash, c.(outs := Resized(c.outs, op.n)[op.n := u.out]));
  }

  /** Brings the inputs of a transaction back, the last one first. */
  method UndoInputs(view: CoinsViewCache, vin: seq<TxIn>, us: TxUndo) returns (clean: bool)
    requires view.Valid() && !view.hasModifier && |vin| == |us|
    modifies view.Repr
    ensures view.Valid() && !view.hasModifier && view.Levels()[1..] == old(view.Levels())[1..]
    ensures view.Effective() == old(view.Effective()).(coins := view.Effective().coins)
    ensures ChainView.UndoInputs(old(view.Effective()).coins, vin, us) ==
            if clean then Some(view.Effective().coins) else None
  {
    hide CoinsViewCache.Valid, CoinsViewCache.Shape, CoinsViewCache.Levels, CoinsViewCache.Effective,
      CoinsViewCache.BaseView, CoinsViewCache.BaseValid, UndoInput;
    ghost var m := view.Effective().coins;
    clean := true;
    WholePrefix(vin);
    WholePrefix(us);
    var j := |vin|;
    while j > 0
      invariant 0 <= j <= |vin|
      invariant view.Valid() && !view.hasModifier && view.Levels()[1..] == old(view.Levels())[1..]
      invariant view.Effective() == old(view.Effective()).(coins := view.Effective().coins)
      invariant ChainView.UndoInputs(m, vin, us) ==
                if clean then ChainView.UndoInputs(view.Effective().coins, vin[..j], us[..j]) else None
    {
      j := j - 1;
      PrefixSnoc(vin, j);
      PrefixSnoc(us, j);
      var fits := ApplyTxInUndo(view, us[j], vin[j].prevout);
      clean := clean && fits;
    }
  }

  /** Removes the outputs of a transaction, after comparing them with the transaction itself. */
  method RemoveOutputs(view: CoinsViewCache, tx: Tx, height: int) returns (clean: bool)
    requires view.Valid() && !view.hasModifier
    modifies view.Repr
    ensures view.Valid() && !view.hasModifier && view.Levels()[1..] == old(view.Levels())[1..]
    ensures view.Effective() == old(view.Effective()).(coins := old(view.Effective()).coins - {tx.hash})
    ensures clean <==> MatchesOutputs(old(view.Effective()).coins, tx, height)
  {
    hide CoinsViewCache.Valid, CoinsViewCache.Shape, CoinsViewCache.Levels, CoinsViewCache.Effective,
      CoinsViewCache.BaseView, CoinsViewCache.BaseValid;
    var c := view.ModifyCoins(tx.hash);
    OutputsComparable(c, Lookup(view.Effective().coins, tx.hash), FromTx(tx, height));
    clean := SameCoins(Versioned(c.ClearUnspendable(), FromTx(tx, height)), FromTx(tx, height));
    view.Release(tx.hash, EMPTY_COINS);
  }

  /** Coins that are equal to the state's, if only because both are fully spent, compare alike. */
  lemma OutputsComparable(c: Coins, d: Coins, expected: Coins)
    requires SameCoins(c, d)
    ensures SameCoins(Versioned(c.ClearUnspendable(), expected), expected) <==>
            SameCoins(Versioned(d.ClearUnspendable(), expected), expected)
  {
    if c != d {
      PrunedCleared(c);
      PrunedCleared(d);
    }
  }

  lemma PrunedCleared(c: Coins)
    requires c.IsPruned()
    ensures c.ClearUnspendable().outs == []
  {
    var s := Spendable(c.outs);
    assert forall i | 0 <= i < |s| :: s[i].IsNull();
    TrimmedUnique(s, []);
  }

  /** Takes one transaction back. */
  method UndoTx(view: CoinsViewCache, tx: Tx, height: int, undo: Option<TxUndo>) returns (clean: bool)
    requires view.Valid() && !view.hasModifier
    modifies view.Repr
    ensures view.Valid() && !view.hasModifier && view.Levels()[1..] == old(view.Levels())[1..]
    ensures OnlyCoinsAndNullifiers(old(view.Effective()), view.Effective())
    ensures Blocks.UndoTx(old(view.Effective()), tx, height, undo) ==
            if clean then Some(view.Effective()) else None
  {
    hide CoinsViewCache.Valid, CoinsViewCache.Shape, CoinsViewCache.Levels, CoinsViewCache.Effective,
      CoinsViewCache.BaseView, CoinsViewCache.BaseValid,
      MatchesOutputs, ChainView.UndoInputs;
    clean := RemoveOutputs(view, tx, height);
    SetNullifiers(view, AllNullifiers(tx.joinSplits), false);
    if undo.Some? {
      if |undo.value| != |tx.vin| {
        return false;
      }
      var fits := UndoInputs(view, tx.vin, undo.value);
      clean := clean && fits;
    }
  }

  ghost predicate OnlyCoinsAndNullifiers(v: View, w: View) {
    w == v.(coins := w.coins, nullifiers := w.nullifiers)
  }

  /** The undo data of transaction `j`: none for the first. */
  function UndoOf(undos: seq<TxUndo>, j: nat): Option<TxUndo>
    requires j <= |undos|
  {
    if j > 0 then Some(undos[j - 1]) else None
  }

  /** Takes all transactions back, the last one first. */
  method UndoAll(view: CoinsViewCache, vtx: seq<Tx>, undos: seq<TxUndo>, height: int) returns (clean: bool)
    requires view.Valid() && !view.hasModifier && |undos| + 1 == |vtx|
    modifies view.Repr
    ensures view.Valid() && !view.hasModifier && view.Levels()[1..] == old(view.Levels())[1..]
    ensures OnlyCoinsAndNullifiers(old(view.Effective()), view.Effective())
    ensures UndoTxs(old(view.Effective()), vtx, undos, height) == if clean then Some(view.Effective()) else None
  {
    hide CoinsViewCache.Valid, CoinsViewCache.Shape, CoinsViewCache.Levels, CoinsViewCache.Effective,
      CoinsViewCache.BaseView, CoinsViewCache.BaseValid,
      Blocks.UndoTx;
    ghost var v := view.Effective();
    clean := true;
    WholePrefix(vtx);
    WholePrefix(undos);
    var j := |vtx|;
    while j > 0
      invariant 0 <= j <= |vtx|
      invariant view.Valid() && !view.hasModifier && view.Levels()[1..] == old(view.Levels())[1..]
      invariant OnlyCoinsAndNullifiers(v, view.Effective())
      invariant UndoTxs(v, vtx, undos, height) ==
                if clean then UndoTxs(view.Effective(), vtx[..j], undos[..Before(j)], height) else None
    {
      j := j - 1;
      UndoTxsStep(view.Effective(), vtx, undos, j, height);
      hide UndoTxs;
      var fits := UndoTx(view, vtx[j], height, UndoOf(undos, j));
      clean := clean && fits;
    }
  }

  /** How much undo data the first `j` transactions have. */
  function Before(j: nat): nat {
    if j > 0 then j - 1 else 0
  }

  lemma UndoTxsStep(w: View, vtx: seq<Tx>, undos: seq<TxUndo>, j: nat, height: int)
    requires |undos| + 1 == |vtx| && j < |vtx|
    ensures UndoTxs(w, vtx[..j + 1], undos[..j], height) ==
            match Blocks.UndoTx(w, vtx[j], height, UndoOf(undos, j))
            case None => None
            case Some(x) => UndoTxs(x, vtx[..j], undos[..Before(j)], height)
  {
    hide Blocks.UndoTx;
    PrefixSnoc(vtx, j);
    assert j > 0 ==> undos[..j][j - 1] == undos[j - 1] && undos[..j][..j - 1] == undos[..j - 1];
  }

  method DisconnectBlock(view: CoinsViewCache, block: Block, undo: BlockUndo, height: nat) returns (clean: bool)
    requires view.Valid() && !view.hasModifier
    requires view.Effective().bestBlock == block.hash
    requires view.Effective().bestAnchor in view.Effective().anchors
    requires undo.oldRoot != NullRoot && block.hashPrev != NULL_HASH
    modifies view.Repr
    ensures view.Valid() && !view.hasModifier && view.Levels()[1..] == old(view.Levels())[1..]
    ensures clean <==> Blocks.DisconnectBlock(old(view.Effective()), block, undo, height).Some?
    ensures clean ==> Some(view.Effective()) == Blocks.DisconnectBlock(old(view.Effective()), block, undo, height)
    ensures clean ==> view.hashBlock == block.hashPrev && view.hashAnchor != NullRoot
  {
    hide CoinsViewCache.Valid, CoinsViewCache.Shape, CoinsViewCache.Levels, CoinsViewCache.Effective,
      CoinsViewCache.BaseView, CoinsViewCache.BaseValid, UndoTxs;
    if |undo.txs| + 1 != |block.vtx| {
      return false;
    }
    clean := UndoAll(view, block.vtx, undo.txs, height);
    view.PopAnchor(undo.oldRoot);
    view.SetBestBlock(block.hashPrev);
  }
}
