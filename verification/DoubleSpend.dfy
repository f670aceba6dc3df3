/** No output is consumed twice and no nullifier revealed twice along any chain that connects. */
module DoubleSpend {
  import opened Primitives
  import opened Coins
  import opened ChainView
  import opened Blocks
  import opened Inversion
  import opened Runs

  function Indicator(b: bool): nat {
    if b then 1 else 0
  }

  /** How often `vin` names the outpoint. */
  function InputCount(vin: seq<TxIn>, op: OutPoint): nat {
    if vin == [] then 0
    else InputCount(vin[..|vin| - 1], op) + Indicator(vin[|vin| - 1].prevout == op)
  }

  function ConsumedByTx(tx: Tx, op: OutPoint): nat {
    if tx.IsCoinBase() then 0 else InputCount(tx.vin, op)
  }

  /** The transaction adds the outpoint to the coin set. */
  predicate Creates(tx: Tx, op: OutPoint) {
    tx.hash == op.hash && op.n < |tx.vout| && !SpendableOut(tx.vout[op.n]).IsNull()
  }

  function RevealedByTx(tx: Tx, nf: Hash): nat {
    multiset(AllNullifiers(tx.joinSplits))[nf]
  }

  function Created(vtx: seq<Tx>, op: OutPoint): nat {
    if vtx == [] then 0 else Created(vtx[..|vtx| - 1], op) + Indicator(Creates(vtx[|vtx| - 1], op))
  }

  function ConsumedIn(vtx: seq<Tx>, op: OutPoint): nat {
    if vtx == [] then 0 else ConsumedIn(vtx[..|vtx| - 1], op) + ConsumedByTx(vtx[|vtx| - 1], op)
  }

  function RevealedIn(vtx: seq<Tx>, nf: Hash): nat {
    if vtx == [] then 0 else RevealedIn(vtx[..|vtx| - 1], nf) + RevealedByTx(vtx[|vtx| - 1], nf)
  }

  /** The same over a chain. The genesis block's transactions are never added to the state. */
  function ChainCreated(chain: seq<Block>, op: OutPoint): nat {
    if |chain| <= 1 then 0
    else ChainCreated(chain[..|chain| - 1], op) + Created(chain[|chain| - 1].vtx, op)
  }

  function ChainConsumed(chain: seq<Block>, op: OutPoint): nat {
    if |chain| <= 1 then 0
    else ChainConsumed(chain[..|chain| - 1], op) + ConsumedIn(chain[|chain| - 1].vtx, op)
  }

  function ChainRevealed(chain: seq<Block>, nf: Hash): nat {
    if |chain| <= 1 then 0
    else ChainRevealed(chain[..|chain| - 1], nf) + RevealedIn(chain[|chain| - 1].vtx, nf)
  }

  // ----- One transaction -----

  lemma {:induction false} DistinctInputCount(vin: seq<TxIn>, op: OutPoint)
    requires DistinctInputs(vin)
    ensures InputCount(vin, op) == Indicator(exists i | 0 <= i < |vin| :: vin[i].prevout == op)
  {
    if vin != [] {
      var init := vin[..|vin| - 1];
      DistinctInputCount(init, op);
      assert forall i | 0 <= i < |init| :: init[i] == vin[i];
      if vin[|vin| - 1].prevout == op {
        assert !exists i | 0 <= i < |init| :: init[i].prevout == op;
      }
    }
  }

  lemma {:induction false} DistinctCount(s: seq<Hash>, x: Hash)
    requires Distinct(s)
    ensures multiset(s)[x] == Indicator(x in s)
  {
    if s != [] {
      var init := s[..|s| - 1];
      DistinctCount(init, x);
      assert s == init + [s[|s| - 1]];
    }
  }

  lemma FromTxAvailable(tx: Tx, height: int, n: nat)
    ensures FromTx(tx, height).IsAvailable(n) <==> Creates(tx, OutPoint(tx.hash, n))
  {
  }

  /** A transaction with an unused id moves availability exactly as its inputs and outputs say. */
  lemma OutpointBalance(v: View, tx: Tx, height: int, op: OutPoint)
    requires DistinctInputs(tx.vin) && tx.hash !in v.coins
    requires !tx.IsCoinBase() ==> HaveInputs(v.coins, tx.vin) && CanSpend(v.coins, tx.vin)
    ensures Indicator(Available(UpdateCoins(v, tx, height).0.coins, op)) + ConsumedByTx(tx, op) ==
            Indicator(Available(v.coins, op)) + Indicator(Creates(tx, op))
  {
    DistinctInputCount(tx.vin, op);
    if op.hash == tx.hash {
      FromTxAvailable(tx, height, op.n);
      assert !Available(v.coins, op);
    } else {
      UpdateCoinsAvailability(v, tx, height, op);
    }
  }

  lemma NullifierBalance(v: View, tx: Tx, height: int, nf: Hash)
    requires WellFormedTx(tx)
    requires !tx.IsCoinBase() ==> CanSpend(v.coins, tx.vin)
    requires ToSet(AllNullifiers(tx.joinSplits)) !! v.nullifiers
    ensures Indicator(nf in UpdateCoins(v, tx, height).0.nullifiers) == Indicator(nf in v.nullifiers) + RevealedByTx(tx, nf)
  {
    DistinctCount(AllNullifiers(tx.joinSplits), nf);
    assert nf in ToSet(AllNullifiers(tx.joinSplits)) <==> nf in AllNullifiers(tx.joinSplits);
  }

  // ----- One block -----

  /** The counts of the first `k` transactions account for the difference between two states. */
  ghost predicate Accounts(v: View, vtx: seq<Tx>, w: View, op: OutPoint, nf: Hash) {
    && Indicator(Available(w.coins, op)) + ConsumedIn(vtx, op) == Indicator(Available(v.coins, op)) + Created(vtx, op)
    && Indicator(nf in w.nullifiers) == Indicator(nf in v.nullifiers) + RevealedIn(vtx, nf)
  }

  lemma AccountsStep(v: View, vtx: seq<Tx>, k: nat, w: View, height: int, op: OutPoint, nf: Hash)
    requires k < |vtx| && Accounts(v, vtx[..k], w, op, nf)
    requires WellFormedTx(vtx[k]) && vtx[k].hash !in w.coins
    requires !vtx[k].IsCoinBase() ==> HaveInputs(w.coins, vtx[k].vin) && CanSpend(w.coins, vtx[k].vin)
    requires ToSet(AllNullifiers(vtx[k].joinSplits)) !! w.nullifiers
    ensures Accounts(v, vtx[..k + 1], UpdateCoins(w, vtx[k], height).0, op, nf)
  {
    PrefixSnoc(vtx, k);
    OutpointBalance(w, vtx[k], height, op);
    NullifierBalance(w, vtx[k], height, nf);
    hide UpdateCoins, Available, WellFormedTx;
  }

  lemma {:induction false} TxsAccount(
    rules: Rules, p: Progress, vtx: seq<Tx>, k: nat, height: int, op: OutPoint, nf: Hash)
    requires Ready(p, vtx, height) && AllDistinctInputs(vtx)
    requires k <= |vtx| && ConnectTxs(rules, p, vtx[..k], height).Some?
    ensures Accounts(p.view, vtx[..k], ConnectTxs(rules, p, vtx[..k], height).value.view, op, nf)
  {
    hide *;
    Distincts(vtx);
    ConnectNone(rules, p, height);
    if k == 0 {
      AccountsStart(p.view, op, nf);
    } else {
      TurnOf(rules, p, vtx, k - 1, height);
      TxsAccount(rules, p, vtx, k - 1, height, op, nf);
      AccountsStep(p.view, vtx, k - 1, ConnectTxs(rules, p, vtx[..k - 1], height).value.view, height, op, nf);
    }
  }

  lemma AccountsStart(v: View, op: OutPoint, nf: Hash)
    ensures Accounts(v, [], v, op, nf)
  {
  }

  lemma BlockAccounts(rules: Rules, v: View, block: Block, height: nat, op: OutPoint, nf: Hash)
    requires rules.halvingInterval > 0
    requires SoundView(v) && height >= 1 && InjectiveIds(block.vtx)
    requires block.hash != rules.genesis && ConnectBlock(rules, v, block, height).Some?
    ensures Accounts(v, block.vtx, ConnectBlock(rules, v, block, height).value.view, op, nf)
  {
    hide ConnectTxs, ConnectBlock, WellFormedTx;
    ConnectedParts(rules, v, block, height);
    WholePrefix(block.vtx);
    TxsAccount(rules, Start(v), block.vtx, |block.vtx|, height, op, nf);
  }

  // ----- Whole chains -----

  /** Along every chain that connects, each outpoint has been consumed as often as it was
      created, or once less exactly if it is still unspent; each nullifier has been revealed
      once if the state records it as spent and never otherwise. */
  lemma {:induction false} NoDoubleSpend(rules: Rules, chain: seq<Block>, op: OutPoint, nf: Hash)
    requires rules.halvingInterval > 0
    requires Linked(rules, chain) && InjectiveBlocks(chain) && Replay(rules, chain).Some?
    ensures var v := Replay(rules, chain).value;
            && ChainCreated(chain, op) == ChainConsumed(chain, op) + Indicator(Available(v.coins, op))
            && ChainRevealed(chain, nf) == Indicator(nf in v.nullifiers)
    decreases |chain|
  {
    hide *;
    ChainCounts(chain, op, nf);
    if chain == [] {
      NothingYet(rules, op, nf);
    } else {
      var init, b := chain[..|chain| - 1], chain[|chain| - 1];
      assert init + [b] == chain;
      LinkedPrefix(rules, init, b);
      ReplayStep(rules, init, b);
      if init == [] {
        NothingYet(rules, op, nf);
        GenesisAddsNothing(rules, b);
      } else {
        var v := Replay(rules, init).value;
        ReplaySound(rules, init);
        NoDoubleSpend(rules, init, op, nf);
        BlockAccounts(rules, v, b, |init|, op, nf);
        AccountsMean(v, b.vtx, ConnectBlock(rules, v, b, |init|).value.view, op, nf);
      }
    }
  }

  lemma AccountsMean(v: View, vtx: seq<Tx>, w: View, op: OutPoint, nf: Hash)
    requires Accounts(v, vtx, w, op, nf)
    ensures Indicator(Available(w.coins, op)) + ConsumedIn(vtx, op) == Indicator(Available(v.coins, op)) + Created(vtx, op)
    ensures Indicator(nf in w.nullifiers) == Indicator(nf in v.nullifiers) + RevealedIn(vtx, nf)
  {
    hide Available, ConsumedIn, Created, RevealedIn;
  }

  lemma ChainCounts(chain: seq<Block>, op: OutPoint, nf: Hash)
    ensures |chain| <= 1 ==>
              ChainCreated(chain, op) == 0 && ChainConsumed(chain, op) == 0 && ChainRevealed(chain, nf) == 0
    ensures |chain| > 1 ==>
              var init, vtx := chain[..|chain| - 1], chain[|chain| - 1].vtx;
              && ChainCreated(chain, op) == ChainCreated(init, op) + Created(vtx, op)
              && ChainConsumed(chain, op) == ChainConsumed(init, op) + ConsumedIn(vtx, op)
              && ChainRevealed(chain, nf) == ChainRevealed(init, nf) + RevealedIn(vtx, nf)
  {
    hide Created, ConsumedIn, RevealedIn;
  }

  lemma NothingYet(rules: Rules, op: OutPoint, nf: Hash)
    requires rules.halvingInterval > 0
    ensures Replay(rules, []) == Some(INITIAL_VIEW)
    ensures Indicator(Available(INITIAL_VIEW.coins, op)) == 0 && Indicator(nf in INITIAL_VIEW.nullifiers) == 0
  {
  }

  lemma GenesisAddsNothing(rules: Rules, b: Block)
    requires rules.halvingInterval > 0 && b.hash == rules.genesis
    requires ConnectBlock(rules, INITIAL_VIEW, b, 0).Some?
    ensures ConnectBlock(rules, INITIAL_VIEW, b, 0).value.view == INITIAL_VIEW.(bestBlock := b.hash)
  {
  }
}
