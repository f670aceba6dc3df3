/** The coins of every reachable chain state can be stored, and come back unchanged. */
module StoredCoins {
  import opened Primitives
  import opened Amounts
  import opened Compressor
  import opened Coins
  import opened ChainView
  import opened Blocks
  import opened Inversion
  import opened Runs
  import opened CoinsSerialize

  /** The values that the fields of a transaction can have: bytes, and numbers of 32 bits. */
  ghost predicate TypedTx(tx: Tx) {
    && tx.version < TWO_31 && |tx.vout| < TWO_31
    && forall i | 0 <= i < |tx.vout| :: IsBytes(tx.vout[i].script)
  }

  ghost predicate TypedTxs(vtx: seq<Tx>) {
    forall i | 0 <= i < |vtx| :: TypedTx(vtx[i])
  }

  ghost predicate TypedChain(chain: seq<Block>) {
    |chain| <= TWO_31 && forall i | 0 <= i < |chain| :: TypedTxs(chain[i].vtx)
  }

  ghost predicate KeepsOut(k: Curve, out: TxOut) {
    out == NULL_OUT || (Storable(out) && Survives(k, out))
  }

  ghost predicate KeepsOuts(k: Curve, outs: seq<TxOut>) {
    |outs| < TWO_31 && forall i | 0 <= i < |outs| :: KeepsOut(k, outs[i])
  }

  /** Apart from being cleaned up: all that it takes to store coins and read them back. */
  ghost predicate Keeps(k: Curve, c: Coins) {
    0 <= c.version < TWO_31 && 0 <= c.height < TWO_31 && KeepsOuts(k, c.outs)
  }

  ghost predicate AllKept(k: Curve, m: CoinMap) {
    forall h | h in m :: Keeps(k, m[h])
  }

  // ----- One transaction -----

  /** An output in the money range is kept, or dropped because no script can spend it. */
  lemma OutKept(k: Curve, out: TxOut)
    requires MoneyRange(out.value) && IsBytes(out.script)
    ensures KeepsOut(k, SpendableOut(out))
  {
    hide Compressed, Compress;
    MoneyFits(out.value);
  }

  lemma PrefixKept(k: Curve, outs: seq<TxOut>, r: seq<TxOut>)
    requires KeepsOuts(k, outs) && r <= outs
    ensures KeepsOuts(k, r)
  {
    hide KeepsOut;
    assert forall i | 0 <= i < |r| :: r[i] == outs[i];
  }

  lemma TxKept(k: Curve, tx: Tx, height: int)
    requires WellFormedTx(tx) && TypedTx(tx) && 0 <= height < TWO_31
    ensures Keeps(k, FromTx(tx, height))
  {
    hide KeepsOut, SpendableOut, IsBytes, Trimmed;
    var outs := Spendable(tx.vout);
    forall i | 0 <= i < |outs|
      ensures KeepsOut(k, outs[i])
    {
      OutKept(k, tx.vout[i]);
    }
    PrefixKept(k, outs, Trimmed(outs));
  }

  lemma SpendKept(k: Curve, c: Coins, n: nat)
    requires Keeps(k, c)
    ensures Keeps(k, c.Spend(n).0)
  {
    hide Trimmed, Storable, Survives;
    if c.IsAvailable(n) {
      var outs := c.outs[n := NULL_OUT];
      assert KeepsOuts(k, outs);
      PrefixKept(k, outs, Trimmed(outs));
    }
  }

  lemma StoreKept(k: Curve, m: CoinMap, h: Hash, c: Coins)
    requires AllKept(k, m) && Keeps(k, c)
    ensures AllKept(k, Store(m, h, c))
  {
    hide Keeps, Coins.IsPruned;
  }

  lemma {:induction false} SpendsKept(k: Curve, m: CoinMap, vin: seq<TxIn>)
    requires AllKept(k, m) && CanSpend(m, vin)
    ensures AllKept(k, SpendInputs(m, vin).0)
    decreases |vin|
  {
    hide AllKept, Keeps, Store;
    if vin != [] {
      var op := vin[|vin| - 1].prevout;
      SpendsKept(k, m, vin[..|vin| - 1]);
      var m1 := SpendInputs(m, vin[..|vin| - 1]).0;
      KeptAt(k, m1, op.hash);
      SpendKept(k, m1[op.hash], op.n);
      StoreKept(k, m1, op.hash, m1[op.hash].Spend(op.n).0);
    }
  }

  lemma KeptAt(k: Curve, m: CoinMap, h: Hash)
    requires AllKept(k, m) && h in m
    ensures Keeps(k, m[h])
  {
  }

  lemma UpdateKept(k: Curve, v: View, tx: Tx, height: int)
    requires AllKept(k, v.coins) && WellFormedTx(tx) && TypedTx(tx) && 0 <= height < TWO_31
    requires !tx.IsCoinBase() ==> CanSpend(v.coins, tx.vin)
    ensures AllKept(k, UpdateCoins(v, tx, height).0.coins)
  {
    hide AllKept, Keeps, Store, SpendInputs, CanSpend, FromTx, WellFormedTx, TypedTx;
    TxKept(k, tx, height);
    if tx.IsCoinBase() {
      StoreKept(k, v.coins, tx.hash, FromTx(tx, height));
    } else {
      SpendsKept(k, v.coins, tx.vin);
      StoreKept(k, SpendInputs(v.coins, tx.vin).0, tx.hash, FromTx(tx, height));
    }
  }

  // ----- Blocks and chains -----

  lemma {:induction false} TxsKept(k: Curve, rules: Rules, p: Progress, vtx: seq<Tx>, n: nat, height: int)
    requires Ready(p, vtx, height) && AllDistinctInputs(vtx) && AllKept(k, p.view.coins)
    requires TypedTxs(vtx) && 0 <= height < TWO_31
    requires n <= |vtx| && ConnectTxs(rules, p, vtx[..n], height).Some?
    ensures AllKept(k, ConnectTxs(rules, p, vtx[..n], height).value.view.coins)
  {
    hide AllKept, UpdateCoins, Ready, WellFormedTx, TypedTx, HaveInputs, CanSpend, ConnectTxs, AllDistinctInputs;
    Distincts(vtx);
    ConnectNone(rules, p, height);
    if n > 0 {
      TurnOf(rules, p, vtx, n - 1, height);
      TxsKept(k, rules, p, vtx, n - 1, height);
      UpdateKept(k, ConnectTxs(rules, p, vtx[..n - 1], height).value.view, vtx[n - 1], height);
    }
  }

  lemma BlockKept(k: Curve, rules: Rules, v: View, block: Block, height: nat)
    requires rules.halvingInterval > 0 && SoundView(v) && 1 <= height < TWO_31 && InjectiveIds(block.vtx)
    requires block.hash != rules.genesis && ConnectBlock(rules, v, block, height).Some?
    requires AllKept(k, v.coins) && TypedTxs(block.vtx)
    ensures AllKept(k, ConnectBlock(rules, v, block, height).value.view.coins)
  {
    hide AllKept, TypedTxs, ConnectTxs, ConnectBlock, WellFormedTx;
    ConnectedParts(rules, v, block, height);
    WholePrefix(block.vtx);
    TxsKept(k, rules, Start(v), block.vtx, |block.vtx|, height);
  }

  lemma {:induction false} ChainKept(k: Curve, rules: Rules, chain: seq<Block>)
    requires rules.halvingInterval > 0 && TypedChain(chain)
    requires Linked(rules, chain) && InjectiveBlocks(chain) && Replay(rules, chain).Some?
    ensures AllKept(k, Replay(rules, chain).value.coins)
    decreases |chain|
  {
    hide AllKept, TypedTxs, Linked, InjectiveBlocks, Replay, ConnectBlock, SoundView, InjectiveIds;
    if chain == [] {
      NothingStored(k, rules);
    } else {
      var init, b := chain[..|chain| - 1], chain[|chain| - 1];
      assert init + [b] == chain;
      assert TypedChain(init);
      LinkedPrefix(rules, init, b);
      ReplayStep(rules, init, b);
      if init == [] {
        NothingStored(k, rules);
        GenesisStores(rules, b);
      } else {
        ReplaySound(rules, init);
        ChainKept(k, rules, init);
        BlockKept(k, rules, Replay(rules, init).value, b, |init|);
      }
    }
  }

  lemma NothingStored(k: Curve, rules: Rules)
    requires rules.halvingInterval > 0
    ensures Replay(rules, []) == Some(INITIAL_VIEW) && AllKept(k, INITIAL_VIEW.coins)
  {
  }

  lemma GenesisStores(rules: Rules, b: Block)
    requires rules.halvingInterval > 0 && b.hash == rules.genesis
    requires ConnectBlock(rules, INITIAL_VIEW, b, 0).Some?
    ensures ConnectBlock(rules, INITIAL_VIEW, b, 0).value.view.coins == INITIAL_VIEW.coins
  {
  }

  /** The coins of every chain that connects can be stored, and every unspent output survives it: the
      coin set never holds one that would not. */
  lemma CoinsSurvive(k: Curve, rules: Rules, chain: seq<Block>, h: Hash)
    requires rules.halvingInterval > 0 && TypedChain(chain)
    requires Linked(rules, chain) && InjectiveBlocks(chain) && Replay(rules, chain).Some?
    requires h in Replay(rules, chain).value.coins
    ensures var c := Replay(rules, chain).value.coins[h];
            CanStore(c) && AllSurvive(k, c.outs) && c.(outs := KeptOuts(k, c.outs)) == c
  {
    hide TypedChain, Linked, InjectiveBlocks, Replay, KeptOuts, Storable, Survives;
    var m := Replay(rules, chain).value.coins;
    ChainKept(k, rules, chain);
    ReplaySound(rules, chain);
    assert WellFormedCoins(m[h]);
    UnchangedExactly(k, m[h]);
  }

  /** The same after any run of storing, connecting and disconnecting blocks. */
  lemma RunCoinsSurvive(k: Curve, rules: Rules, nodes: seq<Node>, events: seq<Event>, n: nat, h: Hash)
    requires rules.halvingInterval > 0 && IsRun(rules, nodes, events) && n < |nodes|
    requires TypedChain(nodes[n].chain) && h in nodes[n].view.coins
    ensures var c := nodes[n].view.coins[h];
            CanStore(c) && AllSurvive(k, c.outs) && c.(outs := KeptOuts(k, c.outs)) == c
  {
    hide *;
    RunsReplay(rules, nodes, events, n);
    ConsistentChain(rules, nodes[n]);
    CoinsSurvive(k, rules, nodes[n].chain, h);
  }

  // ----- What does not survive -----

  /** Stores coins and reads them back: they are the same exactly when every unspent output survives. */
  method StoreAndLoad(k: Curve, c: Coins) returns (r: Option<(Coins, nat)>, size: nat)
    requires IsCurve(k) && CanStore(c)
    ensures r == Some((c.(outs := KeptOuts(k, c.outs)), size))
    ensures r.value.0 == c <==> AllSurvive(k, c.outs)
  {
    hide IsCurve, CanStore, CoinBytes, KeptOuts, AllSurvive;
    var s := Serialize(k, c);
    size := GetSerializeSize(k, c);
    assert Next(s, 0, CoinBytes(k, c)) && s[0..|s|] == s;
    r := Unserialize(k, s, 0, c);
    UnchangedExactly(k, c);
  }

  /** A script of 10,001 bytes is stored, and comes back as a single `OP_RETURN`. */
  method LongScriptIsLost(k: Curve) returns (before: Coins, after: Coins)
    requires IsCurve(k)
    ensures before.outs == [TxOut(5 * COIN, seq(MAX_SCRIPT_SIZE + 1, _ => 0))]
    ensures after == before.(outs := [TxOut(5 * COIN, [OP_RETURN])])
  {
    hide IsCurve;
    var script: seq<nat> := seq(MAX_SCRIPT_SIZE + 1, _ => 0);
    var out := TxOut(5 * COIN, script);
    before := Coins(false, [out], 1, 1);
    var r, size := StoreAndLoad(k, before);
    after := r.value.0;
    LongScript(k, script);
    CompressThenDecompress(5 * COIN);
    assert KeptOuts(k, [out]) == [Kept(k, out)];
  }

  lemma LongScript(k: Curve, script: seq<nat>)
    requires |script| > MAX_SCRIPT_SIZE
    ensures !ScriptSurvives(k, script)
  {
  }
}
