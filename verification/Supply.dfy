/** Conservation of value: what is unspent, plus what has moved into the shielded pool, never
    exceeds the subsidies of the blocks connected so far. */
module Supply {
  import opened Primitives
  import opened Coins
  import opened ChainView
  import opened Blocks
  import opened Inversion
  import opened Runs

  // ----- The value of a coin set -----

  function OutValue(out: TxOut): int {
    if out.IsNull() then 0 else out.value
  }

  function UnspentValue(outs: seq<TxOut>): int {
    if outs == [] then 0 else UnspentValue(outs[..|outs| - 1]) + OutValue(outs[|outs| - 1])
  }

  ghost function SomeKey(m: CoinMap): (h: Hash)
    requires |m| > 0
    ensures h in m
  {
    var h :| h in m;
    h
  }

  /** The sum over all entries, in any order. */
  ghost function TotalCoins(m: CoinMap): int
    decreases |m|
  {
    if |m| == 0 then 0
    else
      var h := SomeKey(m);
      UnspentValue(m[h].outs) + TotalCoins(m - {h})
  }

  lemma RemoveTwice(m: CoinMap, g: Hash, h: Hash)
    ensures m - {g} - {h} == m - {h} - {g}
  {
  }

  lemma {:induction false} TotalWithout(m: CoinMap, h: Hash)
    requires h in m
    ensures TotalCoins(m) == UnspentValue(m[h].outs) + TotalCoins(m - {h})
    decreases |m|
  {
    var g := SomeKey(m);
    if g != h {
      TotalWithout(m - {g}, h);
      TotalWithout(m - {h}, g);
      RemoveTwice(m, g, h);
    }
  }

  lemma {:induction false} PrunedValue(outs: seq<TxOut>)
    requires forall i | 0 <= i < |outs| :: outs[i].IsNull()
    ensures UnspentValue(outs) == 0
  {
    if outs != [] {
      PrunedValue(outs[..|outs| - 1]);
    }
  }

  lemma TotalStore(m: CoinMap, h: Hash, c: Coins)
    ensures TotalCoins(Store(m, h, c)) == TotalCoins(m - {h}) + UnspentValue(c.outs)
  {
    if c.IsPruned() {
      PrunedValue(c.outs);
    } else {
      var m' := m[h := c];
      assert m' - {h} == m - {h};
      TotalWithout(m', h);
    }
  }

  lemma TotalLookup(m: CoinMap, h: Hash)
    ensures TotalCoins(m) == TotalCoins(m - {h}) + UnspentValue(Lookup(m, h).outs)
  {
    if h in m {
      TotalWithout(m, h);
    } else {
      assert m - {h} == m;
    }
  }

  lemma {:induction false} TrimmedValue(outs: seq<TxOut>)
    ensures UnspentValue(Trimmed(outs)) == UnspentValue(outs)
  {
    if |outs| > 0 && outs[|outs| - 1].IsNull() {
      TrimmedValue(outs[..|outs| - 1]);
    }
  }

  lemma {:induction false} NulledValue(outs: seq<TxOut>, n: nat)
    requires n < |outs|
    ensures UnspentValue(outs[n := NULL_OUT]) == UnspentValue(outs) - OutValue(outs[n])
  {
    var last := |outs| - 1;
    if n < last {
      NulledValue(outs[..last], n);
      assert outs[n := NULL_OUT][..last] == outs[..last][n := NULL_OUT];
    } else {
      assert outs[n := NULL_OUT][..last] == outs[..last];
    }
  }

  /** Spending one input takes exactly its value out. */
  lemma SpendInputValue(m: CoinMap, op: OutPoint)
    requires Available(m, op)
    ensures TotalCoins(SpendInput(m, op).0) == TotalCoins(m) - m[op.hash].outs[op.n].value
  {
    var c := m[op.hash];
    TotalLookup(m, op.hash);
    TotalStore(m, op.hash, c.Spend(op.n).0);
    TrimmedValue(c.outs[op.n := NULL_OUT]);
    NulledValue(c.outs, op.n);
  }

  lemma {:induction false} SpendInputsValue(m: CoinMap, vin: seq<TxIn>)
    requires HaveInputs(m, vin) && CanSpend(m, vin)
    ensures TotalCoins(SpendInputs(m, vin).0) == TotalCoins(m) - SumOuts(SpentOutputs(m, vin))
  {
    if vin != [] {
      var init, op := vin[..|vin| - 1], vin[|vin| - 1].prevout;
      SpendInputsValue(m, init);
      SpendInputsAvailability(m, init, op);
      var outs, all := SpentOutputs(m, init), SpentOutputs(m, vin);
      assert all == outs + [m[op.hash].outs[op.n]];
      assert all[..|all| - 1] == outs;
      SpendInputValue(SpendInputs(m, init).0, op);
    }
  }

  /** What enters the coin set is at most what the outputs say: unspendable outputs are lost. */
  lemma {:induction false} SpendableValue(outs: seq<TxOut>)
    requires forall i | 0 <= i < |outs| :: outs[i].value >= 0
    ensures UnspentValue(Spendable(outs)) <= SumOuts(outs)
  {
    if outs != [] {
      var init := outs[..|outs| - 1];
      SpendableValue(init);
      assert Spendable(outs)[..|outs| - 1] == Spendable(init);
    }
  }

  lemma FromTxValue(tx: Tx, height: int)
    requires WellFormedTx(tx)
    ensures UnspentValue(FromTx(tx, height).outs) <= SumOuts(tx.vout)
  {
    SpendableValue(tx.vout);
    TrimmedValue(Spendable(tx.vout));
  }

  // ----- The shielded pool -----

  /** What the transactions moved into the pool, net of what they took out. */
  function PoolDelta(vtx: seq<Tx>): int {
    if vtx == [] then 0
    else
      var js := vtx[|vtx| - 1].joinSplits;
      PoolDelta(vtx[..|vtx| - 1]) + SumPubOld(js) - SumPubNew(js)
  }

  function ChainPool(chain: seq<Block>): int {
    if |chain| <= 1 then 0 else ChainPool(chain[..|chain| - 1]) + PoolDelta(chain[|chain| - 1].vtx)
  }

  // ----- One transaction -----

  /** What `tx` may add to the coin set and the pool together: a coinbase its outputs, any other
      transaction nothing, and it must leave its fee behind. */
  ghost function Allowance(v: View, tx: Tx): int
    requires !tx.IsCoinBase() ==> HaveInputs(v.coins, tx.vin)
  {
    if tx.IsCoinBase() then ValueOut(tx) else ValueOut(tx) - ValueIn(v.coins, tx)
  }

  lemma TxValue(v: View, tx: Tx, height: int)
    requires WellFormedTx(tx) && tx.hash !in v.coins
    requires !tx.IsCoinBase() ==> HaveInputs(v.coins, tx.vin) && CanSpend(v.coins, tx.vin)
    ensures TotalCoins(UpdateCoins(v, tx, height).0.coins) + SumPubOld(tx.joinSplits) - SumPubNew(tx.joinSplits)
            <= TotalCoins(v.coins) + Allowance(v, tx)
  {
    var m1 := if tx.IsCoinBase() then v.coins else SpendInputs(v.coins, tx.vin).0;
    if !tx.IsCoinBase() {
      SpendInputsValue(v.coins, tx.vin);
      SpendInputsKeys(v.coins, tx.vin);
    }
    TotalLookup(m1, tx.hash);
    TotalStore(m1, tx.hash, FromTx(tx, height));
    FromTxValue(tx, height);
    hide SpendInputs, FromTx, Store, TotalCoins, HaveInputs, CanSpend;
  }

  lemma StepFees(rules: Rules, p: Progress, tx: Tx, height: int, first: bool)
    requires DistinctInputs(tx.vin) && Step(rules, Some(p), tx, height, first).Some?
    ensures !tx.IsCoinBase() ==> HaveInputs(p.view.coins, tx.vin)
    ensures Step(rules, Some(p), tx, height, first).value.fees ==
            p.fees + if tx.IsCoinBase() then 0 else ValueIn(p.view.coins, tx) - ValueOut(tx)
  {
  }

  // ----- One block -----

  /** The value rule over the first transactions of a block: only the coinbase adds value, and
      the fees collected are gone from the coin set. */
  ghost predicate Bounded(v: View, vtx: seq<Tx>, q: Progress) {
    TotalCoins(q.view.coins) + PoolDelta(vtx) + q.fees
      <= TotalCoins(v.coins) + if vtx == [] then 0 else ValueOut(vtx[0])
  }

  lemma BoundedStep(rules: Rules, v: View, vtx: seq<Tx>, k: nat, q: Progress, height: int)
    requires k < |vtx| && Bounded(v, vtx[..k], q)
    requires WellFormedTx(vtx[k]) && vtx[k].hash !in q.view.coins
    requires vtx[k].IsCoinBase() <==> k == 0
    requires k > 0 ==> HaveInputs(q.view.coins, vtx[k].vin) && CanSpend(q.view.coins, vtx[k].vin)
    requires Step(rules, Some(q), vtx[k], height, k == 0).Some?
    requires Step(rules, Some(q), vtx[k], height, k == 0).value.view == UpdateCoins(q.view, vtx[k], height).0
    ensures Bounded(v, vtx[..k + 1], Step(rules, Some(q), vtx[k], height, k == 0).value)
  {
    PrefixSnoc(vtx, k);
    var tx := vtx[k];
    TxValue(q.view, tx, height);
    StepFees(rules, q, tx, height, k == 0);
    hide Step, UpdateCoins, WellFormedTx;
  }

  lemma {:induction false} TxsBounded(rules: Rules, p: Progress, vtx: seq<Tx>, k: nat, height: int)
    requires Ready(p, vtx, height) && AllDistinctInputs(vtx) && p.fees == 0
    requires k <= |vtx| && ConnectTxs(rules, p, vtx[..k], height).Some?
    ensures Bounded(p.view, vtx[..k], ConnectTxs(rules, p, vtx[..k], height).value)
  {
    hide *;
    Distincts(vtx);
    ConnectNone(rules, p, height);
    if k == 0 {
      BoundedStart(p);
    } else {
      TurnOf(rules, p, vtx, k - 1, height);
      ConnectTxsStep(rules, p, vtx, k - 1, height);
      TxsBounded(rules, p, vtx, k - 1, height);
      BoundedStep(rules, p.view, vtx, k - 1, ConnectTxs(rules, p, vtx[..k - 1], height).value, height);
    }
  }

  lemma BoundedStart(p: Progress)
    requires p.fees == 0
    ensures Bounded(p.view, [], p)
  {
  }

  /** A connected block adds at most its subsidy. */
  lemma BlockValue(rules: Rules, v: View, block: Block, height: nat)
    requires rules.halvingInterval > 0
    requires SoundView(v) && height >= 1 && InjectiveIds(block.vtx)
    requires block.hash != rules.genesis && ConnectBlock(rules, v, block, height).Some?
    ensures TotalCoins(ConnectBlock(rules, v, block, height).value.view.coins) + PoolDelta(block.vtx)
            <= TotalCoins(v.coins) + Subsidy(height, rules.halvingInterval)
  {
    hide ConnectTxs, ConnectBlock, WellFormedTx;
    ConnectedParts(rules, v, block, height);
    WholePrefix(block.vtx);
    TxsBounded(rules, Start(v), block.vtx, |block.vtx|, height);
  }

  // ----- Whole chains -----

  /** The subsidies of the blocks at heights 1 to `top`; the genesis block's is never added. */
  function SubsidySum(top: nat, interval: nat): nat
    requires interval > 0
  {
    if top == 0 then 0 else SubsidySum(top - 1, interval) + Subsidy(top, interval)
  }

  lemma {:induction false} SupplyConserved(rules: Rules, chain: seq<Block>)
    requires rules.halvingInterval > 0
    requires Linked(rules, chain) && InjectiveBlocks(chain) && Replay(rules, chain).Some?
    ensures TotalCoins(Replay(rules, chain).value.coins) + ChainPool(chain)
            <= SubsidySum(if chain == [] then 0 else |chain| - 1, rules.halvingInterval)
    decreases |chain|
  {
    hide *;
    ChainSums(chain, rules.halvingInterval);
    if chain == [] {
      EmptyChain(rules);
    } else {
      var init, b := chain[..|chain| - 1], chain[|chain| - 1];
      assert init + [b] == chain;
      LinkedPrefix(rules, init, b);
      ReplayStep(rules, init, b);
      if init == [] {
        EmptyChain(rules);
        GenesisValue(rules, b);
      } else {
        ReplaySound(rules, init);
        SupplyConserved(rules, init);
        BlockValue(rules, Replay(rules, init).value, b, |init|);
      }
    }
  }

  lemma EmptyChain(rules: Rules)
    requires rules.halvingInterval > 0
    ensures Replay(rules, []) == Some(INITIAL_VIEW) && TotalCoins(INITIAL_VIEW.coins) == 0
  {
  }

  lemma ChainSums(chain: seq<Block>, interval: nat)
    requires interval > 0
    ensures SubsidySum(0, interval) == 0
    ensures |chain| <= 1 ==> ChainPool(chain) == 0
    ensures |chain| > 1 ==>
              && ChainPool(chain) == ChainPool(chain[..|chain| - 1]) + PoolDelta(chain[|chain| - 1].vtx)
              && SubsidySum(|chain| - 1, interval) ==
                   SubsidySum(|chain| - 2, interval) + Subsidy(|chain| - 1, interval)
  {
    hide Subsidy, PoolDelta;
  }

  lemma GenesisValue(rules: Rules, b: Block)
    requires rules.halvingInterval > 0 && b.hash == rules.genesis
    requires ConnectBlock(rules, INITIAL_VIEW, b, 0).Some?
    ensures TotalCoins(ConnectBlock(rules, INITIAL_VIEW, b, 0).value.view.coins) == 0
  {
  }

  // ----- The subsidies are bounded -----

  lemma HalvedTwice(k: nat)
    ensures 2 * Halved(k + 1) <= Halved(k)
  {
  }

  lemma DivLower(a: nat, d: nat, q: nat)
    requires d > 0 && q * d <= a
    ensures q <= a / d
  {
    var r := a / d;
    assert a < (r + 1) * d;
    assert q > r ==> q * d >= (r + 1) * d;
  }

  /** The sum of the subsidies at heights 0 to `top`, against the ideal geometric sum. */
  lemma {:induction false} SubsidyEnvelope(top: nat, interval: nat)
    requires interval > 0
    ensures var k := top / interval;
            50 * COIN + SubsidySum(top, interval) + 2 * interval * Halved(k)
              <= interval * (100 * COIN) + (top - interval * k + 1) * Halved(k)
  {
    hide *;
    SubsidySumStep(top, interval);
    if top == 0 {
      FirstEnvelope(interval);
    } else {
      SubsidyEnvelope(top - 1, interval);
      var k, k0 := top / interval, (top - 1) / interval;
      if k == k0 {
        SameHalving(top - 1 - interval * k + 1, Halved(k));
      } else {
        QuotientStep(top, interval);
        HalvedTwice(k0);
        NextHalving(interval, Halved(k0), Halved(k), 50 * COIN + SubsidySum(top - 1, interval));
      }
    }
  }

  lemma SubsidySumStep(top: nat, interval: nat)
    requires interval > 0
    ensures SubsidySum(top, interval) == if top == 0 then 0 else SubsidySum(top - 1, interval) + Halved(top / interval)
  {
    hide Halved;
  }

  lemma FirstEnvelope(interval: nat)
    requires interval > 0
    ensures 0 / interval == 0 && Halved(0) == 50 * COIN
    ensures 2 * interval * Halved(0) == interval * (100 * COIN)
    ensures (0 - interval * 0 + 1) * Halved(0) == 50 * COIN
  {
    assert Halved(0) == 50 * COIN;
  }

  lemma SameHalving(r: int, s: nat)
    ensures (r + 1) * s == r * s + s
  {
  }

  lemma QuotientStep(top: nat, interval: nat)
    requires interval > 0 && top > 0 && top / interval != (top - 1) / interval
    ensures top / interval == (top - 1) / interval + 1 && top == interval * (top / interval)
    ensures top - 1 - interval * ((top - 1) / interval) + 1 == interval
  {
    var k0 := (top - 1) / interval;
    var r := (top - 1) % interval;
    assert top - 1 == interval * k0 + r;
    if r + 1 < interval {
      assert top == interval * k0 + (r + 1);
      QuotientUnique(top, interval, k0, r + 1);
    } else {
      assert top == interval * (k0 + 1) + 0;
      QuotientUnique(top, interval, k0 + 1, 0);
    }
  }

  lemma QuotientUnique(a: nat, d: nat, q: nat, r: nat)
    requires d > 0 && a == d * q + r && r < d
    ensures a / d == q
  {
    DivLower(a, d, q);
    var q' := a / d;
    assert q' > q ==> d * q' >= d * (q + 1);
    assert d * (q + 1) == d * q + d;
  }

  lemma NextHalving(interval: nat, before: nat, after: nat, sum: nat)
    requires 2 * after <= before
    requires sum + 2 * interval * before <= interval * (100 * COIN) + interval * before
    ensures sum + after + 2 * interval * after <= interval * (100 * COIN) + after
  {
    assert interval * (2 * after) <= interval * before;
    assert 2 * interval * before == interval * before + interval * before;
  }

  lemma EnvelopeBound(interval: nat, r: nat, s: nat, sum: nat)
    requires r <= interval
    requires 50 * COIN + sum + 2 * interval * s <= interval * (100 * COIN) + r * s
    ensures sum < interval * (100 * COIN)
  {
    assert r * s <= interval * s;
    assert 2 * interval * s == interval * s + interval * s;
  }

  lemma Remainder(a: nat, d: nat)
    requires d > 0
    ensures 0 <= a - d * (a / d) < d
  {
  }

  /** All subsidies together stay below 100 COIN per block of one halving interval. */
  lemma SubsidyBound(top: nat, interval: nat)
    requires interval > 0
    ensures SubsidySum(top, interval) < interval * (100 * COIN)
  {
    hide Halved, SubsidySum;
    var k := top / interval;
    var r := top - interval * k + 1;
    Remainder(top, interval);
    SubsidyEnvelope(top, interval);
    EnvelopeBound(interval, r, Halved(k), SubsidySum(top, interval));
  }

  /** With the main network's halving interval, no chain state holds 84 million coins or more
      outside a pool that is not overdrawn. */
  lemma SupplyCap(rules: Rules, chain: seq<Block>)
    requires rules.halvingInterval == 840_000
    requires Linked(rules, chain) && InjectiveBlocks(chain) && Replay(rules, chain).Some?
    ensures TotalCoins(Replay(rules, chain).value.coins) + ChainPool(chain) < 84_000_000 * COIN < MAX_MONEY
    ensures ChainPool(chain) >= 0 ==> TotalCoins(Replay(rules, chain).value.coins) < MAX_MONEY
  {
    hide Replay, ConnectBlock;
    SupplyConserved(rules, chain);
    SubsidyBound(if chain == [] then 0 else |chain| - 1, 840_000);
  }
}
