/** The chains that connect are exactly those that follow the rules of module Ledger. */
module Consensus {
  import opened Primitives
  import opened Numerals
  import opened Coins
  import opened ChainView
  import opened Blocks
  import opened Inversion
  import opened Runs
  import opened Ledger
  import opened Reflection

  // ----- Sums -----

  lemma {:induction false} WorthSnoc(outs: seq<TxOut>, x: TxOut)
    ensures Worth(outs + [x]) == Worth(outs) + x.value
  {
    if outs != [] {
      assert (outs + [x])[1..] == outs[1..] + [x];
      WorthSnoc(outs[1..], x);
    }
  }

  lemma {:induction false} WorthIsSum(outs: seq<TxOut>)
    ensures Worth(outs) == SumOuts(outs)
  {
    if outs != [] {
      var init := outs[..|outs| - 1];
      WorthIsSum(init);
      WorthSnoc(init, outs[|outs| - 1]);
      assert outs == init + [outs[|outs| - 1]];
    }
  }

  lemma {:induction false} PublicSnoc(js: seq<JoinSplit>, j: JoinSplit)
    ensures OldWorth(js + [j]) == OldWorth(js) + j.pubOld && NewWorth(js + [j]) == NewWorth(js) + j.pubNew
  {
    if js != [] {
      assert (js + [j])[1..] == js[1..] + [j];
      PublicSnoc(js[1..], j);
    }
  }

  lemma {:induction false} PublicIsSum(js: seq<JoinSplit>)
    ensures OldWorth(js) == SumPubOld(js) && NewWorth(js) == SumPubNew(js)
  {
    if js != [] {
      var init := js[..|js| - 1];
      PublicIsSum(init);
      PublicSnoc(init, js[|js| - 1]);
      assert js == init + [js[|js| - 1]];
    }
  }

  lemma TotalsAgree(tx: Tx, spent: seq<TxOut>)
    ensures Out(tx) == ValueOut(tx) && NewWorth(tx.joinSplits) == SumPubNew(tx.joinSplits)
    ensures In(tx, spent) == SumOuts(spent) + SumPubNew(tx.joinSplits) && Worth(spent) == SumOuts(spent)
  {
    hide Worth, OldWorth, NewWorth, SumOuts, SumPubOld, SumPubNew;
    WorthIsSum(tx.vout);
    WorthIsSum(spent);
    PublicIsSum(tx.joinSplits);
  }

  // ----- A transaction and a block by themselves -----

  lemma {:induction false} NullifierAt(js: seq<JoinSplit>)
    requires forall k | 0 <= k < |js| :: |js[k].nullifiers| == 2
    ensures |AllNullifiers(js)| == 2 * |js|
    ensures forall k, i | 0 <= k < |js| && 0 <= i < 2 :: AllNullifiers(js)[2 * k + i] == js[k].nullifiers[i]
  {
    if js != [] {
      var last := |js| - 1;
      NullifierAt(js[..last]);
      assert forall k | 0 <= k < last :: js[..last][k] == js[k];
    }
  }

  lemma NullifiersAgree(js: seq<JoinSplit>)
    requires forall k | 0 <= k < |js| :: |js[k].nullifiers| == 2
    ensures Distinct(AllNullifiers(js)) <==> NullifiersDiffer(js)
  {
    var all := AllNullifiers(js);
    NullifierAt(js);
    if Distinct(all) {
      forall k, l, i, j | 0 <= k < |js| && 0 <= l < |js| && 0 <= i < 2 && 0 <= j < 2 && js[k].nullifiers[i] == js[l].nullifiers[j]
        ensures k == l && i == j
      {
        assert all[2 * k + i] == all[2 * l + j];
      }
    }
    if NullifiersDiffer(js) {
      forall a, b | 0 <= a < b < |all|
        ensures all[a] != all[b]
      {
        assert all[2 * (a / 2) + a % 2] == js[a / 2].nullifiers[a % 2];
        assert all[2 * (b / 2) + b % 2] == js[b / 2].nullifiers[b % 2];
      }
    }
  }

  lemma JoinSplitFormed(j: JoinSplit)
    ensures FormedJoinSplit(j) <==> WellFormedJoinSplit(j)
  {
  }

  lemma TxFormed(rules: Rules, tx: Tx)
    ensures Formed(rules, tx) <==> CheckTransaction(rules, tx)
    ensures CoinBase(tx) <==> tx.IsCoinBase()
  {
    hide Worth, OldWorth, NewWorth, SumOuts, SumPubOld, SumPubNew, ValueOut, Out, Distinct, NullifiersDiffer, AllNullifiers;
    TotalsAgree(tx, []);
    forall k | 0 <= k < |tx.joinSplits|
      ensures FormedJoinSplit(tx.joinSplits[k]) <==> WellFormedJoinSplit(tx.joinSplits[k])
    {
      JoinSplitFormed(tx.joinSplits[k]);
    }
    if forall k | 0 <= k < |tx.joinSplits| :: FormedJoinSplit(tx.joinSplits[k]) {
      NullifiersAgree(tx.joinSplits);
    }
  }

  lemma BlockFormed(rules: Rules, block: Block)
    ensures FormedBlock(rules, block) <==> CheckBlock(rules, block)
  {
    hide Formed, CheckTransaction, CoinBase, Tx.IsCoinBase;
    forall i | 0 <= i < |block.vtx|
      ensures Formed(rules, block.vtx[i]) <==> CheckTransaction(rules, block.vtx[i])
      ensures CoinBase(block.vtx[i]) <==> block.vtx[i].IsCoinBase()
    {
      TxFormed(rules, block.vtx[i]);
    }
  }

  // ----- The reward -----

  lemma {:induction false} ShiftIsQuotient(amount: nat, k: nat)
    ensures ShiftRight(amount, k) * Pow(2, k) <= amount < (ShiftRight(amount, k) + 1) * Pow(2, k)
  {
    if k > 0 {
      ShiftIsQuotient(amount, k - 1);
      HalfQuotient(amount, ShiftRight(amount, k - 1), Pow(2, k - 1));
    }
  }

  lemma HalfQuotient(amount: nat, s: nat, p: nat)
    requires s * p <= amount < (s + 1) * p
    ensures s / 2 * (p * 2) <= amount < (s / 2 + 1) * (p * 2)
  {
    var h := s / 2;
    Regroup(h, 2, p);
    Regroup(h + 1, 2, p);
    Commute(2, p);
    MulLess(h * 2, s, p);
    MulLess(s + 1, (h + 1) * 2, p);
  }

  /** The reward is 50 coins divided by two to the number of halvings, rounded down. */
  lemma SubsidyExactly(height: nat, interval: nat, amount: nat)
    requires interval > 0
    ensures Pays(height, interval, amount) <==> amount == Subsidy(height, interval)
  {
    hide ShiftRight, Pow;
    var k := height / interval;
    QuotientNat(height, interval);
    if k < 64 {
      ShiftIsQuotient(REWARD, k);
      if Pays(height, interval, amount) {
        QuotientIsUnique(REWARD, amount, Subsidy(height, interval), Pow(2, k));
      }
    }
  }

  lemma QuotientIsUnique(a: nat, q: nat, r: nat, p: nat)
    requires q * p <= a < (q + 1) * p && r * p <= a < (r + 1) * p
    ensures q == r
  {
    if q < r {
      MulLess(q + 1, r, p);
    } else if r < q {
      MulLess(r + 1, q, p);
    }
  }

  // ----- A transaction in its place -----

  lemma FundsExactly(
    rules: Rules, m: CoinMap, past: seq<Placed>, tx: Tx, height: nat, op: OutPoint, out: TxOut)
    requires CoinsReflect(m, past)
    ensures Funds(rules, past, tx, height, op, out) <==>
              Available(m, op) && out == m[op.hash].outs[op.n] && MatureInput(rules, m, tx, op, height)
  {
    hide Available;
    if Funds(rules, past, tx, height, op, out) {
      var p: nat :| Unspent(past, p, op) && out == past[p].tx.vout[op.n] && Mature(rules, past[p], tx, height);
      UnspentIsMade(past, p, op);
      assert Shows(m, past[p], op);
    } else if Available(m, op) {
      var p: nat :| Unspent(past, p, op);
      UnspentIsMade(past, p, op);
      assert Shows(m, past[p], op);
      MadeInRange(past[p], op);
    }
  }

  lemma MadeInRange(p: Placed, op: OutPoint)
    requires Makes(p, op)
    ensures op.n < |p.tx.vout|
  {
  }

  lemma InputsExactly(
    rules: Rules, m: CoinMap, past: seq<Placed>, tx: Tx, height: nat, spent: seq<TxOut>)
    requires CoinsReflect(m, past)
    ensures |spent| == |tx.vin| && (forall i | 0 <= i < |tx.vin| ::
              Funds(rules, past, tx, height, tx.vin[i].prevout, spent[i])) <==>
              && HaveInputs(m, tx.vin) && spent == SpentOutputs(m, tx.vin)
              && forall i | 0 <= i < |tx.vin| :: MatureInput(rules, m, tx, tx.vin[i].prevout, height)
  {
    hide Funds, MatureInput, Available, CoinsReflect, SpentOutputs;
    if HaveInputs(m, tx.vin) {
      SpentOutputsAt(m, tx.vin);
      assert spent == SpentOutputs(m, tx.vin) <==>
               |spent| == |tx.vin| && forall i | 0 <= i < |tx.vin| :: spent[i] == SpentOutputs(m, tx.vin)[i];
    }
    if |spent| == |tx.vin| {
      forall i | 0 <= i < |tx.vin|
        ensures Funds(rules, past, tx, height, tx.vin[i].prevout, spent[i]) ==> Available(m, tx.vin[i].prevout)
        ensures HaveInputs(m, tx.vin) ==>
                  (Funds(rules, past, tx, height, tx.vin[i].prevout, spent[i]) <==>
                     && spent[i] == SpentOutputs(m, tx.vin)[i]
                     && MatureInput(rules, m, tx, tx.vin[i].prevout, height))
      {
        FundsExactly(rules, m, past, tx, height, tx.vin[i].prevout, spent[i]);
      }
      if !HaveInputs(m, tx.vin) {
        var i :| 0 <= i < |tx.vin| && !Available(m, tx.vin[i].prevout);
        assert !Funds(rules, past, tx, height, tx.vin[i].prevout, spent[i]);
      }
    }
  }

  lemma {:induction false} AnchorIsRoot(v: View, js: seq<JoinSplit>, k: nat)
    requires JoinSplitsOk(v, js) && k < |js| && forall r | r in v.anchors :: r.RootOf?
    ensures js[k].anchor.RootOf?
  {
    assert JoinSplitOk(v, js, k);
    if js[k].anchor !in v.anchors {
      var i :| 0 <= i < k && js[k].anchor == RootAfter(js[i]);
      AnchorIsRoot(v, js, i);
    }
  }

  /** The anchors in the view are the roots of the blocks in `before`. */
  ghost predicate RootsKnown(v: View, before: seq<Block>) {
    forall r :: r in v.anchors <==> KnownRoot(before, r)
  }

  lemma KnownIsRoot(before: seq<Block>, r: Root)
    requires KnownRoot(before, r)
    ensures r.RootOf?
  {
  }

  lemma JoinSplitsExactly(v: View, before: seq<Block>, past: seq<Placed>, js: seq<JoinSplit>)
    requires NullifiersReflect(v.nullifiers, past) && RootsKnown(v, before)
    ensures JoinSplitsOk(v, js) <==> forall k | 0 <= k < |js| :: JoinSplitJoins(before, past, js, k)
  {
    hide Disclosed, KnownRoot;
    forall r | r in v.anchors
      ensures r.RootOf?
    {
      KnownIsRoot(before, r);
    }
    if JoinSplitsOk(v, js) {
      forall k | 0 <= k < |js|
        ensures JoinSplitJoins(before, past, js, k)
      {
        assert JoinSplitOk(v, js, k);
        if js[k].anchor !in v.anchors {
          var i :| 0 <= i < k && js[k].anchor == RootAfter(js[i]);
          AnchorIsRoot(v, js, i);
          assert Follows(js[i], js[k].anchor);
        }
      }
    }
    if forall k | 0 <= k < |js| :: JoinSplitJoins(before, past, js, k) {
      forall k | 0 <= k < |js|
        ensures JoinSplitOk(v, js, k)
      {
        assert JoinSplitJoins(before, past, js, k);
        if js[k].anchor !in v.anchors {
          var i :| 0 <= i < k && Follows(js[i], js[k].anchor);
          assert js[k].anchor == RootAfter(js[i]);
        }
      }
    }
  }

  /** The checks against the state are the rules on the history. */
  lemma JoinsExactly(
    rules: Rules, before: seq<Block>, past: seq<Placed>, v: View, tx: Tx, height: nat, spent: seq<TxOut>)
    requires CoinsReflect(v.coins, past) && NullifiersReflect(v.nullifiers, past) && RootsKnown(v, before)
    requires !CoinBase(tx)
    ensures Joins(rules, before, past, tx, height, spent) <==>
              && HaveInputs(v.coins, tx.vin) && spent == SpentOutputs(v.coins, tx.vin)
              && CheckTxInputs(rules, v, tx, height) && rules.scriptsOk(tx, spent)
  {
    hide Funds, MatureInput, SpentOutputs, JoinSplitsOk, JoinSplitJoins, Worth, In, Out, ValueOut, SumOuts,
      SumPubNew, CoinsReflect, NullifiersReflect, RootsKnown, CoinBase, HaveInputs;
    InputsExactly(rules, v.coins, past, tx, height, spent);
    JoinSplitsExactly(v, before, past, tx.joinSplits);
    TotalsAgree(tx, spent);
    if HaveInputs(v.coins, tx.vin) {
      SpentOutputsAt(v.coins, tx.vin);
    }
  }

  // ----- The transactions of a block -----

  lemma EntryIsUnspent(m: CoinMap, past: seq<Placed>, h: Hash)
    requires WellFormedMap(m) && CoinsReflect(m, past) && h in m
    ensures exists p: nat, n: nat :: Unspent(past, p, OutPoint(h, n))
  {
    hide Unspent;
    assert Available(m, OutPoint(h, |m[h].outs| - 1));
  }

  lemma IdsExactly(m: CoinMap, past: seq<Placed>, vtx: seq<Tx>)
    requires WellFormedMap(m) && CoinsReflect(m, past)
    ensures NoOverwrite(m, vtx) <==> NewIds(past, vtx)
  {
    hide Unspent, Makes;
    if NoOverwrite(m, vtx) {
      forall i: nat, p: nat, n: nat | i < |vtx|
        ensures !Unspent(past, p, OutPoint(vtx[i].hash, n))
      {
        UnspentIsMade(past, p, OutPoint(vtx[i].hash, n));
      }
    }
    if NewIds(past, vtx) {
      forall i | 0 <= i < |vtx|
        ensures vtx[i].hash !in m
      {
        if vtx[i].hash in m {
          EntryIsUnspent(m, past, vtx[i].hash);
        }
      }
    }
  }

  /** What `tx` spends. */
  function SpentBy(m: CoinMap, tx: Tx): seq<TxOut>
    requires !tx.IsCoinBase() ==> HaveInputs(m, tx.vin)
  {
    if tx.IsCoinBase() then [] else SpentOutputs(m, tx.vin)
  }

  lemma AcceptForth(
    rules: Rules, before: seq<Block>, past: seq<Placed>, q: Progress, tx: Tx, height: nat, first: bool)
    requires Reflects(q, past) && RootsKnown(q.view, before) && DistinctInputs(tx.vin)
    requires Step(rules, Some(q), tx, height, first).Some?
    ensures !tx.IsCoinBase() ==> HaveInputs(q.view.coins, tx.vin)
    ensures var spent, r := SpentBy(q.view.coins, tx), Step(rules, Some(q), tx, height, first).value;
            && Joins(rules, before, past, tx, height, spent)
            && r.fees == q.fees + Fee(tx, spent)
            && r.sigOps == q.sigOps + Ops(rules, tx, spent) <= 20_000
  {
    hide Joins, CheckTxInputs, RootsKnown, UpdateCoins, SpentOutputs, AllCommitments, In, Out, ValueOut, SumOuts,
      SumPubNew, DistinctInputs;
    assert CoinBase(tx) <==> tx.IsCoinBase();
    if tx.IsCoinBase() {
      CoinBaseJoins(rules, before, past, tx, height);
    } else {
      CheckedHaveInputs(rules, q.view, tx, height);
      var spent := SpentOutputs(q.view.coins, tx.vin);
      JoinsExactly(rules, before, past, q.view, tx, height, spent);
      TotalsAgree(tx, spent);
    }
  }

  lemma CoinBaseJoins(rules: Rules, before: seq<Block>, past: seq<Placed>, tx: Tx, height: nat)
    requires CoinBase(tx)
    ensures forall spent :: Joins(rules, before, past, tx, height, spent) <==> spent == []
  {
  }

  lemma CheckedHaveInputs(rules: Rules, v: View, tx: Tx, height: int)
    requires CheckTxInputs(rules, v, tx, height)
    ensures HaveInputs(v.coins, tx.vin)
  {
  }

  lemma AcceptBack(
    rules: Rules, before: seq<Block>, past: seq<Placed>, q: Progress, tx: Tx, height: nat, first: bool,
    spent: seq<TxOut>)
    requires Reflects(q, past) && RootsKnown(q.view, before) && DistinctInputs(tx.vin)
    requires Joins(rules, before, past, tx, height, spent) && q.sigOps + Ops(rules, tx, spent) <= 20_000
    ensures Step(rules, Some(q), tx, height, first).Some?
    ensures !tx.IsCoinBase() ==> HaveInputs(q.view.coins, tx.vin)
    ensures spent == SpentBy(q.view.coins, tx)
  {
    hide Joins, CheckTxInputs, RootsKnown, UpdateCoins, SpentOutputs, AllCommitments, DistinctInputs;
    assert CoinBase(tx) <==> tx.IsCoinBase();
    if tx.IsCoinBase() {
      CoinBaseJoins(rules, before, past, tx, height);
    } else {
      JoinsExactly(rules, before, past, q.view, tx, height, spent);
    }
  }

  ghost predicate StateReflects(v: View, chain: seq<Block>) {
    && CoinsReflect(v.coins, Past(chain))
    && NullifiersReflect(v.nullifiers, Past(chain))
    && AnchorsReflect(v, chain)
  }

  /** After `k` transactions of a block: all of them follow the rules, and everything counted and stored
      agrees with the history. */
  ghost predicate Keeps(
    rules: Rules, before: seq<Block>, v: View, vtx: seq<Tx>, spent: seq<seq<TxOut>>, k: nat, q: Progress)
  {
    && k <= |vtx| && k <= |spent|
    && (forall i | 0 <= i < k :: JoinsAt(rules, before, vtx, i, spent[i]))
    && q.fees == Fees(vtx, spent, k)
    && q.sigOps == SigOps(rules, vtx, spent, k) <= 20_000
    && Reflects(q, Past(before) + Placing(vtx, |before|, k))
    && q.view.anchors == v.anchors && q.view.bestAnchor == v.bestAnchor
  }

  lemma KeepsStart(rules: Rules, before: seq<Block>, v: View, vtx: seq<Tx>, spent: seq<seq<TxOut>>)
    requires StateReflects(v, before)
    ensures Keeps(rules, before, v, vtx, spent, 0, Start(v))
  {
    hide NotesOf, JoinSplitsOf, Past, CoinsReflect, NullifiersReflect;
    RootAtTop(before, v.bestAnchor);
    assert Past(before) + Placing(vtx, |before|, 0) == Past(before);
  }

  lemma PlacingStep(past: seq<Placed>, vtx: seq<Tx>, height: nat, k: nat)
    requires k < |vtx|
    ensures past + Placing(vtx, height, k + 1) == past + Placing(vtx, height, k) + [Placed(vtx[k], height)]
  {
  }

  lemma KeepsStep(
    rules: Rules, before: seq<Block>, v: View, vtx: seq<Tx>, spent: seq<seq<TxOut>>, k: nat, q: Progress)
    requires k < |vtx| && k < |spent| && Keeps(rules, before, v, vtx, spent, k, q)
    requires StateReflects(v, before) && WellFormedTx(vtx[k]) && vtx[k].hash !in q.view.coins
    requires Step(rules, Some(q), vtx[k], |before|, k == 0).Some?
    requires !vtx[k].IsCoinBase() ==> HaveInputs(q.view.coins, vtx[k].vin)
    requires spent[k] == SpentBy(q.view.coins, vtx[k])
    ensures Keeps(rules, before, v, vtx, spent, k + 1, Step(rules, Some(q), vtx[k], |before|, k == 0).value)
  {
    hide Step, Joins, Fee, Ops, Reflects, SpentBy, WellFormedTx, HaveInputs, CoinsReflect, NullifiersReflect, RootAt, Past,
      KnownRoot, Placing, CanSpend, SpendInputs;
    var past, tx, height := Past(before) + Placing(vtx, |before|, k), vtx[k], |before|;
    AcceptedFacts(rules, q, tx, height, k == 0);
    FormedInputs(tx);
    RootsStay(q.view, v, before);
    AcceptForth(rules, before, past, q, tx, height, k == 0);
    ReflectsStep(rules, q, past, tx, height, k == 0);
    PlacingStep(Past(before), vtx, height, k);
  }

  lemma FormedInputs(tx: Tx)
    requires WellFormedTx(tx)
    ensures DistinctInputs(tx.vin)
  {
  }

  lemma RootsStay(w: View, v: View, before: seq<Block>)
    requires AnchorsReflect(v, before) && w.anchors == v.anchors
    ensures RootsKnown(w, before)
  {
    hide KnownRoot;
  }

  lemma {:induction false} CountsFrame(
    rules: Rules, vtx: seq<Tx>, spent: seq<seq<TxOut>>, more: seq<TxOut>, n: nat)
    requires n <= |vtx| && n <= |spent|
    ensures Fees(vtx, spent + [more], n) == Fees(vtx, spent, n)
    ensures SigOps(rules, vtx, spent + [more], n) == SigOps(rules, vtx, spent, n)
  {
    if n > 0 {
      CountsFrame(rules, vtx, spent, more, n - 1);
    }
  }

  lemma KeepsMore(
    rules: Rules, before: seq<Block>, v: View, vtx: seq<Tx>, spent: seq<seq<TxOut>>, more: seq<TxOut>, q: Progress)
    requires Keeps(rules, before, v, vtx, spent, |spent|, q)
    ensures Keeps(rules, before, v, vtx, spent + [more], |spent|, q)
  {
    hide JoinsAt, Fees, SigOps, Reflects, Past, Placing;
    CountsFrame(rules, vtx, spent, more, |spent|);
    forall i | 0 <= i < |spent|
      ensures JoinsAt(rules, before, vtx, i, (spent + [more])[i])
    {
      assert (spent + [more])[i] == spent[i];
    }
  }

  /** Where a block begins: its transactions are in order by themselves, and the state reflects the chain. */
  ghost predicate Setting(before: seq<Block>, v: View, vtx: seq<Tx>) {
    Ready(Start(v), vtx, |before|) && AllDistinctInputs(vtx) && StateReflects(v, before)
  }

  /** Every transaction that is accepted follows the rules. */
  lemma {:induction false} TxsForth(rules: Rules, before: seq<Block>, v: View, vtx: seq<Tx>, k: nat)
    returns (spent: seq<seq<TxOut>>)
    requires Setting(before, v, vtx) && k <= |vtx|
    requires ConnectTxs(rules, Start(v), vtx[..k], |before|).Some?
    ensures |spent| == k
    ensures Keeps(rules, before, v, vtx, spent, k, ConnectTxs(rules, Start(v), vtx[..k], |before|).value)
  {
    var p, height := Start(v), |before|;
    hide Keeps, StateReflects, Ready, ConnectTxs, Step, WellFormedTx, HaveInputs, CanSpend, UpdateCoins, Start, SpentBy;
    Distincts(vtx);
    if k == 0 {
      spent := [];
      ConnectNone(rules, p, height);
      KeepsStart(rules, before, v, vtx, spent);
    } else {
      ConnectTxsStep(rules, p, vtx, k - 1, height);
      var init := TxsForth(rules, before, v, vtx, k - 1);
      TurnOf(rules, p, vtx, k - 1, height);
      var q := ConnectTxs(rules, p, vtx[..k - 1], height).value;
      var last := SpentBy(q.view.coins, vtx[k - 1]);
      spent := init + [last];
      KeepsMore(rules, before, v, vtx, init, last, q);
      KeepsStep(rules, before, v, vtx, spent, k - 1, q);
    }
  }

  lemma {:induction false} SigOpsGrow(rules: Rules, vtx: seq<Tx>, spent: seq<seq<TxOut>>, m: nat, n: nat)
    requires m <= n <= |vtx| && n <= |spent|
    ensures SigOps(rules, vtx, spent, m) <= SigOps(rules, vtx, spent, n)
  {
    if m < n {
      SigOpsGrow(rules, vtx, spent, m, n - 1);
    }
  }

  /** Transactions that follow the rules are accepted. */
  lemma {:induction false} TxsBack(
    rules: Rules, before: seq<Block>, v: View, vtx: seq<Tx>, spent: seq<seq<TxOut>>, k: nat)
    requires Setting(before, v, vtx) && k <= |vtx| == |spent|
    requires forall i | 0 <= i < |vtx| :: JoinsAt(rules, before, vtx, i, spent[i])
    requires SigOps(rules, vtx, spent, |vtx|) <= 20_000
    ensures ConnectTxs(rules, Start(v), vtx[..k], |before|).Some?
    ensures Keeps(rules, before, v, vtx, spent, k, ConnectTxs(rules, Start(v), vtx[..k], |before|).value)
  {
    var p, height := Start(v), |before|;
    hide Keeps, StateReflects, Ready, ConnectTxs, Step, WellFormedTx, HaveInputs, CanSpend, UpdateCoins, Start, SpentBy,
      JoinsAt, SigOps;
    Distincts(vtx);
    if k == 0 {
      ConnectNone(rules, p, height);
      KeepsStart(rules, before, v, vtx, spent);
    } else {
      TxsBack(rules, before, v, vtx, spent, k - 1);
      SigOpsGrow(rules, vtx, spent, k, |vtx|);
      var q := ConnectTxs(rules, p, vtx[..k - 1], height).value;
      TurnAccepted(rules, before, v, vtx, spent, k - 1, q);
      ConnectTxsStep(rules, p, vtx, k - 1, height);
      TurnOf(rules, p, vtx, k - 1, height);
      KeepsStep(rules, before, v, vtx, spent, k - 1, q);
    }
  }

  lemma TurnAccepted(
    rules: Rules, before: seq<Block>, v: View, vtx: seq<Tx>, spent: seq<seq<TxOut>>, k: nat, q: Progress)
    requires StateReflects(v, before) && AllDistinctInputs(vtx)
    requires k < |vtx| && k < |spent| && Keeps(rules, before, v, vtx, spent, k, q)
    requires JoinsAt(rules, before, vtx, k, spent[k])
    requires SigOps(rules, vtx, spent, k + 1) <= 20_000
    ensures DistinctInputs(vtx[k].vin) && Step(rules, Some(q), vtx[k], |before|, k == 0).Some?
    ensures !vtx[k].IsCoinBase() ==> HaveInputs(q.view.coins, vtx[k].vin)
    ensures spent[k] == SpentBy(q.view.coins, vtx[k])
  {
    hide Step, Joins, Ops, Reflects, SpentBy, HaveInputs, CoinsReflect, NullifiersReflect, RootAt, Past, KnownRoot,
      Placing, DistinctInputs, Fees;
    RootsStay(q.view, v, before);
    AcceptBack(rules, before, Past(before) + Placing(vtx, |before|, k), q, vtx[k], |before|, k == 0, spent[k]);
  }

  // ----- One block -----

  lemma PastSnoc(chain: seq<Block>, b: Block)
    requires chain != []
    ensures Past(chain + [b]) == Past(chain) + Placing(b.vtx, |chain|, |b.vtx|)
  {
    assert (chain + [b])[..|chain|] == chain;
  }

  lemma FinishedReflects(rules: Rules, before: seq<Block>, v: View, b: Block, spent: seq<seq<TxOut>>, q: Progress)
    requires before != [] && StateReflects(v, before)
    requires Keeps(rules, before, v, b.vtx, spent, |b.vtx|, q)
    ensures StateReflects(Finished(q, b), before + [b])
  {
    hide CoinsReflect, NullifiersReflect, NotesOf, JoinSplitsOf, Past, RootAt, KnownRoot, Fees, SigOps, JoinsAt, Placing;
    PastSnoc(before, b);
    AnchorsStep(q.view, before, b, q.tree);
  }

  /** What is checked of a block before its transactions are looked at. */
  lemma SettingOf(rules: Rules, before: seq<Block>, v: View, b: Block)
    requires before != [] && SoundView(v) && StateReflects(v, before) && InjectiveIds(b.vtx)
    requires CheckBlock(rules, b) && NoOverwrite(v.coins, b.vtx)
    ensures Setting(before, v, b.vtx)
  {
    hide StateReflects, WellFormedMap;
    forall i | 0 <= i < |b.vtx|
      ensures WellFormedTx(b.vtx[i]) && DistinctInputs(b.vtx[i].vin)
    {
      assert CheckTransaction(rules, b.vtx[i]);
    }
  }

  lemma ViewIds(before: seq<Block>, v: View, vtx: seq<Tx>)
    requires SoundView(v) && StateReflects(v, before)
    ensures NoOverwrite(v.coins, vtx) <==> NewIds(Past(before), vtx)
  {
    hide NewIds, CoinsReflect, NullifiersReflect, AnchorsReflect, Past, WellFormedMap, NoOverwrite;
    IdsExactly(v.coins, Past(before), vtx);
  }

  lemma BlockForth(rules: Rules, before: seq<Block>, v: View, b: Block)
    requires rules.halvingInterval > 0
    requires before != [] && SoundView(v) && StateReflects(v, before) && InjectiveIds(b.vtx)
    requires b.hash != rules.genesis && ConnectBlock(rules, v, b, |before|).Some?
    ensures Valid(rules, before, b)
    ensures StateReflects(ConnectBlock(rules, v, b, |before|).value.view, before + [b])
  {
    hide StateReflects, InjectiveIds, ConnectTxs, FormedBlock, CheckBlock, NewIds, NoOverwrite, Keeps, Pays, Subsidy,
      JoinsAt, SigOps, Fees, Out, ValueOut, Finished, CheckedTxs, AllDistinctInputs, Setting, SoundView;
    ConnectedParts(rules, v, b, |before|);
    BlockFormed(rules, b);
    SettingOf(rules, before, v, b);
    WholePrefix(b.vtx);
    var q := ConnectTxs(rules, Start(v), b.vtx, |before|).value;
    var spent := TxsForth(rules, before, v, b.vtx, |b.vtx|);
    FinishedReflects(rules, before, v, b, spent, q);
    var reward := Subsidy(|before|, rules.halvingInterval);
    SubsidyExactly(|before|, rules.halvingInterval, reward);
    TotalsAgree(b.vtx[0], []);
    KeepsMeans(rules, before, v, b.vtx, spent, q);
    ViewIds(before, v, b.vtx);
    assert Extends(rules, before, b, spent, reward);
  }

  lemma KeepsMeans(
    rules: Rules, before: seq<Block>, v: View, vtx: seq<Tx>, spent: seq<seq<TxOut>>, q: Progress)
    requires |spent| == |vtx| && Keeps(rules, before, v, vtx, spent, |vtx|, q)
    ensures forall i | 0 <= i < |vtx| :: JoinsAt(rules, before, vtx, i, spent[i])
    ensures q.fees == Fees(vtx, spent, |vtx|) && SigOps(rules, vtx, spent, |vtx|) <= 20_000
  {
    hide JoinsAt, Fees, SigOps, Reflects;
  }

  lemma BlockBack(rules: Rules, before: seq<Block>, v: View, b: Block)
    requires rules.halvingInterval > 0
    requires before != [] && SoundView(v) && StateReflects(v, before) && InjectiveIds(b.vtx)
    requires b.hash != rules.genesis && Valid(rules, before, b)
    ensures ConnectBlock(rules, v, b, |before|).Some?
  {
    hide StateReflects, InjectiveIds, ConnectTxs, FormedBlock, CheckBlock, NewIds, NoOverwrite, Keeps, Pays, Subsidy,
      JoinsAt, SigOps, Fees, Out, ValueOut, AllDistinctInputs, SoundView;
    var spent, reward: nat :| Extends(rules, before, b, spent, reward);
    BlockFormed(rules, b);
    SubsidyExactly(|before|, rules.halvingInterval, reward);
    ViewIds(before, v, b.vtx);
    SettingOf(rules, before, v, b);
    WholePrefix(b.vtx);
    TxsBack(rules, before, v, b.vtx, spent, |b.vtx|);
    KeepsMeans(rules, before, v, b.vtx, spent, ConnectTxs(rules, Start(v), b.vtx, |before|).value);
    TotalsAgree(b.vtx[0], []);
  }

  // ----- Whole chains -----

  lemma NothingHappened(chain: seq<Block>, best: Hash)
    requires |chain| <= 1
    ensures StateReflects(INITIAL_VIEW.(bestBlock := best), chain)
  {
    forall g: nat | g <= |chain|
      ensures Past(chain[..g]) == []
    {
    }
    assert RootAt(chain, |chain|, EMPTY_ROOT);
    forall r
      ensures r in {EMPTY_ROOT} <==> KnownRoot(chain, r)
    {
      if KnownRoot(chain, r) {
        var g: nat :| RootAt(chain, g, r);
        assert r.leaves == [];
      }
    }
  }

  /** Every block of the chain follows the rules, given the blocks before it. */
  ghost predicate FollowsRules(rules: Rules, chain: seq<Block>)
    requires rules.halvingInterval > 0
  {
    forall h | 0 <= h < |chain| :: Valid(rules, chain[..h], chain[h])
  }

  lemma FollowsSnoc(rules: Rules, chain: seq<Block>, b: Block)
    requires rules.halvingInterval > 0
    ensures FollowsRules(rules, chain + [b]) <==> FollowsRules(rules, chain) && Valid(rules, chain, b)
  {
    hide Valid;
    var all := chain + [b];
    assert all[..|chain|] == chain && all[|chain|] == b;
    assert forall h | 0 <= h < |chain| :: all[..h] == chain[..h] && all[h] == chain[h];
    if FollowsRules(rules, chain) && Valid(rules, chain, b) {
      forall h | 0 <= h < |all|
        ensures Valid(rules, all[..h], all[h])
      {
        assert h < |chain| ==> Valid(rules, chain[..h], chain[h]);
      }
    }
    if FollowsRules(rules, all) {
      assert Valid(rules, all[..|chain|], all[|chain|]);
      forall h | 0 <= h < |chain|
        ensures Valid(rules, chain[..h], chain[h])
      {
        assert Valid(rules, all[..h], all[h]);
      }
    }
  }

  lemma GenesisExactly(rules: Rules, b: Block)
    requires rules.halvingInterval > 0 && b.hash == rules.genesis
    ensures ConnectBlock(rules, INITIAL_VIEW, b, 0).Some? <==> Valid(rules, [], b)
    ensures ConnectBlock(rules, INITIAL_VIEW, b, 0).Some? ==>
              ConnectBlock(rules, INITIAL_VIEW, b, 0).value.view == INITIAL_VIEW.(bestBlock := b.hash)
  {
    hide CheckBlock, FormedBlock;
    BlockFormed(rules, b);
  }

  /** A chain connects exactly if each block follows the rules stated on the blocks before it. The state
      is then what the history says it is. */
  lemma {:induction false} ConnectsExactly(rules: Rules, chain: seq<Block>)
    requires rules.halvingInterval > 0 && Linked(rules, chain) && InjectiveBlocks(chain)
    ensures Replay(rules, chain).Some? <==> FollowsRules(rules, chain)
    ensures Replay(rules, chain).Some? ==> StateReflects(Replay(rules, chain).value, chain)
    decreases |chain|
  {
    hide ConnectBlock, StateReflects, Valid, SoundView, Linked, InjectiveBlocks, InjectiveIds;
    if chain == [] {
      NothingHappened([], NULL_HASH);
    } else {
      var init, b := chain[..|chain| - 1], chain[|chain| - 1];
      assert init + [b] == chain;
      LinkedPrefix(rules, init, b);
      ReplayStep(rules, init, b);
      FollowsSnoc(rules, init, b);
      ConnectsExactly(rules, init);
      if init == [] {
        GenesisExactly(rules, b);
        NothingHappened([b], b.hash);
      } else if Replay(rules, init).Some? {
        var v := Replay(rules, init).value;
        ReplaySound(rules, init);
        if ConnectBlock(rules, v, b, |init|).Some? {
          BlockForth(rules, init, v, b);
        } else if Valid(rules, init, b) {
          BlockBack(rules, init, v, b);
        }
      }
    }
  }
}
