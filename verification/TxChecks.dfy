/** The context-free transaction and block checks (`CheckTransaction`, `CheckBlock`). */
module TxChecks {
  import opened Primitives
  import opened ChainView
  import opened Blocks

  // ----- Running totals -----

  ghost predicate ValuesInRange(outs: seq<TxOut>) {
    forall i | 0 <= i < |outs| :: MoneyRange(outs[i].value)
  }

  ghost predicate JoinSplitsWellFormed(js: seq<JoinSplit>) {
    forall i | 0 <= i < |js| :: WellFormedJoinSplit(js[i])
  }

  /** A total only grows, so a prefix that is too large makes the whole too large. */
  lemma {:induction false} SumOutsPrefix(outs: seq<TxOut>, k: nat)
    requires k <= |outs| && ValuesInRange(outs)
    ensures 0 <= SumOuts(outs[..k]) <= SumOuts(outs)
    decreases |outs|
  {
    if k == |outs| {
      WholePrefix(outs);
      if k > 0 {
        SumOutsPrefix(outs[..k - 1], k - 1);
        WholePrefix(outs[..k - 1]);
      }
    } else {
      var init := outs[..|outs| - 1];
      SumOutsPrefix(init, k);
      assert init[..k] == outs[..k];
    }
  }

  lemma {:induction false} SumPubOldPrefix(js: seq<JoinSplit>, k: nat)
    requires k <= |js| && JoinSplitsWellFormed(js)
    ensures 0 <= SumPubOld(js[..k]) <= SumPubOld(js)
    decreases |js|
  {
    if k == |js| {
      WholePrefix(js);
      if k > 0 {
        SumPubOldPrefix(js[..k - 1], k - 1);
        WholePrefix(js[..k - 1]);
      }
    } else {
      var init := js[..|js| - 1];
      SumPubOldPrefix(init, k);
      assert init[..k] == js[..k];
    }
  }

  lemma {:induction false} SumPubNewPrefix(js: seq<JoinSplit>, k: nat)
    requires k <= |js| && JoinSplitsWellFormed(js)
    ensures 0 <= SumPubNew(js[..k]) <= SumPubNew(js)
    decreases |js|
  {
    if k == |js| {
      WholePrefix(js);
      if k > 0 {
        SumPubNewPrefix(js[..k - 1], k - 1);
        WholePrefix(js[..k - 1]);
      }
    } else {
      var init := js[..|js| - 1];
      SumPubNewPrefix(init, k);
      assert init[..k] == js[..k];
    }
  }

  /** Output values, one by one, with the running total. */
  method CheckOutputs(outs: seq<TxOut>) returns (ok: bool, total: int)
    ensures ok <==> ValuesInRange(outs) && MoneyRange(SumOuts(outs))
    ensures ok ==> total == SumOuts(outs)
  {
    ok, total := true, 0;
    for i := 0 to |outs|
      invariant total == SumOuts(outs[..i]) && 0 <= total <= MAX_MONEY
      invariant ValuesInRange(outs[..i])
    {
      PrefixSnoc(outs, i);
      if outs[i].value < 0 || outs[i].value > MAX_MONEY {
        assert !ValuesInRange(outs);
        return false, total;
      }
      total := total + outs[i].value;
      if !MoneyRange(total) {
        if ValuesInRange(outs) {
          SumOutsPrefix(outs, i + 1);
        }
        return false, total;
      }
    }
    WholePrefix(outs);
  }

  /** JoinSplit values, with the running total of outputs and `pubOld`. */
  method CheckPubOld(js: seq<JoinSplit>, start: int) returns (ok: bool)
    requires MoneyRange(start)
    ensures ok <==> JoinSplitsWellFormed(js) && MoneyRange(start + SumPubOld(js))
  {
    var total := start;
    for i := 0 to |js|
      invariant total == start + SumPubOld(js[..i]) && MoneyRange(total)
      invariant JoinSplitsWellFormed(js[..i])
    {
      PrefixSnoc(js, i);
      if !WellFormedJoinSplit(js[i]) {
        assert !JoinSplitsWellFormed(js);
        return false;
      }
      total := total + js[i].pubOld;
      if !MoneyRange(total) {
        if JoinSplitsWellFormed(js) {
          SumPubOldPrefix(js, i + 1);
        }
        return false;
      }
    }
    WholePrefix(js);
    ok := true;
  }

  method CheckPubNew(js: seq<JoinSplit>) returns (ok: bool)
    requires JoinSplitsWellFormed(js)
    ensures ok <==> MoneyRange(SumPubNew(js))
  {
    var total := 0;
    for i := 0 to |js|
      invariant total == SumPubNew(js[..i]) && MoneyRange(total)
    {
      PrefixSnoc(js, i);
      total := total + js[i].pubNew;
      if !MoneyRange(total) {
        SumPubNewPrefix(js, i + 1);
        return false;
      }
    }
    WholePrefix(js);
    ok := true;
  }

  // ----- Duplicates -----

  method CheckDistinctInputs(vin: seq<TxIn>) returns (ok: bool)
    ensures ok <==> DistinctInputs(vin)
  {
    var seen: set<OutPoint> := {};
    for i := 0 to |vin|
      invariant seen == set j | 0 <= j < i :: vin[j].prevout
      invariant forall j, k | 0 <= j < k < i :: vin[j].prevout != vin[k].prevout
    {
      if vin[i].prevout in seen {
        return false;
      }
      seen := seen + {vin[i].prevout};
    }
    ok := true;
  }

  method CheckDistinctHashes(s: seq<Hash>) returns (ok: bool)
    ensures ok <==> Distinct(s)
  {
    var seen: set<Hash> := {};
    for i := 0 to |s|
      invariant seen == set j | 0 <= j < i :: s[j]
      invariant forall j, k | 0 <= j < k < i :: s[j] != s[k]
    {
      if s[i] in seen {
        return false;
      }
      seen := seen + {s[i]};
    }
    ok := true;
  }

  // ----- The checks together -----

  method CheckTransaction(rules: Rules, tx: Tx) returns (ok: bool)
    ensures ok <==> Blocks.CheckTransaction(rules, tx)
  {
    if tx.version < MIN_TX_VERSION ||
       (tx.vin == [] && tx.joinSplits == []) || (tx.vout == [] && tx.joinSplits == []) {
      return false;
    }
    if rules.txSize(tx) > MAX_TX_SIZE {
      return false;
    }
    var valuesOk := CheckValues(tx);
    if !valuesOk {
      return false;
    }
    var inputsOk := CheckDistinctInputs(tx.vin);
    var nullifiersOk := CheckDistinctHashes(AllNullifiers(tx.joinSplits));
    if !inputsOk || !nullifiersOk {
      return false;
    }
    if tx.IsCoinBase() {
      ok := tx.joinSplits == [] && 2 <= |tx.vin[0].scriptSig| <= 100;
    } else {
      ok := forall i | 0 <= i < |tx.vin| :: !tx.vin[i].prevout.IsNull();
      if tx.joinSplits != [] {
        ok := ok && rules.joinSplitSigned(tx);
      }
    }
  }

  method CheckValues(tx: Tx) returns (ok: bool)
    ensures ok <==>
              && ValuesInRange(tx.vout)
              && JoinSplitsWellFormed(tx.joinSplits)
              && MoneyRange(ValueOut(tx))
              && MoneyRange(SumPubNew(tx.joinSplits))
  {
    var total;
    ok, total := CheckOutputs(tx.vout);
    TotalsGrow(tx);
    if ok {
      ok := CheckPubOld(tx.joinSplits, total);
      if ok {
        ok := CheckPubNew(tx.joinSplits);
      }
    }
  }

  lemma TotalsGrow(tx: Tx)
    ensures ValuesInRange(tx.vout) && JoinSplitsWellFormed(tx.joinSplits) ==> 0 <= SumOuts(tx.vout) <= ValueOut(tx)
  {
    if ValuesInRange(tx.vout) && JoinSplitsWellFormed(tx.joinSplits) {
      SumOutsPrefix(tx.vout, |tx.vout|);
      WholePrefix(tx.vout);
      SumPubOldPrefix(tx.joinSplits, |tx.joinSplits|);
      WholePrefix(tx.joinSplits);
    }
  }

  method CheckBlock(rules: Rules, block: Block) returns (ok: bool)
    ensures ok <==> Blocks.CheckBlock(rules, block)
  {
    hide Blocks.CheckTransaction;
    if !rules.checkBlock(block) || |block.vtx| == 0 || !block.vtx[0].IsCoinBase() {
      return false;
    }
    for i := 1 to |block.vtx|
      invariant forall j | 0 < j < i :: !block.vtx[j].IsCoinBase()
    {
      if block.vtx[i].IsCoinBase() {
        return false;
      }
    }
    for i := 0 to |block.vtx|
      invariant forall j | 0 <= j < i :: Blocks.CheckTransaction(rules, block.vtx[j])
    {
      var txOk := CheckTransaction(rules, block.vtx[i]);
      if !txOk {
        return false;
      }
    }
    ok := true;
  }
}
