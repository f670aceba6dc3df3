/** The effective chain state, independent of how caches hold it, and the elementary
    changes that transactions make to it. */
module ChainView {
  import opened Primitives
  import opened Coins

  /** Unspent outputs by transaction id. A fully spent transaction has no entry. */
  type CoinMap = map<Hash, Coins>

  datatype View = View(
    coins: CoinMap,
    nullifiers: set<Hash>,
    anchors: set<Root>,
    bestAnchor: Root,
    bestBlock: Hash)

  function Lookup(m: CoinMap, h: Hash): Coins {
    if h in m then m[h] else EMPTY_COINS
  }

  function Store(m: CoinMap, h: Hash, c: Coins): CoinMap {
    if c.IsPruned() then m - {h} else m[h := c]
  }

  predicate Available(m: CoinMap, op: OutPoint) {
    op.hash in m && m[op.hash].IsAvailable(op.n)
  }

  /** The coins of every entry: cleaned, not fully spent, created above the genesis block,
      and with nothing left in a nulled output. */
  ghost predicate WellFormedCoins(c: Coins) {
    && |c.outs| > 0
    && !c.outs[|c.outs| - 1].IsNull()
    && (forall i | 0 <= i < |c.outs| && c.outs[i].IsNull() :: c.outs[i] == NULL_OUT)
    && c.height >= 1
  }

  ghost predicate WellFormedMap(m: CoinMap) {
    forall h | h in m :: WellFormedCoins(m[h])
  }

  // ----- Undo data -----

  /** What is needed to bring one spent output back. A non-zero height says that it was the
      last unspent output of its transaction, whose metadata is then recorded as well. */
  datatype TxInUndo = TxInUndo(out: TxOut, coinBase: bool, height: int, version: int)

  type TxUndo = seq<TxInUndo>

  datatype BlockUndo = BlockUndo(txs: seq<TxUndo>, oldRoot: Root)

  // ----- Spending inputs and undoing it -----

  function UndoFor(before: Coins, n: nat): TxInUndo
    requires before.IsAvailable(n)
  {
    var after := before.Spend(n).0;
    if |after.outs| == 0 then
      TxInUndo(before.outs[n], before.coinBase, before.height, before.version)
    else
      TxInUndo(before.outs[n], false, 0, 0)
  }

  function SpendInput(m: CoinMap, op: OutPoint): (CoinMap, TxInUndo)
    requires Available(m, op)
  {
    var c := m[op.hash];
    (Store(m, op.hash, c.Spend(op.n).0), UndoFor(c, op.n))
  }

  /** Every input finds its output unspent, in turn. */
  predicate CanSpend(m: CoinMap, vin: seq<TxIn>)
    decreases |vin|, 0
  {
    vin == [] ||
    (var init := vin[..|vin| - 1];
     CanSpend(m, init) && Available(SpendInputs(m, init).0, vin[|vin| - 1].prevout))
  }

  function SpendInputs(m: CoinMap, vin: seq<TxIn>): (r: (CoinMap, TxUndo))
    requires CanSpend(m, vin)
    ensures |r.1| == |vin|
    decreases |vin|, 1
  {
    if vin == [] then (m, [])
    else
      var (m1, us) := SpendInputs(m, vin[..|vin| - 1]);
      var (m2, u) := SpendInput(m1, vin[|vin| - 1].prevout);
      (m2, us + [u])
  }

  /** `outs`, lengthened with null outputs so that position `n` exists. */
  function Resized(outs: seq<TxOut>, n: nat): (r: seq<TxOut>)
    ensures |r| == if |outs| < n + 1 then n + 1 else |outs|
    ensures forall i | 0 <= i < |r| :: r[i] == if i < |outs| then outs[i] else NULL_OUT
    decreases n + 1 - |outs|
  {
    if |outs| < n + 1 then Resized(outs + [NULL_OUT], n) else outs
  }

  /** Brings one spent output back; None when the undo data does not fit the state. */
  function UndoInput(m: CoinMap, u: TxInUndo, op: OutPoint): Option<CoinMap> {
    var c := Lookup(m, op.hash);
    if c.IsPruned() != (u.height != 0) then None
    else
      var base := if u.height != 0 then Coins(u.coinBase, [], u.height, u.version) else c;
      if base.IsAvailable(op.n) then None
      else
        var outs := Resized(base.outs, op.n)[op.n := u.out];
        Some(Store(m, op.hash, base.(outs := outs).Cleanup()))
  }

  /** Brings the inputs back, the last one first. */
  function UndoInputs(m: CoinMap, vin: seq<TxIn>, us: TxUndo): Option<CoinMap>
    requires |vin| == |us|
    decreases |vin|
  {
    if vin == [] then Some(m)
    else
      var last := |vin| - 1;
      match UndoInput(m, us[last], vin[last].prevout)
      case None => None
      case Some(m1) => UndoInputs(m1, vin[..last], us[..last])
  }

  // ----- Anchors -----

  function PushAnchor(v: View, tree: Tree): View {
    if v.bestAnchor == RootOf(tree) then v
    else v.(anchors := v.anchors + {RootOf(tree)}, bestAnchor := RootOf(tree))
  }

  function PopAnchor(v: View, root: Root): View {
    if v.bestAnchor == root then v
    else v.(anchors := v.anchors - {v.bestAnchor}, bestAnchor := root)
  }

  // ----- Spending one input is undone -----

  lemma SpendKeepsWellFormed(m: CoinMap, op: OutPoint)
    requires WellFormedMap(m) && Available(m, op)
    ensures WellFormedMap(SpendInput(m, op).0)
  {
    var c := m[op.hash];
    var d := c.Spend(op.n).0;
    if !d.IsPruned() {
      assert |d.outs| > 0;
      forall i | 0 <= i < |d.outs| && d.outs[i].IsNull()
        ensures d.outs[i] == NULL_OUT
      {
        assert d.outs[i] == c.outs[op.n := NULL_OUT][i];
      }
    }
  }

  /** Setting one output of clean coins to null, trimming, lengthening again and setting it
      back gives the same outputs. */
  lemma RespendOuts(outs: seq<TxOut>, n: nat)
    requires n < |outs| && !outs[n].IsNull()
    requires !outs[|outs| - 1].IsNull()
    requires forall i | 0 <= i < |outs| && outs[i].IsNull() :: outs[i] == NULL_OUT
    ensures Resized(Trimmed(outs[n := NULL_OUT]), n)[n := outs[n]] == outs
  {
    var nulled := outs[n := NULL_OUT];
    var t := Trimmed(nulled);
    var r := Resized(t, n)[n := outs[n]];
    if n < |outs| - 1 {
      assert !nulled[|outs| - 1].IsNull();
    }
    assert |r| == |outs|;
    forall i | 0 <= i < |outs|
      ensures r[i] == outs[i]
    {
      if i >= |t| && i != n {
        assert nulled[i].IsNull();
      }
    }
  }

  lemma UndoSpendInput(m: CoinMap, op: OutPoint)
    requires WellFormedMap(m) && Available(m, op)
    ensures var (m1, u) := SpendInput(m, op); UndoInput(m1, u, op) == Some(m)
  {
    hide Store, Coins.Spend, Coins.Cleanup, Coins.IsPruned, Coins.IsAvailable, UndoFor, Resized;
    var c, u := m[op.hash], UndoFor(m[op.hash], op.n);
    var d := c.Spend(op.n).0;
    assert WellFormedCoins(c);
    CleanCoins(c);
    StoreTwice(m, op.hash, d, c);
    UndoSpend(c, op.n);
  }

  /** Storing what was there undoes another store; what is looked up is what was stored. */
  lemma StoreTwice(m: CoinMap, h: Hash, d: Coins, c: Coins)
    requires h in m && m[h] == c && !c.IsPruned()
    ensures Store(Store(m, h, d), h, c) == m
    ensures Lookup(Store(m, h, d), h) == if d.IsPruned() then EMPTY_COINS else d
  {
    hide Coins.IsPruned;
  }

  lemma CleanCoins(c: Coins)
    requires WellFormedCoins(c)
    ensures !c.IsPruned()
  {
    assert !c.outs[|c.outs| - 1].IsNull();
  }

  /** On the coins themselves: the recorded output and metadata bring back what was spent. */
  lemma UndoSpend(c: Coins, n: nat)
    requires WellFormedCoins(c) && c.IsAvailable(n)
    ensures var d, u := c.Spend(n).0, UndoFor(c, n);
            var found := if d.IsPruned() then EMPTY_COINS else d;
            var base := if u.height != 0 then Coins(u.coinBase, [], u.height, u.version) else found;
            && (found.IsPruned() <==> u.height != 0) && !base.IsAvailable(n)
            && base.(outs := Resized(base.outs, n)[n := u.out]).Cleanup() == c
  {
    hide Resized, Trimmed;
    var d, u := c.Spend(n).0, UndoFor(c, n);
    CleanPruned(d);
    RespendOuts(c.outs, n);
    assert c.outs[n := c.outs[n]] == c.outs;
    assert n < |d.outs| ==> d.outs[n] == NULL_OUT;
    TrimmedUnique(c.outs, c.outs);
  }

  lemma SpendInputsKeepsWellFormed(m: CoinMap, vin: seq<TxIn>)
    requires WellFormedMap(m) && CanSpend(m, vin)
    ensures WellFormedMap(SpendInputs(m, vin).0)
  {
    if vin != [] {
      var init := vin[..|vin| - 1];
      SpendInputsKeepsWellFormed(m, init);
      SpendKeepsWellFormed(SpendInputs(m, init).0, vin[|vin| - 1].prevout);
    }
  }

  lemma {:induction false} UndoSpendInputs(m: CoinMap, vin: seq<TxIn>)
    requires WellFormedMap(m) && CanSpend(m, vin)
    ensures var (m1, us) := SpendInputs(m, vin); UndoInputs(m1, vin, us) == Some(m)
  {
    if vin != [] {
      var last := |vin| - 1;
      var init := vin[..last];
      var (m1, us) := SpendInputs(m, init);
      var u := SpendInput(m1, vin[last].prevout).1;
      SpendInputsKeepsWellFormed(m, init);
      UndoSpendInput(m1, vin[last].prevout);
      UndoSpendInputs(m, init);
      assert (us + [u])[..last] == us;
    }
  }

  // ----- Distinct, available inputs can all be spent -----

  ghost predicate DistinctInputs(vin: seq<TxIn>) {
    forall i, j | 0 <= i < j < |vin| :: vin[i].prevout != vin[j].prevout
  }

  predicate HaveInputs(m: CoinMap, vin: seq<TxIn>) {
    forall i | 0 <= i < |vin| :: Available(m, vin[i].prevout)
  }

  /** Spending one outpoint changes the availability of that outpoint only. */
  lemma SpendInputAvailability(m: CoinMap, op: OutPoint, other: OutPoint)
    requires Available(m, op)
    ensures Available(SpendInput(m, op).0, other) <==> Available(m, other) && other != op
    ensures Available(SpendInput(m, op).0, other) ==>
              SpendInput(m, op).0[other.hash].outs[other.n] == m[other.hash].outs[other.n]
  {
    if other.hash == op.hash {
      var c := m[op.hash];
      var nulled := c.outs[op.n := NULL_OUT];
      var d := c.Spend(op.n).0;
      CleanPruned(d);
      assert d.outs == Trimmed(nulled);
      if other != op && c.IsAvailable(other.n) {
        assert !nulled[other.n].IsNull();
        assert other.n < |d.outs|;
        assert d.outs[other.n] == nulled[other.n];
      }
    }
  }

  /** What spending a list of inputs leaves available. */
  lemma {:induction false} SpendInputsAvailability(m: CoinMap, vin: seq<TxIn>, other: OutPoint)
    requires CanSpend(m, vin)
    ensures Available(SpendInputs(m, vin).0, other) <==>
              Available(m, other) && forall i | 0 <= i < |vin| :: vin[i].prevout != other
    ensures Available(SpendInputs(m, vin).0, other) ==>
              SpendInputs(m, vin).0[other.hash].outs[other.n] == m[other.hash].outs[other.n]
  {
    if vin != [] {
      var init := vin[..|vin| - 1];
      SpendInputsAvailability(m, init, other);
      SpendInputAvailability(SpendInputs(m, init).0, vin[|vin| - 1].prevout, other);
      assert forall i | 0 <= i < |init| :: vin[i] == init[i];
    }
  }

  lemma {:induction false} DistinctInputsCanBeSpent(m: CoinMap, vin: seq<TxIn>)
    requires HaveInputs(m, vin) && DistinctInputs(vin)
    ensures CanSpend(m, vin)
  {
    if vin != [] {
      var init := vin[..|vin| - 1];
      DistinctInputsCanBeSpent(m, init);
      SpendInputsAvailability(m, init, vin[|vin| - 1].prevout);
    }
  }

  /** Spending creates no entry. */
  lemma {:induction false} SpendInputsKeys(m: CoinMap, vin: seq<TxIn>)
    requires CanSpend(m, vin)
    ensures SpendInputs(m, vin).0.Keys <= m.Keys
  {
    if vin != [] {
      SpendInputsKeys(m, vin[..|vin| - 1]);
    }
  }
}
