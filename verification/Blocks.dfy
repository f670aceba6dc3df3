/** Connecting a block to a chain state and disconnecting it again, on effective states. */
module Blocks {
  import opened Primitives
  import opened Coins
  import opened ChainView

  const MAX_BLOCK_SIGOPS: nat := 20_000
  const COINBASE_MATURITY := 100
  const MIN_TX_VERSION := 1

  /** The consensus parameters, and the checks this model leaves uninterpreted. */
  datatype Rules = Rules(
    genesis: Hash,
    checkBlock: Block -> bool,             // header, work, Merkle root, block size, proofs
    txSize: Tx -> nat,                     // serialised
    joinSplitSigned: Tx -> bool,           // the signature over the JoinSplits verifies
    legacySigOps: Tx -> nat,
    p2shSigOps: (Tx, seq<TxOut>) -> nat,
    scriptsOk: (Tx, seq<TxOut>) -> bool,   // every input's script verifies against the output it spends
    coinbaseProtected: bool,
    halvingInterval: nat)

  // ----- Amounts -----

  /** `amount >> k` */
  function ShiftRight(amount: nat, k: nat): nat {
    if k == 0 then amount else ShiftRight(amount, k - 1) / 2
  }

  const INITIAL_SUBSIDY: nat := 50 * COIN

  /** The subsidy after `k` halvings; a shift by 64 or more is undefined and counts as zero. */
  function Halved(k: nat): nat {
    if k >= 64 then 0 else ShiftRight(INITIAL_SUBSIDY, k)
  }

  /** The reward for the block at `height`. */
  function Subsidy(height: nat, interval: nat): nat
    requires interval > 0
  {
    Halved(height / interval)
  }

  function SumOuts(outs: seq<TxOut>): int {
    if outs == [] then 0 else SumOuts(outs[..|outs| - 1]) + outs[|outs| - 1].value
  }

  function SumPubOld(js: seq<JoinSplit>): int {
    if js == [] then 0 else SumPubOld(js[..|js| - 1]) + js[|js| - 1].pubOld
  }

  function SumPubNew(js: seq<JoinSplit>): int {
    if js == [] then 0 else SumPubNew(js[..|js| - 1]) + js[|js| - 1].pubNew
  }

  /** What a transaction takes out of the transparent pool: its outputs and its `pubOld` values. */
  function ValueOut(tx: Tx): int {
    SumOuts(tx.vout) + SumPubOld(tx.joinSplits)
  }

  function AllNullifiers(js: seq<JoinSplit>): seq<Hash> {
    if js == [] then [] else AllNullifiers(js[..|js| - 1]) + js[|js| - 1].nullifiers
  }

  function AllCommitments(js: seq<JoinSplit>): seq<Hash> {
    if js == [] then [] else AllCommitments(js[..|js| - 1]) + js[|js| - 1].commitments
  }

  // ----- Context-free transaction checks -----

  predicate WellFormedJoinSplit(j: JoinSplit) {
    && MoneyRange(j.pubOld)
    && MoneyRange(j.pubNew)
    && (j.pubOld == 0 || j.pubNew == 0)
    && |j.nullifiers| == 2
    && |j.commitments| == 2
  }

  ghost predicate WellFormedTx(tx: Tx) {
    && tx.version >= MIN_TX_VERSION
    && (tx.vin != [] || tx.joinSplits != [])
    && (tx.vout != [] || tx.joinSplits != [])
    && (forall i | 0 <= i < |tx.vout| :: MoneyRange(tx.vout[i].value))
    && (forall i | 0 <= i < |tx.joinSplits| :: WellFormedJoinSplit(tx.joinSplits[i]))
    && MoneyRange(ValueOut(tx))
    && MoneyRange(SumPubNew(tx.joinSplits))
    && DistinctInputs(tx.vin)
    && Distinct(AllNullifiers(tx.joinSplits))
    && (if tx.IsCoinBase() then
          tx.joinSplits == [] && 2 <= |tx.vin[0].scriptSig| <= 100
        else
          forall i | 0 <= i < |tx.vin| :: !tx.vin[i].prevout.IsNull())
  }

  const MAX_TX_SIZE := 100_000

  /** All that `CheckTransaction` asks for. */
  ghost predicate CheckTransaction(rules: Rules, tx: Tx) {
    WellFormedTx(tx) && rules.txSize(tx) <= MAX_TX_SIZE && (tx.joinSplits != [] ==> rules.joinSplitSigned(tx))
  }

  ghost predicate CheckBlock(rules: Rules, block: Block) {
    && rules.checkBlock(block)
    && |block.vtx| > 0
    && block.vtx[0].IsCoinBase()
    && (forall i | 0 < i < |block.vtx| :: !block.vtx[i].IsCoinBase())
    && (forall i | 0 <= i < |block.vtx| :: CheckTransaction(rules, block.vtx[i]))
  }

  // ----- Transaction checks against a state -----

  /** The anchor under which a later JoinSplit of the same transaction may spend the notes of `j`. */
  function RootAfter(j: JoinSplit): Root {
    if j.anchor.RootOf? then RootOf(j.anchor.leaves + j.commitments) else NullRoot
  }

  predicate JoinSplitOk(v: View, js: seq<JoinSplit>, k: nat)
    requires k < |js|
  {
    && (forall i | 0 <= i < |js[k].nullifiers| :: js[k].nullifiers[i] !in v.nullifiers)
    && (js[k].anchor in v.anchors || exists i | 0 <= i < k :: js[k].anchor == RootAfter(js[i]))
  }

  predicate JoinSplitsOk(v: View, js: seq<JoinSplit>) {
    forall k | 0 <= k < |js| :: JoinSplitOk(v, js, k)
  }

  /** The outputs that `vin` refers to, in order. */
  function SpentOutputs(m: CoinMap, vin: seq<TxIn>): seq<TxOut>
    requires HaveInputs(m, vin)
  {
    if vin == [] then []
    else
      var op := vin[|vin| - 1].prevout;
      SpentOutputs(m, vin[..|vin| - 1]) + [m[op.hash].outs[op.n]]
  }

  lemma {:induction false} SpentOutputsAt(m: CoinMap, vin: seq<TxIn>)
    requires HaveInputs(m, vin)
    ensures |SpentOutputs(m, vin)| == |vin|
    ensures forall i | 0 <= i < |vin| ::
              SpentOutputs(m, vin)[i] == m[vin[i].prevout.hash].outs[vin[i].prevout.n]
  {
    hide Available;
    if vin != [] {
      var init := vin[..|vin| - 1];
      SpentOutputsAt(m, init);
      assert forall i | 0 <= i < |init| :: init[i] == vin[i];
    }
  }

  function ValueIn(m: CoinMap, tx: Tx): int
    requires HaveInputs(m, tx.vin)
  {
    SumOuts(SpentOutputs(m, tx.vin)) + SumPubNew(tx.joinSplits)
  }

  predicate MatureInput(rules: Rules, m: CoinMap, tx: Tx, op: OutPoint, height: int)
    requires Available(m, op)
  {
    m[op.hash].coinBase ==>
      height - m[op.hash].height >= COINBASE_MATURITY && (rules.coinbaseProtected ==> tx.vout == [])
  }

  predicate CheckTxInputs(rules: Rules, v: View, tx: Tx, height: int) {
    && HaveInputs(v.coins, tx.vin)
    && JoinSplitsOk(v, tx.joinSplits)
    && (forall i | 0 <= i < |tx.vin| :: MatureInput(rules, v.coins, tx, tx.vin[i].prevout, height))
    && (forall i | 0 <= i < |tx.vin| ::
          MoneyRange(v.coins[tx.vin[i].prevout.hash].outs[tx.vin[i].prevout.n].value))
    && MoneyRange(SumOuts(SpentOutputs(v.coins, tx.vin)))
    && MoneyRange(ValueIn(v.coins, tx))
    && ValueIn(v.coins, tx) >= ValueOut(tx)
  }

  // ----- Connecting -----

  /** What `ConnectBlock` carries from one transaction to the next. */
  datatype Progress = Progress(view: View, undos: seq<TxUndo>, fees: int, sigOps: nat, tree: Tree)

  predicate AcceptTx(rules: Rules, p: Progress, tx: Tx, height: int) {
    && p.sigOps + rules.legacySigOps(tx) <= MAX_BLOCK_SIGOPS
    && (!tx.IsCoinBase() ==>
          && CheckTxInputs(rules, p.view, tx, height)
          && var outs := SpentOutputs(p.view.coins, tx.vin);
             p.sigOps + rules.legacySigOps(tx) + rules.p2shSigOps(tx, outs) <= MAX_BLOCK_SIGOPS
             && rules.scriptsOk(tx, outs))
  }

  /** `UpdateCoins`: spends the inputs, reveals the nullifiers, adds the outputs. */
  function UpdateCoins(v: View, tx: Tx, height: int): (View, TxUndo)
    requires !tx.IsCoinBase() ==> CanSpend(v.coins, tx.vin)
  {
    var (coins, undo) := if tx.IsCoinBase() then (v.coins, []) else SpendInputs(v.coins, tx.vin);
    (v.(coins := Store(coins, tx.hash, FromTx(tx, height)),
        nullifiers := v.nullifiers + ToSet(AllNullifiers(tx.joinSplits))),
     undo)
  }

  lemma AcceptedCanSpend(rules: Rules, p: Progress, tx: Tx, height: int)
    requires DistinctInputs(tx.vin) && AcceptTx(rules, p, tx, height)
    ensures !tx.IsCoinBase() ==> HaveInputs(p.view.coins, tx.vin) && CanSpend(p.view.coins, tx.vin)
  {
    if !tx.IsCoinBase() {
      DistinctInputsCanBeSpent(p.view.coins, tx.vin);
    }
  }

  function FeesAfter(p: Progress, tx: Tx): int
    requires !tx.IsCoinBase() ==> HaveInputs(p.view.coins, tx.vin)
  {
    if tx.IsCoinBase() then p.fees else p.fees + ValueIn(p.view.coins, tx) - ValueOut(tx)
  }

  function SigOpsAfter(rules: Rules, p: Progress, tx: Tx): nat
    requires !tx.IsCoinBase() ==> HaveInputs(p.view.coins, tx.vin)
  {
    p.sigOps + rules.legacySigOps(tx) +
      if tx.IsCoinBase() then 0 else rules.p2shSigOps(tx, SpentOutputs(p.view.coins, tx.vin))
  }

  function ApplyTx(rules: Rules, p: Progress, tx: Tx, height: int, first: bool): Progress
    requires DistinctInputs(tx.vin) && AcceptTx(rules, p, tx, height)
  {
    AcceptedCanSpend(rules, p, tx, height);
    var (view, undo) := UpdateCoins(p.view, tx, height);
    Progress(view, if first then p.undos else p.undos + [undo],
             FeesAfter(p, tx), SigOpsAfter(rules, p, tx), p.tree + AllCommitments(tx.joinSplits))
  }

  ghost predicate AllDistinctInputs(vtx: seq<Tx>) {
    forall i | 0 <= i < |vtx| :: DistinctInputs(vtx[i].vin)
  }

  /** One transaction further; None once one is rejected. */
  function Step(rules: Rules, p: Option<Progress>, tx: Tx, height: int, first: bool): Option<Progress>
    requires DistinctInputs(tx.vin)
  {
    if p.Some? && AcceptTx(rules, p.value, tx, height) then
      Some(ApplyTx(rules, p.value, tx, height, first))
    else
      None
  }

  /** Connects the transactions in order; None as soon as one is rejected. */
  ghost function ConnectTxs(rules: Rules, p: Progress, vtx: seq<Tx>, height: int): Option<Progress>
    requires AllDistinctInputs(vtx)
    decreases |vtx|
  {
    if vtx == [] then Some(p)
    else
      var last := |vtx| - 1;
      Step(rules, ConnectTxs(rules, p, vtx[..last], height), vtx[last], height, last == 0)
  }

  /** No transaction of the block has the id of a transaction with unspent outputs (BIP 30). */
  predicate NoOverwrite(m: CoinMap, vtx: seq<Tx>) {
    forall i | 0 <= i < |vtx| :: vtx[i].hash !in m
  }

  function Start(v: View): Progress {
    Progress(v, [], 0, 0, if v.bestAnchor.RootOf? then v.bestAnchor.leaves else [])
  }

  datatype Connected = Connected(view: View, undo: Option<BlockUndo>)

  /** The state after connecting `block` at `height`, with its undo data; None when it is rejected. */
  ghost function ConnectBlock(rules: Rules, v: View, block: Block, height: nat): Option<Connected>
    requires rules.halvingInterval > 0
  {
    if !CheckBlock(rules, block) then None
    else if block.hash == rules.genesis then
      Some(Connected(v.(bestBlock := block.hash), None))
    else if !NoOverwrite(v.coins, block.vtx) then None
    else
      match ConnectTxs(rules, Start(v), block.vtx, height)
      case None => None
      case Some(p) =>
        if ValueOut(block.vtx[0]) > p.fees + Subsidy(height, rules.halvingInterval) then None
        else
          Some(Connected(PushAnchor(p.view, p.tree).(bestBlock := block.hash),
                         Some(BlockUndo(p.undos, v.bestAnchor))))
  }

  // ----- Disconnecting -----

  /** Versions below zero are not kept on disk, so they do not count in the comparison. */
  function Versioned(found: Coins, expected: Coins): Coins {
    if expected.version < 0 then found.(version := expected.version) else found
  }

  /** The state has exactly the outputs that `tx` created. */
  predicate MatchesOutputs(m: CoinMap, tx: Tx, height: int) {
    var expected := FromTx(tx, height);
    SameCoins(Versioned(Lookup(m, tx.hash).ClearUnspendable(), expected), expected)
  }

  /** Takes one transaction back; None when the state does not match it or its undo data. */
  function UndoTx(v: View, tx: Tx, height: int, undo: Option<TxUndo>): Option<View> {
    if !MatchesOutputs(v.coins, tx, height) then None
    else
      var w := v.(coins := v.coins - {tx.hash},
                  nullifiers := v.nullifiers - ToSet(AllNullifiers(tx.joinSplits)));
      match undo
      case None => Some(w)
      case Some(us) =>
        if |us| != |tx.vin| then None
        else
          match UndoInputs(w.coins, tx.vin, us)
          case None => None
          case Some(m) => Some(w.(coins := m))
  }

  /** Takes the transactions back, the last one first; only the first has no undo data. */
  function UndoTxs(v: View, vtx: seq<Tx>, undos: seq<TxUndo>, height: int): Option<View>
    requires |undos| == if |vtx| > 0 then |vtx| - 1 else 0
    decreases |vtx|
  {
    if vtx == [] then Some(v)
    else
      var last := |vtx| - 1;
      match UndoTx(v, vtx[last], height, if last > 0 then Some(undos[last - 1]) else None)
      case None => None
      case Some(w) => UndoTxs(w, vtx[..last], if last > 0 then undos[..last - 1] else [], height)
  }

  /** The state before `block`, when everything found is as connecting it left it (`fClean`). */
  function DisconnectBlock(v: View, block: Block, undo: BlockUndo, height: nat): Option<View> {
    if |undo.txs| + 1 != |block.vtx| then None
    else
      match UndoTxs(v, block.vtx, undo.txs, height)
      case None => None
      case Some(w) => Some(PopAnchor(w, undo.oldRoot).(bestBlock := block.hashPrev))
  }

  lemma Distincts(vtx: seq<Tx>)
    requires AllDistinctInputs(vtx)
    ensures forall i | 0 <= i < |vtx| :: DistinctInputs(vtx[i].vin)
    ensures forall i | 0 <= i <= |vtx| :: AllDistinctInputs(vtx[..i])
  {
    hide DistinctInputs;
  }

  lemma ConnectNone(rules: Rules, p: Progress, height: int)
    ensures ConnectTxs(rules, p, [], height) == Some(p)
  {
  }
}
