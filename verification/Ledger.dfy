/** The rules of the chain, stated on the blocks themselves: which transactions a block may hold, given
    the blocks before it. No coin set, no cache and no undo data occur here. */
module Ledger {
  import opened Primitives
  import opened Numerals
  import Blocks

  const LIMIT := 84_000_000_000_000_000   // 840,000,000 coins
  const REWARD := 5_000_000_000           // 50 coins

  // ----- What has happened so far -----

  /** A transaction and the height of its block. */
  datatype Placed = Placed(tx: Tx, height: nat)

  function Placing(vtx: seq<Tx>, height: nat, n: nat): (r: seq<Placed>)
    requires n <= |vtx|
    ensures |r| == n && forall i | 0 <= i < n :: r[i] == Placed(vtx[i], height)
  {
    if n == 0 then [] else Placing(vtx, height, n - 1) + [Placed(vtx[n - 1], height)]
  }

  /** All transactions of a chain in order, without those of the genesis block. */
  function Past(chain: seq<Block>): seq<Placed> {
    if |chain| <= 1 then []
    else
      var last := |chain| - 1;
      Past(chain[..last]) + Placing(chain[last].vtx, last, |chain[last].vtx|)
  }

  predicate CoinBase(tx: Tx) {
    |tx.vin| == 1 && tx.vin[0].prevout == OutPoint(0, 0xFFFF_FFFF)
  }

  /** Some script might spend it. */
  predicate Lasting(out: TxOut) {
    (out.script == [] || out.script[0] != 0x6a) && |out.script| <= 10_000
  }

  predicate Makes(p: Placed, op: OutPoint) {
    op.hash == p.tx.hash && op.n < |p.tx.vout| && Lasting(p.tx.vout[op.n])
  }

  ghost predicate Uses(tx: Tx, op: OutPoint) {
    !CoinBase(tx) && exists i | 0 <= i < |tx.vin| :: tx.vin[i].prevout == op
  }

  /** Transaction `p` made the output, and none after it has used it. */
  ghost predicate Unspent(past: seq<Placed>, p: nat, op: OutPoint) {
    p < |past| && Makes(past[p], op) && forall q | p < q < |past| :: !Uses(past[q].tx, op)
  }

  ghost predicate Reveals(js: seq<JoinSplit>, nf: Hash) {
    exists k, i | 0 <= k < |js| && 0 <= i < |js[k].nullifiers| :: js[k].nullifiers[i] == nf
  }

  ghost predicate Disclosed(past: seq<Placed>, nf: Hash) {
    exists p | 0 <= p < |past| :: Reveals(past[p].tx.joinSplits, nf)
  }

  function JoinSplitsOf(past: seq<Placed>): seq<JoinSplit> {
    if past == [] then [] else JoinSplitsOf(past[..|past| - 1]) + past[|past| - 1].tx.joinSplits
  }

  /** The notes of the JoinSplits, by position: two for each, in order. */
  ghost predicate NotesOf(notes: Tree, js: seq<JoinSplit>) {
    |notes| == 2 * |js| && forall j | 0 <= j < |js| :: js[j].commitments == [notes[2 * j], notes[2 * j + 1]]
  }

  /** The root of all notes in the first `g` blocks. */
  ghost predicate RootAt(chain: seq<Block>, g: nat, r: Root) {
    g <= |chain| && r.RootOf? && NotesOf(r.leaves, JoinSplitsOf(Past(chain[..g])))
  }

  ghost predicate KnownRoot(chain: seq<Block>, r: Root) {
    exists g: nat :: RootAt(chain, g, r)
  }

  // ----- Amounts -----

  predicate InRange(amount: int) {
    0 <= amount <= LIMIT
  }

  function Worth(outs: seq<TxOut>): int {
    if outs == [] then 0 else outs[0].value + Worth(outs[1..])
  }

  function OldWorth(js: seq<JoinSplit>): int {
    if js == [] then 0 else js[0].pubOld + OldWorth(js[1..])
  }

  function NewWorth(js: seq<JoinSplit>): int {
    if js == [] then 0 else js[0].pubNew + NewWorth(js[1..])
  }

  function Out(tx: Tx): int {
    Worth(tx.vout) + OldWorth(tx.joinSplits)
  }

  function In(tx: Tx, spent: seq<TxOut>): int {
    Worth(spent) + NewWorth(tx.joinSplits)
  }

  /** The reward at a height: 50 coins halved for every interval passed, rounded down, and nothing from the
      64th on. */
  ghost predicate Pays(height: nat, interval: nat, amount: nat)
    requires interval > 0
  {
    var k := height / interval;
    if k >= 64 then amount == 0 else amount * Pow(2, k) <= REWARD < (amount + 1) * Pow(2, k)
  }

  // ----- A transaction by itself -----

  ghost predicate FormedJoinSplit(j: JoinSplit) {
    && InRange(j.pubOld) && InRange(j.pubNew) && (j.pubOld == 0 || j.pubNew == 0)
    && |j.nullifiers| == 2 && |j.commitments| == 2
  }

  /** No nullifier occurs twice. */
  ghost predicate NullifiersDiffer(js: seq<JoinSplit>) {
    forall k, l, i, j | 0 <= k < |js| && 0 <= l < |js| && 0 <= i < |js[k].nullifiers| && 0 <= j < |js[l].nullifiers| ::
      js[k].nullifiers[i] == js[l].nullifiers[j] ==> k == l && i == j
  }

  ghost predicate Formed(rules: Blocks.Rules, tx: Tx) {
    && tx.version >= 1
    && (tx.vin != [] || tx.joinSplits != []) && (tx.vout != [] || tx.joinSplits != [])
    && rules.txSize(tx) <= 100_000
    && (forall i | 0 <= i < |tx.vout| :: InRange(tx.vout[i].value))
    && (forall k | 0 <= k < |tx.joinSplits| :: FormedJoinSplit(tx.joinSplits[k]))
    && InRange(Out(tx)) && InRange(NewWorth(tx.joinSplits))
    && (forall i, j | 0 <= i < j < |tx.vin| :: tx.vin[i].prevout != tx.vin[j].prevout)
    && NullifiersDiffer(tx.joinSplits)
    && (if CoinBase(tx) then tx.joinSplits == [] && 2 <= |tx.vin[0].scriptSig| <= 100
        else forall i | 0 <= i < |tx.vin| :: tx.vin[i].prevout != OutPoint(0, 0xFFFF_FFFF))
    && (tx.joinSplits != [] ==> rules.joinSplitSigned(tx))
  }

  // ----- A transaction in its place -----

  /** A coinbase output is spent no earlier than 100 blocks later and, where that is enforced, into the
      shielded pool only. */
  predicate Mature(rules: Blocks.Rules, source: Placed, tx: Tx, height: nat) {
    CoinBase(source.tx) ==> height - source.height >= 100 && (rules.coinbaseProtected ==> tx.vout == [])
  }

  ghost predicate Funds(rules: Blocks.Rules, past: seq<Placed>, tx: Tx, height: nat, op: OutPoint, out: TxOut) {
    exists p: nat ::
      Unspent(past, p, op) && out == past[p].tx.vout[op.n] && Mature(rules, past[p], tx, height)
  }

  /** The root after the notes of `j` are added to the tree it is anchored in. */
  predicate Follows(j: JoinSplit, r: Root) {
    j.anchor.RootOf? && r == RootOf(j.anchor.leaves + j.commitments)
  }

  ghost predicate JoinSplitJoins(before: seq<Block>, past: seq<Placed>, js: seq<JoinSplit>, k: nat)
    requires k < |js|
  {
    && (forall i | 0 <= i < |js[k].nullifiers| :: !Disclosed(past, js[k].nullifiers[i]))
    && (KnownRoot(before, js[k].anchor) || exists i | 0 <= i < k :: Follows(js[i], js[k].anchor))
  }

  /** The transaction may come after `past`, in the block after `before`; `spent` are the outputs it spends. */
  ghost predicate Joins(rules: Blocks.Rules, before: seq<Block>, past: seq<Placed>, tx: Tx, height: nat, spent: seq<TxOut>) {
    if CoinBase(tx) then spent == []
    else
      && |spent| == |tx.vin|
      && (forall i | 0 <= i < |tx.vin| :: Funds(rules, past, tx, height, tx.vin[i].prevout, spent[i]))
      && (forall k | 0 <= k < |tx.joinSplits| :: JoinSplitJoins(before, past, tx.joinSplits, k))
      && (forall i | 0 <= i < |spent| :: InRange(spent[i].value))
      && InRange(Worth(spent)) && InRange(In(tx, spent)) && In(tx, spent) >= Out(tx)
      && rules.scriptsOk(tx, spent)
  }

  // ----- A block -----

  function Ops(rules: Blocks.Rules, tx: Tx, spent: seq<TxOut>): nat {
    rules.legacySigOps(tx) + if CoinBase(tx) then 0 else rules.p2shSigOps(tx, spent)
  }

  function SigOps(rules: Blocks.Rules, vtx: seq<Tx>, spent: seq<seq<TxOut>>, n: nat): nat
    requires n <= |vtx| && n <= |spent|
  {
    if n == 0 then 0 else SigOps(rules, vtx, spent, n - 1) + Ops(rules, vtx[n - 1], spent[n - 1])
  }

  function Fee(tx: Tx, spent: seq<TxOut>): int {
    if CoinBase(tx) then 0 else In(tx, spent) - Out(tx)
  }

  function Fees(vtx: seq<Tx>, spent: seq<seq<TxOut>>, n: nat): int
    requires n <= |vtx| && n <= |spent|
  {
    if n == 0 then 0 else Fees(vtx, spent, n - 1) + Fee(vtx[n - 1], spent[n - 1])
  }

  /** The block by itself: its first transaction, and only that one, is a coinbase. */
  ghost predicate FormedBlock(rules: Blocks.Rules, block: Block) {
    && rules.checkBlock(block) && |block.vtx| > 0
    && (forall i | 0 <= i < |block.vtx| :: CoinBase(block.vtx[i]) <==> i == 0)
    && (forall i | 0 <= i < |block.vtx| :: Formed(rules, block.vtx[i]))
  }

  /** No transaction of the block has the id of one that still has an unspent output (BIP 30). */
  ghost predicate NewIds(past: seq<Placed>, vtx: seq<Tx>) {
    forall i: nat, p: nat, n: nat | i < |vtx| :: !Unspent(past, p, OutPoint(vtx[i].hash, n))
  }

  /** Transaction `i` may come after `before` and the transactions before it. */
  ghost predicate JoinsAt(rules: Blocks.Rules, before: seq<Block>, vtx: seq<Tx>, i: nat, spent: seq<TxOut>)
    requires i < |vtx|
  {
    Joins(rules, before, Past(before) + Placing(vtx, |before|, i), vtx[i], |before|, spent)
  }

  /** The transactions in their place; `spent` are the outputs that each of them spends. */
  ghost predicate TxsJoin(rules: Blocks.Rules, before: seq<Block>, vtx: seq<Tx>, spent: seq<seq<TxOut>>) {
    && |spent| == |vtx| > 0
    && NewIds(Past(before), vtx)
    && (forall i | 0 <= i < |vtx| :: JoinsAt(rules, before, vtx, i, spent[i]))
    && SigOps(rules, vtx, spent, |vtx|) <= 20_000
  }

  /** The block in its place: its coinbase claims no more than the fees and the reward. */
  ghost predicate Extends(
    rules: Blocks.Rules, before: seq<Block>, block: Block, spent: seq<seq<TxOut>>, reward: nat)
    requires rules.halvingInterval > 0
  {
    && TxsJoin(rules, before, block.vtx, spent)
    && Pays(|before|, rules.halvingInterval, reward)
    && Out(block.vtx[0]) <= Fees(block.vtx, spent, |block.vtx|) + reward
  }

  /** `block` may come after `before`. Of the genesis block only the form matters. */
  ghost predicate Valid(rules: Blocks.Rules, before: seq<Block>, block: Block)
    requires rules.halvingInterval > 0
  {
    FormedBlock(rules, block) && (before == [] || exists spent, reward: nat :: Extends(rules, before, block, spent, reward))
  }
}
