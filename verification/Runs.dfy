/** Whole runs of connecting and disconnecting tips: the chain state is a function of the active chain. */
module Runs {
  import opened Primitives
  import opened ChainView
  import opened Blocks
  import opened Inversion

  /** The chain state before the genesis block. */
  const INITIAL_VIEW := View(map[], {}, {EMPTY_ROOT}, EMPTY_ROOT, NULL_HASH)

  /** Each block names the one before it; only the first is the genesis block. */
  ghost predicate Linked(rules: Rules, chain: seq<Block>) {
    && (forall i | 0 <= i < |chain| :: chain[i].hash == rules.genesis <==> i == 0)
    && (forall i | 0 < i < |chain| :: chain[i].hashPrev == chain[i - 1].hash)
  }

  /** The state reached by connecting the blocks of `chain` in order; None if one is rejected. */
  ghost function Replay(rules: Rules, chain: seq<Block>): Option<View>
    requires rules.halvingInterval > 0
    decreases |chain|
  {
    if chain == [] then Some(INITIAL_VIEW)
    else
      var last := |chain| - 1;
      match Replay(rules, chain[..last])
      case None => None
      case Some(v) =>
        match ConnectBlock(rules, v, chain[last], last)
        case None => None
        case Some(c) => Some(c.view)
  }

  /** Block files, undo files, the active chain and the effective state of the tip's coins view. */
  datatype Node = Node(
    blocks: map<Hash, Block>,
    undo: map<Hash, BlockUndo>,
    chain: seq<Block>,
    view: View)

  function InitialNode(): Node {
    Node(map[], map[], [], INITIAL_VIEW)
  }

  function TipHash(n: Node): Hash {
    if n.chain == [] then NULL_HASH else n.chain[|n.chain| - 1].hash
  }

  datatype Event =
    | StoreBlock(block: Block)   // a block arrives and is written to its file
    | ConnectTip(hash: Hash)
    | DisconnectTip

  /** What the assertions and the callers of the three operations demand. */
  ghost predicate Enabled(rules: Rules, n: Node, e: Event) {
    match e
    case StoreBlock(b) => InjectiveIds(b.vtx)
    case ConnectTip(h) =>
      && h in n.blocks
      && (h == rules.genesis <==> n.chain == [])
      && (n.chain != [] ==> n.blocks[h].hashPrev == TipHash(n))
    case DisconnectTip => n.chain != []
  }

  /** A block is kept under its hash; what is already stored is not replaced. */
  function Stored(n: Node, b: Block): Node {
    if b.hash in n.blocks then n else n.(blocks := n.blocks[b.hash := b])
  }

  /** Connects `n.blocks[h]` on top of the active chain. A rejected block changes nothing; undo
      data that is already on disk is kept. */
  ghost function TipConnected(rules: Rules, n: Node, h: Hash): Node
    requires rules.halvingInterval > 0 && h in n.blocks
  {
    var b := n.blocks[h];
    match ConnectBlock(rules, n.view, b, |n.chain|)
    case None => n
    case Some(c) =>
      n.(view := c.view,
         chain := n.chain + [b],
         undo := if c.undo.None? || h in n.undo then n.undo else n.undo[h := c.undo.value])
  }

  /** Disconnects the tip. Without undo data, or when the state does not match it, nothing changes. */
  function TipDisconnected(n: Node): Node
    requires n.chain != []
  {
    var last := |n.chain| - 1;
    var b := n.chain[last];
    if b.hash !in n.undo then n
    else
      match DisconnectBlock(n.view, b, n.undo[b.hash], last)
      case None => n
      case Some(w) => n.(view := w, chain := n.chain[..last])
  }

  ghost function Apply(rules: Rules, n: Node, e: Event): Node
    requires rules.halvingInterval > 0 && Enabled(rules, n, e)
  {
    match e
    case StoreBlock(b) => Stored(n, b)
    case ConnectTip(h) => TipConnected(rules, n, h)
    case DisconnectTip => TipDisconnected(n)
  }

  // ----- The invariant -----

  ghost predicate FromStore(blocks: map<Hash, Block>, chain: seq<Block>) {
    forall i | 0 <= i < |chain| :: chain[i].hash in blocks && blocks[chain[i].hash] == chain[i]
  }

  /** `undo` is what connecting the last block of `path` produces. */
  ghost predicate ProducedBy(rules: Rules, path: seq<Block>, undo: BlockUndo)
    requires rules.halvingInterval > 0
  {
    && |path| > 1
    && Replay(rules, path[..|path| - 1]).Some?
    && var v := Replay(rules, path[..|path| - 1]).value;
       var c := ConnectBlock(rules, v, path[|path| - 1], |path| - 1);
       c.Some? && c.value.undo == Some(undo)
  }

  ghost predicate PathOf(rules: Rules, blocks: map<Hash, Block>, h: Hash, path: seq<Block>) {
    |path| > 0 && path[|path| - 1].hash == h && Linked(rules, path) && FromStore(blocks, path)
  }

  ghost predicate SoundUndo(rules: Rules, blocks: map<Hash, Block>, undo: map<Hash, BlockUndo>)
    requires rules.halvingInterval > 0
  {
    forall h | h in undo ::
      exists path :: PathOf(rules, blocks, h, path) && ProducedBy(rules, path, undo[h])
  }

  ghost predicate SoundStore(blocks: map<Hash, Block>) {
    forall h | h in blocks :: blocks[h].hash == h && InjectiveIds(blocks[h].vtx)
  }

  ghost predicate Consistent(rules: Rules, n: Node)
    requires rules.halvingInterval > 0
  {
    && SoundStore(n.blocks)
    && FromStore(n.blocks, n.chain)
    && Linked(rules, n.chain)
    && Replay(rules, n.chain) == Some(n.view)
    && SoundView(n.view)
    && n.view.bestBlock == TipHash(n)
    && SoundUndo(rules, n.blocks, n.undo)
    && (forall i | 0 < i < |n.chain| :: n.chain[i].hash in n.undo)
  }

  // ----- Paths are determined by their last hash -----

  lemma {:induction false} PathUnique(rules: Rules, blocks: map<Hash, Block>, h: Hash, p: seq<Block>, q: seq<Block>)
    requires PathOf(rules, blocks, h, p) && PathOf(rules, blocks, h, q)
    ensures p == q
    decreases |p|
  {
    var lp, lq := |p| - 1, |q| - 1;
    assert p[lp] == q[lq];
    if lp > 0 && lq > 0 {
      var h' := p[lp].hashPrev;
      assert p[..lp][lp - 1].hash == h';
      assert q[..lq][lq - 1].hash == h';
      PathUnique(rules, blocks, h', p[..lp], q[..lq]);
    }
    assert p == p[..lp] + [p[lp]];
    assert q == q[..lq] + [q[lq]];
  }

  /** The stored undo data of a block on the active chain, or about to join it, is the right one. */
  lemma UndoOfPath(rules: Rules, blocks: map<Hash, Block>, undo: map<Hash, BlockUndo>, h: Hash, path: seq<Block>)
    requires rules.halvingInterval > 0
    requires SoundUndo(rules, blocks, undo) && h in undo && PathOf(rules, blocks, h, path)
    ensures ProducedBy(rules, path, undo[h])
  {
    var p :| PathOf(rules, blocks, h, p) && ProducedBy(rules, p, undo[h]);
    PathUnique(rules, blocks, h, p, path);
  }

  // ----- Replaying -----

  ghost predicate InjectiveBlocks(chain: seq<Block>) {
    forall i | 0 <= i < |chain| :: InjectiveIds(chain[i].vtx)
  }

  function LastHash(chain: seq<Block>): Hash {
    if chain == [] then NULL_HASH else chain[|chain| - 1].hash
  }

  lemma ReplayStep(rules: Rules, chain: seq<Block>, b: Block)
    requires rules.halvingInterval > 0
    ensures Replay(rules, chain + [b]).Some? <==>
              Replay(rules, chain).Some? && ConnectBlock(rules, Replay(rules, chain).value, b, |chain|).Some?
    ensures Replay(rules, chain + [b]).Some? ==>
              Replay(rules, chain + [b]).value ==
                ConnectBlock(rules, Replay(rules, chain).value, b, |chain|).value.view
  {
    hide ConnectBlock;
    assert (chain + [b])[..|chain|] == chain;
  }

  lemma LinkedPrefix(rules: Rules, chain: seq<Block>, b: Block)
    requires Linked(rules, chain + [b]) && InjectiveBlocks(chain + [b])
    ensures Linked(rules, chain) && InjectiveBlocks(chain) && InjectiveIds(b.vtx)
    ensures b.hash == rules.genesis <==> chain == []
    ensures chain != [] ==> b.hashPrev == LastHash(chain)
  {
    var c := chain + [b];
    assert c[|chain|] == b;
    assert forall i | 0 <= i < |chain| :: c[i] == chain[i];
  }

  /** Connecting one more block to a sound state keeps it sound. */
  lemma ConnectKeepsSound(rules: Rules, v: View, b: Block, height: nat)
    requires rules.halvingInterval > 0 && SoundView(v) && InjectiveIds(b.vtx)
    requires b.hash == rules.genesis <==> height == 0
    requires height > 0 ==> b.hashPrev == v.bestBlock
    requires ConnectBlock(rules, v, b, height).Some?
    ensures var w := ConnectBlock(rules, v, b, height).value.view; SoundView(w) && w.bestBlock == b.hash
    ensures ConnectBlock(rules, v, b, height).value.undo.Some? <==> height > 0
  {
    if height > 0 {
      DisconnectUndoesConnect(rules, v, b, height);
      ConnectedParts(rules, v, b, height);
    }
  }

  lemma {:induction false} ReplaySound(rules: Rules, chain: seq<Block>)
    requires rules.halvingInterval > 0
    requires Linked(rules, chain) && InjectiveBlocks(chain) && Replay(rules, chain).Some?
    ensures SoundView(Replay(rules, chain).value)
    ensures Replay(rules, chain).value.bestBlock == LastHash(chain)
    decreases |chain|
  {
    if chain != [] {
      hide ConnectBlock, SoundView;
      var init, b := chain[..|chain| - 1], chain[|chain| - 1];
      assert init + [b] == chain;
      LinkedPrefix(rules, init, b);
      ReplayStep(rules, init, b);
      ReplaySound(rules, init);
      ConnectKeepsSound(rules, Replay(rules, init).value, b, |init|);
    }
  }

  /** A prefix of a chain that replays, replays. */
  lemma {:induction false} ReplayPrefix(rules: Rules, chain: seq<Block>, k: nat)
    requires rules.halvingInterval > 0
    requires k <= |chain| && Replay(rules, chain).Some?
    ensures Replay(rules, chain[..k]).Some?
    decreases |chain|
  {
    hide ConnectBlock;
    if k == |chain| {
      assert chain[..k] == chain;
    } else {
      ReplayPrefix(rules, chain[..|chain| - 1], k);
      assert chain[..|chain| - 1][..k] == chain[..k];
    }
  }

  // ----- Each event keeps the invariant -----

  lemma StoreKeepsConsistent(rules: Rules, n: Node, b: Block)
    requires rules.halvingInterval > 0 && Consistent(rules, n) && InjectiveIds(b.vtx)
    ensures Consistent(rules, Stored(n, b))
  {
    hide Replay, SoundView, InjectiveIds, ConnectBlock, ProducedBy;
    var m := Stored(n, b);
    forall h | h in m.undo
      ensures exists path :: PathOf(rules, m.blocks, h, path) && ProducedBy(rules, path, m.undo[h])
    {
      var path :| PathOf(rules, n.blocks, h, path) && ProducedBy(rules, path, n.undo[h]);
      assert PathOf(rules, m.blocks, h, path);
    }
  }

  lemma ConnectedUndoSound(rules: Rules, n: Node, h: Hash, undo: BlockUndo)
    requires rules.halvingInterval > 0 && SoundUndo(rules, n.blocks, n.undo)
    requires h in n.blocks && PathOf(rules, n.blocks, h, n.chain + [n.blocks[h]])
    requires n.chain != [] && Replay(rules, n.chain) == Some(n.view)
    requires ConnectBlock(rules, n.view, n.blocks[h], |n.chain|).Some?
    requires ConnectBlock(rules, n.view, n.blocks[h], |n.chain|).value.undo == Some(undo)
    ensures SoundUndo(rules, n.blocks, n.undo[h := undo])
  {
    hide Replay, ConnectBlock, PathOf;
    var path := n.chain + [n.blocks[h]];
    assert path[..|path| - 1] == n.chain;
    assert ProducedBy(rules, path, undo);
    var undos := n.undo[h := undo];
    forall g | g in undos
      ensures exists p :: PathOf(rules, n.blocks, g, p) && ProducedBy(rules, p, undos[g])
    {
      if g != h {
        var p :| PathOf(rules, n.blocks, g, p) && ProducedBy(rules, p, n.undo[g]);
      }
    }
  }

  lemma ConnectKeepsConsistent(rules: Rules, n: Node, h: Hash)
    requires rules.halvingInterval > 0 && Consistent(rules, n) && Enabled(rules, n, ConnectTip(h))
    ensures Consistent(rules, TipConnected(rules, n, h))
    ensures TipConnected(rules, n, h) == n <==> Replay(rules, n.chain + [n.blocks[h]]).None?
  {
    hide ConnectBlock, Replay, SoundView, InjectiveIds, SoundUndo;
    var b := n.blocks[h];
    ReplayStep(rules, n.chain, b);
    if ConnectBlock(rules, n.view, b, |n.chain|).Some? {
      ConnectKeepsSound(rules, n.view, b, |n.chain|);
      var m := TipConnected(rules, n, h);
      assert m.chain[|n.chain|] == b;
      assert forall i | 0 <= i < |n.chain| :: m.chain[i] == n.chain[i];
      assert |m.chain| == |n.chain| + 1;
      var c := ConnectBlock(rules, n.view, b, |n.chain|).value;
      if c.undo.Some? && h !in n.undo {
        ConnectedUndoSound(rules, n, h, c.undo.value);
      }
    }
  }

  /** The genesis block never has undo data. */
  lemma NoGenesisUndo(rules: Rules, n: Node)
    requires rules.halvingInterval > 0 && SoundUndo(rules, n.blocks, n.undo)
    ensures rules.genesis !in n.undo
  {
    hide Replay, ConnectBlock;
    forall h | h in n.undo
      ensures h != rules.genesis
    {
      var path: seq<Block> :| PathOf(rules, n.blocks, h, path) && ProducedBy(rules, path, n.undo[h]);
      assert path[|path| - 1].hash == h;
    }
  }

  /** Disconnecting a tip other than the genesis block always succeeds and leads to the state
      before it. */
  lemma DisconnectReplays(rules: Rules, n: Node)
    requires rules.halvingInterval > 0 && Consistent(rules, n) && |n.chain| > 1
    ensures var last := |n.chain| - 1;
            && TipDisconnected(n).chain == n.chain[..last]
            && Replay(rules, n.chain[..last]) == Some(TipDisconnected(n).view)
            && TipDisconnected(n).undo == n.undo && TipDisconnected(n).blocks == n.blocks
  {
    hide ConnectBlock, Replay, SoundView, InjectiveIds, SoundUndo, DisconnectBlock;
    var last := |n.chain| - 1;
    var init, b := n.chain[..last], n.chain[last];
    assert init + [b] == n.chain;
    UndoOfPath(rules, n.blocks, n.undo, b.hash, n.chain);
    ReplayStep(rules, init, b);
    assert InjectiveBlocks(n.chain);
    LinkedPrefix(rules, init, b);
    ReplaySound(rules, init);
    DisconnectUndoesConnect(rules, Replay(rules, init).value, b, last);
  }

  lemma DisconnectKeepsConsistent(rules: Rules, n: Node)
    requires rules.halvingInterval > 0 && Consistent(rules, n) && n.chain != []
    ensures Consistent(rules, TipDisconnected(n))
  {
    hide ConnectBlock, Replay, SoundView, InjectiveIds, DisconnectBlock;
    if |n.chain| == 1 {
      NoGenesisUndo(rules, n);
    } else {
      DisconnectReplays(rules, n);
      var init, b := n.chain[..|n.chain| - 1], n.chain[|n.chain| - 1];
      assert init + [b] == n.chain;
      assert InjectiveBlocks(n.chain);
      LinkedPrefix(rules, init, b);
      ReplaySound(rules, init);
    }
  }

  lemma ApplyKeepsConsistent(rules: Rules, n: Node, e: Event)
    requires rules.halvingInterval > 0 && Consistent(rules, n) && Enabled(rules, n, e)
    ensures Consistent(rules, Apply(rules, n, e))
  {
    hide Consistent, TipConnected, TipDisconnected, Stored;
    match e
    case StoreBlock(b) => StoreKeepsConsistent(rules, n, b);
    case ConnectTip(h) => ConnectKeepsConsistent(rules, n, h);
    case DisconnectTip => DisconnectKeepsConsistent(rules, n);
  }

  // ----- Whole runs -----

  /** `nodes` are the successive states of a run with the given events. */
  ghost predicate IsRun(rules: Rules, nodes: seq<Node>, events: seq<Event>)
    requires rules.halvingInterval > 0
  {
    && |nodes| == |events| + 1
    && nodes[0] == InitialNode()
    && forall i | 0 <= i < |events| ::
         Enabled(rules, nodes[i], events[i]) && nodes[i + 1] == Apply(rules, nodes[i], events[i])
  }

  lemma InitialConsistent(rules: Rules)
    requires rules.halvingInterval > 0
    ensures Consistent(rules, InitialNode())
  {
  }

  /** In every state of every run, the chain state is the one that connecting the active chain's
      blocks in order from the genesis block gives, whatever was connected, rejected and
      disconnected on the way. */
  lemma {:induction false} RunsReplay(rules: Rules, nodes: seq<Node>, events: seq<Event>, k: nat)
    requires rules.halvingInterval > 0 && IsRun(rules, nodes, events) && k < |nodes|
    ensures Consistent(rules, nodes[k])
    ensures Replay(rules, nodes[k].chain) == Some(nodes[k].view)
  {
    hide Consistent, Apply, Enabled, InitialNode;
    if k == 0 {
      InitialConsistent(rules);
    } else {
      RunsReplay(rules, nodes, events, k - 1);
      ApplyKeepsConsistent(rules, nodes[k - 1], events[k - 1]);
      assert nodes[k - 1 + 1] == Apply(rules, nodes[k - 1], events[k - 1]);
    }
    ConsistentReplays(rules, nodes[k]);
  }

  lemma ConsistentChain(rules: Rules, n: Node)
    requires rules.halvingInterval > 0 && Consistent(rules, n)
    ensures Replay(rules, n.chain) == Some(n.view) && Linked(rules, n.chain) && InjectiveBlocks(n.chain)
  {
    hide Replay, InjectiveIds, SoundView, SoundUndo, Linked;
  }

  lemma ConsistentReplays(rules: Rules, n: Node)
    requires rules.halvingInterval > 0 && Consistent(rules, n)
    ensures Replay(rules, n.chain) == Some(n.view)
  {
  }

  /** Two runs that end with the same active chain end in the same chain state. */
  lemma PathIndependence(
    rules: Rules, nodes: seq<Node>, events: seq<Event>, nodes': seq<Node>, events': seq<Event>, i: nat, j: nat)
    requires rules.halvingInterval > 0
    requires IsRun(rules, nodes, events) && i < |nodes|
    requires IsRun(rules, nodes', events') && j < |nodes'|
    requires nodes[i].chain == nodes'[j].chain
    ensures nodes[i].view == nodes'[j].view
  {
    hide Consistent, Apply, Enabled;
    RunsReplay(rules, nodes, events, i);
    RunsReplay(rules, nodes', events', j);
  }
}
