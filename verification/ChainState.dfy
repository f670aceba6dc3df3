/** The node's chain state: block index, active chain, candidates and the tip's coins, moved along
    the block tree by ConnectTip, DisconnectTip and ActivateBestChain. */
module ChainState {
  import opened Primitives
  import opened ChainView
  import opened Blocks
  import opened Inversion
  import opened Runs
  import opened CoinsCache
  import opened BlockTree
  import opened SkipList
  import opened ActiveChain
  import opened Candidates
  import opened MostWork
  import opened Activation
  import opened Linking
  import opened Arrival
  import Supply
  import TipOps

  /** The index and the block files agree: a block with data is stored under its hash and names its
      parent; only the genesis block is at height 0. */
  ghost predicate TreeOk(rules: Rules, m: BlockMap, blocks: BlockStore) {
    && WellFormed(m)
    && SkipsOk(m)
    && forall h {:trigger StoredOk(rules, m, blocks, h)} | h in m :: StoredOk(rules, m, blocks, h)
  }

  ghost predicate StoredOk(rules: Rules, m: BlockMap, blocks: BlockStore, h: Hash)
    requires h in m
  {
    && (h == rules.genesis <==> m[h].height == 0)
    && (m[h].haveData ==>
          && h in blocks && blocks[h].hash == h
          && blocks[h].hashPrev == if m[h].prev.Some? then m[h].prev.value else NULL_HASH)
  }

  lemma TreeOkFlagged(rules: Rules, m: BlockMap, m': BlockMap, blocks: BlockStore)
    requires TreeOk(rules, m, blocks) && OnlyFlagged(m, m')
    ensures TreeOk(rules, m', blocks)
  {
    FlaggedTree(m, m');
    forall h | h in m'
      ensures StoredOk(rules, m', blocks, h)
    {
      assert StoredOk(rules, m, blocks, h) && FlaggedEntry(m[h], m'[h]);
    }
  }

  /** Appending `h` to the path of its parent gives the path of `h`. */
  lemma PathAppend(m: BlockMap, chain: seq<Hash>, h: Hash)
    requires WellFormed(m) && IsPath(m, chain) && h in m
    requires m[h].prev == if chain == [] then None else Some(chain[|chain| - 1])
    ensures Path(m, h) == chain + [h] && m[h].height == |chain|
    ensures IsPath(m, chain + [h])
  {
    assert LinkOk(m, h);
  }

  lemma BlocksOfSnoc(blocks: BlockStore, chain: seq<Hash>, h: Hash)
    requires h in blocks
    ensures BlocksOf(blocks, chain + [h]) == BlocksOf(blocks, chain) + [blocks[h]]
  {
    assert (chain + [h])[..|chain|] == chain;
  }

  /** What `Consistent` says about the state itself. */
  lemma ConsistentView(rules: Rules, n: Node)
    requires rules.halvingInterval > 0 && Consistent(rules, n)
    ensures n.view.bestBlock == TipHash(n) && n.view.bestAnchor in n.view.anchors
    ensures n.view.bestAnchor != NullRoot && EMPTY_ROOT in n.view.anchors
    ensures n.chain == [] ==> n.view == INITIAL_VIEW
  {
    hide Blocks.ConnectBlock, InjectiveIds, SoundUndo;
  }

  /** The tip may connect the stored block `h` when the index has it as the child of the tip. */
  lemma CanConnect(rules: Rules, m: BlockMap, n: Node, chain: seq<Hash>, h: Hash)
    requires rules.halvingInterval > 0 && TreeOk(rules, m, n.blocks) && IsPath(m, chain)
    requires h in m && m[h].haveData && m[h].prev == if chain == [] then None else Some(chain[|chain| - 1])
    requires ActiveGood(m, chain) && n.chain == BlocksOf(n.blocks, chain)
    ensures h in n.blocks && n.blocks[h].hash == h && h != NULL_HASH
    ensures Enabled(rules, n, ConnectTip(h))
    ensures TipHash(n) == n.blocks[h].hashPrev
    ensures BlocksOf(n.blocks, Path(m, h)) == n.chain + [n.blocks[h]] && |chain| == |n.chain|
  {
    hide BlocksOf, Path, Good;
    PathAppend(m, chain, h);
    assert StoredOk(rules, m, n.blocks, h) && LinkOk(m, h);
    BlocksOfSnoc(n.blocks, chain, h);
    if chain != [] {
      var tip := chain[|chain| - 1];
      GoodAncestor(m, tip, m[tip].height);
      assert StoredOk(rules, m, n.blocks, tip);
    }
  }

  /** Connecting `h` extends a sound index's active chain, or marks `h` as failed. */
  lemma IndexAfterConnect(rules: Rules, m: BlockMap, blocks: BlockStore, chain: seq<Hash>, cands: set<Hash>, h: Hash)
    requires TreeOk(rules, m, blocks) && IsPath(m, chain) && ActiveGood(m, chain) && CandidatesLinked(m, cands)
    requires h in m && EntryGood(m[h]) && m[h].prev == if chain == [] then None else Some(chain[|chain| - 1])
    ensures IsPath(m, chain + [h]) && ActiveGood(m, chain + [h]) && Good(m, h)
  {
    PathAppend(m, chain, h);
    assert LinkOk(m, h);
  }

  lemma IndexAfterFailure(rules: Rules, m: BlockMap, blocks: BlockStore, chain: seq<Hash>, cands: set<Hash>, h: Hash)
    requires TreeOk(rules, m, blocks) && IsPath(m, chain) && ActiveGood(m, chain) && CandidatesLinked(m, cands)
    requires h in m && m[h].height == |chain|
    ensures TreeOk(rules, WithFailed(m, h), blocks) && IsPath(WithFailed(m, h), chain)
    ensures ActiveGood(WithFailed(m, h), chain) && CandidatesLinked(WithFailed(m, h), cands - {h})
  {
    var m' := WithFailed(m, h);
    WithFailedFlags(m, h);
    TreeOkFlagged(rules, m, m', blocks);
    FlaggedTree(m, m');
    IsPathStable(m, m', chain);
    if chain != [] {
      FailedBlock(m, h, chain[|chain| - 1]);
    }
    forall c, k | c in cands - {h} && 0 <= k <= m'[c].height
      ensures LinkedEntry(m'[Ancestor(m', c, k)])
    {
      AncestorStable(m, m', c, k);
      assert LinkedEntry(m[Ancestor(m, c, k)]);
    }
  }

  class State {
    const rules: Rules
    const chainActive: Chain
    const pcoinsTip: CoinsViewCache
    var index: BlockMap
    var blocks: BlockStore
    var undo: map<Hash, BlockUndo>
    var candidates: set<Hash>
    var unlinked: Waiting
    var nextSequenceId: nat

    /** The state of module Runs that this one represents. */
    ghost function AsNode(): Node
      requires pcoinsTip.Shape()
      reads this, chainActive, pcoinsTip.Repr
    {
      Node(blocks, undo, BlocksOf(blocks, chainActive.vChain), pcoinsTip.Effective())
    }

    ghost predicate Apart() {
      && rules.halvingInterval > 0
      && this !in pcoinsTip.Repr
      && chainActive !in pcoinsTip.Repr
      && pcoinsTip.Shape()
      && pcoinsTip.base.Disk?
    }

    ghost predicate CoinsOk()
      requires Apart()
      reads this, chainActive, pcoinsTip.Repr
    {
      && pcoinsTip.Valid()
      && !pcoinsTip.hasModifier
      && Consistent(rules, AsNode())
      && (chainActive.vChain == [] ==> pcoinsTip.BaseView().bestAnchor == EMPTY_ROOT)
    }

    ghost predicate IndexOk()
      reads this, chainActive
    {
      && TreeOk(rules, index, blocks)
      && chainActive.Valid(index)
      && ActiveGood(index, chainActive.vChain)
      && CandidatesLinked(index, candidates)
    }

    /** Holds between any two steps, also in the middle of a reorganisation. */
    ghost predicate Sound()
      reads this, chainActive, pcoinsTip.Repr
    {
      Apart() && CoinsOk() && IndexOk()
    }

    /** What the arrival of headers and data relies on. */
    ghost predicate LinksOk()
      reads this
    {
      && Links(index, unlinked, [])
      && AllLinked(index, candidates)
      && StoreMatches(index, blocks)
      && IdsBelow(index, nextSequenceId)
    }

    /** Nothing but an empty database. */
    constructor (rules: Rules, coins: CoinsViewCache)
      requires rules.halvingInterval > 0
      requires coins.Valid() && !coins.hasModifier && coins.base.Disk?
      requires coins.Effective() == INITIAL_VIEW && coins.BaseView().bestAnchor == EMPTY_ROOT
      ensures Sound() && WellFormed(index) && LinksOk() && Refers(chainActive.Tip())
      ensures chainActive.vChain == [] && index == map[] && candidates == {}
    {
      this.rules := rules;
      pcoinsTip := coins;
      index, blocks, undo := map[], map[], map[];
      candidates, unlinked, nextSequenceId := {}, multiset{}, 1;
      chainActive := new Chain();
      new;
      InitialConsistent(rules);
    }

    /** The coins part of `ConnectTip`. */
    method ConnectCoins(h: Hash) returns (ok: bool)
      requires Apart() && CoinsOk()
      requires h in blocks && blocks[h].hash == h && h != NULL_HASH
      requires Enabled(rules, AsNode(), Event.ConnectTip(h)) && TipHash(AsNode()) == blocks[h].hashPrev
      modifies this`undo, pcoinsTip.Repr
      ensures pcoinsTip.Valid() && !pcoinsTip.hasModifier && pcoinsTip.BaseView() == old(pcoinsTip.BaseView())
      ensures NodeAfter(this, h, ok) == TipConnected(rules, old(AsNode()), h)
      ensures ok <==> Replay(rules, old(AsNode()).chain + [blocks[h]]).Some?
      ensures NodeAfter(this, h, ok).chain == if ok then old(AsNode()).chain + [blocks[h]] else old(AsNode()).chain
      ensures NodeAfter(this, h, ok).view == pcoinsTip.Effective()
      ensures NodeAfter(this, h, ok).blocks == blocks && NodeAfter(this, h, ok).undo == undo
    {
      hide *;
      CoinsReady(this, h);
      ghost var n := AsNode();
      var u;
      ok, u := TipOps.ConnectToTip(rules, pcoinsTip, blocks[h], |chainActive.vChain|);
      if ok && u.Some? && h !in undo {
        undo := undo[h := u.value];
      }
      ConnectedNode(this, n, h, ok, u);
    }

    /** Connects `h` on top of the active chain. A block that is rejected is marked as failed and is
        no longer a candidate. */
    method ConnectTip(h: Hash) returns (ok: bool)
      requires Sound() && h in index && EntryGood(index[h]) && index[h].prev == chainActive.Tip()
      modifies this`index, this`candidates, this`undo, chainActive, pcoinsTip.Repr
      ensures Sound()
      ensures ok <==> Accepted(rules, blocks, old(index), h)
      ensures chainActive.vChain == if ok then old(chainActive.vChain) + [h] else old(chainActive.vChain)
      ensures index == if ok then old(index) else WithFailed(old(index), h)
      ensures candidates == if ok then old(candidates) else old(candidates) - {h}
    {
      hide *;
      ghost var chain := chainActive.vChain;
      TipReady(this, h);
      ok := ConnectCoins(h);
      ghost var n := NodeAfter(this, h, ok);
      if ok {
        IndexAfterConnect(rules, index, blocks, chain, candidates, h);
        BlocksOfSnoc(blocks, chain, h);
        chainActive.SetTip(index, Some(h));
      } else {
        IndexAfterFailure(rules, index, blocks, chain, candidates, h);
        index := WithFailed(index, h);
        candidates := candidates - {h};
      }
      SoundAgain(this, n);
    }

    /** Takes the tip back. It cannot fail: the undo data of every block above the genesis block is
        there and fits. */
    method DisconnectTip()
      requires Sound() && |chainActive.vChain| > 1
      modifies chainActive, pcoinsTip.Repr
      ensures Sound()
      ensures chainActive.vChain == old(chainActive.vChain)[..|old(chainActive.vChain)| - 1]
    {
      hide *;
      DisconnectReady(this);
      ghost var n := TipDisconnected(AsNode());
      var last := |chainActive.vChain| - 1;
      var h := chainActive.vChain[last];
      var clean := TipOps.DisconnectFromTip(pcoinsTip, blocks[h], undo[h], last);
      assert clean;
      chainActive.SetTip(index, index[h].prev);
      SoundAgain(this, n);
    }

    /** Writing the coins to disk at any moment changes nothing. */
    method FlushStateToDisk()
      requires Sound()
      modifies pcoinsTip.Repr
      ensures Sound()
    {
      hide *;
      FlushReady(this);
      ghost var n := AsNode();
      TipOps.FlushToDisk(pcoinsTip);
      SoundAgain(this, n);
    }

    // ----- Activating the best chain -----

    /** `Reference` for this state: see module Activation. */
    ghost predicate Refers(best: Option<Hash>)
      requires rules.halvingInterval > 0 && WellFormed(index)
      reads this
    {
      Reference(rules, blocks, index, candidates, best)
    }

    /** Disconnects down to `fork`. */
    method DisconnectTo(fork: Hash)
      requires Sound() && fork in index && OnChain(index, chainActive.vChain, fork)
      modifies chainActive, pcoinsTip.Repr
      ensures Sound()
      ensures chainActive.vChain == old(chainActive.vChain)[..index[fork].height + 1]
    {
      hide *;
      FlushReady(this);
      OnChainMeans(index, chainActive.vChain, fork);
      while chainActive.vChain[|chainActive.vChain| - 1] != fork
        invariant Sound()
        invariant index[fork].height < |chainActive.vChain| <= |old(chainActive.vChain)|
        invariant chainActive.vChain == old(chainActive.vChain)[..|chainActive.vChain|]
        decreases |chainActive.vChain|
      {
        DisconnectTip();
      }
      OnlyAtHeight(this, fork);
    }

    /** Connects the next block on the way to `mostWork`; when that works, candidates that are worse
        are dropped. */
    method ConnectNext(mostWork: Hash, h: Hash, ghost best: Option<Hash>) returns (ok: bool, ghost best': Option<Hash>)
      requires Sound() && WellFormed(index) && Refers(best) && OnTheWay(index, chainActive.vChain, mostWork)
      requires mostWork in candidates && Good(index, mostWork)
      requires |chainActive.vChain| <= index[mostWork].height && h == Ancestor(index, mostWork, |chainActive.vChain|)
      modifies this`index, this`candidates, this`undo, chainActive, pcoinsTip.Repr
      ensures Sound() && WellFormed(index) && Refers(best')
      ensures chainActive.vChain == if ok then old(chainActive.vChain) + [h] else old(chainActive.vChain)
      ensures index == if ok then old(index) else WithFailed(old(index), h)
      ensures candidates <= old(candidates) && (ok ==> mostWork in candidates)
      ensures ok ==> OnTheWay(index, chainActive.vChain, mostWork)
      ensures !ok ==> h in old(index) && !old(index)[h].failedValid && !Accepted(rules, blocks, old(index), h)
    {
      hide *;
      NextReady(this, mostWork, h);
      RefersMeans(this, best);
      ok := ConnectTip(h);
      if ok {
        NextConnected(this, mostWork, h);
        ghost var cands := candidates;
        var pruned := PruneBlockIndexCandidates(index, candidates, h);
        ReferencePruned(rules, blocks, index, cands, pruned, best, h);
        best' := if best.None? || Worse(index, best.value, h) then Some(h) else best;
        KeepCandidates(pruned);
      } else {
        best' := best;
        ReferenceFailed(rules, blocks, old(index), old(candidates), best, h);
      }
      RefersMeans(this, best');
    }

    /** Connects the listed blocks, last first, until one is rejected or the tip has more work than
        `before` had. */
    method ConnectBatch(mostWork: Hash, toConnect: seq<Hash>, before: Option<Hash>, ghost best: Option<Hash>)
      returns (bad: Option<Hash>, better: bool, ghost best': Option<Hash>)
      requires Sound() && WellFormed(index) && Refers(best) && OnTheWay(index, chainActive.vChain, mostWork)
      requires mostWork in candidates && Good(index, mostWork) && (before.Some? ==> before.value in index)
      requires |chainActive.vChain| + |toConnect| <= index[mostWork].height + 1
      requires forall i | 0 <= i < |toConnect| ::
                 toConnect[i] == Ancestor(index, mostWork, |chainActive.vChain| + |toConnect| - 1 - i)
      modifies this`index, this`candidates, this`undo, chainActive, pcoinsTip.Repr
      ensures Sound() && WellFormed(index) && Refers(best')
      ensures OnTheWay(old(index), chainActive.vChain, mostWork)
      ensures bad.Some? ==> FoundBad(rules, blocks, old(index), index, bad.value)
      ensures bad.Some? ==> |chainActive.vChain| <= old(index)[mostWork].height
      ensures bad.None? ==> index == old(index) && mostWork in candidates
      ensures candidates <= old(candidates)
      ensures bad.None? && better ==> Improved(index, before, chainActive.Tip())
      ensures bad.None? && !better ==> |chainActive.vChain| == |old(chainActive.vChain)| + |toConnect|
    {
      hide *;
      FlushReady(this);
      var i := |toConnect|;
      best' := best;
      while i > 0
        invariant 0 <= i <= |toConnect| && |chainActive.vChain| + i == |old(chainActive.vChain)| + |toConnect|
        invariant Sound() && index == old(index) && Refers(best')
        invariant OnTheWay(index, chainActive.vChain, mostWork)
        invariant mostWork in candidates && candidates <= old(candidates)
      {
        i := i - 1;
        var ok;
        ok, best' := ConnectNext(mostWork, toConnect[i], best');
        if !ok {
          BadFound(this, old(index), toConnect[i]);
          return Some(toConnect[i]), false, best';
        }
        NewTip(this, toConnect[i], before);
        if before.None? || index[toConnect[i]].chainWork > index[before.value].chainWork {
          return None, true, best';
        }
      }
      bad, better := None, false;
    }

    /** One step towards `mostWork`: back to the fork, then forward in batches of 32 until a block is
        rejected, the tip has more work than before, or `mostWork` is reached. */
    method ActivateBestChainStep(mostWork: Hash, ghost best: Option<Hash>)
      returns (bad: Option<Hash>, ghost best': Option<Hash>)
      requires Sound() && WellFormed(index) && Refers(best)
      requires mostWork in candidates && mostWork in index && Good(index, mostWork)
      modifies this`index, this`candidates, this`undo, chainActive, pcoinsTip.Repr
      ensures Sound() && WellFormed(index) && Refers(best')
      ensures OnTheWay(old(index), chainActive.vChain, mostWork)
      ensures bad.Some? ==> FoundBad(rules, blocks, old(index), index, bad.value)
      ensures bad.Some? ==> chainActive.Tip() != Some(mostWork)
      ensures bad.None? ==> index == old(index) && mostWork in candidates
      ensures candidates <= old(candidates)
      ensures bad.None? ==> chainActive.Tip() == Some(mostWork) || Improved(index, old(chainActive.Tip()), chainActive.Tip())
    {
      hide *;
      FlushReady(this);
      TipKnown(this);
      var before := chainActive.Tip();
      var fork := chainActive.FindFork(index, mostWork);
      ForkOnTheWay(this, mostWork, fork);
      if fork.Some? {
        DisconnectTo(fork.value);
      }
      best' := best;
      var height := if fork.Some? then index[fork.value].height else -1;
      var onward := true;
      while onward && height != index[mostWork].height
        invariant Sound() && index == old(index) && Refers(best')
        invariant OnTheWay(index, chainActive.vChain, mostWork)
        invariant mostWork in candidates && candidates <= old(candidates)
        invariant -1 <= height <= index[mostWork].height
        invariant if onward then |chainActive.vChain| == height + 1 else Improved(index, before, chainActive.Tip())
        decreases onward, index[mostWork].height - height
      {
        var target := if height + 32 < index[mostWork].height then height + 32 else index[mostWork].height;
        var toConnect := BlocksToConnect(index, mostWork, height + 1, target);
        height := target;
        var better;
        bad, better, best' := ConnectBatch(mostWork, toConnect, before, best');
        if bad.Some? {
          ShortOf(this, mostWork, old(index), bad.value);
          return;
        }
        onward := !better;
      }
      bad := None;
      if onward {
        ArrivedAt(this, mostWork);
      }
    }

    /** `FindMostWorkChain` on this state. */
    method FindMostWork(ghost best: Option<Hash>) returns (r: Option<Hash>)
      requires Sound() && WellFormed(index) && Refers(best) && LinksOk()
      modifies this`index, this`candidates, this`unlinked
      ensures Sound() && WellFormed(index) && Refers(best) && LinksOk() && unlinked == old(unlinked)
      ensures OnlyFlagged(old(index), index) && NotFailed(index) == NotFailed(old(index))
      ensures r.None? ==> chainActive.vChain == [] && NoneUsable(index)
      ensures candidates <= index.Keys
      ensures r.Some? ==> r.value in candidates && IsGreatest(index, candidates, r.value)
      ensures r.Some? ==> r.value in index && Good(index, r.value)
    {
      hide *;
      FlushReady(this);
      SearchKeys(index, candidates);
      RefersMeans(this, best);
      LinksMean(this);
      ghost var before, all := index, candidates;
      var m, cands, rest;
      r, m, cands, rest := FindMostWorkChain(index, chainActive.vChain, candidates, unlinked);
      Searched(this, best, r, m, cands);
      SetIndex(m, cands, rest);
      RefersMeans(this, best);
      LinksKept(this, before, all);
    }

    /** Moves the tip to the usable block with the most work. Afterwards no usable block of the whole
        index beats the tip; only when there is no usable block is there no tip. */
    method ActivateBestChain(flush: bool, ghost best: Option<Hash>)
      requires Sound() && WellFormed(index) && Refers(best) && LinksOk()
      modifies this`index, this`candidates, this`unlinked, this`undo, chainActive, pcoinsTip.Repr
      ensures Sound() && WellFormed(index) && Refers(chainActive.Tip()) && LinksOk()
      ensures blocks == old(blocks) && unlinked == old(unlinked) && OnlyFlagged(old(index), index)
      ensures chainActive.Tip().None? ==> NoneUsable(index)
      ensures chainActive.Tip().Some? ==> chainActive.Tip().value in index && NoneBetter(index, chainActive.Tip().value)
    {
      hide *;
      FlushReady(this);
      TipKnown(this);
      SameFlags(index);
      ghost var best' := best;
      ghost var left, heavier := NotFailed(index), Heavier(index, chainActive.Tip());
      while true
        invariant Sound() && WellFormed(index) && Refers(best') && LinksOk()
        invariant blocks == old(blocks) && unlinked == old(unlinked) && OnlyFlagged(old(index), index)
        invariant chainActive.Tip().Some? ==> chainActive.Tip().value in index
        invariant left == NotFailed(index) && heavier == Heavier(index, chainActive.Tip())
        decreases left, heavier
      {
        ghost var m, tip := index, chainActive.Tip();
        var mostWork := FindMostWork(best');
        FlaggedTransitive(old(index), m, index);
        if mostWork.None? {
          Nothing(this, best');
          break;
        }
        HeavierFlagged(m, index, tip);
        LinksMean(this);
        ghost var m', cands := index, candidates;
        if mostWork != chainActive.Tip() {
          var bad;
          bad, best' := ActivateBestChainStep(mostWork.value, best');
          TipKnown(this);
          StepFlags(rules, blocks, m', index, bad);
          LinksKept(this, m', cands);
          FlaggedTransitive(old(index), m', index);
          StepProgress(rules, blocks, m', index, tip, chainActive.Tip(), bad, mostWork.value);
          left, heavier := NotFailed(index), Heavier(index, chainActive.Tip());
        }
        if mostWork == chainActive.Tip() {
          GreatestOfFewer(this, cands, mostWork.value);
          Settled(this, best', mostWork.value);
          break;
        }
      }
      if flush {
        FlushStateToDisk();
      }
    }

    // ----- Arrival of headers and data -----

    /** A header arrives. Only the genesis block has no known parent. */
    method AddToBlockIndex(h: Hash, hashPrev: Hash, proof: nat)
      requires Sound() && WellFormed(index) && Refers(chainActive.Tip()) && LinksOk()
      requires h != NULL_HASH && proof > 0 && (h !in index ==> (h == rules.genesis <==> hashPrev !in index))
      modifies this`index, this`candidates, this`unlinked
      ensures Sound() && WellFormed(index) && Refers(chainActive.Tip()) && LinksOk()
      ensures candidates == old(candidates) && unlinked == old(unlinked)
      ensures h in old(index) ==> index == old(index)
      ensures h !in old(index) ==>
                h in index && index == old(index)[h := index[h]] && IsNewEntry(old(index), hashPrev, proof, index[h])
    {
      hide *;
      FlushReady(this);
      TipKnown(this);
      var m := Linking.AddToBlockIndex(index, h, hashPrev, proof);
      if h !in index {
        HeaderReady(this, m, h, hashPrev, proof);
        SetIndex(m, candidates, unlinked);
        RefersMeans(this, chainActive.Tip());
        LinksKept(this, m, candidates);
      }
    }

    /** The data of a known block arrives, once its transactions have been checked. */
    method ReceivedBlockTransactions(b: Block) returns (ghost order: seq<Hash>)
      requires Sound() && WellFormed(index) && Refers(chainActive.Tip()) && LinksOk()
      requires b.hash in index && !index[b.hash].haveData && b.vtx != [] && InjectiveIds(b.vtx)
      requires b.hashPrev == if index[b.hash].prev.Some? then index[b.hash].prev.value else NULL_HASH
      modifies this`index, this`blocks, this`candidates, this`unlinked, this`nextSequenceId
      ensures Sound() && WellFormed(index) && Refers(chainActive.Tip()) && LinksOk()
      ensures b.hash !in old(blocks) && blocks == old(blocks)[b.hash := b]
      ensures OnlyLinked(WithData(old(index), b.hash, |b.vtx|, Supply.PoolDelta(b.vtx)), index,
                         old(nextSequenceId), nextSequenceId)
      ensures chainActive.Tip().Some? ==> chainActive.Tip().value in index
      ensures Gained(WithData(old(index), b.hash, |b.vtx|, Supply.PoolDelta(b.vtx)), index,
                     old(candidates), candidates, chainActive.Tip())
      ensures Numbered(WithData(old(index), b.hash, |b.vtx|, Supply.PoolDelta(b.vtx)), index, order, old(nextSequenceId))
      ensures BreadthFirst(WithData(old(index), b.hash, |b.vtx|, Supply.PoolDelta(b.vtx)), order)
      ensures if ParentLinked(old(index), b.hash) then |order| > 0 && order[0] == b.hash else order == []
      ensures forall g, i | g in old(index) && 0 <= i < |order| ::
                order[i] in index && old(index)[g].sequenceId < index[order[i]].sequenceId
    {
      hide *;
      FlushReady(this);
      TipKnown(this);
      DataReady(this);
      var tip := chainActive.Tip();
      var sprout := SproutValue(b.vtx);
      var m, u, cands, id;
      m, u, cands, id, order :=
        Linking.ReceivedBlockTransactions(index, unlinked, candidates, tip, nextSequenceId, b.hash, |b.vtx|, sprout);
      DataReceived(this, m, u, cands, id, b);
      NewIdsLater(index, b.hash, |b.vtx|, Supply.PoolDelta(b.vtx), m, order, nextSequenceId);
      SetBlocks(m, u, cands, id, b);
      RefersMeans(this, tip);
      LinksKept(this, m, cands);
    }

    /** A stored block more, and an index over the larger store. */
    method SetBlocks(m: BlockMap, u: Waiting, cands: set<Hash>, id: nat, b: Block)
      requires Sound() && b.hash !in blocks && InjectiveIds(b.vtx)
      requires TreeOk(rules, m, blocks[b.hash := b]) && IsPath(m, chainActive.vChain)
      requires ActiveGood(m, chainActive.vChain) && CandidatesLinked(m, cands)
      requires BlocksOf(blocks[b.hash := b], chainActive.vChain) == BlocksOf(blocks, chainActive.vChain)
      modifies this`index, this`blocks, this`candidates, this`unlinked, this`nextSequenceId
      ensures Sound() && index == m && candidates == cands && unlinked == u && nextSequenceId == id
      ensures blocks == old(blocks)[b.hash := b]
    {
      hide CoinsViewCache.Valid, CoinsViewCache.Effective, CoinsViewCache.BaseView, Consistent, TreeOk, Good, BlocksOf,
        CandidatesLinked;
      TreeOkParts(rules, m, blocks[b.hash := b]);
      StoreKeepsConsistent(rules, AsNode(), b);
      index, blocks, candidates, unlinked, nextSequenceId := m, blocks[b.hash := b], cands, u, id;
    }

    /** Another index over the same blocks, under which the active chain is still usable. */
    method SetIndex(m: BlockMap, cands: set<Hash>, rest: multiset<(Hash, Hash)>)
      requires Sound() && TreeOk(rules, m, blocks) && IsPath(m, chainActive.vChain)
      requires ActiveGood(m, chainActive.vChain) && CandidatesLinked(m, cands)
      modifies this`index, this`candidates, this`unlinked
      ensures Sound() && index == m && candidates == cands && unlinked == rest
    {
      hide CoinsViewCache.Valid, CoinsViewCache.Effective, CoinsViewCache.BaseView, Consistent, TreeOk, Good, BlocksOf;
      TreeOkParts(rules, m, blocks);
      index, candidates, unlinked := m, cands, rest;
    }

    /** Fewer candidates are no less sound. */
    method KeepCandidates(cands: set<Hash>)
      requires Sound() && cands <= candidates
      modifies this`candidates
      ensures Sound() && candidates == cands
    {
      hide CoinsViewCache.Valid, CoinsViewCache.Effective, CoinsViewCache.BaseView, Consistent, TreeOk, Good, BlocksOf;
      TreeOkParts(rules, index, blocks);
      candidates := cands;
    }
  }

  /** `bad` does not connect and has been marked as failed, nothing else. */
  ghost predicate FoundBad(rules: Rules, blocks: BlockStore, m: BlockMap, m': BlockMap, bad: Hash)
    requires rules.halvingInterval > 0 && WellFormed(m)
  {
    && bad in m
    && !m[bad].failedValid
    && !Accepted(rules, blocks, m, bad)
    && m' == WithFailed(m, bad)
  }

  /** There is a tip, and it has more work than the one before had. */
  ghost predicate Improved(m: BlockMap, before: Option<Hash>, tip: Option<Hash>)
    requires before.Some? ==> before.value in m
  {
    && tip.Some? && tip.value in m
    && (before.None? || m[tip.value].chainWork > m[before.value].chainWork)
  }

  ghost predicate NoneUsable(m: BlockMap)
    requires WellFormed(m)
  {
    forall g | g in m :: !Good(m, g)
  }

  /** No usable block has more work than the tip, and none with as much work was linked before it. */
  ghost predicate NoneBetter(m: BlockMap, tip: Hash)
    requires WellFormed(m) && tip in m
  {
    forall g | g in m && Good(m, g) ::
      && m[g].chainWork <= m[tip].chainWork
      && (m[g].chainWork == m[tip].chainWork ==> m[tip].sequenceId <= m[g].sequenceId)
  }

  /** The blocks on the path to `top` from height `target` down to height `from`. */
  method BlocksToConnect(m: BlockMap, top: Hash, from: nat, target: nat) returns (list: seq<Hash>)
    requires WellFormed(m) && SkipsOk(m) && top in m && from <= target <= m[top].height
    ensures |list| == target + 1 - from
    ensures forall i | 0 <= i < |list| :: list[i] == Ancestor(m, top, target - i)
  {
    list := [];
    var next, _ := GetAncestor(m, top, target);
    while next.Some? && m[next.value].height + 1 != from
      invariant from <= target + 1 - |list|
      invariant next.Some? ==> next.value in m && m[next.value].height == target - |list|
      invariant next.Some? ==> next.value == Ancestor(m, top, target - |list|)
      invariant next.None? ==> from == 0 && |list| == target + 1
      invariant forall i | 0 <= i < |list| :: list[i] == Ancestor(m, top, target - i)
      decreases Above(m, next)
    {
      ParentOnPath(m, top, target - |list|);
      assert LinkOk(m, next.value);
      list := list + [next.value];
      next := m[next.value].prev;
    }
  }

  lemma BadFound(s: State, m: BlockMap, h: Hash)
    requires s.rules.halvingInterval > 0 && WellFormed(m) && h in m && !m[h].failedValid
    requires !Accepted(s.rules, s.blocks, m, h) && s.index == WithFailed(m, h)
    ensures FoundBad(s.rules, s.blocks, m, s.index, h)
  {
  }

  lemma NewTip(s: State, h: Hash, before: Option<Hash>)
    requires s.Sound() && s.chainActive.vChain != [] && s.chainActive.vChain[|s.chainActive.vChain| - 1] == h
    requires before.Some? ==> before.value in s.index
    ensures h in s.index
    ensures Improved(s.index, before, s.chainActive.Tip()) <==>
            (before.None? || s.index[h].chainWork > s.index[before.value].chainWork)
  {
  }

  lemma TipKnown(s: State)
    requires s.Sound()
    ensures s.chainActive.Tip().Some? ==> s.chainActive.Tip().value in s.index
    ensures SkipsOk(s.index) && s.chainActive.Valid(s.index)
  {
  }

  lemma SharedRoot(s: State, top: Hash)
    requires s.Sound() && WellFormed(s.index) && top in s.index && s.chainActive.vChain != []
    ensures SharedAt(s.index, s.chainActive.vChain, top, 0)
  {
    hide CoinsViewCache.Valid, CoinsViewCache.Effective, CoinsViewCache.BaseView, Consistent, BlocksOf, Good;
    var a, b := s.chainActive.vChain[0], Ancestor(s.index, top, 0);
    assert StoredOk(s.rules, s.index, s.blocks, a) && StoredOk(s.rules, s.index, s.blocks, b);
  }

  /** Two branches meet at the genesis block at the latest; up to the fork the active chain leads to
      `top`. */
  lemma ForkOnTheWay(s: State, top: Hash, fork: Option<Hash>)
    requires s.Sound() && WellFormed(s.index) && top in s.index && IsFork(s.index, s.chainActive.vChain, top, fork)
    ensures fork.None? ==> s.chainActive.vChain == [] && OnTheWay(s.index, s.chainActive.vChain, top)
    ensures fork.Some? ==> fork.value in s.index && OnChain(s.index, s.chainActive.vChain, fork.value)
    ensures fork.Some? ==> s.index[fork.value].height <= s.index[top].height
    ensures fork.Some? ==> s.index[fork.value].height < |s.chainActive.vChain|
    ensures fork.Some? ==> OnTheWay(s.index, s.chainActive.vChain[..s.index[fork.value].height + 1], top)
  {
    hide CoinsViewCache.Valid, CoinsViewCache.Effective, CoinsViewCache.BaseView, Consistent, BlocksOf, Good;
    var m, chain := s.index, s.chainActive.vChain;
    if chain != [] {
      SharedRoot(s, top);
    }
    if fork.Some? {
      forall k | 0 <= k <= m[fork.value].height
        ensures chain[k] == Path(m, top)[k]
      {
        SharedBelow(m, chain, top, m[fork.value].height, k);
      }
    }
  }

  lemma ShortOf(s: State, top: Hash, m: BlockMap, bad: Hash)
    requires s.Sound() && WellFormed(m) && top in m && |s.chainActive.vChain| <= m[top].height
    requires s.rules.halvingInterval > 0 && FoundBad(s.rules, s.blocks, m, s.index, bad)
    ensures s.chainActive.Tip() != Some(top)
  {
    hide CoinsViewCache.Valid, CoinsViewCache.Effective, CoinsViewCache.BaseView, Consistent, TreeOk, BlocksOf, Good;
  }

  lemma ArrivedAt(s: State, top: Hash)
    requires WellFormed(s.index) && OnTheWay(s.index, s.chainActive.vChain, top)
    requires |s.chainActive.vChain| == s.index[top].height + 1
    ensures s.chainActive.Tip() == Some(top)
  {
  }

  lemma Searched(s: State, best: Option<Hash>, r: Option<Hash>, m: BlockMap, cands: set<Hash>)
    requires s.Sound() && WellFormed(s.index) && s.rules.halvingInterval > 0
    requires Reference(s.rules, s.blocks, s.index, s.candidates, best) && Refined(s.index, m, s.candidates, cands)
    requires s.candidates <= s.index.Keys && (r.None? ==> forall h | h in s.candidates :: !Good(s.index, h))
    requires r.Some? ==> IsGreatest(m, cands, r.value)
    ensures cands <= s.candidates && (r.Some? ==> r.value in cands)
    ensures WellFormed(m) && TreeOk(s.rules, m, s.blocks) && OnlyFlagged(s.index, m)
    ensures Reference(s.rules, s.blocks, m, cands, best) && NotFailed(m) == NotFailed(s.index) && cands <= m.Keys
    ensures r.None? ==> s.chainActive.vChain == [] && NoneUsable(m)
  {
    hide CoinsViewCache.Valid, CoinsViewCache.Effective, CoinsViewCache.BaseView, Consistent, TreeOk, BlocksOf, Good, Accepted;
    ReferenceRefined(s.rules, s.blocks, s.index, m, s.candidates, cands, best);
    TreeOkFlagged(s.rules, s.index, m, s.blocks);
  }

  lemma Nothing(s: State, best: Option<Hash>)
    requires s.rules.halvingInterval > 0 && WellFormed(s.index) && NoneUsable(s.index) && s.chainActive.vChain == []
    ensures s.Refers(s.chainActive.Tip()) && s.chainActive.Tip().None?
  {
    hide Good, Accepted;
  }

  lemma HeavierFlagged(m: BlockMap, m': BlockMap, tip: Option<Hash>)
    requires OnlyFlagged(m, m') && (tip.Some? ==> tip.value in m)
    ensures tip.Some? ==> tip.value in m'
    ensures Heavier(m', tip) == Heavier(m, tip)
  {
    assert forall h | h in m :: FlaggedEntry(m[h], m'[h]);
  }

  /** Every step that does not arrive marks another block as failed, or reaches more work. */
  lemma StepProgress(
    rules: Rules, blocks: BlockStore, m: BlockMap, m': BlockMap, before: Option<Hash>, tip: Option<Hash>,
    bad: Option<Hash>, top: Hash)
    requires rules.halvingInterval > 0 && WellFormed(m)
    requires (before.Some? ==> before.value in m) && (tip.Some? ==> tip.value in m')
    requires bad.Some? ==> FoundBad(rules, blocks, m, m', bad.value)
    requires bad.None? ==> m' == m && (tip == Some(top) || Improved(m, before, tip))
    ensures bad.Some? ==> NotFailed(m') < NotFailed(m)
    ensures bad.None? && tip != Some(top) ==> NotFailed(m') == NotFailed(m) && Heavier(m', tip) < Heavier(m, before)
  {
    hide Accepted;
    if bad.Some? {
      assert bad.value in NotFailed(m) && bad.value !in NotFailed(m');
    } else if tip != Some(top) {
      assert tip.value in Heavier(m, before) && tip.value !in Heavier(m', tip);
    }
  }

  lemma GreatestOfFewer(s: State, cands: set<Hash>, top: Hash)
    requires s.candidates <= cands <= s.index.Keys && top in s.candidates && IsGreatest(s.index, cands, top)
    ensures IsGreatest(s.index, s.candidates, top)
  {
  }

  /** A tip that is the greatest candidate is the best usable block, and a reference itself. */
  lemma Settled(s: State, best: Option<Hash>, tip: Hash)
    requires s.Sound() && WellFormed(s.index) && s.Refers(best) && s.chainActive.Tip() == Some(tip)
    requires s.candidates <= s.index.Keys && IsGreatest(s.index, s.candidates, tip)
    ensures s.Refers(s.chainActive.Tip()) && tip in s.index && NoneBetter(s.index, tip)
  {
    hide CoinsViewCache.Valid, CoinsViewCache.Effective, CoinsViewCache.BaseView, TreeOk, BlocksOf, Good;
    TipIsBest(s.rules, s.blocks, s.index, s.candidates, best, tip);
    assert forall g | g in s.index && Good(s.index, g) :: !Worse(s.index, tip, g);
    forall g | g in s.index && Good(s.index, g) && !Worse(s.index, g, tip)
      ensures g in s.candidates
    {
      WorseIsTotal(s.index, g, tip);
    }
    ConsistentReplays(s.rules, s.AsNode());
  }

  /** What the block's JoinSplits move into the shielded pool. */
  method SproutValue(vtx: seq<Tx>) returns (v: int)
    ensures v == Supply.PoolDelta(vtx)
  {
    v := 0;
    for i := 0 to |vtx|
      invariant v == Supply.PoolDelta(vtx[..i])
    {
      PrefixSnoc(vtx, i);
      var js := vtx[i].joinSplits;
      for k := 0 to |js|
        invariant v == Supply.PoolDelta(vtx[..i]) + SumPubOld(js[..k]) - SumPubNew(js[..k])
      {
        PrefixSnoc(js, k);
        v := v + js[k].pubOld - js[k].pubNew;
      }
      WholePrefix(js);
    }
    WholePrefix(vtx);
  }

  lemma HeaderReady(s: State, m: BlockMap, h: Hash, hashPrev: Hash, proof: nat)
    requires s.Sound() && WellFormed(s.index) && s.Refers(s.chainActive.Tip()) && s.LinksOk() && s.rules.halvingInterval > 0
    requires WellFormed(m) && SkipsOk(m) && Grows(s.index, m)
    requires h !in s.index && h in m && m == s.index[h := m[h]] && IsNewEntry(s.index, hashPrev, proof, m[h])
    requires h == s.rules.genesis <==> hashPrev !in s.index
    ensures TreeOk(s.rules, m, s.blocks) && IsPath(m, s.chainActive.vChain) && ActiveGood(m, s.chainActive.vChain)
    ensures CandidatesLinked(m, s.candidates) && Reference(s.rules, s.blocks, m, s.candidates, s.chainActive.Tip())
    ensures Links(m, s.unlinked, []) && AllLinked(m, s.candidates) && StoreMatches(m, s.blocks) && OnlyFlagged(m, m)
    ensures IdsBelow(m, s.nextSequenceId)
  {
    hide CoinsViewCache.Valid, CoinsViewCache.Effective, CoinsViewCache.BaseView, Consistent, BlocksOf, Good, Accepted,
      Links, CandidatesLinked, Reference;
    AddKeepsLinks(s.index, m, s.unlinked, h);
    HeaderExtends(s.index, m, h);
    ActiveExtends(s.index, m, s.chainActive.vChain);
    HeaderKeepsReference(s.rules, s.blocks, s.index, m, s.candidates, s.chainActive.Tip(), h);
    AllLinkedBelow(m, s.unlinked, s.candidates);
    HeaderTree(s.rules, s.index, m, s.blocks, h);
  }

  lemma HeaderTree(rules: Rules, m: BlockMap, m': BlockMap, blocks: BlockStore, h: Hash)
    requires TreeOk(rules, m, blocks) && WellFormed(m') && SkipsOk(m')
    requires h !in m && h in m' && m' == m[h := m'[h]] && !m'[h].haveData
    requires h == rules.genesis <==> m'[h].height == 0
    ensures TreeOk(rules, m', blocks)
  {
    forall g | g in m'
      ensures StoredOk(rules, m', blocks, g)
    {
      if g in m {
        assert StoredOk(rules, m, blocks, g);
      }
    }
  }

  lemma DataReady(s: State)
    requires s.Sound() && WellFormed(s.index) && s.Refers(s.chainActive.Tip()) && s.LinksOk()
    ensures Links(s.index, s.unlinked, []) && AllLinked(s.index, s.candidates) && StoreMatches(s.index, s.blocks)
    ensures IdsBelow(s.index, s.nextSequenceId)
    ensures var tip := s.chainActive.Tip();
            && (tip.Some? ==> tip.value in s.index && s.index[tip.value].chainTx != 0)
            && LinkedComplete(s.index, s.candidates, tip)
  {
    hide CoinsViewCache.Valid, CoinsViewCache.Effective, CoinsViewCache.BaseView, Consistent, BlocksOf, Good, Accepted,
      Links, CandidatesLinked, TreeOk;
    if s.chainActive.vChain != [] {
      GoodIsLinked(s.index, s.unlinked, s.chainActive.vChain[|s.chainActive.vChain| - 1]);
    }
  }

  lemma DataReceived(s: State, m: BlockMap, u: Waiting, cands: set<Hash>, id: nat, b: Block)
    requires s.Sound() && WellFormed(s.index) && s.Refers(s.chainActive.Tip()) && s.LinksOk() && s.rules.halvingInterval > 0
    requires b.hash in s.index && !s.index[b.hash].haveData
    requires b.hashPrev == if s.index[b.hash].prev.Some? then s.index[b.hash].prev.value else NULL_HASH
    requires WellFormed(m) && Links(m, u, []) && AllLinked(m, cands)
    requires OnlyLinked(WithData(s.index, b.hash, |b.vtx|, Supply.PoolDelta(b.vtx)), m, s.nextSequenceId, id)
    requires s.chainActive.Tip().Some? ==> s.chainActive.Tip().value in m
    requires LinkedComplete(m, cands, s.chainActive.Tip())
    requires Gained(WithData(s.index, b.hash, |b.vtx|, Supply.PoolDelta(b.vtx)), m, s.candidates, cands, s.chainActive.Tip())
    ensures b.hash !in s.blocks && StoreMatches(m, s.blocks[b.hash := b]) && OnlyFlagged(m, m)
    ensures TreeOk(s.rules, m, s.blocks[b.hash := b]) && IsPath(m, s.chainActive.vChain)
    ensures ActiveGood(m, s.chainActive.vChain) && CandidatesLinked(m, cands)
    ensures BlocksOf(s.blocks[b.hash := b], s.chainActive.vChain) == BlocksOf(s.blocks, s.chainActive.vChain)
    ensures Reference(s.rules, s.blocks[b.hash := b], m, cands, s.chainActive.Tip())
  {
    hide CoinsViewCache.Valid, CoinsViewCache.Effective, CoinsViewCache.BaseView, Consistent, BlocksOf, Good, Accepted,
      Links, CandidatesLinked, Reference, OnlyLinked, StoreMatches, TreeOk, LinkedComplete, WithData, Supply.PoolDelta;
    var h, chain, tip := b.hash, s.chainActive.vChain, s.chainActive.Tip();
    DataExtends(s.index, m, h, |b.vtx|, Supply.PoolDelta(b.vtx), s.nextSequenceId, id);
    DataKeepsStore(s.index, m, s.blocks, b, h, s.nextSequenceId, id);
    ActiveExtends(s.index, m, chain);
    if chain != [] {
      GoodIsStored(s.index, s.blocks, chain[|chain| - 1]);
    }
    BlocksOfExtends(s.blocks, h, b, chain);
    AllLinkedBelow(m, u, cands);
    DataKeepsReference(s.rules, s.blocks, s.index, m, u, s.candidates, cands, tip, h, b);
    DataTree(s.rules, s.index, m, s.blocks, b, s.nextSequenceId, id);
  }

  lemma DataTree(rules: Rules, m: BlockMap, m': BlockMap, blocks: BlockStore, b: Block, from: nat, to: nat)
    requires TreeOk(rules, m, blocks) && WellFormed(m') && b.hash in m && !m[b.hash].haveData && Grows(m, m')
    requires b.hashPrev == if m[b.hash].prev.Some? then m[b.hash].prev.value else NULL_HASH
    requires OnlyLinked(WithData(m, b.hash, |b.vtx|, Supply.PoolDelta(b.vtx)), m', from, to)
    ensures TreeOk(rules, m', blocks[b.hash := b])
  {
    hide Supply.PoolDelta;
    var m1 := WithData(m, b.hash, |b.vtx|, Supply.PoolDelta(b.vtx));
    forall g | g in m'
      ensures StoredOk(rules, m', blocks[b.hash := b], g) && SkipOk(m', g)
    {
      assert StoredOk(rules, m, blocks, g) && SkipOk(m, g) && LinkedEntryOf(m1[g], m'[g], from, to);
      if m[g].height > 0 {
        AncestorStable(m, m', g, SkipHeight(m[g].height));
      }
    }
  }

  /** The shielded value recorded at the tip is what its chain moved into the pool; with the coins of
      the tip it stays within the subsidies paid so far. The genesis block's coins are never added,
      so its own share does not count. */
  lemma PoolAtTip(s: State)
    requires s.Sound() && WellFormed(s.index) && s.LinksOk() && s.chainActive.vChain != []
    ensures var chain := BlocksOf(s.blocks, s.chainActive.vChain);
            var tip := s.chainActive.vChain[|chain| - 1];
            && tip in s.index
            && s.index[tip].chainSprout == Some(Supply.PoolDelta(chain[0].vtx) + Supply.ChainPool(chain))
            && Supply.TotalCoins(s.pcoinsTip.Effective().coins)
                 + s.index[tip].chainSprout.value - Supply.PoolDelta(chain[0].vtx)
               <= Supply.SubsidySum(|chain| - 1, s.rules.halvingInterval)
  {
    hide *;
    FlushReady(s);
    LinksMean(s);
    ActiveTip(s.index, s.chainActive.vChain);
    var chain := BlocksOf(s.blocks, s.chainActive.vChain);
    var tip := s.chainActive.vChain[|chain| - 1];
    GoodIsLinked(s.index, s.unlinked, tip);
    LinkedTotals(s.index, s.unlinked, tip);
    SproutIsPool(s.index, s.blocks, tip);
    ConsistentChain(s.rules, s.AsNode());
    Supply.SupplyConserved(s.rules, chain);
  }

  lemma ActiveTip(m: BlockMap, chain: seq<Hash>)
    requires WellFormed(m) && IsPath(m, chain) && ActiveGood(m, chain) && chain != []
    ensures chain[|chain| - 1] in m && Path(m, chain[|chain| - 1]) == chain && Good(m, chain[|chain| - 1])
  {
  }

  lemma LinksMean(s: State)
    requires s.LinksOk() && WellFormed(s.index)
    ensures Links(s.index, s.unlinked, []) && AllLinked(s.index, s.candidates) && StoreMatches(s.index, s.blocks)
    ensures s.candidates <= s.index.Keys && DataBelow(s.index, s.candidates) && IdsBelow(s.index, s.nextSequenceId)
  {
    AllLinkedBelow(s.index, s.unlinked, s.candidates);
  }

  /** New failure flags and fewer candidates keep the links. */
  lemma LinksKept(s: State, m: BlockMap, cands: set<Hash>)
    requires OnlyFlagged(m, s.index) && s.candidates <= cands
    requires Links(m, s.unlinked, []) && AllLinked(m, cands) && StoreMatches(m, s.blocks)
    requires IdsBelow(m, s.nextSequenceId)
    ensures s.LinksOk()
  {
    hide Links, AllLinked, StoreMatches;
    assert forall h | h in m :: FlaggedEntry(m[h], s.index[h]);
    LinksFlagged(m, s.index, s.unlinked, []);
    AllLinkedFlagged(m, s.index, cands, s.candidates);
    StoreFlagged(m, s.index, s.blocks);
  }

  lemma SameFlags(m: BlockMap)
    ensures OnlyFlagged(m, m)
  {
  }

  lemma StepFlags(rules: Rules, blocks: BlockStore, m: BlockMap, m': BlockMap, bad: Option<Hash>)
    requires rules.halvingInterval > 0 && WellFormed(m)
    requires if bad.Some? then FoundBad(rules, blocks, m, m', bad.value) else m' == m
    ensures OnlyFlagged(m, m')
  {
    hide Accepted;
    if bad.Some? {
      WithFailedFlags(m, bad.value);
    }
  }

  lemma RefersMeans(s: State, best: Option<Hash>)
    requires s.rules.halvingInterval > 0 && WellFormed(s.index)
    ensures s.Refers(best) <==> Reference(s.rules, s.blocks, s.index, s.candidates, best)
    ensures s.Refers(best) && best.Some? ==> best.value in s.index && best.value in s.candidates
  {
  }

  /** The next block on the way is usable and has the tip as its parent. */
  lemma NextReady(s: State, mostWork: Hash, h: Hash)
    requires s.Sound() && WellFormed(s.index) && OnTheWay(s.index, s.chainActive.vChain, mostWork)
    requires Good(s.index, mostWork) && |s.chainActive.vChain| <= s.index[mostWork].height
    requires h == Ancestor(s.index, mostWork, |s.chainActive.vChain|)
    ensures h in s.index && EntryGood(s.index[h]) && !s.index[h].failedValid
    ensures s.index[h].prev == s.chainActive.Tip() && s.rules.halvingInterval > 0 && s !in s.pcoinsTip.Repr
  {
    hide CoinsViewCache.Valid, CoinsViewCache.Effective, CoinsViewCache.BaseView, Consistent, TreeOk, BlocksOf;
    GoodAncestor(s.index, mostWork, |s.chainActive.vChain|);
    ParentOnPath(s.index, mostWork, |s.chainActive.vChain|);
  }

  /** After the next block is connected, `mostWork` is still at least as good as the tip. */
  lemma NextConnected(s: State, mostWork: Hash, h: Hash)
    requires s.Sound() && WellFormed(s.index) && s.chainActive.vChain != []
    requires s.chainActive.vChain[|s.chainActive.vChain| - 1] == h
    requires OnTheWay(s.index, s.chainActive.vChain[..|s.chainActive.vChain| - 1], mostWork)
    requires Good(s.index, mostWork) && |s.chainActive.vChain| - 1 <= s.index[mostWork].height
    requires h == Ancestor(s.index, mostWork, |s.chainActive.vChain| - 1)
    ensures s.candidates <= s.index.Keys && h in s.index && Good(s.index, h)
    ensures !Worse(s.index, mostWork, h)
    ensures OnTheWay(s.index, s.chainActive.vChain, mostWork)
  {
    hide CoinsViewCache.Valid, CoinsViewCache.Effective, CoinsViewCache.BaseView, Consistent, TreeOk, BlocksOf;
    GoodAncestor(s.index, mostWork, |s.chainActive.vChain| - 1);
    WorkGrows(s.index, mostWork, |s.chainActive.vChain| - 1);
  }

  /** The active chain is the beginning of the path to `h`. */
  ghost predicate OnTheWay(m: BlockMap, chain: seq<Hash>, h: Hash)
    requires WellFormed(m)
  {
    h in m && |chain| <= m[h].height + 1 && chain == Path(m, h)[..|chain|]
  }

  lemma OnChainMeans(m: BlockMap, chain: seq<Hash>, h: Hash)
    requires h in m && OnChain(m, chain, h)
    ensures m[h].height < |chain| && chain[m[h].height] == h
  {
  }

  /** A block is on a path at its own height only. */
  lemma OnlyAtHeight(s: State, h: Hash)
    requires s.Sound() && h in s.index && s.chainActive.vChain != []
    requires s.chainActive.vChain[|s.chainActive.vChain| - 1] == h
    ensures s.index[h].height + 1 == |s.chainActive.vChain|
  {
  }

  lemma FlushReady(s: State)
    requires s.Sound()
    ensures s.Apart() && s !in s.pcoinsTip.Repr && s.chainActive !in s.pcoinsTip.Repr && s.rules.halvingInterval > 0
    ensures s.pcoinsTip.Shape() && s.pcoinsTip.Valid() && !s.pcoinsTip.hasModifier && s.pcoinsTip.base.Disk?
    ensures EMPTY_ROOT in s.pcoinsTip.Effective().anchors
    ensures s.AsNode() == Node(s.blocks, s.undo, BlocksOf(s.blocks, s.chainActive.vChain), s.pcoinsTip.Effective())
    ensures Consistent(s.rules, s.AsNode())
    ensures s.chainActive.vChain == [] ==> s.pcoinsTip.Effective().bestAnchor == EMPTY_ROOT
    ensures WellFormed(s.index) && TreeOk(s.rules, s.index, s.blocks) && IsPath(s.index, s.chainActive.vChain)
    ensures ActiveGood(s.index, s.chainActive.vChain) && CandidatesLinked(s.index, s.candidates)
  {
    hide CoinsViewCache.Valid, CoinsViewCache.Effective, CoinsViewCache.BaseView, Consistent, TreeOk, Good, BlocksOf;
    ConsistentView(s.rules, s.AsNode());
    TreeOkParts(s.rules, s.index, s.blocks);
  }

  lemma DisconnectReady(s: State)
    requires s.Sound() && |s.chainActive.vChain| > 1
    ensures s.Apart() && s !in s.pcoinsTip.Repr && s.chainActive !in s.pcoinsTip.Repr && s.rules.halvingInterval > 0
    ensures s.pcoinsTip.Shape() && s.pcoinsTip.Valid() && !s.pcoinsTip.hasModifier
    ensures WellFormed(s.index) && TreeOk(s.rules, s.index, s.blocks) && s.chainActive.Valid(s.index)
    ensures CandidatesLinked(s.index, s.candidates)
    ensures s.AsNode().chain != []
    ensures var last := |s.chainActive.vChain| - 1;
            var h := s.chainActive.vChain[last];
            var n := TipDisconnected(s.AsNode());
            var v := s.pcoinsTip.Effective();
            && h in s.index && h in s.blocks && h in s.undo
            && v.bestBlock == s.blocks[h].hash && v.bestAnchor in v.anchors
            && s.undo[h].oldRoot != NullRoot && s.blocks[h].hashPrev != NULL_HASH
            && Blocks.DisconnectBlock(v, s.blocks[h], s.undo[h], last) == Some(n.view)
            && n.blocks == s.blocks && n.undo == s.undo && Consistent(s.rules, n)
            && n.chain == BlocksOf(s.blocks, s.chainActive.vChain[..last])
            && s.index[h].prev.Some? && s.index[h].prev.value in s.index
            && Path(s.index, s.index[h].prev.value) == s.chainActive.vChain[..last]
            && IsPath(s.index, s.chainActive.vChain[..last]) && ActiveGood(s.index, s.chainActive.vChain[..last])
  {
    hide *;
    FlushReady(s);
    DisconnectTree(s.rules, s.index, s.blocks, s.chainActive.vChain);
    DisconnectNode(s.rules, s.AsNode(), s.chainActive.vChain);
    ChainValid(s);
  }

  lemma ChainValid(s: State)
    requires s.Sound()
    ensures WellFormed(s.index) && s.chainActive.Valid(s.index)
  {
  }

  /** The index part of taking the tip back. */
  lemma DisconnectTree(rules: Rules, m: BlockMap, blocks: BlockStore, chain: seq<Hash>)
    requires TreeOk(rules, m, blocks) && WellFormed(m) && IsPath(m, chain) && ActiveGood(m, chain) && |chain| > 1
    ensures var last := |chain| - 1;
            var h := chain[last];
            && h in m && m[h].haveData && h in blocks && blocks[h].hash == h
            && m[h].prev.Some? && m[h].prev.value in m
            && Path(m, m[h].prev.value) == chain[..last]
            && IsPath(m, chain[..last]) && ActiveGood(m, chain[..last])
            && blocks[h].hashPrev == m[h].prev.value != NULL_HASH
  {
    var last := |chain| - 1;
    var h := chain[last];
    GoodAncestor(m, h, last);
    GoodAncestor(m, h, last - 1);
    ParentOnPath(m, h, last);
    PathPrefix(m, h, last - 1);
    assert StoredOk(rules, m, blocks, h) && LinkOk(m, h);
  }

  /** The coins part: the undo data of the tip is there and leads to the state before it. */
  lemma DisconnectNode(rules: Rules, n: Node, chain: seq<Hash>)
    requires rules.halvingInterval > 0 && Consistent(rules, n)
    requires |chain| > 1 && n.chain == BlocksOf(n.blocks, chain)
    requires chain[|chain| - 1] in n.blocks && n.blocks[chain[|chain| - 1]].hash == chain[|chain| - 1]
    ensures var last := |chain| - 1;
            var h := chain[last];
            && n.chain != [] && h in n.undo
            && n.view.bestBlock == h && n.view.bestAnchor in n.view.anchors
            && n.undo[h].oldRoot != NullRoot
            && Blocks.DisconnectBlock(n.view, n.blocks[h], n.undo[h], last) == Some(TipDisconnected(n).view)
            && TipDisconnected(n).blocks == n.blocks && TipDisconnected(n).undo == n.undo
            && Consistent(rules, TipDisconnected(n))
            && TipDisconnected(n).chain == BlocksOf(n.blocks, chain[..last])
  {
    var last := |chain| - 1;
    var h := chain[last];
    hide Blocks.ConnectBlock, Replay, InjectiveIds, SoundView, Blocks.DisconnectBlock, SoundUndo;
    assert n.chain[last] == n.blocks[h];
    assert n.chain[..last] == BlocksOf(n.blocks, chain[..last]);
    ConsistentView(rules, n);
    DisconnectReplays(rules, n);
    DisconnectKeepsConsistent(rules, n);
    OldRootKnown(rules, n);
  }

  /** The root that undo data goes back to is a real one. */
  lemma OldRootKnown(rules: Rules, n: Node)
    requires rules.halvingInterval > 0 && Consistent(rules, n) && |n.chain| > 1
    ensures n.chain[|n.chain| - 1].hash in n.undo && n.undo[n.chain[|n.chain| - 1].hash].oldRoot != NullRoot
  {
    hide Blocks.ConnectBlock, Replay, InjectiveIds, SoundUndo, ConnectTxs, Finished, CheckedTxs, NoOverwrite,
      AllDistinctInputs, ValueOut, Subsidy, SoundView;
    var last := |n.chain| - 1;
    var init, b := n.chain[..last], n.chain[last];
    assert init + [b] == n.chain;
    UndoOfPath(rules, n.blocks, n.undo, b.hash, n.chain);
    assert InjectiveBlocks(n.chain);
    LinkedPrefix(rules, init, b);
    ReplaySound(rules, init);
    ConnectedParts(rules, Replay(rules, init).value, b, last);
    SoundViewRoot(Replay(rules, init).value);
  }

  lemma SoundViewRoot(v: View)
    requires SoundView(v)
    ensures v.bestAnchor != NullRoot
  {
  }

  /** What `ConnectTip` can rely on, and what it will lead to. */
  lemma TipReady(s: State, h: Hash)
    requires s.Sound() && h in s.index && EntryGood(s.index[h]) && s.index[h].prev == s.chainActive.Tip()
    ensures s.Apart() && s.CoinsOk() && s.chainActive !in s.pcoinsTip.Repr && s !in s.pcoinsTip.Repr
    ensures s.rules.halvingInterval > 0 && s.pcoinsTip.Shape()
    ensures h in s.blocks && s.blocks[h].hash == h && h != NULL_HASH
    ensures Enabled(s.rules, s.AsNode(), ConnectTip(h)) && TipHash(s.AsNode()) == s.blocks[h].hashPrev
    ensures WellFormed(s.index) && s.chainActive.Valid(s.index) && IsPath(s.index, s.chainActive.vChain)
    ensures TreeOk(s.rules, s.index, s.blocks) && ActiveGood(s.index, s.chainActive.vChain)
    ensures CandidatesLinked(s.index, s.candidates)
    ensures Path(s.index, h) == s.chainActive.vChain + [h] && s.index[h].height == |s.chainActive.vChain|
    ensures s.index[h].prev == if s.chainActive.vChain == [] then None
                               else Some(s.chainActive.vChain[|s.chainActive.vChain| - 1])
    ensures Accepted(s.rules, s.blocks, s.index, h) <==> Replay(s.rules, s.AsNode().chain + [s.blocks[h]]).Some?
    ensures Consistent(s.rules, TipConnected(s.rules, s.AsNode(), h))
    ensures s.AsNode().chain == BlocksOf(s.blocks, s.chainActive.vChain)
    ensures s.chainActive.vChain == [] ==> s.pcoinsTip.BaseView().bestAnchor == EMPTY_ROOT
  {
    hide CoinsViewCache.Valid, CoinsViewCache.Effective, CoinsViewCache.BaseView, Consistent, Replay, TipConnected,
      BlocksOf, Path, TreeOk, Good;
    CanConnect(s.rules, s.index, s.AsNode(), s.chainActive.vChain, h);
    TreeOkParts(s.rules, s.index, s.blocks);
    PathAppend(s.index, s.chainActive.vChain, h);
    ConnectKeepsConsistent(s.rules, s.AsNode(), h);
  }

  lemma TreeOkParts(rules: Rules, m: BlockMap, blocks: BlockStore)
    requires TreeOk(rules, m, blocks)
    ensures WellFormed(m) && SkipsOk(m)
  {
  }

  /** The parts of `Sound`, put together after a step. */
  lemma SoundAgain(s: State, n: Node)
    requires s.Apart() && s.pcoinsTip.Valid() && !s.pcoinsTip.hasModifier
    requires n.blocks == s.blocks && n.undo == s.undo && n.view == s.pcoinsTip.Effective()
    requires n.chain == BlocksOf(s.blocks, s.chainActive.vChain) && Consistent(s.rules, n)
    requires s.chainActive.vChain == [] ==> s.pcoinsTip.BaseView().bestAnchor == EMPTY_ROOT
    requires TreeOk(s.rules, s.index, s.blocks) && IsPath(s.index, s.chainActive.vChain)
    requires ActiveGood(s.index, s.chainActive.vChain) && CandidatesLinked(s.index, s.candidates)
    ensures s.Sound()
  {
    hide CoinsViewCache.Valid, CoinsViewCache.Effective, CoinsViewCache.BaseView, Consistent, TreeOk, ActiveGood,
      CandidatesLinked, BlocksOf;
  }

  /** The node after the coins of `h` have been connected, if they have been. */
  ghost function NodeAfter(s: State, h: Hash, ok: bool): Node
    requires s.pcoinsTip.Shape() && h in s.blocks
    reads s, s.chainActive, s.pcoinsTip.Repr
  {
    var chain := BlocksOf(s.blocks, s.chainActive.vChain);
    Node(s.blocks, s.undo, if ok then chain + [s.blocks[h]] else chain, s.pcoinsTip.Effective())
  }

  lemma CoinsReady(s: State, h: Hash)
    requires s.Apart() && s.CoinsOk()
    requires h in s.blocks && Enabled(s.rules, s.AsNode(), ConnectTip(h))
    ensures s.rules.halvingInterval > 0 && s !in s.pcoinsTip.Repr && s.chainActive !in s.pcoinsTip.Repr
    ensures s.pcoinsTip.Shape() && s.pcoinsTip.Valid() && !s.pcoinsTip.hasModifier
    ensures s.pcoinsTip.Effective() == s.AsNode().view
    ensures s.pcoinsTip.Effective().bestBlock == TipHash(s.AsNode())
    ensures s.pcoinsTip.Effective().bestAnchor in s.pcoinsTip.Effective().anchors
    ensures h == s.rules.genesis ==> s.pcoinsTip.BaseView().bestAnchor == s.pcoinsTip.Effective().bestAnchor
    ensures Replay(s.rules, s.AsNode().chain) == Some(s.AsNode().view)
    ensures s.AsNode() == Node(s.blocks, s.undo, BlocksOf(s.blocks, s.chainActive.vChain), s.pcoinsTip.Effective())
    ensures |BlocksOf(s.blocks, s.chainActive.vChain)| == |s.chainActive.vChain|
  {
    hide CoinsViewCache.Valid, CoinsViewCache.Effective, CoinsViewCache.BaseView, Consistent, Replay;
    ConsistentView(s.rules, s.AsNode());
    ConsistentReplays(s.rules, s.AsNode());
  }

  lemma ConnectedNode(s: State, n: Node, h: Hash, ok: bool, u: Option<BlockUndo>)
    requires s.rules.halvingInterval > 0 && s.pcoinsTip.Shape() && h in s.blocks && s.blocks == n.blocks
    requires n.chain == BlocksOf(s.blocks, s.chainActive.vChain)
    requires Replay(s.rules, n.chain) == Some(n.view)
    requires ok <==> Blocks.ConnectBlock(s.rules, n.view, n.blocks[h], |n.chain|).Some?
    requires ok ==> Connected(s.pcoinsTip.Effective(), u) ==
                    Blocks.ConnectBlock(s.rules, n.view, n.blocks[h], |n.chain|).value
    requires !ok ==> s.pcoinsTip.Effective() == n.view
    requires s.undo == if ok && u.Some? && h !in n.undo then n.undo[h := u.value] else n.undo
    ensures NodeAfter(s, h, ok) == TipConnected(s.rules, n, h)
    ensures ok <==> Replay(s.rules, n.chain + [n.blocks[h]]).Some?
    ensures NodeAfter(s, h, ok).chain == if ok then n.chain + [n.blocks[h]] else n.chain
    ensures NodeAfter(s, h, ok).view == s.pcoinsTip.Effective()
    ensures NodeAfter(s, h, ok).blocks == s.blocks && NodeAfter(s, h, ok).undo == s.undo
  {
    hide CoinsViewCache.Effective, Blocks.ConnectBlock, BlocksOf, Replay;
    ReplayStep(s.rules, n.chain, n.blocks[h]);
  }
}
