/** What headers and block data that arrive leave unchanged: the active chain, the blocks that can be
    used, and the reference block of module Activation. */
module Arrival {
  import opened Primitives
  import opened Blocks
  import opened BlockTree
  import opened ActiveChain
  import opened Candidates
  import opened MostWork
  import opened Activation
  import opened Linking
  import Supply

  /** Exactly the blocks with data are stored, and the index counts what is in them. */
  ghost predicate StoreMatches(m: BlockMap, blocks: BlockStore) {
    && (forall h | h in blocks :: h in m && m[h].haveData)
    && (forall h | h in m && m[h].haveData :: h in blocks && Counted(m[h], blocks[h]))
  }

  ghost predicate Counted(e: BlockIndex, b: Block) {
    e.txCount == |b.vtx| && e.sprout == Some(Supply.PoolDelta(b.vtx))
  }

  lemma StoreFlagged(m: BlockMap, m': BlockMap, blocks: BlockStore)
    requires StoreMatches(m, blocks) && OnlyFlagged(m, m')
    ensures StoreMatches(m', blocks)
  {
    assert forall h | h in m :: FlaggedEntry(m[h], m'[h]);
  }

  // ----- Linked candidates -----

  /** Below a linked block everything is linked. */
  lemma {:induction false} LinkedBelow(m: BlockMap, u: Waiting, h: Hash, k: nat)
    requires WellFormed(m) && Links(m, u, []) && h in m && m[h].chainTx != 0 && k <= m[h].height
    ensures m[Ancestor(m, h, k)].chainTx != 0 && m[Ancestor(m, h, k)].haveData
    decreases m[h].height
  {
    assert LinkOk(m, h) && EntryLinked(m, u, [], h);
    if m[h].height != k {
      LinkedBelow(m, u, Parent(m, h), k);
    }
  }

  lemma AllLinkedBelow(m: BlockMap, u: Waiting, cands: set<Hash>)
    requires WellFormed(m) && Links(m, u, []) && AllLinked(m, cands)
    ensures CandidatesLinked(m, cands) && DataBelow(m, cands)
  {
    forall c, k | c in cands && 0 <= k <= m[c].height
      ensures LinkedEntry(m[Ancestor(m, c, k)]) && m[Ancestor(m, c, k)].haveData
    {
      LinkedBelow(m, u, c, k);
    }
  }

  lemma AllLinkedFlagged(m: BlockMap, m': BlockMap, cands: set<Hash>, cands': set<Hash>)
    requires AllLinked(m, cands) && OnlyFlagged(m, m') && cands' <= cands
    ensures AllLinked(m', cands')
  {
    assert forall h | h in m :: FlaggedEntry(m[h], m'[h]);
  }

  // ----- Blocks that were usable stay usable -----

  /** The same tree, perhaps with more blocks; old entries keep data and flags, or gain data. */
  ghost predicate Extends(m: BlockMap, m': BlockMap) {
    && Grows(m, m')
    && forall h | h in m && EntryGood(m[h]) :: EntryGood(m'[h])
  }

  lemma {:induction false} GoodExtends(m: BlockMap, m': BlockMap, h: Hash)
    requires WellFormed(m) && WellFormed(m') && Extends(m, m') && h in m && Good(m, h)
    ensures Good(m', h)
    decreases m[h].height
  {
    assert LinkOk(m, h) && LinkOk(m', h);
    if m[h].prev.Some? {
      GoodExtends(m, m', Parent(m, h));
    }
  }

  /** More stored blocks change nothing on a path whose blocks are all stored. */
  lemma BlocksOfExtends(blocks: BlockStore, h: Hash, b: Block, c: seq<Hash>)
    requires h !in blocks && forall i | 0 <= i < |c| :: c[i] in blocks
    ensures BlocksOf(blocks[h := b], c) == BlocksOf(blocks, c)
  {
    hide BlocksOf;
    assert forall i | 0 <= i < |c| :: BlocksOf(blocks[h := b], c)[i] == BlocksOf(blocks, c)[i];
  }

  lemma GoodIsStored(m: BlockMap, blocks: BlockStore, h: Hash)
    requires WellFormed(m) && StoreMatches(m, blocks) && h in m && Good(m, h)
    ensures forall i | 0 <= i < |Path(m, h)| :: Path(m, h)[i] in blocks
  {
    forall i | 0 <= i < |Path(m, h)|
      ensures Path(m, h)[i] in blocks
    {
      GoodAncestor(m, h, i);
    }
  }

  lemma ActiveExtends(m: BlockMap, m': BlockMap, chain: seq<Hash>)
    requires WellFormed(m) && WellFormed(m') && Extends(m, m') && IsPath(m, chain) && ActiveGood(m, chain)
    ensures IsPath(m', chain) && ActiveGood(m', chain)
  {
    IsPathStable(m, m', chain);
    if chain != [] {
      GoodExtends(m, m', chain[|chain| - 1]);
    }
  }

  /** The tip still connects after blocks have been added or stored. */
  lemma AcceptedExtends(rules: Rules, blocks: BlockStore, blocks': BlockStore, m: BlockMap, m': BlockMap, h: Hash)
    requires rules.halvingInterval > 0 && WellFormed(m) && WellFormed(m') && Grows(m, m') && h in m
    requires BlocksOf(blocks', Path(m, h)) == BlocksOf(blocks, Path(m, h))
    ensures Accepted(rules, blocks', m', h) <==> Accepted(rules, blocks, m, h)
  {
    PathStable(m, m', h);
  }

  // ----- A header -----

  lemma HeaderExtends(m: BlockMap, m': BlockMap, h: Hash)
    requires WellFormed(m) && WellFormed(m') && h !in m && h in m' && m' == m[h := m'[h]] && !m'[h].haveData
    ensures Extends(m, m')
    ensures forall g | g in m' && Good(m', g) :: g in m && Good(m, g)
  {
    forall g | g in m' && Good(m', g)
      ensures g in m && Good(m, g)
    {
      HeaderGood(m, m', h, g);
    }
  }

  lemma {:induction false} HeaderGood(m: BlockMap, m': BlockMap, h: Hash, g: Hash)
    requires WellFormed(m) && WellFormed(m') && h !in m && h in m' && m' == m[h := m'[h]] && !m'[h].haveData
    requires g in m' && Good(m', g)
    ensures g in m && Good(m, g)
    decreases m'[g].height
  {
    assert g in m;
    assert LinkOk(m, g) && LinkOk(m', g);
    if m[g].prev.Some? {
      HeaderGood(m, m', h, Parent(m, g));
    }
  }

  lemma HeaderKeepsReference(
    rules: Rules, blocks: BlockStore, m: BlockMap, m': BlockMap, cands: set<Hash>, tip: Option<Hash>, h: Hash)
    requires rules.halvingInterval > 0 && WellFormed(m) && WellFormed(m')
    requires h !in m && h in m' && m' == m[h := m'[h]] && !m'[h].haveData
    requires Reference(rules, blocks, m, cands, tip)
    ensures Reference(rules, blocks, m', cands, tip)
  {
    hide Accepted;
    HeaderExtends(m, m', h);
    if tip.Some? {
      AcceptedExtends(rules, blocks, blocks, m, m', tip.value);
      GoodExtends(m, m', tip.value);
    }
  }

  // ----- Data -----

  lemma DataExtends(m: BlockMap, m': BlockMap, h: Hash, txCount: nat, sprout: int, from: nat, to: nat)
    requires WellFormed(m) && WellFormed(m') && h in m && !m[h].haveData
    requires OnlyLinked(WithData(m, h, txCount, sprout), m', from, to)
    ensures Extends(m, m')
  {
    var m1 := WithData(m, h, txCount, sprout);
    forall g | g in m
      ensures g in m' && m'[g].prev == m[g].prev && m'[g].height == m[g].height
      ensures EntryGood(m[g]) ==> EntryGood(m'[g])
    {
      assert LinkedEntryOf(m1[g], m'[g], from, to);
    }
  }

  lemma SameData(e: BlockIndex, e': BlockIndex, from: nat, to: nat)
    requires LinkedEntryOf(e, e', from, to)
    ensures e'.haveData == e.haveData && e'.txCount == e.txCount && e'.sprout == e.sprout
  {
  }

  lemma DataKeepsStore(
    m: BlockMap, m': BlockMap, blocks: BlockStore, b: Block, h: Hash, from: nat, to: nat)
    requires StoreMatches(m, blocks) && h in m && !m[h].haveData
    requires OnlyLinked(WithData(m, h, |b.vtx|, Supply.PoolDelta(b.vtx)), m', from, to)
    ensures StoreMatches(m', blocks[h := b]) && h !in blocks
  {
    hide Supply.PoolDelta, LinkedEntryOf;
    var m1 := WithData(m, h, |b.vtx|, Supply.PoolDelta(b.vtx));
    forall g | g in m
      ensures m'[g].haveData == m1[g].haveData && m'[g].txCount == m1[g].txCount && m'[g].sprout == m1[g].sprout
    {
      SameData(m1[g], m'[g], from, to);
    }
  }

  /** When every usable block is linked, completeness of the linked ones is completeness. */
  lemma AllComplete(m: BlockMap, u: Waiting, cands: set<Hash>, tip: Option<Hash>)
    requires WellFormed(m) && Links(m, u, []) && (tip.Some? ==> tip.value in m)
    requires LinkedComplete(m, cands, tip)
    ensures Complete(m, cands, tip)
  {
    forall g | g in m && Good(m, g) && (tip.None? || !Worse(m, g, tip.value))
      ensures g in cands
    {
      GoodIsLinked(m, u, g);
    }
  }

  lemma DataKeepsReference(
    rules: Rules, blocks: BlockStore, m: BlockMap, m': BlockMap, u: Waiting, cands: set<Hash>, cands': set<Hash>,
    tip: Option<Hash>, h: Hash, b: Block)
    requires rules.halvingInterval > 0 && WellFormed(m) && WellFormed(m') && Extends(m, m') && h !in blocks
    requires StoreMatches(m, blocks) && Reference(rules, blocks, m, cands, tip)
    requires Links(m', u, []) && cands <= cands' && (tip.Some? ==> tip.value in m') && LinkedComplete(m', cands', tip)
    ensures Reference(rules, blocks[h := b], m', cands', tip)
  {
    hide Accepted, Links, LinkedComplete;
    AllComplete(m', u, cands', tip);
    if tip.Some? {
      GoodIsStored(m, blocks, tip.value);
      BlocksOfExtends(blocks, h, b, Path(m, tip.value));
      AcceptedExtends(rules, blocks, blocks[h := b], m, m', tip.value);
      GoodExtends(m, m', tip.value);
    }
  }

  // ----- Totals -----

  /** The sum kept along the index is what the blocks of the path moved into the shielded pool. */
  lemma {:induction false} SproutIsPool(m: BlockMap, blocks: BlockStore, h: Hash)
    requires WellFormed(m) && StoreMatches(m, blocks) && h in m && Good(m, h)
    ensures var chain := BlocksOf(blocks, Path(m, h));
            SumSprout(m, h) == Supply.PoolDelta(chain[0].vtx) + Supply.ChainPool(chain)
    decreases m[h].height
  {
    assert LinkOk(m, h) && Counted(m[h], blocks[h]);
    if m[h].prev.Some? {
      var p := Parent(m, h);
      SproutIsPool(m, blocks, p);
      var init := BlocksOf(blocks, Path(m, p));
      assert Path(m, h)[..|Path(m, h)| - 1] == Path(m, p);
      assert BlocksOf(blocks, Path(m, h)) == init + [blocks[h]];
      assert (init + [blocks[h]])[..|init|] == init;
    }
  }
}
