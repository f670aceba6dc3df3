/** Finding the most-work chain among the candidates (`FindMostWorkChain`,
    `PruneBlockIndexCandidates`). */
module MostWork {
  import opened Primitives
  import opened BlockTree
  import opened ActiveChain
  import opened Candidates

  /** Every block of the active chain is usable. */
  ghost predicate ActiveGood(m: BlockMap, chain: seq<Hash>)
    requires WellFormed(m) && IsPath(m, chain)
  {
    chain != [] ==> Good(m, chain[|chain| - 1])
  }

  /** Candidates and all their ancestors have had their data linked. */
  ghost predicate CandidatesLinked(m: BlockMap, cands: set<Hash>)
    requires WellFormed(m)
  {
    && cands <= m.Keys
    && forall c, k | c in cands && 0 <= k <= m[c].height :: LinkedEntry(m[Ancestor(m, c, k)])
  }

  predicate LinkedEntry(e: BlockIndex) {
    e.chainTx != 0 || e.height == 0
  }

  predicate OnChain(m: BlockMap, chain: seq<Hash>, h: Hash)
    requires h in m
  {
    m[h].height < |chain| && chain[m[h].height] == h
  }

  /** `g` lies on the path to `top`, at height `k` or above. */
  ghost predicate Between(m: BlockMap, top: Hash, k: nat, g: Hash)
    requires WellFormed(m) && top in m && g in m
  {
    k <= m[g].height <= m[top].height && g == Ancestor(m, top, m[g].height)
  }

  /** Walks from `top` down to the active chain and reports the first block that cannot be used. */
  method CheckPath(m: BlockMap, chain: seq<Hash>, cands: set<Hash>, top: Hash) returns (bad: Option<Hash>)
    requires WellFormed(m) && IsPath(m, chain) && ActiveGood(m, chain)
    requires CandidatesLinked(m, cands) && top in cands
    ensures bad.None? ==> Good(m, top)
    ensures bad.Some? ==> bad.value in m && Between(m, top, 0, bad.value) && !EntryGood(m[bad.value])
    ensures bad.Some? ==>
              forall j | m[bad.value].height < j <= m[top].height :: EntryGood(m[Ancestor(m, top, j)])
  {
    var test := Some(top);
    while test.Some? && !OnChain(m, chain, test.value)
      invariant test.Some? ==> test.value in m && Between(m, top, 0, test.value)
      invariant forall j | Above(m, test) <= j <= m[top].height :: EntryGood(m[Ancestor(m, top, j)])
      decreases Above(m, test)
    {
      var t := test.value;
      assert LinkedEntry(m[t]);
      if !EntryGood(m[t]) {
        return Some(t);
      }
      ParentOnPath(m, top, m[t].height);
      assert LinkOk(m, t);
      test := m[t].prev;
    }
    if test.Some? {
      GoodOnChain(m, chain, test.value);
      GoodFrom(m, top, m[test.value].height);
    } else {
      GoodWhole(m, top);
    }
    bad := None;
  }

  lemma GoodOnChain(m: BlockMap, chain: seq<Hash>, h: Hash)
    requires WellFormed(m) && IsPath(m, chain) && ActiveGood(m, chain) && h in m && OnChain(m, chain, h)
    ensures Good(m, h)
  {
    GoodAncestor(m, chain[|chain| - 1], m[h].height);
  }

  /** A block above a bad one is not good. */
  lemma BadBelow(m: BlockMap, top: Hash, bad: Hash, g: Hash)
    requires WellFormed(m) && top in m && bad in m && g in m
    requires Between(m, top, 0, bad) && !EntryGood(m[bad]) && Between(m, top, m[bad].height, g)
    ensures !Good(m, g)
  {
    AncestorOfAncestor(m, top, m[g].height, m[bad].height);
    GoodAncestor(m, g, m[bad].height);
  }

  /** What taking the chain from `bad` up to `top` out of the candidates changes: if `bad` failed,
      the blocks above it are marked as descending from a failed block. */
  ghost predicate TakenOut(
    m: BlockMap, m': BlockMap, cands: set<Hash>, cands': set<Hash>, top: Hash, bad: Hash)
    requires WellFormed(m) && top in m && bad in m && cands <= m.Keys
  {
    && m'.Keys == m.Keys
    && (forall g | g in m :: m'[g] == Marked(m, top, m[bad].height + 1, m[bad].Failed(), g))
    && cands' == set g | g in cands && !Between(m, top, m[bad].height, g)
  }

  ghost function Marked(m: BlockMap, top: Hash, k: nat, failed: bool, g: Hash): BlockIndex
    requires WellFormed(m) && top in m && g in m
  {
    if failed && Between(m, top, k, g) then m[g].(failedChild := true) else m[g]
  }

  /** One entry per block from `x` down to above height `k`, under its parent. */
  ghost function Unlinked(m: BlockMap, x: Hash, k: nat): multiset<(Hash, Hash)>
    requires WellFormed(m) && x in m
    decreases m[x].height
  {
    if m[x].height <= k then multiset{}
    else assert LinkOk(m, x); multiset{(Parent(m, x), x)} + Unlinked(m, Parent(m, x), k)
  }

  /** Removes the blocks from `top` down to `bad` from the candidates. If `bad` failed, those above
      it descend from a failed block; if its data is missing, they are unlinked again. */
  method TakeOut(m: BlockMap, cands: set<Hash>, unlinked: multiset<(Hash, Hash)>, top: Hash, bad: Hash)
    returns (m': BlockMap, cands': set<Hash>, unlinked': multiset<(Hash, Hash)>)
    requires WellFormed(m) && top in m && bad in m && cands <= m.Keys && Between(m, top, 0, bad)
    ensures TakenOut(m, m', cands, cands', top, bad)
    ensures m[bad].Failed() ==> forall g | g in m && Between(m, top, m[bad].height, g) :: m'[g].Failed()
    ensures unlinked' == if m[bad].Failed() then unlinked else unlinked + Unlinked(m, top, m[bad].height)
  {
    hide Marked, Between, Unlinked, WellFormed, BlockIndex.Failed;
    m', cands', unlinked' := m, cands, unlinked;
    var x := top;
    WalkStarts(m, cands, top, bad);
    while x != bad
      invariant x in m && Between(m, top, m[bad].height, x)
      invariant Walked(m, m', cands, cands', top, m[bad].Failed(), m[x].height + 1)
      invariant m[bad].Failed() ==> unlinked' == unlinked
      invariant !m[bad].Failed() ==>
                  unlinked' + Unlinked(m, x, m[bad].height) == unlinked + Unlinked(m, top, m[bad].height)
      decreases m[x].height
    {
      BetweenSteps(m, top, bad, x);
      WalkStep(m, m', cands, cands', top, m[bad].Failed(), x);
      UnlinkedStep(m, x, m[bad].height);
      if m[bad].Failed() {
        m' := m'[x := m'[x].(failedChild := true)];
      } else {
        unlinked' := unlinked' + multiset{(m[x].prev.value, x)};
      }
      cands' := cands' - {x};
      x := m[x].prev.value;
    }
    UnlinkedNone(m, bad);
    WalkEnds(m, m', cands, cands', top, bad);
    cands' := cands' - {bad};
    AllFailed(m, m', cands, cands', top, bad);
  }

  /** Above a failed block, everything on the way to `top` counts as failed. */
  lemma AllFailed(m: BlockMap, m': BlockMap, cands: set<Hash>, cands': set<Hash>, top: Hash, bad: Hash)
    requires WellFormed(m) && top in m && bad in m && cands <= m.Keys && Between(m, top, 0, bad)
    requires TakenOut(m, m', cands, cands', top, bad)
    ensures m[bad].Failed() ==> forall g | g in m && Between(m, top, m[bad].height, g) :: m'[g].Failed()
  {
    hide WellFormed;
    BetweenLowered(m, top, bad);
  }

  /** The blocks of the path from height `k` up are out of the candidates, and marked if that is called for. */
  ghost predicate Walked(
    m: BlockMap, m': BlockMap, cands: set<Hash>, cands': set<Hash>, top: Hash, failed: bool, k: nat)
    requires WellFormed(m) && top in m && cands <= m.Keys
  {
    && m'.Keys == m.Keys
    && (forall g | g in m :: m'[g] == Marked(m, top, k, failed, g))
    && cands' == set g | g in cands && !Between(m, top, k, g)
  }

  lemma WalkStarts(m: BlockMap, cands: set<Hash>, top: Hash, bad: Hash)
    requires WellFormed(m) && top in m && bad in m && cands <= m.Keys && Between(m, top, 0, bad)
    ensures Walked(m, m, cands, cands, top, m[bad].Failed(), m[top].height + 1)
    ensures Between(m, top, m[bad].height, top)
  {
    hide WellFormed;
  }

  lemma WalkStep(
    m: BlockMap, m': BlockMap, cands: set<Hash>, cands': set<Hash>, top: Hash, failed: bool, x: Hash)
    requires WellFormed(m) && top in m && cands <= m.Keys && x in m && Between(m, top, 0, x)
    requires Walked(m, m', cands, cands', top, failed, m[x].height + 1)
    ensures x in m'
    ensures Walked(m, if failed then m'[x := m'[x].(failedChild := true)] else m', cands, cands' - {x}, top, failed,
                   m[x].height)
  {
    hide WellFormed, Between;
    BetweenLowered(m, top, x);
  }

  lemma WalkEnds(m: BlockMap, m': BlockMap, cands: set<Hash>, cands': set<Hash>, top: Hash, bad: Hash)
    requires WellFormed(m) && top in m && bad in m && cands <= m.Keys && Between(m, top, 0, bad)
    requires Walked(m, m', cands, cands', top, m[bad].Failed(), m[bad].height + 1)
    ensures TakenOut(m, m', cands, cands' - {bad}, top, bad)
  {
    hide WellFormed, Between, Marked;
    BetweenLowered(m, top, bad);
  }

  lemma UnlinkedStep(m: BlockMap, x: Hash, k: nat)
    requires WellFormed(m) && x in m && m[x].height > k && m[x].prev.Some? && m[x].prev.value in m
    ensures Unlinked(m, x, k) == multiset{(m[x].prev.value, x)} + Unlinked(m, m[x].prev.value, k)
  {
  }

  lemma UnlinkedNone(m: BlockMap, x: Hash)
    requires WellFormed(m) && x in m
    ensures Unlinked(m, x, m[x].height) == multiset{}
  {
  }

  /** Going down one block adds that block. */
  lemma BetweenLowered(m: BlockMap, top: Hash, x: Hash)
    requires WellFormed(m) && top in m && x in m && Between(m, top, 0, x)
    ensures forall g | g in m :: Between(m, top, m[x].height, g) <==> g == x || Between(m, top, m[x].height + 1, g)
  {
  }

  lemma BetweenSteps(m: BlockMap, top: Hash, bad: Hash, x: Hash)
    requires WellFormed(m) && top in m && bad in m && x in m
    requires Between(m, top, 0, bad) && Between(m, top, m[bad].height, x) && x != bad
    ensures Between(m, top, 0, x) && m[x].height > m[bad].height && m[x].prev.Some?
    ensures m[x].prev.value in m && Between(m, top, m[bad].height, m[x].prev.value)
    ensures m[m[x].prev.value].height == m[x].height - 1
  {
    ParentOnPath(m, top, m[x].height);
    assert LinkOk(m, x);
  }

  /** Same tree and same usable blocks; no usable candidate lost. */
  ghost predicate Refined(m: BlockMap, m': BlockMap, cands: set<Hash>, cands': set<Hash>)
    requires WellFormed(m)
  {
    && OnlyFlagged(m, m')
    && WellFormed(m')
    && cands' <= cands <= m.Keys
    && (forall h | h in m :: Good(m', h) <==> Good(m, h))
    && (forall h | h in cands && Good(m, h) :: h in cands')
    && (forall h | h in m :: m'[h].failedValid == m[h].failedValid)
  }

  /** Taking a bad chain out discards no usable candidate and does not change which blocks are
      usable. */
  lemma TakenOutRefines(m: BlockMap, m': BlockMap, cands: set<Hash>, cands': set<Hash>, top: Hash, bad: Hash)
    requires WellFormed(m) && top in m && bad in m && cands <= m.Keys
    requires Between(m, top, 0, bad) && !EntryGood(m[bad])
    requires TakenOut(m, m', cands, cands', top, bad)
    ensures Refined(m, m', cands, cands')
  {
    FlaggedTree(m, m');
    forall g | g in m && Between(m, top, m[bad].height, g)
      ensures !Good(m, g)
    {
      BadBelow(m, top, bad, g);
    }
    forall h | h in m
      ensures Good(m', h) <==> Good(m, h)
    {
      FlaggedBadOnly(m, m', h);
    }
  }

  lemma RefinedTransitive(
    m: BlockMap, m': BlockMap, m'': BlockMap, cands: set<Hash>, cands': set<Hash>, cands'': set<Hash>)
    requires WellFormed(m) && Refined(m, m', cands, cands') && Refined(m', m'', cands', cands'')
    ensures Refined(m, m'', cands, cands'')
  {
    FlaggedTransitive(m, m', m'');
  }

  lemma IsPathStable(m: BlockMap, m': BlockMap, c: seq<Hash>)
    requires WellFormed(m) && WellFormed(m') && Grows(m, m') && IsPath(m, c)
    ensures IsPath(m', c)
  {
    if c != [] {
      var tip := c[|c| - 1];
      forall k | 0 <= k < |c|
        ensures c[k] == Path(m', tip)[k]
      {
        AncestorStable(m, m', tip, k);
      }
    }
  }

  /** What the search needs of the index stays true under new flags. */
  lemma SearchStable(m: BlockMap, m': BlockMap, chain: seq<Hash>, cands: set<Hash>, cands': set<Hash>)
    requires WellFormed(m) && IsPath(m, chain) && ActiveGood(m, chain) && CandidatesLinked(m, cands)
    requires Refined(m, m', cands, cands')
    ensures IsPath(m', chain) && ActiveGood(m', chain) && CandidatesLinked(m', cands')
  {
    FlaggedTree(m, m');
    IsPathStable(m, m', chain);
    forall c, k | c in cands' && 0 <= k <= m'[c].height
      ensures LinkedEntry(m'[Ancestor(m', c, k)])
    {
      AncestorStable(m, m', c, k);
      var a := Ancestor(m, c, k);
      assert FlaggedEntry(m[a], m'[a]) && FlaggedEntry(m[c], m'[c]);
      assert LinkedEntry(m[a]);
    }
  }

  /** The candidate with the most work whose chain can be used, if there is one. Candidates that
      cannot be used, found on the way, are taken out. */
  method FindMostWorkChain(m: BlockMap, chain: seq<Hash>, cands: set<Hash>, unlinked: multiset<(Hash, Hash)>)
    returns (r: Option<Hash>, m': BlockMap, cands': set<Hash>, unlinked': multiset<(Hash, Hash)>)
    requires WellFormed(m) && IsPath(m, chain) && ActiveGood(m, chain) && CandidatesLinked(m, cands)
    ensures Refined(m, m', cands, cands') && cands <= m.Keys
    ensures IsPath(m', chain) && ActiveGood(m', chain) && CandidatesLinked(m', cands')
    ensures r.None? ==> forall h | h in cands :: !Good(m, h)
    ensures r.Some? ==> IsGreatest(m', cands', r.value) && Good(m', r.value)
    ensures r.Some? ==>
              r.value in cands && Good(m, r.value) &&
              forall g | g in cands && Good(m, g) ::
                && m[g].chainWork <= m[r.value].chainWork
                && (m[g].chainWork == m[r.value].chainWork ==> m[r.value].sequenceId <= m[g].sequenceId)
    ensures DataBelow(m, cands) ==> unlinked' == unlinked
  {
    m', cands', unlinked' := m, cands, unlinked;
    assert Refined(m, m', cands, cands');
    hide Refined, CandidatesLinked, ActiveGood, IsPath, TakenOut, DataBelow;
    while cands' != {}
      invariant cands <= m.Keys && WellFormed(m') && Refined(m, m', cands, cands')
      invariant IsPath(m', chain) && ActiveGood(m', chain) && CandidatesLinked(m', cands')
      invariant DataBelow(m, cands) ==> unlinked' == unlinked
      decreases |cands'|
    {
      SearchKeys(m', cands');
      var top := Greatest(m', cands');
      var bad := CheckPath(m', chain, cands', top);
      if bad.None? {
        LeadsUsable(m, m', cands, cands', top);
        return Some(top), m', cands', unlinked';
      }
      if DataBelow(m, cands) {
        BadHasFailed(m, m', cands, cands', top, bad.value);
      }
      var m1, cands1;
      m1, cands1, unlinked' := TakeOut(m', cands', unlinked', top, bad.value);
      TakenOutRefines(m', m1, cands', cands1, top, bad.value);
      SearchStable(m', m1, chain, cands', cands1);
      RefinedTransitive(m, m', m1, cands, cands', cands1);
      Shrinks(m', m1, cands', cands1, top, bad.value);
      m', cands' := m1, cands1;
    }
    NoneGood(m, m', cands);
    r := None;
  }

  /** The greatest of the candidates that are left leads all usable ones, on the fields that count. */
  lemma LeadsUsable(m: BlockMap, m': BlockMap, cands: set<Hash>, cands': set<Hash>, top: Hash)
    requires WellFormed(m) && Refined(m, m', cands, cands') && cands' <= m'.Keys && IsGreatest(m', cands', top) && Good(m', top)
    ensures top in cands && top in m && Good(m, top)
    ensures forall g | g in cands && Good(m, g) ::
              && m[g].chainWork <= m[top].chainWork
              && (m[g].chainWork == m[top].chainWork ==> m[top].sequenceId <= m[g].sequenceId)
  {
    forall g | g in cands && Good(m, g)
      ensures m[g].chainWork <= m[top].chainWork
      ensures m[g].chainWork == m[top].chainWork ==> m[top].sequenceId <= m[g].sequenceId
    {
      assert FlaggedEntry(m[g], m'[g]) && FlaggedEntry(m[top], m'[top]);
      assert !Worse(m', top, g);
    }
  }

  /** No block of the chains that end in candidates has had its data pruned. */
  ghost predicate DataBelow(m: BlockMap, cands: set<Hash>)
    requires WellFormed(m) && cands <= m.Keys
  {
    forall c, k | c in cands && 0 <= k <= m[c].height :: m[Ancestor(m, c, k)].haveData
  }

  lemma BadHasFailed(m: BlockMap, m': BlockMap, cands: set<Hash>, cands': set<Hash>, top: Hash, bad: Hash)
    requires WellFormed(m) && cands <= m.Keys && DataBelow(m, cands) && Refined(m, m', cands, cands') && top in cands'
    requires top in m' && bad in m' && Between(m', top, 0, bad) && !EntryGood(m'[bad])
    ensures m'[bad].Failed()
  {
    FlaggedTree(m, m');
    assert FlaggedEntry(m[bad], m'[bad]) && FlaggedEntry(m[top], m'[top]);
    AncestorStable(m, m', top, m[bad].height);
    assert m[Ancestor(m, top, m[bad].height)].haveData;
  }

  lemma SearchKeys(m: BlockMap, cands: set<Hash>)
    requires WellFormed(m) && CandidatesLinked(m, cands)
    ensures cands <= m.Keys
  {
  }

  lemma Shrinks(m: BlockMap, m': BlockMap, cands: set<Hash>, cands': set<Hash>, top: Hash, bad: Hash)
    requires WellFormed(m) && top in m && bad in m && top in cands && cands <= m.Keys && Between(m, top, 0, bad)
    requires TakenOut(m, m', cands, cands', top, bad) && Refined(m, m', cands, cands')
    ensures |cands'| < |cands| && WellFormed(m')
  {
    var rest := cands - {top};
    assert cands' <= rest;
    SubsetSize(cands', rest);
  }

  lemma NoneGood(m: BlockMap, m': BlockMap, cands: set<Hash>)
    requires WellFormed(m) && Refined(m, m', cands, {})
    ensures forall h | h in cands :: h in m && !Good(m, h)
  {
  }

  /** Removes the candidates that are worse than the tip. */
  method PruneBlockIndexCandidates(m: BlockMap, cands: set<Hash>, tip: Hash) returns (cands': set<Hash>)
    requires cands <= m.Keys && tip in m
    requires exists c | c in cands :: !Worse(m, c, tip)
    ensures cands' == set c | c in cands && !Worse(m, c, tip)
    ensures forall c | c in cands && c !in cands' ::
              m[c].chainWork <= m[tip].chainWork &&
              (m[c].chainWork == m[tip].chainWork ==> m[tip].sequenceId <= m[c].sequenceId)
    ensures forall c | c in cands' ::
              m[tip].chainWork <= m[c].chainWork &&
              (m[c].chainWork == m[tip].chainWork ==> m[c].sequenceId <= m[tip].sequenceId)
    ensures cands' != {}
  {
    cands' := cands;
    while cands' != {}
      invariant cands' <= cands
      invariant forall c | c in cands && c !in cands' :: Worse(m, c, tip)
      decreases |cands'|
    {
      var c := Least(m, cands');
      if !Worse(m, c, tip) {
        forall d | d in cands'
          ensures !Worse(m, d, tip)
        {
          WorseIsTransitive(m, tip, c, d);
        }
        break;
      }
      cands' := cands' - {c};
    }
  }
}
