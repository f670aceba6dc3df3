/** The block index: a tree of entries linked to their parents, and the skip list over it. */
module BlockTree {
  import opened Primitives
  import opened Numerals
  import opened SkipList

  /** What the index holds for one block. Entries refer to each other by block hash. */
  datatype BlockIndex = BlockIndex(
    prev: Option<Hash>,
    skip: Option<Hash>,
    height: nat,
    chainWork: nat,              // work of the chain up to and including this block
    txCount: nat,                // 0 until the block's data has arrived
    chainTx: nat,                // transactions up to here; 0 while some ancestor's data is missing
    sprout: Option<int>,         // what the block moved into the shielded pool
    chainSprout: Option<int>,
    haveData: bool,
    failedValid: bool,
    failedChild: bool,
    sequenceId: nat)
  {
    predicate Failed() {
      failedValid || failedChild
    }
  }

  type BlockMap = map<Hash, BlockIndex>

  /** Parents are present, one lower and carry less work; only height 0 has no parent. */
  ghost predicate WellFormed(m: BlockMap) {
    NULL_HASH !in m && forall h {:trigger LinkOk(m, h)} | h in m :: LinkOk(m, h)
  }

  ghost predicate LinkOk(m: BlockMap, h: Hash)
    requires h in m
  {
    match m[h].prev
    case None => m[h].height == 0
    case Some(p) => p in m && m[h].height == m[p].height + 1 && m[h].chainWork > m[p].chainWork
  }

  function Parent(m: BlockMap, h: Hash): Hash
    requires h in m && m[h].prev.Some?
  {
    m[h].prev.value
  }

  /** The ancestor of `h` at height `k`, walking from parent to parent. */
  ghost function Ancestor(m: BlockMap, h: Hash, k: nat): (a: Hash)
    requires WellFormed(m) && h in m && k <= m[h].height
    ensures a in m && m[a].height == k
    decreases m[h].height
  {
    assert LinkOk(m, h);
    if m[h].height == k then h else Ancestor(m, Parent(m, h), k)
  }

  /** The blocks from height 0 to `h`. */
  ghost function Path(m: BlockMap, h: Hash): (p: seq<Hash>)
    requires WellFormed(m) && h in m
    ensures |p| == m[h].height + 1
    ensures forall k | 0 <= k < |p| :: p[k] == Ancestor(m, h, k)
    decreases m[h].height
  {
    assert LinkOk(m, h);
    if m[h].prev.None? then [h]
    else
      var q := Path(m, Parent(m, h));
      assert forall k | 0 <= k < |q| :: q[k] == Ancestor(m, h, k);
      q + [h]
  }

  lemma {:induction false} AncestorOfAncestor(m: BlockMap, h: Hash, j: nat, k: nat)
    requires WellFormed(m) && h in m && k <= j <= m[h].height
    ensures Ancestor(m, Ancestor(m, h, j), k) == Ancestor(m, h, k)
    decreases m[h].height
  {
    assert LinkOk(m, h);
    if m[h].height != j {
      AncestorOfAncestor(m, Parent(m, h), j, k);
    }
  }

  /** Work grows strictly along a path. */
  lemma {:induction false} WorkGrows(m: BlockMap, h: Hash, k: nat)
    requires WellFormed(m) && h in m && k <= m[h].height
    ensures m[Ancestor(m, h, k)].chainWork <= m[h].chainWork
    ensures k < m[h].height ==> m[Ancestor(m, h, k)].chainWork < m[h].chainWork
    decreases m[h].height
  {
    assert LinkOk(m, h);
    if m[h].height != k {
      WorkGrows(m, Parent(m, h), k);
    }
  }

  /** `m'` has every entry of `m`, with the same place in the tree. */
  ghost predicate Grows(m: BlockMap, m': BlockMap) {
    forall h | h in m :: h in m' && m'[h].prev == m[h].prev && m'[h].height == m[h].height
  }

  lemma {:induction false} AncestorStable(m: BlockMap, m': BlockMap, h: Hash, k: nat)
    requires WellFormed(m) && WellFormed(m') && Grows(m, m')
    requires h in m && k <= m[h].height
    ensures Ancestor(m', h, k) == Ancestor(m, h, k)
    decreases m[h].height
  {
    assert LinkOk(m, h) && LinkOk(m', h);
    if m[h].height != k {
      AncestorStable(m, m', Parent(m, h), k);
    }
  }

  // ----- Skip pointers -----

  /** Every skip pointer leads to the ancestor at the skip height; the genesis block has none. */
  ghost predicate SkipsOk(m: BlockMap)
    requires WellFormed(m)
  {
    forall h {:trigger SkipOk(m, h)} | h in m :: SkipOk(m, h)
  }

  ghost predicate SkipOk(m: BlockMap, h: Hash)
    requires WellFormed(m) && h in m
  {
    if m[h].height == 0 then m[h].skip.None?
    else m[h].skip == Some(Ancestor(m, h, SkipHeight(m[h].height)))
  }

  /** One step back along the path to `h`, by parent or by skip pointer. */
  lemma StepBack(m: BlockMap, h: Hash, k: nat)
    requires WellFormed(m) && SkipsOk(m) && h in m && 0 < k <= m[h].height
    ensures m[Ancestor(m, h, k)].prev == Some(Ancestor(m, h, k - 1))
    ensures m[Ancestor(m, h, k)].skip == Some(Ancestor(m, h, SkipHeight(k)))
  {
    var w := Ancestor(m, h, k);
    assert SkipOk(m, w) && LinkOk(m, w);
    AncestorOfAncestor(m, h, k, k - 1);
    AncestorOfAncestor(m, h, k, SkipHeight(k));
    assert Ancestor(m, w, k - 1) == Ancestor(m, Parent(m, w), k - 1);
  }

  /** `CBlockIndex::GetAncestor`: the same ancestor as the plain walk, by way of skip pointers. */
  method GetAncestor(m: BlockMap, h: Hash, height: int) returns (r: Option<Hash>, ghost steps: nat)
    requires WellFormed(m) && SkipsOk(m) && h in m
    ensures r == if 0 <= height <= m[h].height then Some(Ancestor(m, h, height)) else None
    ensures forall k: nat | m[h].height < Pow(2, k) :: steps <= MostHops(k)
    ensures m[h].height < 262_144 ==> steps <= 110
  {
    steps := 0;
    if height > m[h].height || height < 0 {
      return None, steps;
    }
    HopsBounded(m[h].height, height);
    var walk, heightWalk := h, m[h].height;
    assert walk == Ancestor(m, h, heightWalk);
    hide WellFormed, SkipsOk, SkipHeight, UseSkip, Ancestor, Hops, MostHops;
    while heightWalk > height
      invariant height <= heightWalk <= m[h].height
      invariant walk == Ancestor(m, h, heightWalk)
      invariant steps + Hops(heightWalk, height) == Hops(m[h].height, height)
    {
      StepBack(m, h, heightWalk);
      HopsStep(heightWalk, height);
      steps := steps + 1;
      if m[walk].skip.Some? && UseSkip(heightWalk, height) {
        SkipStops(heightWalk, height);
        walk, heightWalk := m[walk].skip.value, SkipHeight(heightWalk);
      } else {
        walk, heightWalk := m[walk].prev.value, heightWalk - 1;
      }
    }
    HopsNone(height);
    return Some(walk), steps;
  }

  // ----- Adding an entry -----

  /** A new leaf with the right parent link and skip pointer keeps the index well formed. */
  lemma ExtendKeepsWellFormed(m: BlockMap, h: Hash, e: BlockIndex)
    requires WellFormed(m) && SkipsOk(m) && h !in m && h != NULL_HASH
    requires match e.prev
             case None => e.height == 0 && e.skip.None?
             case Some(p) =>
               && p in m && e.height == m[p].height + 1 && e.chainWork > m[p].chainWork
               && e.skip == Some(Ancestor(m, p, SkipHeight(e.height)))
    ensures WellFormed(m[h := e]) && SkipsOk(m[h := e]) && Grows(m, m[h := e])
  {
    var m' := m[h := e];
    forall g | g in m'
      ensures LinkOk(m', g)
    {
      assert g in m ==> LinkOk(m, g);
    }
    forall g | g in m'
      ensures SkipOk(m', g)
    {
      if g == h {
        if e.prev.Some? {
          AncestorStable(m, m', e.prev.value, SkipHeight(e.height));
        }
      } else {
        assert SkipOk(m, g);
        if m[g].height > 0 {
          AncestorStable(m, m', g, SkipHeight(m[g].height));
        }
      }
    }
  }

  /** `BuildSkip` for a block about to be added under `parent`. */
  method BuildSkip(m: BlockMap, parent: Hash) returns (skip: Option<Hash>)
    requires WellFormed(m) && SkipsOk(m) && parent in m
    ensures skip == Some(Ancestor(m, parent, SkipHeight(m[parent].height + 1)))
  {
    var found, _ := GetAncestor(m, parent, SkipHeight(m[parent].height + 1));
    skip := found;
  }
}
