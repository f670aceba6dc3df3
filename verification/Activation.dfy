/** What the search for the best chain relies on while tips are being connected: which blocks
    connect, and a reference block that no usable block outside the candidates beats. */
module Activation {
  import opened Primitives
  import opened Blocks
  import opened Runs
  import opened BlockTree
  import opened Candidates
  import opened MostWork

  type BlockStore = map<Hash, Block>

  function BlockAt(blocks: BlockStore, h: Hash): Block {
    if h in blocks then blocks[h] else Block(NULL_HASH, NULL_HASH, [])
  }

  function BlocksOf(blocks: BlockStore, c: seq<Hash>): (r: seq<Block>)
    ensures |r| == |c|
    ensures forall i | 0 <= i < |c| :: r[i] == BlockAt(blocks, c[i])
  {
    if c == [] then [] else BlocksOf(blocks, c[..|c| - 1]) + [BlockAt(blocks, c[|c| - 1])]
  }

  /** The blocks up to and including `h` connect, one after the other. */
  ghost predicate Accepted(rules: Rules, blocks: BlockStore, m: BlockMap, h: Hash)
    requires rules.halvingInterval > 0 && WellFormed(m) && h in m
  {
    Replay(rules, BlocksOf(blocks, Path(m, h))).Some?
  }

  lemma AcceptedAncestor(rules: Rules, blocks: BlockStore, m: BlockMap, h: Hash, k: nat)
    requires rules.halvingInterval > 0 && WellFormed(m) && h in m && k <= m[h].height
    requires Accepted(rules, blocks, m, h)
    ensures Accepted(rules, blocks, m, Ancestor(m, h, k))
  {
    hide Replay;
    var a := Ancestor(m, h, k);
    PathPrefix(m, h, k);
    assert BlocksOf(blocks, Path(m, a)) == BlocksOf(blocks, Path(m, h))[..k + 1];
    ReplayPrefix(rules, BlocksOf(blocks, Path(m, h)), k + 1);
  }

  /** The path to an ancestor is the beginning of the path. */
  lemma PathPrefix(m: BlockMap, h: Hash, k: nat)
    requires WellFormed(m) && h in m && k <= m[h].height
    ensures Path(m, Ancestor(m, h, k)) == Path(m, h)[..k + 1]
  {
    var a := Ancestor(m, h, k);
    forall j | 0 <= j <= k
      ensures Path(m, a)[j] == Path(m, h)[j]
    {
      AncestorOfAncestor(m, h, k, j);
    }
  }

  /** The same tree gives the same paths. */
  lemma PathStable(m: BlockMap, m': BlockMap, h: Hash)
    requires WellFormed(m) && WellFormed(m') && Grows(m, m') && h in m
    ensures h in m' && Path(m', h) == Path(m, h)
  {
    forall k | 0 <= k <= m[h].height
      ensures Path(m', h)[k] == Path(m, h)[k]
    {
      AncestorStable(m, m', h, k);
    }
  }

  // ----- The reference block -----

  /** Every usable block that is not worse than `best` is a candidate. */
  ghost predicate Complete(m: BlockMap, cands: set<Hash>, best: Option<Hash>)
    requires WellFormed(m) && (best.Some? ==> best.value in m)
  {
    forall g {:trigger Good(m, g)} | g in m && Good(m, g) && (best.None? || !Worse(m, g, best.value)) :: g in cands
  }

  /** `best` is a usable candidate that connects, and the candidates are complete from it upwards. */
  ghost predicate Reference(rules: Rules, blocks: BlockStore, m: BlockMap, cands: set<Hash>, best: Option<Hash>)
    requires rules.halvingInterval > 0 && WellFormed(m)
  {
    && (best.Some? ==>
          && best.value in m && best.value in cands
          && Good(m, best.value) && Accepted(rules, blocks, m, best.value))
    && Complete(m, cands, best)
  }

  /** Taking unusable candidates out keeps the reference. */
  lemma ReferenceRefined(
    rules: Rules, blocks: BlockStore, m: BlockMap, m': BlockMap, cands: set<Hash>, cands': set<Hash>, best: Option<Hash>)
    requires rules.halvingInterval > 0 && WellFormed(m)
    requires Reference(rules, blocks, m, cands, best) && Refined(m, m', cands, cands')
    ensures Reference(rules, blocks, m', cands', best)
  {
    hide Replay;
    FlaggedTree(m, m');
    if best.Some? {
      PathStable(m, m', best.value);
    }
    forall g | g in m' && Good(m', g) && (best.None? || !Worse(m', g, best.value))
      ensures g in cands'
    {
      assert Good(m, g);
    }
  }

  /** After connecting `t` and pruning, the better of the old reference and `t` is a reference. */
  lemma ReferencePruned(
    rules: Rules, blocks: BlockStore, m: BlockMap, cands: set<Hash>, cands': set<Hash>, best: Option<Hash>, t: Hash)
    requires rules.halvingInterval > 0 && WellFormed(m) && cands <= m.Keys
    requires Reference(rules, blocks, m, cands, best)
    requires t in m && Good(m, t) && Accepted(rules, blocks, m, t)
    requires cands' == set c | c in cands && !Worse(m, c, t)
    ensures var best' := if best.None? || Worse(m, best.value, t) then Some(t) else best;
            Reference(rules, blocks, m, cands', best')
  {
    hide Accepted;
    var best' := if best.None? || Worse(m, best.value, t) then Some(t) else best;
    assert !Worse(m, t, t);
    if best.Some? {
      WorseIsTotal(m, best.value, t);
    }
    assert t in cands || best' == best;
    forall g | g in m && Good(m, g) && !Worse(m, g, best'.value)
      ensures g in cands'
    {
      if best.Some? {
        if best' == best {
          WorseIsTransitive(m, t, best.value, g);
        } else {
          WorseIsTransitive(m, best.value, t, g);
        }
      }
    }
  }

  /** The index with `x` marked as failed. */
  function WithFailed(m: BlockMap, x: Hash): BlockMap
    requires x in m
  {
    m[x := m[x].(failedValid := true)]
  }

  lemma WithFailedFlags(m: BlockMap, x: Hash)
    requires WellFormed(m) && x in m
    ensures OnlyFlagged(m, WithFailed(m, x)) && WellFormed(WithFailed(m, x))
  {
    var m' := WithFailed(m, x);
    forall h | h in m
      ensures FlaggedEntry(m[h], m'[h])
    {
    }
    FlaggedTree(m, m');
  }

  /** A block that does not connect is not on the path to one that does, so marking it as failed
      keeps the reference. */
  lemma ReferenceFailed(
    rules: Rules, blocks: BlockStore, m: BlockMap, cands: set<Hash>, best: Option<Hash>, x: Hash)
    requires rules.halvingInterval > 0 && WellFormed(m) && x in m
    requires Reference(rules, blocks, m, cands, best) && !Accepted(rules, blocks, m, x)
    ensures WellFormed(WithFailed(m, x))
    ensures Reference(rules, blocks, WithFailed(m, x), cands - {x}, best)
  {
    hide Replay;
    var m' := WithFailed(m, x);
    WithFailedFlags(m, x);
    FlaggedTree(m, m');
    if best.Some? {
      var b := best.value;
      FailedBlock(m, x, b);
      if m[x].height <= m[b].height {
        AcceptedAncestor(rules, blocks, m, b, m[x].height);
      }
      PathStable(m, m', b);
    }
    forall g | g in m' && Good(m', g) && (best.None? || !Worse(m', g, best.value))
      ensures g in cands - {x}
    {
      FailedBlock(m, x, g);
      assert g != x by {
        assert Ancestor(m, x, m[x].height) == x;
      }
    }
  }

  /** When the greatest usable candidate is the tip, no usable block in the whole index beats it. */
  lemma TipIsBest(rules: Rules, blocks: BlockStore, m: BlockMap, cands: set<Hash>, best: Option<Hash>, tip: Hash)
    requires rules.halvingInterval > 0 && WellFormed(m) && cands <= m.Keys
    requires Reference(rules, blocks, m, cands, best) && IsGreatest(m, cands, tip)
    ensures forall g | g in m && Good(m, g) :: !Worse(m, tip, g)
  {
    hide Accepted;
    forall g | g in m && Good(m, g)
      ensures !Worse(m, tip, g)
    {
      if g !in cands {
        WorseIsTotal(m, g, best.value);
        WorseIsTransitive(m, g, best.value, tip);
        WorseIsTotal(m, tip, g);
      }
    }
  }

  // ----- The measure -----

  /** Blocks not marked as failed themselves. */
  ghost function NotFailed(m: BlockMap): set<Hash> {
    set h | h in m && !m[h].failedValid
  }

  /** Blocks with more work than the tip. */
  ghost function Heavier(m: BlockMap, tip: Option<Hash>): set<Hash>
    requires tip.Some? ==> tip.value in m
  {
    set h | h in m && (tip.None? || m[h].chainWork > m[tip.value].chainWork)
  }
}
