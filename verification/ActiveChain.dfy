/** The active chain as a vector by height (`CChain`), and common ancestors. */
module ActiveChain {
  import opened Primitives
  import opened BlockTree

  /** `c` is empty or the whole path to its last block. */
  ghost predicate IsPath(m: BlockMap, c: seq<Hash>)
    requires WellFormed(m)
  {
    c == [] || (c[|c| - 1] in m && c == Path(m, c[|c| - 1]))
  }

  /** `h` and the chain have the same block at height `k`. */
  ghost predicate SharedAt(m: BlockMap, c: seq<Hash>, h: Hash, k: nat)
    requires WellFormed(m) && h in m
  {
    k < |c| && k <= m[h].height && c[k] == Ancestor(m, h, k)
  }

  /** Below a block that is on the chain, everything is shared. */
  lemma SharedBelow(m: BlockMap, c: seq<Hash>, h: Hash, k: nat, j: nat)
    requires WellFormed(m) && IsPath(m, c) && h in m && SharedAt(m, c, h, k) && j <= k
    ensures SharedAt(m, c, h, j)
  {
    var tip := c[|c| - 1];
    AncestorOfAncestor(m, tip, k, j);
    AncestorOfAncestor(m, h, k, j);
  }

  /** The highest shared block; none when even height 0 differs or the chain is empty. */
  ghost predicate IsFork(m: BlockMap, c: seq<Hash>, h: Hash, r: Option<Hash>)
    requires WellFormed(m) && h in m
  {
    match r
    case None => forall k :: !SharedAt(m, c, h, k)
    case Some(f) =>
      && f in m
      && SharedAt(m, c, h, m[f].height)
      && f == Ancestor(m, h, m[f].height)
      && forall k | k > m[f].height :: !SharedAt(m, c, h, k)
  }

  class Chain {
    var vChain: seq<Hash>

    constructor ()
      ensures vChain == []
    {
      vChain := [];
    }

    ghost predicate Valid(m: BlockMap)
      requires WellFormed(m)
      reads this
    {
      IsPath(m, vChain)
    }

    function Tip(): Option<Hash>
      reads this
    {
      if vChain == [] then None else Some(vChain[|vChain| - 1])
    }

    function Height(): int
      reads this
    {
      |vChain| - 1
    }

    predicate Contains(m: BlockMap, h: Hash)
      requires h in m
      reads this
    {
      m[h].height < |vChain| && vChain[m[h].height] == h
    }

    /** Makes `tip` the tip, rewriting only the part of the vector that changes. */
    method SetTip(m: BlockMap, tip: Option<Hash>)
      requires WellFormed(m) && Valid(m) && (tip.Some? ==> tip.value in m)
      modifies this
      ensures vChain == if tip.Some? then Path(m, tip.value) else []
      ensures Valid(m)
    {
      if tip.None? {
        vChain := [];
        return;
      }
      ghost var before := vChain;
      vChain := ResizedTo(vChain, m[tip.value].height + 1);
      var h := tip;
      while h.Some? && vChain[m[h.value].height] != h.value
        invariant |vChain| == m[tip.value].height + 1
        invariant h.Some? ==> h.value in m && m[h.value].height < |vChain|
        invariant h.Some? ==> h.value == Ancestor(m, tip.value, m[h.value].height)
        invariant forall k | Above(m, h) <= k < |vChain| :: vChain[k] == Ancestor(m, tip.value, k)
        invariant forall k | 0 <= k < Above(m, h) :: vChain[k] == ResizedTo(before, |vChain|)[k]
        decreases Above(m, h)
      {
        assert LinkOk(m, h.value);
        ParentOnPath(m, tip.value, m[h.value].height);
        vChain := vChain[m[h.value].height := h.value];
        h := m[h.value].prev;
      }
      if h.Some? {
        RestIsShared(m, before, tip.value, h.value);
      }
      assert vChain == Path(m, tip.value);
    }

    /** The last block that `h` and this chain have in common. */
    method FindFork(m: BlockMap, h: Hash) returns (r: Option<Hash>)
      requires WellFormed(m) && SkipsOk(m) && Valid(m) && h in m
      ensures IsFork(m, vChain, h, r)
    {
      r := Some(h);
      if m[h].height > Height() {
        var found, _ := GetAncestor(m, h, Height());
        r := found;
      }
      while r.Some? && !Contains(m, r.value)
        invariant r.Some? ==> r.value in m && m[r.value].height <= m[h].height
        invariant r.Some? ==> r.value == Ancestor(m, h, m[r.value].height)
        invariant forall k | k >= Above(m, r) :: !SharedAt(m, vChain, h, k)
        decreases Above(m, r)
      {
        assert LinkOk(m, r.value);
        ParentOnPath(m, h, m[r.value].height);
        r := m[r.value].prev;
      }
    }

    /** Hashes of `start` and of ancestors at growing distances, down to height 0; the tip's when
        no start is given. */
    method GetLocator(m: BlockMap, start: Option<Hash>) returns (have: seq<Hash>)
      requires WellFormed(m) && SkipsOk(m) && Valid(m) && (start.Some? ==> start.value in m)
      ensures var from := if start.Some? then start else Tip();
              if from.None? then have == [] else from.value in m && IsLocator(m, from.value, have)
    {
      hide *;
      var from := if start.Some? then start else Tip();
      have := [];
      TipKnown(m);
      if from.None? {
        return;
      }
      var h := from.value;
      var step := 1;
      LocatorStarts(m, h);
      while true
        invariant h in m && Locates(m, from.value, have + [h]) && step == StepAt(|have| + 1)
        decreases m[h].height
      {
        have := have + [h];
        if m[h].height == 0 {
          break;
        }
        var height := Lower(m[h].height, step);
        LocatorNext(m, from.value, have, height);
        if Contains(m, h) {
          ContainedBelow(m, h, height);
          h := vChain[height];
        } else {
          var a, _ := GetAncestor(m, h, height);
          h := a.value;
        }
        StepNext(|have|);
        if |have| > 10 {
          step := step * 2;
        }
      }
      LocatorEnds(m, from.value, have);
    }

    lemma TipKnown(m: BlockMap)
      requires WellFormed(m) && Valid(m)
      ensures Tip().Some? ==> Tip().value in m
    {
    }

    lemma ContainedBelow(m: BlockMap, h: Hash, height: nat)
      requires WellFormed(m) && Valid(m) && h in m && Contains(m, h) && height <= m[h].height
      ensures height < |vChain| && vChain[height] == Ancestor(m, h, height)
    {
      SharedBelow(m, vChain, h, m[h].height, height);
    }
  }

  /** How far entry `i` of a locator is below entry `i - 1`: 1 for the first eleven, then doubling. */
  function StepAt(i: nat): (r: nat)
    ensures r > 0
  {
    if i <= 11 then 1 else 2 * StepAt(i - 1)
  }

  function Lower(height: nat, step: nat): (r: nat)
    ensures r <= height && (height > 0 && step > 0 ==> r < height)
  {
    if height > step then height - step else 0
  }

  /** The ancestors of `top` from `top` down, at the distances of a locator. */
  ghost predicate Locates(m: BlockMap, top: Hash, have: seq<Hash>)
    requires WellFormed(m) && top in m
  {
    && have != [] && have[0] == top
    && (forall i | 0 <= i < |have| ::
          have[i] in m && m[have[i]].height <= m[top].height && have[i] == Ancestor(m, top, m[have[i]].height))
    && (forall i | 0 < i < |have| :: m[have[i]].height == Lower(m[have[i - 1]].height, StepAt(i)))
    && (forall i, j | 0 <= i < j < |have| :: m[have[i]].height > m[have[j]].height)
  }

  lemma LocatorStarts(m: BlockMap, top: Hash)
    requires WellFormed(m) && top in m
    ensures Locates(m, top, [] + [top]) && StepAt(1) == 1
  {
  }

  lemma StepNext(n: nat)
    ensures StepAt(n + 1) == if n > 10 then StepAt(n) * 2 else StepAt(n)
  {
  }

  /** One step further down. */
  lemma LocatorNext(m: BlockMap, top: Hash, have: seq<Hash>, height: nat)
    requires WellFormed(m) && top in m && Locates(m, top, have)
    requires m[have[|have| - 1]].height > 0 && height == Lower(m[have[|have| - 1]].height, StepAt(|have|))
    ensures height < m[have[|have| - 1]].height
    ensures var h := Ancestor(m, have[|have| - 1], height); h in m && m[h].height == height && Locates(m, top, have + [h])
  {
    hide StepAt, Lower;
    AncestorOfAncestor(m, top, m[have[|have| - 1]].height, height);
  }

  /** Goes down to height 0. */
  ghost predicate IsLocator(m: BlockMap, top: Hash, have: seq<Hash>)
    requires WellFormed(m) && top in m
  {
    Locates(m, top, have) && m[have[|have| - 1]].height == 0
  }

  lemma LocatorEnds(m: BlockMap, top: Hash, have: seq<Hash>)
    requires WellFormed(m) && top in m && Locates(m, top, have) && m[have[|have| - 1]].height == 0
    ensures IsLocator(m, top, have)
  {
    hide Locates;
  }

  /** The highest block that is an ancestor of both. */
  ghost predicate IsLastCommon(m: BlockMap, a: Hash, b: Hash, r: Hash)
    requires WellFormed(m) && a in m && b in m
  {
    && r in m
    && m[r].height <= m[a].height && m[r].height <= m[b].height
    && r == Ancestor(m, a, m[r].height) == Ancestor(m, b, m[r].height)
    && forall k | m[r].height < k <= m[a].height && k <= m[b].height :: Ancestor(m, a, k) != Ancestor(m, b, k)
  }

  /** All branches meet at height 0, so the walk finds a common block. */
  method LastCommonAncestor(m: BlockMap, a: Hash, b: Hash) returns (r: Hash)
    requires WellFormed(m) && SkipsOk(m) && a in m && b in m
    requires Ancestor(m, a, 0) == Ancestor(m, b, 0)
    ensures IsLastCommon(m, a, b, r)
  {
    var pa, pb := a, b;
    if m[a].height > m[b].height {
      var x, _ := GetAncestor(m, a, m[b].height);
      pa := x.value;
    } else if m[b].height > m[a].height {
      var x, _ := GetAncestor(m, b, m[a].height);
      pb := x.value;
    }
    while pa != pb
      invariant pa in m && pb in m && m[pa].height == m[pb].height
      invariant m[pa].height <= m[a].height && m[pa].height <= m[b].height
      invariant pa == Ancestor(m, a, m[pa].height) && pb == Ancestor(m, b, m[pa].height)
      invariant forall k | m[pa].height < k <= m[a].height && k <= m[b].height :: Ancestor(m, a, k) != Ancestor(m, b, k)
      decreases m[pa].height
    {
      assert m[pa].height > 0;
      ParentOnPath(m, a, m[pa].height);
      ParentOnPath(m, b, m[pa].height);
      pa, pb := m[pa].prev.value, m[pb].prev.value;
    }
    r := pa;
  }

  /** The first height not covered by the path to `h`. */
  ghost function Above(m: BlockMap, h: Option<Hash>): nat
    requires h.Some? ==> h.value in m
  {
    if h.Some? then m[h.value].height + 1 else 0
  }

  /** `c` cut or filled up with null to length `n`. */
  function ResizedTo(c: seq<Hash>, n: nat): (r: seq<Hash>)
    ensures |r| == n
    ensures forall k | 0 <= k < n :: r[k] == if k < |c| then c[k] else NULL_HASH
    decreases n - |c|
  {
    if |c| < n then ResizedTo(c + [NULL_HASH], n) else c[..n]
  }

  /** The parent of a block on the path to `h` is on that path. */
  lemma ParentOnPath(m: BlockMap, h: Hash, k: nat)
    requires WellFormed(m) && h in m && k <= m[h].height
    ensures m[Ancestor(m, h, k)].prev == if k == 0 then None else Some(Ancestor(m, h, k - 1))
  {
    var w := Ancestor(m, h, k);
    assert LinkOk(m, w);
    if k > 0 {
      AncestorOfAncestor(m, h, k, k - 1);
      assert Ancestor(m, w, k - 1) == Ancestor(m, Parent(m, w), k - 1);
    }
  }

  /** Where the old chain already has a block of the new path, it has everything below it too. */
  lemma RestIsShared(m: BlockMap, before: seq<Hash>, tip: Hash, h: Hash)
    requires WellFormed(m) && IsPath(m, before) && tip in m && h in m
    requires m[h].height <= m[tip].height && h == Ancestor(m, tip, m[h].height)
    requires ResizedTo(before, m[tip].height + 1)[m[h].height] == h
    ensures forall k | 0 <= k <= m[h].height :: ResizedTo(before, m[tip].height + 1)[k] == Ancestor(m, tip, k)
  {
    forall k | 0 <= k <= m[h].height
      ensures ResizedTo(before, m[tip].height + 1)[k] == Ancestor(m, tip, k)
    {
      SharedBelow(m, before, tip, m[h].height, k);
    }
  }
}
