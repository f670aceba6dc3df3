/** The order in which tips are preferred, and what makes a candidate usable. */
module Candidates {
  import opened Primitives
  import opened BlockTree
  import opened SkipList

  /** `CBlockIndexWorkComparator`: less work first, then the later received, then by address.
      Addresses are an arbitrary fixed order; the order of the hashes stands for it. */
  predicate Worse(m: BlockMap, a: Hash, b: Hash)
    requires a in m && b in m
  {
    if m[a].chainWork != m[b].chainWork then m[a].chainWork < m[b].chainWork
    else if m[a].sequenceId != m[b].sequenceId then m[a].sequenceId > m[b].sequenceId
    else a > b
  }

  /** The comparator is a strict total order. */
  lemma WorseIsTotal(m: BlockMap, a: Hash, b: Hash)
    requires a in m && b in m
    ensures !(Worse(m, a, b) && Worse(m, b, a))
    ensures a != b <==> Worse(m, a, b) || Worse(m, b, a)
  {
  }

  lemma WorseIsTransitive(m: BlockMap, a: Hash, b: Hash, c: Hash)
    requires a in m && b in m && c in m
    requires !Worse(m, b, a) && !Worse(m, c, b)
    ensures !Worse(m, c, a)
    ensures Worse(m, a, b) || Worse(m, b, c) ==> Worse(m, a, c)
  {
  }

  ghost predicate IsGreatest(m: BlockMap, s: set<Hash>, h: Hash)
    requires s <= m.Keys
  {
    h in s && forall g | g in s :: !Worse(m, h, g)
  }

  ghost predicate IsLeast(m: BlockMap, s: set<Hash>, h: Hash)
    requires s <= m.Keys
  {
    h in s && forall g | g in s :: !Worse(m, g, h)
  }

  /** What `rbegin` gives: the last element in the order. */
  method Greatest(m: BlockMap, s: set<Hash>) returns (r: Hash)
    requires s <= m.Keys && s != {}
    ensures IsGreatest(m, s, r)
  {
    r :| r in s;
    var rest := s - {r};
    while rest != {}
      invariant rest <= s && r in s
      invariant forall g | g in s && g !in rest :: !Worse(m, r, g)
      decreases |rest|
    {
      var g :| g in rest;
      if Worse(m, r, g) {
        forall x | x in s && x !in rest
          ensures !Worse(m, g, x)
        {
          WorseIsTransitive(m, x, r, g);
        }
        r := g;
      }
      rest := rest - {g};
    }
  }

  /** What `begin` gives: the first element in the order. */
  method Least(m: BlockMap, s: set<Hash>) returns (r: Hash)
    requires s <= m.Keys && s != {}
    ensures IsLeast(m, s, r)
  {
    r :| r in s;
    var rest := s - {r};
    while rest != {}
      invariant rest <= s && r in s
      invariant forall g | g in s && g !in rest :: !Worse(m, g, r)
      decreases |rest|
    {
      var g :| g in rest;
      if Worse(m, g, r) {
        forall x | x in s && x !in rest
          ensures !Worse(m, x, g)
        {
          WorseIsTransitive(m, g, r, x);
        }
        r := g;
      }
      rest := rest - {g};
    }
  }

  // ----- Usable blocks -----

  predicate EntryGood(e: BlockIndex) {
    e.haveData && !e.Failed()
  }

  /** The block and all its ancestors have data and none is marked as failed. */
  ghost predicate Good(m: BlockMap, h: Hash)
    requires WellFormed(m) && h in m
    decreases m[h].height
  {
    LinkOk(m, h) && EntryGood(m[h]) && (m[h].prev.Some? ==> Good(m, Parent(m, h)))
  }

  lemma {:induction false} GoodAncestor(m: BlockMap, h: Hash, k: nat)
    requires WellFormed(m) && h in m && k <= m[h].height
    ensures Good(m, h) ==> Good(m, Ancestor(m, h, k)) && EntryGood(m[Ancestor(m, h, k)])
    decreases m[h].height
  {
    assert LinkOk(m, h);
    if m[h].height != k {
      GoodAncestor(m, Parent(m, h), k);
    }
  }

  /** A block whose path is good down to a good block is good. */
  lemma {:induction false} GoodFrom(m: BlockMap, h: Hash, k: nat)
    requires WellFormed(m) && h in m && k <= m[h].height && Good(m, Ancestor(m, h, k))
    requires forall j | k < j <= m[h].height :: EntryGood(m[Ancestor(m, h, j)])
    ensures Good(m, h)
    decreases m[h].height
  {
    assert LinkOk(m, h);
    if m[h].height != k {
      assert EntryGood(m[Ancestor(m, h, m[h].height)]);
      forall j | k < j <= m[h].height - 1
        ensures EntryGood(m[Ancestor(m, Parent(m, h), j)])
      {
        assert Ancestor(m, h, j) == Ancestor(m, Parent(m, h), j);
      }
      GoodFrom(m, Parent(m, h), k);
    }
  }

  /** A block all of whose ancestors are good entries is good. */
  lemma {:induction false} GoodWhole(m: BlockMap, h: Hash)
    requires WellFormed(m) && h in m
    requires forall j | 0 <= j <= m[h].height :: EntryGood(m[Ancestor(m, h, j)])
    ensures Good(m, h)
    decreases m[h].height
  {
    assert LinkOk(m, h);
    assert EntryGood(m[Ancestor(m, h, m[h].height)]);
    if m[h].prev.Some? {
      forall j | 0 <= j <= m[h].height - 1
        ensures EntryGood(m[Ancestor(m, Parent(m, h), j)])
      {
        assert Ancestor(m, h, j) == Ancestor(m, Parent(m, h), j);
      }
      GoodWhole(m, Parent(m, h));
    }
  }

  // ----- Changes of the failure flags -----

  /** The same tree; failure flags may have been added, nothing else changed. */
  ghost predicate OnlyFlagged(m: BlockMap, m': BlockMap) {
    && m'.Keys == m.Keys
    && forall h | h in m :: FlaggedEntry(m[h], m'[h])
  }

  ghost predicate FlaggedEntry(e: BlockIndex, e': BlockIndex) {
    && e' == e.(failedValid := e'.failedValid, failedChild := e'.failedChild)
    && (e.failedValid ==> e'.failedValid)
    && (e.failedChild ==> e'.failedChild)
  }

  lemma FlaggedTree(m: BlockMap, m': BlockMap)
    requires WellFormed(m) && OnlyFlagged(m, m')
    ensures WellFormed(m') && Grows(m, m') && Grows(m', m)
    ensures SkipsOk(m) ==> SkipsOk(m')
    ensures forall a, b | a in m && b in m :: Worse(m', a, b) == Worse(m, a, b)
  {
    forall h | h in m'
      ensures LinkOk(m', h)
    {
      assert LinkOk(m, h) && FlaggedEntry(m[h], m'[h]);
      assert m[h].prev.Some? ==> FlaggedEntry(m[m[h].prev.value], m'[m[h].prev.value]);
    }
    if SkipsOk(m) {
      forall h | h in m'
        ensures SkipOk(m', h)
      {
        assert SkipOk(m, h) && FlaggedEntry(m[h], m'[h]);
        if m[h].height > 0 {
          AncestorStable(m, m', h, SkipHeight(m[h].height));
        }
      }
    }
  }

  lemma FlaggedTransitive(a: BlockMap, b: BlockMap, c: BlockMap)
    requires OnlyFlagged(a, b) && OnlyFlagged(b, c)
    ensures OnlyFlagged(a, c)
  {
    forall h | h in a
      ensures FlaggedEntry(a[h], c[h])
    {
      assert FlaggedEntry(a[h], b[h]) && FlaggedEntry(b[h], c[h]);
    }
  }

  /** Flags on blocks that lie above a bad block change nothing about which blocks are good. */
  lemma {:induction false} FlaggedBadOnly(m: BlockMap, m': BlockMap, h: Hash)
    requires WellFormed(m) && WellFormed(m') && OnlyFlagged(m, m') && h in m
    requires forall g | g in m && m'[g] != m[g] :: !Good(m, g)
    ensures Good(m', h) <==> Good(m, h)
    decreases m[h].height
  {
    assert LinkOk(m, h) && LinkOk(m', h) && FlaggedEntry(m[h], m'[h]);
    if m[h].prev.Some? {
      FlaggedBadOnly(m, m', Parent(m, h));
    }
  }

  /** Marking one block as failed makes exactly it and its descendants unusable. */
  lemma {:induction false} FailedBlock(m: BlockMap, x: Hash, h: Hash)
    requires WellFormed(m) && x in m && h in m
    requires WellFormed(m[x := m[x].(failedValid := true)])
    ensures Good(m[x := m[x].(failedValid := true)], h) <==>
              Good(m, h) && !(m[x].height <= m[h].height && Ancestor(m, h, m[x].height) == x)
    decreases m[h].height
  {
    var m' := m[x := m[x].(failedValid := true)];
    assert LinkOk(m, h) && LinkOk(m', h);
    if m[h].prev.Some? {
      FailedBlock(m, x, Parent(m, h));
    }
  }
}
