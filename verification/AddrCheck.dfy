/** The self-check of the address manager (`CAddrMan::Check_`). */
module AddrCheck {
  import opened Primitives
  import opened AddrTables
  import opened AddrMan

  /** The checks on one entry. */
  ghost predicate InfoOk(m: Manager, id: nat)
    requires id in m.info
  {
    var e := m.info[id];
    && (if e.inTried then e.lastSuccess != 0 && e.refCount == 0 else 1 <= e.refCount <= NEW_BUCKETS_PER_ADDRESS)
    && e.service.ip in m.addr && m.addr[e.service.ip] == id
    && 0 <= e.randomPos < |m.random| && m.random[e.randomPos] == id
    && e.lastTry >= 0 && e.lastSuccess >= 0
  }

  /** The checks on one tried cell: its entry is tried, belongs there, and has not been met before. */
  ghost predicate TriedOk(k: Key, m: Manager, c: Cell)
    requires c in m.triedCells
  {
    && m.triedCells[c] in TriedIds(m) && c == TriedCell(k, m.info[m.triedCells[c]].service)
    && forall d | d in m.triedCells && m.triedCells[d] == m.triedCells[c] :: d == c
  }

  ghost predicate NewOk(k: Key, m: Manager, c: Cell)
    requires c in m.newCells
  {
    m.newCells[c] in NewIds(m, {}) && c == NewCell(k, m.info[m.newCells[c]].service, c.0)
  }

  /** `Check_` gives 0: the sizes fit, every entry and every cell is right, every tried entry is met in a
      cell, and every new one as often as it counts. */
  ghost predicate CheckPasses(k: Key, m: Manager) {
    && |m.random| == m.nTried + m.nNew
    && (forall id {:trigger InfoOk(m, id)} | id in m.info :: InfoOk(m, id))
    && |TriedIds(m)| == m.nTried && |NewIds(m, {})| == m.nNew
    && (forall c {:trigger TriedOk(k, m, c)} | c in m.triedCells :: TriedOk(k, m, c))
    && (forall c {:trigger NewOk(k, m, c)} | c in m.newCells :: NewOk(k, m, c))
    && (forall id | id in TriedIds(m) :: exists c :: c in m.triedCells && m.triedCells[c] == id)
    && (forall id | id in NewIds(m, {}) :: |CellsOf(m.newCells, id)| == m.info[id].refCount)
  }

  /** The check passes in every state that the operations lead to. */
  lemma AgreedPasses(k: Key, m: Manager)
    requires Agree(k, m, {}) && TimesOk(m)
    ensures CheckPasses(k, m)
  {
    hide Agree, TimesOk, TriedCell, NewCell, CellsOf, InfoOk, TriedOk, NewOk;
    Sizes(k, m);
    forall id | id in m.info
      ensures InfoOk(m, id)
      ensures if m.info[id].inTried then exists c :: c in m.triedCells && m.triedCells[c] == id
              else |CellsOf(m.newCells, id)| == m.info[id].refCount
    {
      EntryPasses(k, m, id);
    }
    forall c | c in m.triedCells
      ensures TriedOk(k, m, c)
    {
      TriedPasses(k, m, c);
    }
    forall c | c in m.newCells
      ensures NewOk(k, m, c)
    {
      NewPasses(k, m, c);
    }
  }

  lemma EntryPasses(k: Key, m: Manager, id: nat)
    requires Agree(k, m, {}) && TimesOk(m) && id in m.info
    ensures InfoOk(m, id)
    ensures if m.info[id].inTried then exists c :: c in m.triedCells && m.triedCells[c] == id
            else |CellsOf(m.newCells, id)| == m.info[id].refCount
  {
    hide TriedCell, NewCell, CellsOf, CountsOk;
    assert EntryOk(k, m, {}, id);
  }

  lemma TriedPasses(k: Key, m: Manager, c: Cell)
    requires Agree(k, m, {}) && c in m.triedCells
    ensures TriedOk(k, m, c)
  {
    hide TriedCell, NewCell, CountsOk, RandomOk, AddrOk;
    assert TriedCellOk(k, m, c);
    forall d | d in m.triedCells && m.triedCells[d] == m.triedCells[c]
      ensures d == c
    {
      assert TriedCellOk(k, m, d);
    }
  }

  lemma NewPasses(k: Key, m: Manager, c: Cell)
    requires Agree(k, m, {}) && c in m.newCells
    ensures NewOk(k, m, c)
  {
    hide TriedCell, NewCell, CountsOk, RandomOk, AddrOk;
    assert NewCellOk(k, m, {}, c);
  }

  /** The random order is as long as the two counts together. */
  lemma Sizes(k: Key, m: Manager)
    requires Agree(k, m, {})
    ensures |m.random| == m.nTried + m.nNew && |TriedIds(m)| == m.nTried && |NewIds(m, {})| == m.nNew
  {
    hide TablesOk, AddrOk, RandomOk;
    OrderSize(m.info, m.random);
    NewOrTried(m);
  }

  lemma NewOrTried(m: Manager)
    ensures |m.info.Keys| == |NewIds(m, {})| + |TriedIds(m)|
  {
    var a, b := NewIds(m, {}), TriedIds(m);
    assert a + b == m.info.Keys && a !! b;
    assert |a + b| == |a| + |b|;
  }

  lemma OrderSize(info: map<nat, AddrInfo>, random: seq<nat>)
    requires RandomOk(info, random)
    ensures |random| == |info.Keys|
  {
    OrderDistinct(info, random);
    DistinctSize(random);
    forall id | id in info
      ensures id in random
    {
      assert random[info[id].randomPos] == id;
    }
    assert ToSet(random) == info.Keys;
  }

  lemma OrderDistinct(info: map<nat, AddrInfo>, random: seq<nat>)
    requires RandomOk(info, random)
    ensures Distinct(random)
  {
  }

  // ----- What passes agrees -----

  /** What `Check_` does not look at: addresses that no entry has, the next id, and, in the source given by
      the size of the table, the number of buckets. */
  ghost predicate Unchecked(m: Manager) {
    && (forall a | a in m.addr :: m.addr[a] in m.info && m.info[m.addr[a]].service.ip == a)
    && (forall id | id in m.info :: id < m.nIdCount)
    && (forall c | c in m.newCells :: c.0 < NEW_BUCKET_COUNT)
  }

  /** The indexes agree and the times are in order exactly if the check passes, but for what it does not look
      at. */
  lemma CheckExactly(k: Key, m: Manager)
    ensures Agree(k, m, {}) && TimesOk(m) <==> CheckPasses(k, m) && Unchecked(m)
  {
    hide Agree, TimesOk, CheckPasses, Unchecked;
    if Agree(k, m, {}) && TimesOk(m) {
      AgreedPasses(k, m);
      AgreedRest(k, m);
    }
    if CheckPasses(k, m) && Unchecked(m) {
      PassedOrder(k, m);
      PassedTables(k, m);
      PassedRest(k, m);
    }
  }

  lemma AgreedRest(k: Key, m: Manager)
    requires Agree(k, m, {})
    ensures Unchecked(m)
  {
    hide RandomOk, CountsOk, NewCell, TriedCell, CellsOf;
    forall id | id in m.info
      ensures id < m.nIdCount
    {
      assert EntryOk(k, m, {}, id);
    }
    forall c | c in m.newCells
      ensures c.0 < NEW_BUCKET_COUNT
    {
      assert NewCellOk(k, m, {}, c);
    }
  }

  lemma PassedRest(k: Key, m: Manager)
    requires CheckPasses(k, m) && Unchecked(m) && RandomOk(m.info, m.random) && TablesOk(k, m, {})
    ensures Agree(k, m, {}) && TimesOk(m)
  {
    hide RandomOk, TablesOk, TriedOk, NewOk, CellsOf;
    forall id | id in m.info
      ensures InfoOk(m, id)
    {
    }
  }

  lemma PassedTables(k: Key, m: Manager)
    requires CheckPasses(k, m) && Unchecked(m)
    ensures TablesOk(k, m, {})
  {
    hide NewCell, TriedCell;
    forall c | c in m.newCells
      ensures NewCellOk(k, m, {}, c)
    {
      assert NewOk(k, m, c);
    }
    forall c | c in m.triedCells
      ensures TriedCellOk(k, m, c)
    {
      assert TriedOk(k, m, c);
    }
    forall id | id in m.info
      ensures EntryOk(k, m, {}, id)
    {
      PassedEntry(k, m, id);
    }
  }

  lemma PassedEntry(k: Key, m: Manager, id: nat)
    requires CheckPasses(k, m) && Unchecked(m) && id in m.info
    ensures EntryOk(k, m, {}, id)
  {
    hide NewCell, TriedCell;
    assert InfoOk(m, id);
    if m.info[id].inTried {
      assert id in TriedIds(m);
      var c :| c in m.triedCells && m.triedCells[c] == id;
      assert TriedOk(k, m, c);
      forall d | d in m.newCells
        ensures m.newCells[d] != id
      {
        assert NewOk(k, m, d);
      }
      assert CellsOf(m.newCells, id) == {};
    } else {
      assert id in NewIds(m, {});
    }
  }

  /** As many places as entries, and a place for each entry: the order has nothing else. */
  lemma PassedOrder(k: Key, m: Manager)
    requires CheckPasses(k, m)
    ensures RandomOk(m.info, m.random)
  {
    hide CheckPasses, RandomOk;
    PassedSizes(k, m);
    forall id | id in m.info
      ensures 0 <= m.info[id].randomPos < |m.random| && m.random[m.info[id].randomPos] == id
    {
      PassedInfo(k, m, id);
    }
    Placed(m.info, m.random);
  }

  lemma PassedInfo(k: Key, m: Manager, id: nat)
    requires CheckPasses(k, m) && id in m.info
    ensures InfoOk(m, id)
  {
    hide InfoOk, TriedOk, NewOk, CellsOf;
  }

  lemma PassedSizes(k: Key, m: Manager)
    requires CheckPasses(k, m)
    ensures |m.random| == |m.info.Keys|
  {
    hide InfoOk, TriedOk, NewOk, CellsOf, NewIds, TriedIds;
    NewOrTried(m);
  }

  lemma Placed(info: map<nat, AddrInfo>, random: seq<nat>)
    requires |random| == |info.Keys|
    requires forall id | id in info :: 0 <= info[id].randomPos < |random| && random[info[id].randomPos] == id
    ensures RandomOk(info, random)
  {
    var all := ToSet(random);
    forall id | id in info
      ensures id in all
    {
      assert random[info[id].randomPos] == id;
    }
    NoRoom(info.Keys, random);
  }

  /** A sequence that has all of as many elements as it is long has them once each. */
  lemma NoRoom(ids: set<nat>, s: seq<nat>)
    requires |s| == |ids| && ids <= ToSet(s)
    ensures Distinct(s) && ToSet(s) == ids
  {
    SizeAtMost(s);
    SubsetSize(ids, ToSet(s));
    SameSize(ids, ToSet(s));
    FullyDistinct(s);
  }

  lemma {:induction false} SizeAtMost(s: seq<nat>)
    ensures |ToSet(s)| <= |s|
  {
    if s == [] {
      assert ToSet(s) == {};
    } else {
      var init, last := s[..|s| - 1], s[|s| - 1];
      SizeAtMost(init);
      assert ToSet(s) == ToSet(init) + {last};
    }
  }

  lemma SameSize(a: set<nat>, b: set<nat>)
    requires a <= b && |a| == |b|
    ensures a == b
  {
    if b - a != {} {
      var x :| x in b - a;
      SubsetSize(a, b - {x});
    }
  }

  lemma {:induction false} FullyDistinct(s: seq<nat>)
    requires |ToSet(s)| == |s|
    ensures Distinct(s)
  {
    if s != [] {
      var init, last := s[..|s| - 1], s[|s| - 1];
      SizeAtMost(init);
      assert ToSet(s) == ToSet(init) + {last};
      assert s == init + [last];
      assert last in init ==> ToSet(init) + {last} == ToSet(init);
      FullyDistinct(init);
    }
  }

  // ----- An address that is not kept -----

  /** Two addresses share their only cell. The second one is reported as new, and is not there. */
  method NewButGone() returns (first: bool, second: bool, found: Option<nat>)
    ensures first && second && found.None?
  {
    hide Agree, Kept, TimesOk;
    var manager := new AddrManager(SAME_CELL);
    first := manager.Add(Address(Service(1, 80), {}, 1000), 5, 0, true, 0, 1000);
    OnlyFirst(manager.State());
    second := manager.Add(Address(Service(2, 80), {}, 1000), 5, 0, true, 0, 1000);
    found := manager.Find(2);
  }

  /** Hashes that send every address to the same cell. */
  const SAME_CELL := Key(_ => 0, _ => 0, (_, _) => 0, (_, _) => 0, (_, _) => 0, (_, _, _) => 0)

  lemma OnlyFirst(m: Manager)
    requires Added(SAME_CELL, FRESH, m, Address(Service(1, 80), {}, 1000), 5, 0, 1000) && Agree(SAME_CELL, m, {})
    ensures 2 !in m.addr && m.nIdCount == 1
    ensures Blocked(SAME_CELL, Created(m, NewInfo(Address(Service(2, 80), {}, 1000), 5, 0)), 1, 5, 1000)
  {
    hide TablesOk, RandomOk, CountsOk;
    var cell := (0, 0);
    assert NewCell(SAME_CELL, Service(1, 80), NewBucket(SAME_CELL, 1, 5)) == cell;
    assert NewCell(SAME_CELL, Service(2, 80), NewBucket(SAME_CELL, 2, 5)) == cell;
    assert m.newCells[cell] == 0;
  }
}
