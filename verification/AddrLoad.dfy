/** Loading an address manager: what was saved comes back, with ids numbered anew. */
module AddrLoad {
  import opened Primitives
  import opened AddrTables
  import opened AddrStore

  /** The ids in the order in which they are numbered anew. */
  function Order(m: Manager): seq<nat> {
    Ids(m.info, false, m.nIdCount) + Ids(m.info, true, m.nIdCount)
  }

  ghost function Below(n: nat): (r: set<nat>)
    ensures forall i: nat :: i in r <==> i < n
  {
    if n == 0 then {} else Below(n - 1) + {n - 1}
  }

  /** `x` is `m` with new ids: nothing is lost, every entry has its statistics and its cells; only the
      time of the last try is forgotten. */
  ghost predicate Reloaded(m: Manager, x: Manager) {
    var order := Order(m);
    && Distinct(order) && ToSet(order) == m.info.Keys
    && x.info.Keys == Below(|order|)
    && (forall i | 0 <= i < |order| :: x.info[i] == m.info[order[i]].(lastTry := 0, randomPos := i))
    && x.newCells.Keys == m.newCells.Keys
    && (forall c | c in m.newCells :: x.newCells[c] < |order| && order[x.newCells[c]] == m.newCells[c])
    && x.triedCells.Keys == m.triedCells.Keys
    && (forall c | c in m.triedCells :: x.triedCells[c] < |order| && order[x.triedCells[c]] == m.triedCells[c])
    && x.nNew == m.nNew && x.nTried == m.nTried && x.nIdCount == |order|
  }

  lemma ReloadedTimes(m: Manager, x: Manager)
    requires Reloaded(m, x)
    ensures TimesOk(m) ==> TimesOk(x)
  {
    hide Order;
    forall id | id in x.info
      ensures Order(m)[id] in m.info
    {
      assert Order(m)[id] in ToSet(Order(m));
    }
  }

  lemma OrderFacts(k: Key, m: Manager)
    requires Agree(k, m, {})
    ensures Distinct(Order(m)) && ToSet(Order(m)) == m.info.Keys
    ensures |Ids(m.info, false, m.nIdCount)| == m.nNew && |Order(m)| == m.nNew + m.nTried
    ensures forall i | 0 <= i < |Order(m)| :: Order(m)[i] in m.info && (m.info[Order(m)[i]].inTried <==> i >= m.nNew)
  {
    hide RandomOk, AddrOk, TablesOk, CountsOk;
    IdsCounted(k, m);
    ListedOnce(k, m, false);
    ListedOnce(k, m, true);
    assert ToSet(Order(m)) == ToSet(Ids(m.info, false, m.nIdCount)) + ToSet(Ids(m.info, true, m.nIdCount));
  }

  // ----- The entries -----

  /** The first `n` entries have been loaded, in `order`; the first `nNew` of them are new. */
  ghost predicate InfoLoaded(m: Manager, x: Manager, n: nat) {
    && n <= |Order(m)|
    && x.info.Keys == Below(n)
    && (forall i | 0 <= i < n :: Order(m)[i] in m.info && x.info[i] == Load(Save(m.info[Order(m)[i]]), i >= m.nNew, i))
  }

  /** Every tried entry is in its cell. */
  ghost predicate CellsLoaded(k: Key, nNew: int, x: Manager, n: nat)
    requires x.info.Keys == Below(n)
  {
    && (forall c | c in x.triedCells :: nNew <= x.triedCells[c] < n && c == TriedCell(k, x.info[x.triedCells[c]].service))
    && (forall i | 0 <= i < n && i >= nNew ::
          TriedCell(k, x.info[i].service) in x.triedCells && x.triedCells[TriedCell(k, x.info[i].service)] == i)
  }

  ghost predicate EntriesLoaded(k: Key, m: Manager, x: Manager, n: nat) {
    InfoLoaded(m, x, n) && AddrOk(x.info, x.addr) && x.newCells == map[] && CellsLoaded(k, m.nNew, x, n)
  }

  /** Ids are given out in order, also for a stream that makes no sense. */
  ghost predicate Numbered(x: Manager, n: nat) {
    x.info.Keys == Below(n) && RandomOk(x.info, x.random) && |x.random| == n
  }

  /** An entry gets the next id. */
  function Appended(x: Manager, e: AddrInfo): Manager {
    var id := |x.random|;
    x.(info := x.info[id := e.(randomPos := id)], addr := x.addr[e.service.ip := id], random := x.random + [id])
  }

  lemma AppendNumbered(x: Manager, e: AddrInfo, n: nat)
    requires Numbered(x, n)
    ensures Numbered(Appended(x, e), n + 1)
  {
    assert Below(n + 1) == Below(n) + {n};
    assert Appended(x, e).info.Keys == x.info.Keys + {n};
  }

  lemma AddrAppended(x: Manager, e: AddrInfo, n: nat)
    requires Numbered(x, n) && AddrOk(x.info, x.addr)
    requires forall i | 0 <= i < n :: x.info[i].service.ip != e.service.ip
    ensures AddrOk(Appended(x, e).info, Appended(x, e).addr)
  {
  }

  /** Different entries have different addresses. */
  lemma OrderAddresses(k: Key, m: Manager, i: nat, j: nat)
    requires Agree(k, m, {}) && i < j < |Order(m)|
    ensures Order(m)[i] in m.info && Order(m)[j] in m.info
    ensures m.info[Order(m)[i]].service.ip != m.info[Order(m)[j]].service.ip
    ensures i >= m.nNew ==> TriedCell(k, m.info[Order(m)[i]].service) != TriedCell(k, m.info[Order(m)[j]].service)
  {
    OrderFacts(k, m);
    var a, b := Order(m)[i], Order(m)[j];
    assert a != b;
    assert EntryOk(k, m, {}, a) && EntryOk(k, m, {}, b);
  }

  lemma AppendLoaded(k: Key, m: Manager, x: Manager, n: nat)
    requires Agree(k, m, {}) && EntriesLoaded(k, m, x, n) && Numbered(x, n) && n < |Order(m)|
    ensures Order(m)[n] in m.info
    ensures var e := Load(Save(m.info[Order(m)[n]]), n >= m.nNew, n);
            var c := TriedCell(k, e.service);
            && c !in x.triedCells
            && EntriesLoaded(k, m, if n < m.nNew then Appended(x, e) else Appended(x, e).(triedCells := x.triedCells[c := n]), n + 1)
  {
    hide Agree, TriedCell, AddrOk, CellsLoaded, InfoLoaded, Load, Save, Numbered, Appended;
    OrderFacts(k, m);
    var e := Load(Save(m.info[Order(m)[n]]), n >= m.nNew, n);
    NotLoaded(k, m, x, n);
    AddrAppended(x, e, n);
    AppendNumbered(x, e, n);
    AppendedFields(x, e);
    var c := TriedCell(k, e.service);
    var x' := if n < m.nNew then Appended(x, e) else Appended(x, e).(triedCells := x.triedCells[c := n]);
    AppendInfo(m, x, x', n);
    AppendCells(k, m.nNew, x, e, n);
  }

  /** The next entry's address and tried cell are not there yet. */
  lemma NotLoaded(k: Key, m: Manager, x: Manager, n: nat)
    requires Agree(k, m, {}) && InfoLoaded(m, x, n) && CellsLoaded(k, m.nNew, x, n) && n < |Order(m)|
    ensures Order(m)[n] in m.info
    ensures var e := Load(Save(m.info[Order(m)[n]]), n >= m.nNew, n);
            && TriedCell(k, e.service) !in x.triedCells
            && (forall i | 0 <= i < n :: i in x.info && x.info[i].service.ip != e.service.ip)
  {
    hide Agree, TriedCell;
    OrderFacts(k, m);
    var e := Load(Save(m.info[Order(m)[n]]), n >= m.nNew, n);
    forall i | 0 <= i < n
      ensures i in x.info && x.info[i].service.ip != e.service.ip
      ensures i >= m.nNew ==> TriedCell(k, x.info[i].service) != TriedCell(k, e.service)
    {
      OrderAddresses(k, m, i, n);
    }
  }

  lemma AppendInfo(m: Manager, x: Manager, x': Manager, n: nat)
    requires InfoLoaded(m, x, n) && Numbered(x, n) && n < |Order(m)| && Order(m)[n] in m.info
    requires x'.info == Appended(x, Load(Save(m.info[Order(m)[n]]), n >= m.nNew, n)).info
    ensures InfoLoaded(m, x', n + 1)
  {
    hide RandomOk, Save, Order;
    assert x'.info.Keys == Below(n + 1);
    assert forall i | 0 <= i < n :: x'.info[i] == x.info[i];
  }

  lemma AppendCells(k: Key, nNew: int, x: Manager, e: AddrInfo, n: nat)
    requires Numbered(x, n) && Numbered(Appended(x, e), n + 1) && CellsLoaded(k, nNew, x, n)
    requires TriedCell(k, e.service) !in x.triedCells
    ensures n < nNew ==> CellsLoaded(k, nNew, Appended(x, e), n + 1)
    ensures n >= nNew ==>
              CellsLoaded(k, nNew, Appended(x, e).(triedCells := x.triedCells[TriedCell(k, e.service) := n]), n + 1)
  {
    hide RandomOk, TriedCell;
    assert forall i | 0 <= i < n :: Appended(x, e).info[i] == x.info[i];
  }

  lemma LoadFields(e: AddrInfo, inTried: bool, pos: int)
    ensures Load(Save(e), inTried, pos).service == e.service && Load(Save(e), inTried, pos).randomPos == pos
  {
  }

  lemma AppendedFields(x: Manager, e: AddrInfo)
    ensures var x' := Appended(x, e);
            && x' == x.(info := x.info[|x.random| := e.(randomPos := |x.random|)], addr := x'.addr, random := x'.random)
            && |x'.random| == |x.random| + 1
  {
  }

  /** The stream goes on with `t`. */
  ghost predicate Follows(s: seq<Token>, at: nat, t: seq<Token>) {
    at + |t| <= |s| && s[at..at + |t|] == t
  }

  lemma OrderAt(m: Manager)
    ensures var a, b := Ids(m.info, false, m.nIdCount), Ids(m.info, true, m.nIdCount);
            && |Order(m)| == |a| + |b|
            && (forall i | 0 <= i < |a| :: Order(m)[i] == a[i])
            && (forall i | 0 <= i < |b| :: Order(m)[|a| + i] == b[i])
  {
  }

  lemma NextEntry(k: Key, m: Manager, s: seq<Token>, at: nat, n: nat)
    requires Agree(k, m, {}) && Follows(s, at, Entries(m.info, Ids(m.info, false, m.nIdCount))) && n < m.nNew
    ensures n < |Order(m)| && Order(m)[n] in m.info && at + n < |s| && s[at + n] == Entry(Save(m.info[Order(m)[n]]))
  {
    hide Agree, Ids, Entries, Save;
    OrderFacts(k, m);
    OrderAt(m);
    assert s[at + n] == s[at..at + |Ids(m.info, false, m.nIdCount)|][n];
  }

  lemma NextTried(k: Key, m: Manager, s: seq<Token>, at: nat, n: nat)
    requires Agree(k, m, {}) && Follows(s, at, Entries(m.info, Ids(m.info, true, m.nIdCount))) && n < m.nTried
    ensures 0 <= m.nNew && m.nNew + n < |Order(m)| && Order(m)[m.nNew + n] in m.info
    ensures at + n < |s| && s[at + n] == Entry(Save(m.info[Order(m)[m.nNew + n]]))
  {
    hide Agree, Ids, Entries, Save, Order;
    OrderFacts(k, m);
    OrderAt(m);
    assert s[at + n] == s[at..at + |Ids(m.info, true, m.nIdCount)|][n];
  }

  lemma NothingLoaded(k: Key, m: Manager, x: Manager)
    requires x.info == map[] && x.addr == map[] && x.random == [] && x.newCells == map[] && x.triedCells == map[]
    ensures Numbered(x, 0) && EntriesLoaded(k, m, x, 0)
  {
  }

  /** The random order does not depend on reference counts. */
  lemma CountedRandom(x: Manager, id: nat)
    requires RandomOk(x.info, x.random) && id in x.info
    ensures RandomOk(x.info[id := x.info[id].(refCount := x.info[id].refCount + 1)], x.random)
  {
  }

  /** Without saved cells, an entry gets the cell of its own source, if that is free. */
  method FirstCell(key: Key, x: Manager, n: nat) returns (x': Manager)
    requires Numbered(x, n + 1)
    ensures Numbered(x', n + 1) && x' == x.(info := x'.info, newCells := x'.newCells)
  {
    hide NewCell, NewBucket, RandomOk;
    assert n in x.info.Keys;
    var e := x.info[n];
    var c := NewCell(key, e.service, NewBucket(key, e.service.ip, e.source));
    x' := x;
    if c !in x.newCells {
      CountedRandom(x, n);
      x' := x.(newCells := x.newCells[c := n], info := x.info[n := e.(refCount := e.refCount + 1)]);
      assert x'.info.Keys == x.info.Keys;
    }
  }

  method ReadNew(s: seq<Token>, at: nat, key: Key, nNew: nat, useCells: bool, nTried: int, ghost m: Manager, ghost good: bool)
    returns (ok: bool, x: Manager)
    requires at <= |s|
    requires good ==>
               && Agree(key, m, {}) && useCells && nNew == m.nNew && nTried == m.nTried
               && Follows(s, at, Entries(m.info, Ids(m.info, false, m.nIdCount)))
    ensures ok ==> Numbered(x, nNew) && at + nNew <= |s| && x.nNew == nNew && x.nTried == nTried
    ensures good ==> ok && EntriesLoaded(key, m, x, nNew)
  {
    hide Agree, AddrOk, RandomOk, TriedCell, Load, Save;
    x := Manager(map[], map[], [], map[], map[], nNew, nTried, 0);
    NothingLoaded(key, m, x);
    for n := 0 to nNew
      invariant Numbered(x, n) && at + n <= |s| && x.nNew == nNew && x.nTried == nTried
      invariant good ==> EntriesLoaded(key, m, x, n)
    {
      if good {
        NextEntry(key, m, s, at, n);
      }
      if at + n >= |s| || !s[at + n].Entry? {
        return false, x;
      }
      var e := Load(s[at + n].saved, false, n);
      AppendNumbered(x, e, n);
      if good {
        AppendLoaded(key, m, x, n);
      }
      x := Appended(x, e);
      if !useCells {
        x := FirstCell(key, x, n);
      }
    }
    ok := true;
  }

  /** Adds a tried entry; it is lost when its cell is taken. */
  method LoadTried(x0: Manager, key: Key, d: Saved, ghost m: Manager, ghost good: bool) returns (x: Manager, lost: nat)
    requires Numbered(x0, |x0.random|)
    requires good ==>
               && Agree(key, m, {}) && EntriesLoaded(key, m, x0, |x0.random|) && m.nNew <= |x0.random| < |Order(m)|
               && Order(m)[|x0.random|] in m.info && d == Save(m.info[Order(m)[|x0.random|]])
    ensures Numbered(x, |x.random|) && x.nNew == x0.nNew && x.nTried == x0.nTried && |x.random| >= |x0.random|
    ensures good ==> lost == 0 && |x.random| == |x0.random| + 1 && EntriesLoaded(key, m, x, |x.random|)
  {
    hide Agree, Numbered, EntriesLoaded, Load, Save, TriedCell, Appended, Order;
    var id := |x0.random|;
    var e := Load(d, true, id);
    var c := TriedCell(key, e.service);
    if good {
      AppendLoaded(key, m, x0, id);
    }
    x, lost := x0, 1;
    if c !in x.triedCells {
      AppendNumbered(x, e, id);
      AppendedFields(x, e);
      x, lost := Appended(x, e).(triedCells := x.triedCells[c := id]), 0;
      SameNumbered(Appended(x0, e), x, id + 1);
    }
  }

  lemma SameNumbered(x: Manager, x': Manager, n: nat)
    requires Numbered(x, n) && x'.info == x.info && x'.random == x.random
    ensures Numbered(x', n)
  {
  }

  /** Reads the tried entries; one whose cell is taken is lost. */
  method ReadTried(s: seq<Token>, at: nat, key: Key, nTried: nat, x0: Manager, ghost m: Manager, ghost good: bool)
    returns (ok: bool, x: Manager, lost: nat)
    requires Numbered(x0, |x0.random|) && at <= |s|
    requires good ==>
               && Agree(key, m, {}) && nTried == m.nTried && |x0.random| == m.nNew && EntriesLoaded(key, m, x0, m.nNew)
               && Follows(s, at, Entries(m.info, Ids(m.info, true, m.nIdCount)))
    ensures ok ==> Numbered(x, |x.random|) && at + nTried <= |s| && x.nNew == x0.nNew && x.nTried == x0.nTried
    ensures ok ==> |x.random| >= |x0.random|
    ensures good ==> ok && lost == 0 && |x.random| == |Order(m)| && EntriesLoaded(key, m, x, |Order(m)|)
  {
    hide Agree, Numbered, EntriesLoaded, Load, Save, Order, Ids, Entries, Follows;
    x, lost := x0, 0;
    if good {
      OrderFacts(key, m);
    }
    for n := 0 to nTried
      invariant Numbered(x, |x.random|) && at + n <= |s| && x.nNew == x0.nNew && x.nTried == x0.nTried
      invariant |x.random| >= |x0.random|
      invariant good ==> lost == 0 && |x.random| == m.nNew + n && EntriesLoaded(key, m, x, m.nNew + n)
    {
      if good {
        NextTried(key, m, s, at, n);
      }
      if at + n >= |s| || !s[at + n].Entry? {
        return false, x, lost;
      }
      var more;
      x, more := LoadTried(x, key, s[at + n].saved, m, good);
      lost := lost + more;
    }
    ok := true;
  }

  // ----- The new cells -----

  /** The cells of the buckets below `b`, and the first `n` taken ones of bucket `b`. */
  ghost predicate Done(m: Manager, c: Cell, b: nat, n: nat) {
    c.0 < b || (c.0 == b && n <= |Taken(m, b, BUCKET_SIZE)| && c.1 in Taken(m, b, BUCKET_SIZE)[..n])
  }

  ghost predicate CountsRead(x0: Manager, x: Manager) {
    && x == x0.(info := x.info, newCells := x.newCells)
    && x.info.Keys == x0.info.Keys
    && (forall i | i in x0.info :: x.info[i] == x0.info[i].(refCount := |CellsOf(x.newCells, i)|))
  }

  ghost predicate KeysRead(m: Manager, x: Manager, b: nat, n: nat) {
    && (forall c: Cell :: c in x.newCells <==> c in m.newCells && Done(m, c, b, n))
    && (forall c | c in x.newCells :: x.newCells[c] == Rank(m.info, m.newCells[c]))
  }

  ghost predicate CellsRead(m: Manager, x0: Manager, x: Manager, b: nat, n: nat) {
    CountsRead(x0, x) && KeysRead(m, x, b, n)
  }

  lemma {:induction false} TakenAll(m: Manager, bucket: nat, i: nat, p: nat)
    requires p < i && (bucket, p) in m.newCells
    ensures p in Taken(m, bucket, i)
  {
    if p < i - 1 {
      TakenAll(m, bucket, i - 1, p);
    }
  }

  lemma {:induction false} TakenDistinct(m: Manager, bucket: nat, i: nat)
    ensures Distinct(Taken(m, bucket, i))
  {
    if i > 0 {
      TakenDistinct(m, bucket, i - 1);
    }
  }

  /** The number of a new id leads back to it. */
  lemma RankLeadsBack(k: Key, m: Manager, id: nat)
    requires Agree(k, m, {}) && id in m.info && !m.info[id].inTried
    ensures Rank(m.info, id) < m.nNew && Rank(m.info, id) < |Order(m)| && Order(m)[Rank(m.info, id)] == id
  {
    assert EntryOk(k, m, {}, id);
    hide Agree;
    OrderFacts(k, m);
    IdsComplete(m.info, false, m.nIdCount, id);
  }

  /** The next saved cell is free, at the entry's position, and its entry has fewer than 8 so far. */
  lemma NextCell(k: Key, m: Manager, x0: Manager, x: Manager, b: nat, n: nat)
    requires Agree(k, m, {}) && EntriesLoaded(k, m, x0, |Order(m)|) && CellsRead(m, x0, x, b, n)
    requires n < |Taken(m, b, BUCKET_SIZE)|
    ensures var c: Cell := (b, Taken(m, b, BUCKET_SIZE)[n]);
            && c in m.newCells && c !in x.newCells
            && var i := Rank(m.info, m.newCells[c]);
            && i < m.nNew && i in x.info && c == NewCell(k, x.info[i].service, b)
            && x.info[i].refCount < NEW_BUCKETS_PER_ADDRESS
  {
    hide Agree, NewCell, AddrOk, CellsLoaded;
    var taken := Taken(m, b, BUCKET_SIZE);
    var c: Cell := (b, taken[n]);
    TakenDistinct(m, b, BUCKET_SIZE);
    var id := m.newCells[c];
    CellFacts(k, m, c);
    RankLeadsBack(k, m, id);
    var i := Rank(m.info, id);
    assert taken[n] !in taken[..n];
    FewerCells(k, m, x, id, c);
    LoadFields(m.info[id], false, i);
  }

  lemma CellFacts(k: Key, m: Manager, c: Cell)
    requires Agree(k, m, {}) && c in m.newCells
    ensures var id := m.newCells[c];
            && id in m.info && !m.info[id].inTried && c == NewCell(k, m.info[id].service, c.0)
            && c.0 < NEW_BUCKET_COUNT && c.1 < BUCKET_SIZE
            && m.info[id].refCount == |CellsOf(m.newCells, id)| <= NEW_BUCKETS_PER_ADDRESS
  {
    assert NewCellOk(k, m, {}, c) && EntryOk(k, m, {}, m.newCells[c]);
  }

  lemma FewerCells(k: Key, m: Manager, x: Manager, id: nat, c: Cell)
    requires Agree(k, m, {}) && c in m.newCells && m.newCells[c] == id && c !in x.newCells
    requires x.newCells.Keys <= m.newCells.Keys
    requires forall d | d in x.newCells :: x.newCells[d] == Rank(m.info, m.newCells[d])
    ensures |CellsOf(x.newCells, Rank(m.info, id))| < NEW_BUCKETS_PER_ADDRESS
  {
    hide Agree, Rank, NewCell;
    CellFacts(k, m, c);
    RankLeadsBack(k, m, id);
    var mine := CellsOf(x.newCells, Rank(m.info, id));
    forall d | d in mine
      ensures d in CellsOf(m.newCells, id) - {c}
    {
      CellFacts(k, m, d);
      RankLeadsBack(k, m, m.newCells[d]);
    }
    assert c in CellsOf(m.newCells, id);
    SubsetSize(mine, CellsOf(m.newCells, id) - {c});
  }

  lemma CellsStep(m: Manager, x0: Manager, x: Manager, b: nat, n: nat)
    requires CellsRead(m, x0, x, b, n) && n < |Taken(m, b, BUCKET_SIZE)|
    requires var c: Cell := (b, Taken(m, b, BUCKET_SIZE)[n]);
             c in m.newCells && c !in x.newCells && Rank(m.info, m.newCells[c]) in x.info
    ensures var c: Cell := (b, Taken(m, b, BUCKET_SIZE)[n]);
            var i := Rank(m.info, m.newCells[c]);
            var e := x.info[i];
            CellsRead(m, x0, x.(newCells := x.newCells[c := i], info := x.info[i := e.(refCount := e.refCount + 1)]), b, n + 1)
  {
    hide Rank, Taken, CountsRead, KeysRead;
    var c: Cell := (b, Taken(m, b, BUCKET_SIZE)[n]);
    var i := Rank(m.info, m.newCells[c]);
    var e := x.info[i];
    CountsStep(x0, x, c, i);
    KeysStep(m, x, x.(newCells := x.newCells[c := i], info := x.info[i := e.(refCount := e.refCount + 1)]), b, n);
  }

  lemma CountsStep(x0: Manager, x: Manager, c: Cell, i: nat)
    requires CountsRead(x0, x) && c !in x.newCells && i in x.info
    ensures var e := x.info[i];
            CountsRead(x0, x.(newCells := x.newCells[c := i], info := x.info[i := e.(refCount := e.refCount + 1)]))
  {
    var e := x.info[i];
    var x' := x.(newCells := x.newCells[c := i], info := x.info[i := e.(refCount := e.refCount + 1)]);
    assert CellsOf(x'.newCells, i) == CellsOf(x.newCells, i) + {c};
    forall g | g in x0.info && g != i
      ensures CellsOf(x'.newCells, g) == CellsOf(x.newCells, g)
    {
    }
    assert x'.info.Keys == x.info.Keys;
  }

  lemma KeysStep(m: Manager, x: Manager, x': Manager, b: nat, n: nat)
    requires KeysRead(m, x, b, n) && n < |Taken(m, b, BUCKET_SIZE)|
    requires (b, Taken(m, b, BUCKET_SIZE)[n]) in m.newCells
    requires var c: Cell := (b, Taken(m, b, BUCKET_SIZE)[n]);
             x'.newCells == x.newCells[c := Rank(m.info, m.newCells[c])]
    ensures KeysRead(m, x', b, n + 1)
  {
    hide Rank, Taken;
    var taken := Taken(m, b, BUCKET_SIZE);
    var c: Cell := (b, taken[n]);
    assert taken[..n + 1] == taken[..n] + [taken[n]];
    assert forall d: Cell :: Done(m, d, b, n + 1) <==> Done(m, d, b, n) || d == c;
  }

  lemma NextBucket(k: Key, m: Manager, x0: Manager, x: Manager, b: nat)
    requires Agree(k, m, {}) && CellsRead(m, x0, x, b, |Taken(m, b, BUCKET_SIZE)|)
    ensures CellsRead(m, x0, x, b + 1, 0)
  {
    hide Agree, Rank, NewCell;
    forall c: Cell | c in m.newCells
      ensures Done(m, c, b, |Taken(m, b, BUCKET_SIZE)|) <==> Done(m, c, b + 1, 0)
    {
      CellFacts(k, m, c);
      if c.0 == b {
        TakenAll(m, b, BUCKET_SIZE, c.1);
      }
    }
  }

  lemma NoCellsYet(m: Manager, x: Manager)
    requires x.newCells == map[] && forall i | i in x.info :: x.info[i].refCount == 0
    ensures CellsRead(m, x, x, 0, 0)
  {
    forall i | i in x.info
      ensures CellsOf(x.newCells, i) == {}
    {
    }
  }

  /** Puts an entry into its cell of a bucket, if the saved cells are used and the cell is free. */
  method LoadCell(x: Manager, key: Key, index: int, bucket: nat, nNew: nat, useCells: bool) returns (x': Manager)
    requires Numbered(x, |x.random|) && nNew <= |x.random|
    ensures Numbered(x', |x.random|) && x' == x.(info := x'.info, newCells := x'.newCells)
    ensures 0 <= index < nNew && useCells ==>
              var e := x.info[index];
              var c := NewCell(key, e.service, bucket);
              c !in x.newCells && e.refCount < NEW_BUCKETS_PER_ADDRESS ==>
                x' == x.(newCells := x.newCells[c := index], info := x.info[index := e.(refCount := e.refCount + 1)])
  {
    x' := x;
    if 0 <= index < nNew {
      var e := x.info[index];
      var c := NewCell(key, e.service, bucket);
      if useCells && c !in x.newCells && e.refCount < NEW_BUCKETS_PER_ADDRESS {
        x' := x.(newCells := x.newCells[c := index], info := x.info[index := e.(refCount := e.refCount + 1)]);
        assert x'.info.Keys == x.info.Keys;
      }
    }
  }

  /** What a stream that goes on with bucket `b` holds. */
  lemma BucketAhead(m: Manager, s: seq<Token>, at: nat, b: nat)
    requires at <= |s| && s[at..] == BucketsFrom(m, b) && b < NEW_BUCKET_COUNT
    ensures var taken := Taken(m, b, BUCKET_SIZE);
            && at + 1 + |taken| <= |s| && s[at] == Number(|taken|)
            && (forall n | 0 <= n < |taken| :: s[at + 1..][n] == Index(m, (b, taken[n])))
            && s[at + 1 + |taken|..] == BucketsFrom(m, b + 1)
  {
    hide Taken, Indexes, Index, BucketsFrom;
    BucketsStep(m, b);
    var taken := Taken(m, b, BUCKET_SIZE);
    var t := Indexes(m, b, taken);
    assert s[at..] == [Number(|taken|)] + t + BucketsFrom(m, b + 1);
    assert |s[at..]| == 1 + |t| + |BucketsFrom(m, b + 1)|;
    assert s[at] == s[at..][0];
    forall n | 0 <= n < |taken|
      ensures s[at + 1..][n] == Index(m, (b, taken[n]))
    {
      assert s[at + 1..][n] == s[at..][1 + n] == t[n];
    }
    assert s[at + 1 + |taken|..] == s[at..][1 + |taken|..];
  }

  method ReadBucket(
    s: seq<Token>, at: nat, key: Key, bucket: nat, nNew: nat, useCells: bool, y: Manager, ghost x0: Manager,
    ghost m: Manager, ghost good: bool)
    returns (ok: bool, x: Manager, at': nat)
    requires at <= |s| && Numbered(y, |y.random|) && nNew <= |y.random|
    requires good ==>
               && Agree(key, m, {}) && EntriesLoaded(key, m, x0, |Order(m)|) && nNew == m.nNew && useCells
               && bucket < NEW_BUCKET_COUNT && CellsRead(m, x0, y, bucket, 0) && s[at..] == BucketsFrom(m, bucket)
    ensures ok ==> at < at' <= |s| && Numbered(x, |y.random|) && x == y.(info := x.info, newCells := x.newCells)
    ensures good ==> ok && CellsRead(m, x0, x, bucket + 1, 0) && s[at'..] == BucketsFrom(m, bucket + 1)
  {
    hide Agree, Numbered, EntriesLoaded, CellsRead, BucketsFrom, Taken, Rank, NewCell, Order;
    x, at' := y, at;
    if good {
      BucketAhead(m, s, at, bucket);
    }
    if at >= |s| || !s[at].Number? {
      return false, x, at;
    }
    var size := s[at].n;
    at' := at + 1;
    var n := 0;
    while n < size
      invariant 0 <= n && at' == at + 1 + n <= |s|
      invariant Numbered(x, |y.random|) && x == y.(info := x.info, newCells := x.newCells)
      invariant good ==> size == |Taken(m, bucket, BUCKET_SIZE)| && n <= size && CellsRead(m, x0, x, bucket, n)
    {
      if good {
        assert s[at + 1..][n] == s[at'];
        NextCell(key, m, x0, x, bucket, n);
        CellsStep(m, x0, x, bucket, n);
      }
      if at' >= |s| || !s[at'].Number? {
        return false, x, at;
      }
      x := LoadCell(x, key, s[at'].n, bucket, nNew, useCells);
      n, at' := n + 1, at' + 1;
    }
    if good {
      NextBucket(key, m, x0, x, bucket);
    }
    ok := true;
  }

  method ReadBuckets(
    s: seq<Token>, at: nat, key: Key, buckets: int, nNew: nat, useCells: bool, x0: Manager, ghost m: Manager, ghost good: bool)
    returns (ok: bool, x: Manager)
    requires at <= |s| && Numbered(x0, |x0.random|) && nNew <= |x0.random|
    requires good ==>
               && Agree(key, m, {}) && EntriesLoaded(key, m, x0, |Order(m)|) && nNew == m.nNew && useCells
               && buckets == NEW_BUCKET_COUNT && s[at..] == BucketsFrom(m, 0)
    ensures ok ==> Numbered(x, |x0.random|) && x == x0.(info := x.info, newCells := x.newCells)
    ensures good ==> ok && CellsRead(m, x0, x, NEW_BUCKET_COUNT, 0)
  {
    hide Agree, Numbered, EntriesLoaded, CellsRead, BucketsFrom, Order;
    x := x0;
    if good {
      FreshCells(key, m, x0);
      NoCellsYet(m, x0);
    }
    var at': nat, bucket: nat := at, 0;
    while bucket < buckets
      invariant 0 <= bucket && at' <= |s|
      invariant Numbered(x, |x0.random|) && x == x0.(info := x.info, newCells := x.newCells)
      invariant good ==> bucket <= NEW_BUCKET_COUNT && CellsRead(m, x0, x, bucket, 0) && s[at'..] == BucketsFrom(m, bucket)
    {
      ok, x, at' := ReadBucket(s, at', key, bucket, nNew, useCells, x, x0, m, good);
      if !ok {
        return;
      }
      bucket := bucket + 1;
    }
    ok := true;
  }

  lemma FreshCells(k: Key, m: Manager, x: Manager)
    requires EntriesLoaded(k, m, x, |Order(m)|)
    ensures x.newCells == map[] && forall i | i in x.info :: x.info[i].refCount == 0
  {
  }

  /** Deletes the new entries that got no cell. */
  method Prune(x0: Manager) returns (x: Manager)
    requires Numbered(x0, |x0.random|)
    ensures RandomOk(x.info, x.random)
    ensures forall id | id in x.info :: x.info[id].inTried || x.info[id].refCount != 0
    ensures (forall id | id in x0.info :: x0.info[id].inTried || x0.info[id].refCount != 0) ==> x == x0
  {
    x := x0;
    for id := 0 to |x0.random|
      invariant RandomOk(x.info, x.random) && x.info.Keys <= x0.info.Keys
      invariant forall g | g in x.info && g < id :: x.info[g].inTried || x.info[g].refCount != 0
      invariant (forall g | g in x0.info :: x0.info[g].inTried || x0.info[g].refCount != 0) ==> x == x0
    {
      if id in x.info && !x.info[id].inTried && x.info[id].refCount == 0 {
        RemoveRandom(x, id);
        RemovedEntries(x, id);
        x := Removed(x, id).(nNew := x.nNew - 1);
      }
    }
  }

  // ----- The limits -----

  ghost function Grid(buckets: nat, size: nat): (r: set<Cell>)
    ensures forall c: Cell :: c in r <==> c.0 < buckets && c.1 < size
  {
    if buckets == 0 then {} else Grid(buckets - 1, size) + Row(buckets - 1, size)
  }

  lemma NoGrid(size: nat)
    ensures |Grid(0, size)| == 0
  {
  }

  lemma GridStep(buckets: nat, size: nat)
    requires buckets > 0
    ensures |Grid(buckets, size)| == |Grid(buckets - 1, size)| + |Row(buckets - 1, size)|
  {
    hide Row;
    var rest, row := Grid(buckets - 1, size), Row(buckets - 1, size);
    assert rest !! row;
    assert |rest + row| == |rest| + |row|;
  }

  lemma {:induction false} GridSize(buckets: nat, size: nat)
    ensures |Grid(buckets, size)| == buckets * size
  {
    hide *;
    if buckets == 0 {
      NoGrid(size);
    } else {
      GridStep(buckets, size);
      GridSize(buckets - 1, size);
      RowSize(buckets - 1, size);
      OneRowMore(buckets - 1, size);
    }
  }

  lemma OneRowMore(a: nat, b: nat)
    ensures (a + 1) * b == a * b + b
  {
  }

  ghost function Row(bucket: nat, size: nat): (r: set<Cell>)
    ensures forall c: Cell :: c in r <==> c.0 == bucket && c.1 < size
  {
    if size == 0 then {} else Row(bucket, size - 1) + {(bucket, size - 1)}
  }

  lemma {:induction false} RowSize(bucket: nat, size: nat)
    ensures |Row(bucket, size)| == size
  {
    if size > 0 {
      RowSize(bucket, size - 1);
    }
  }

  /** Ids that each have a cell of their own are no more than the cells. */
  lemma {:induction false} NoMoreThanCells(cells: map<Cell, nat>, ids: set<nat>, held: set<Cell>)
    requires forall id | id in ids :: exists c :: c in held && c in cells && cells[c] == id
    ensures |ids| <= |held|
    decreases ids
  {
    if ids != {} {
      var id :| id in ids;
      var c: Cell :| c in held && c in cells && cells[c] == id;
      forall g | g in ids - {id}
        ensures exists d :: d in held - {c} && d in cells && cells[d] == g
      {
        var d: Cell :| d in held && d in cells && cells[d] == g;
        assert d in held - {c};
      }
      NoMoreThanCells(cells, ids - {id}, held - {c});
    }
  }

  /** A consistent manager is within the limits that loading checks. */
  lemma WithinLimits(k: Key, m: Manager)
    requires Agree(k, m, {})
    ensures 0 <= m.nNew <= NEW_BUCKET_COUNT * BUCKET_SIZE && 0 <= m.nTried <= TRIED_BUCKET_COUNT * BUCKET_SIZE
  {
    hide Grid, Row, RandomOk, AddrOk;
    forall id | id in NewIds(m, {})
      ensures exists c :: c in Grid(NEW_BUCKET_COUNT, BUCKET_SIZE) && c in m.newCells && m.newCells[c] == id
    {
      SomeCell(k, m, id);
    }
    NoMoreThanCells(m.newCells, NewIds(m, {}), Grid(NEW_BUCKET_COUNT, BUCKET_SIZE));
    GridSize(NEW_BUCKET_COUNT, BUCKET_SIZE);
    forall id | id in TriedIds(m)
      ensures exists c :: c in Grid(TRIED_BUCKET_COUNT, BUCKET_SIZE) && c in m.triedCells && m.triedCells[c] == id
    {
      assert EntryOk(k, m, {}, id);
      assert TriedCell(k, m.info[id].service) in Grid(TRIED_BUCKET_COUNT, BUCKET_SIZE);
    }
    NoMoreThanCells(m.triedCells, TriedIds(m), Grid(TRIED_BUCKET_COUNT, BUCKET_SIZE));
    GridSize(TRIED_BUCKET_COUNT, BUCKET_SIZE);
  }

  lemma SomeCell(k: Key, m: Manager, id: nat)
    requires Agree(k, m, {}) && id in NewIds(m, {})
    ensures exists c :: c in Grid(NEW_BUCKET_COUNT, BUCKET_SIZE) && c in m.newCells && m.newCells[c] == id
  {
    hide Grid, Row, RandomOk, AddrOk, CountsOk;
    assert EntryOk(k, m, {}, id);
    assert CellsOf(m.newCells, id) != {};
    var c: Cell :| c in CellsOf(m.newCells, id);
    assert NewCellOk(k, m, {}, c);
    assert c in Grid(NEW_BUCKET_COUNT, BUCKET_SIZE);
  }

  // ----- Loading -----

  /** The parts of a saved manager, as positions in the stream. */
  lemma StreamParts(k: Key, m: Manager, s: seq<Token>)
    requires Agree(k, m, {}) && s == Serialized(k, m)
    ensures 0 <= m.nNew && 0 <= m.nTried && 6 + m.nNew + m.nTried <= |s|
    ensures s[..6] == Header(k, m)
    ensures Follows(s, 6, Entries(m.info, Ids(m.info, false, m.nIdCount)))
    ensures Follows(s, 6 + m.nNew, Entries(m.info, Ids(m.info, true, m.nIdCount)))
    ensures s[6 + m.nNew + m.nTried..] == BucketsFrom(m, 0)
  {
    hide Agree, Ids, Entries, BucketsFrom, Save;
    IdsCounted(k, m);
    var a, b := Entries(m.info, Ids(m.info, false, m.nIdCount)), Entries(m.info, Ids(m.info, true, m.nIdCount));
    assert s == Header(k, m) + a + b + BucketsFrom(m, 0);
  }

  lemma CellsComplete(k: Key, m: Manager, x0: Manager, x: Manager)
    requires Agree(k, m, {}) && CellsRead(m, x0, x, NEW_BUCKET_COUNT, 0)
    ensures x.newCells.Keys == m.newCells.Keys
    ensures forall c | c in m.newCells :: x.newCells[c] < |Order(m)| && Order(m)[x.newCells[c]] == m.newCells[c]
  {
    hide Agree, Rank, NewCell, Order, CountsRead, Taken;
    forall c | c in m.newCells
      ensures c in x.newCells && x.newCells[c] < |Order(m)| && Order(m)[x.newCells[c]] == m.newCells[c]
    {
      CellFacts(k, m, c);
      assert Done(m, c, NEW_BUCKET_COUNT, 0);
      RankLeadsBack(k, m, m.newCells[c]);
    }
  }

  lemma EntryComplete(k: Key, m: Manager, x0: Manager, x: Manager, i: nat)
    requires Agree(k, m, {}) && EntriesLoaded(k, m, x0, |Order(m)|) && CountsRead(x0, x) && i < |Order(m)|
    requires x.newCells.Keys == m.newCells.Keys
    requires forall c | c in m.newCells :: x.newCells[c] < |Order(m)| && Order(m)[x.newCells[c]] == m.newCells[c]
    ensures Order(m)[i] in m.info && i in x.info && x.info[i] == m.info[Order(m)[i]].(lastTry := 0, randomPos := i)
  {
    hide Agree, AddrOk, CellsLoaded, Order;
    SameCellCount(k, m, x, i);
  }

  lemma SameCellCount(k: Key, m: Manager, x: Manager, i: nat)
    requires Agree(k, m, {}) && i < |Order(m)|
    requires x.newCells.Keys == m.newCells.Keys
    requires forall c | c in m.newCells :: x.newCells[c] < |Order(m)| && Order(m)[x.newCells[c]] == m.newCells[c]
    ensures Order(m)[i] in m.info && |CellsOf(x.newCells, i)| == m.info[Order(m)[i]].refCount
    ensures m.info[Order(m)[i]].inTried <==> i >= m.nNew
  {
    hide Order, RandomOk, AddrOk, CountsOk, TriedCell, NewCell;
    OrderFacts(k, m);
    assert EntryOk(k, m, {}, Order(m)[i]);
    assert CellsOf(x.newCells, i) == CellsOf(m.newCells, Order(m)[i]);
  }

  lemma TriedComplete(k: Key, m: Manager, x0: Manager)
    requires Agree(k, m, {}) && EntriesLoaded(k, m, x0, |Order(m)|)
    ensures x0.triedCells.Keys == m.triedCells.Keys
    ensures forall c | c in m.triedCells :: x0.triedCells[c] < |Order(m)| && Order(m)[x0.triedCells[c]] == m.triedCells[c]
  {
    hide Agree, Order, EntriesLoaded;
    forall c | c in x0.triedCells
      ensures c in m.triedCells
    {
      TriedWasThere(k, m, x0, c);
    }
    forall c | c in m.triedCells
      ensures c in x0.triedCells && x0.triedCells[c] < |Order(m)| && Order(m)[x0.triedCells[c]] == m.triedCells[c]
    {
      TriedIsThere(k, m, x0, c);
    }
  }

  lemma TriedWasThere(k: Key, m: Manager, x0: Manager, c: Cell)
    requires Agree(k, m, {}) && EntriesLoaded(k, m, x0, |Order(m)|) && c in x0.triedCells
    ensures c in m.triedCells
  {
    hide Order, RandomOk, AddrOk, CountsOk, TriedCell, NewCell;
    OrderFacts(k, m);
    var id := Order(m)[x0.triedCells[c]];
    assert EntryOk(k, m, {}, id);
  }

  lemma TriedIsThere(k: Key, m: Manager, x0: Manager, c: Cell)
    requires Agree(k, m, {}) && EntriesLoaded(k, m, x0, |Order(m)|) && c in m.triedCells
    ensures c in x0.triedCells && x0.triedCells[c] < |Order(m)| && Order(m)[x0.triedCells[c]] == m.triedCells[c]
  {
    hide Order, RandomOk, AddrOk, CountsOk, TriedCell, NewCell;
    OrderFacts(k, m);
    assert TriedCellOk(k, m, c);
    var id := m.triedCells[c];
    assert id in ToSet(Order(m));
    var i :| 0 <= i < |Order(m)| && Order(m)[i] == id;
    LoadFields(m.info[id], true, i);
  }

  lemma {:induction false} BelowSize(n: nat)
    ensures |Below(n)| == n
  {
    if n > 0 {
      BelowSize(n - 1);
    }
  }

  lemma ReloadedCounts(k: Key, m: Manager, x: Manager)
    requires Agree(k, m, {}) && Reloaded(m, x)
    ensures CountsOk(x, {})
  {
    hide *;
    WithinLimits(k, m);
    ReloadedIds(k, m, x);
    var n, all := m.nNew, |Order(m)|;
    BelowSize(n);
    BelowSize(all);
    BelowDifference(n, all);
    CountsAre(x, Below(n), Below(all) - Below(n));
  }

  lemma BelowDifference(n: nat, all: nat)
    requires n <= all && |Below(n)| == n && |Below(all)| == all
    ensures |Below(all) - Below(n)| == all - n
  {
    hide Below;
    assert Below(n) <= Below(all);
    assert Below(all) == Below(n) + (Below(all) - Below(n));
  }

  lemma CountsAre(x: Manager, unk: set<nat>, tried: set<nat>)
    requires NewIds(x, {}) == unk && TriedIds(x) == tried && x.nNew == |unk| && x.nTried == |tried|
    ensures CountsOk(x, {})
  {
  }

  lemma ReloadedIds(k: Key, m: Manager, x: Manager)
    requires Agree(k, m, {}) && Reloaded(m, x) && 0 <= m.nNew && 0 <= m.nTried
    ensures |Order(m)| == m.nNew + m.nTried && m.nNew <= |Order(m)| && x.nNew == m.nNew && x.nTried == m.nTried
    ensures NewIds(x, {}) == Below(m.nNew) && TriedIds(x) == Below(|Order(m)|) - Below(m.nNew)
  {
    hide Agree, Order, Below;
    OrderFacts(k, m);
    forall i | i in x.info
      ensures x.info[i].inTried <==> i >= m.nNew
    {
      assert i in Below(|Order(m)|);
    }
  }

  lemma ReloadedTables(k: Key, m: Manager, x: Manager)
    requires Agree(k, m, {}) && Reloaded(m, x)
    ensures TablesOk(k, x, {})
  {
    hide Agree, Order, Reloaded;
    forall c | c in x.newCells
      ensures NewCellOk(k, x, {}, c)
    {
      ReloadedNewCell(k, m, x, c);
    }
    forall c | c in x.triedCells
      ensures TriedCellOk(k, x, c)
    {
      ReloadedTriedCell(k, m, x, c);
    }
    forall i | i in x.info
      ensures EntryOk(k, x, {}, i)
    {
      ReloadedEntry(k, m, x, i);
    }
  }

  lemma ReloadedNewCell(k: Key, m: Manager, x: Manager, c: Cell)
    requires Agree(k, m, {}) && Reloaded(m, x) && c in x.newCells
    ensures NewCellOk(k, x, {}, c)
  {
    hide Order, RandomOk, AddrOk, CountsOk, NewCell;
    assert NewCellOk(k, m, {}, c);
    assert x.newCells[c] in Below(|Order(m)|);
  }

  lemma ReloadedTriedCell(k: Key, m: Manager, x: Manager, c: Cell)
    requires Agree(k, m, {}) && Reloaded(m, x) && c in x.triedCells
    ensures TriedCellOk(k, x, c)
  {
    hide Order, RandomOk, AddrOk, CountsOk, TriedCell;
    assert TriedCellOk(k, m, c);
    assert x.triedCells[c] in Below(|Order(m)|);
  }

  lemma ReloadedEntry(k: Key, m: Manager, x: Manager, i: nat)
    requires Agree(k, m, {}) && Reloaded(m, x) && i in x.info
    ensures EntryOk(k, x, {}, i)
  {
    hide Order, RandomOk, AddrOk, CountsOk, TriedCell, NewCell, CellsOf;
    assert i in Below(|Order(m)|) && Order(m)[i] in ToSet(Order(m));
    assert EntryOk(k, m, {}, Order(m)[i]);
    ReloadedCells(m, x, i);
  }

  lemma ReloadedCells(m: Manager, x: Manager, i: nat)
    requires Reloaded(m, x) && i < |Order(m)|
    ensures CellsOf(x.newCells, i) == CellsOf(m.newCells, Order(m)[i])
  {
    hide Order;
  }

  lemma AllReloaded(k: Key, m: Manager, x0: Manager, x: Manager)
    requires Agree(k, m, {}) && EntriesLoaded(k, m, x0, |Order(m)|) && CellsRead(m, x0, x, NEW_BUCKET_COUNT, 0)
    requires x.nNew == m.nNew && x.nTried == m.nTried && x.nIdCount == |Order(m)|
    ensures Reloaded(m, x)
  {
    hide *;
    OrderFacts(k, m);
    ReadKeeps(k, m, x0, x);
    CellsComplete(k, m, x0, x);
    TriedComplete(k, m, x0);
    forall i | 0 <= i < |Order(m)|
      ensures Order(m)[i] in m.info && i in x.info
      ensures x.info[i] == m.info[Order(m)[i]].(lastTry := 0, randomPos := i)
    {
      EntryComplete(k, m, x0, x, i);
    }
    ReloadedParts(m, x);
  }

  /** Reading cells changes neither the ids nor the tried table. */
  lemma ReadKeeps(k: Key, m: Manager, x0: Manager, x: Manager)
    requires EntriesLoaded(k, m, x0, |Order(m)|) && CellsRead(m, x0, x, NEW_BUCKET_COUNT, 0)
    ensures CountsRead(x0, x) && x.info.Keys == Below(|Order(m)|) && x.triedCells == x0.triedCells
  {
    hide Order, Below, AddrOk, CellsLoaded, KeysRead;
  }

  lemma ReloadedParts(m: Manager, x: Manager)
    requires Distinct(Order(m)) && ToSet(Order(m)) == m.info.Keys && x.info.Keys == Below(|Order(m)|)
    requires forall i | 0 <= i < |Order(m)| ::
               && Order(m)[i] in m.info && i in x.info
               && x.info[i] == m.info[Order(m)[i]].(lastTry := 0, randomPos := i)
    requires x.newCells.Keys == m.newCells.Keys && x.triedCells.Keys == m.triedCells.Keys
    requires forall c | c in m.newCells :: x.newCells[c] < |Order(m)| && Order(m)[x.newCells[c]] == m.newCells[c]
    requires forall c | c in m.triedCells :: x.triedCells[c] < |Order(m)| && Order(m)[x.triedCells[c]] == m.triedCells[c]
    requires x.nNew == m.nNew && x.nTried == m.nTried && x.nIdCount == |Order(m)|
    ensures Reloaded(m, x)
  {
    hide Order, Below, ToSet, Distinct;
  }

  /** Loading has put everything back. */
  lemma Complete(k: Key, m: Manager, x0: Manager, x: Manager)
    requires Agree(k, m, {}) && EntriesLoaded(k, m, x0, |Order(m)|) && CellsRead(m, x0, x, NEW_BUCKET_COUNT, 0)
    requires x.nNew == m.nNew && x.nTried == m.nTried && x.nIdCount == |Order(m)| && RandomOk(x.info, x.random)
    ensures Reloaded(m, x) && Agree(k, x, {})
    ensures forall id | id in x.info :: x.info[id].inTried || x.info[id].refCount != 0
  {
    hide *;
    AllReloaded(k, m, x0, x);
    ReloadedTables(k, m, x);
    ReloadedCounts(k, m, x);
    ReloadedAddr(k, m, x0, x);
    AllPlaced(k, x);
  }

  lemma ReloadedAddr(k: Key, m: Manager, x0: Manager, x: Manager)
    requires EntriesLoaded(k, m, x0, |Order(m)|) && CellsRead(m, x0, x, NEW_BUCKET_COUNT, 0)
    requires RandomOk(x.info, x.random) && TablesOk(k, x, {}) && CountsOk(x, {})
    ensures Agree(k, x, {})
  {
    hide RandomOk, TablesOk, CountsOk, InfoLoaded, CellsLoaded, KeysRead;
    assert AddrOk(x.info, x.addr);
  }

  lemma AllPlaced(k: Key, x: Manager)
    requires Agree(k, x, {})
    ensures forall id | id in x.info :: x.info[id].inTried || x.info[id].refCount != 0
  {
    forall id | id in x.info
      ensures x.info[id].inTried || x.info[id].refCount != 0
    {
      assert EntryOk(k, x, {}, id);
    }
  }

  /** Loads a manager. Whatever the stream holds, the random order and the entries agree afterwards and
      every new entry has a cell; what was saved from a consistent manager comes back whole. */
  method Unserialize(s: seq<Token>, ghost k: Key, ghost m: Manager) returns (r: Option<(Key, Manager)>)
    ensures r.Some? ==> RandomOk(r.value.1.info, r.value.1.random)
    ensures r.Some? ==> forall id | id in r.value.1.info :: r.value.1.info[id].inTried || r.value.1.info[id].refCount != 0
    ensures Agree(k, m, {}) && s == Serialized(k, m) ==>
              && r.Some? && r.value.0 == k && Reloaded(m, r.value.1) && Agree(k, r.value.1, {})
              && (TimesOk(m) ==> TimesOk(r.value.1))
  {
    hide *;
    ghost var good := Agree(k, m, {}) && s == Serialized(k, m);
    if good {
      StreamParts(k, m, s);
      HeaderParts(k, m, s);
      OrderFacts(k, m);
      WithinLimits(k, m);
    }
    if !HasHeader(s) {
      return None;
    }
    HeaderShape(s);
    var version, key := s[0].value, s[2].key;
    var nNew, nTried := s[3].n, s[4].n;
    if s[1].value != 32 {
      return None;
    }
    var buckets := if version != 0 then ToggleBit30(s[5].n) else s[5].n;
    if nNew < 0 || nTried < 0 || nNew > NEW_BUCKET_COUNT * BUCKET_SIZE || nTried > TRIED_BUCKET_COUNT * BUCKET_SIZE {
      return None;
    }
    var useCells := version == 1 && buckets == NEW_BUCKET_COUNT;
    var ok, x := ReadNew(s, 6, key, nNew, useCells, nTried, m, good);
    if !ok {
      return None;
    }
    NumberedLength(x, nNew);
    var lost;
    ok, x, lost := ReadTried(s, 6 + nNew, key, nTried, x, m, good);
    if !ok {
      return None;
    }
    var y := x.(nIdCount := |x.random|, nTried := x.nTried - lost);
    SameNumbered(x, y, |x.random|);
    if good {
      SameLoaded(k, m, x, y);
    }
    ok, x := ReadBuckets(s, 6 + nNew + nTried, key, buckets, nNew, useCells, y, m, good);
    if !ok {
      return None;
    }
    NumberedLength(x, |y.random|);
    if good {
      Complete(k, m, y, x);
    }
    x := Prune(x);
    if good {
      ReloadedTimes(m, x);
    }
    r := Some((key, x));
  }

  predicate HasHeader(s: seq<Token>) {
    && |s| >= 6
    && s[0].Byte? && s[1].Byte? && s[2].Secret?
    && s[3].Number? && s[4].Number? && s[5].Number?
  }

  lemma HeaderShape(s: seq<Token>)
    requires HasHeader(s)
    ensures |s| >= 6 && s[0].Byte? && s[1].Byte? && s[2].Secret? && s[3].Number? && s[4].Number? && s[5].Number?
  {
  }

  lemma HeaderParts(k: Key, m: Manager, s: seq<Token>)
    requires |s| >= 6 && s[..6] == Header(k, m)
    ensures HasHeader(s) && s[0] == Byte(1) && s[1] == Byte(32) && s[2] == Secret(k)
    ensures s[3] == Number(m.nNew) && s[4] == Number(m.nTried)
    ensures s[5].Number? && ToggleBit30(s[5].n) == NEW_BUCKET_COUNT
  {
    assert s[0] == s[..6][0] && s[1] == s[..6][1] && s[2] == s[..6][2];
    assert s[3] == s[..6][3] && s[4] == s[..6][4] && s[5] == s[..6][5];
  }

  lemma NumberedLength(x: Manager, n: nat)
    requires Numbered(x, n)
    ensures |x.random| == n && RandomOk(x.info, x.random)
  {
  }

  lemma SameLoaded(k: Key, m: Manager, x: Manager, y: Manager)
    requires EntriesLoaded(k, m, x, |Order(m)|)
    requires y == x.(nIdCount := y.nIdCount, nTried := y.nTried)
    ensures EntriesLoaded(k, m, y, |Order(m)|)
  {
  }
}
