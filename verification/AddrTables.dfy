/** The address manager's data: five redundant indexes, and what it means that they agree. */
module AddrTables {
  const TRIED_BUCKET_COUNT := 256
  const NEW_BUCKET_COUNT := 1024
  const BUCKET_SIZE := 64
  const TRIED_BUCKETS_PER_GROUP := 8
  const NEW_BUCKETS_PER_SOURCE_GROUP := 64
  const NEW_BUCKETS_PER_ADDRESS := 8
  const HORIZON_DAYS := 30
  const RETRIES := 3
  const MAX_FAILURES := 10
  const MIN_FAIL_DAYS := 7
  const GETADDR_MAX_PCT := 23
  const GETADDR_MAX := 2500

  type NetAddr = nat

  /** An address with its port. */
  datatype Service = Service(ip: NetAddr, port: nat)

  datatype AddrInfo = AddrInfo(
    service: Service,
    services: set<nat>,          // the service flags
    time: int,
    source: NetAddr,
    lastTry: int,
    lastSuccess: int,
    attempts: int,
    refCount: int,
    inTried: bool,
    randomPos: int)

  /** The hashes keyed with the secret key, and the group of an address. */
  datatype Key = Key(
    group: NetAddr -> nat,
    service: Service -> nat,
    triedGroup: (nat, nat) -> nat,
    newGroups: (nat, nat) -> nat,
    newSource: (nat, nat) -> nat,
    position: (bool, nat, Service) -> nat)

  /** Bucket and position in a table. */
  type Cell = (nat, nat)

  /** The buckets open to a group, numbered. */
  function TriedSlots(k: Key, group: nat): nat -> nat {
    (i: nat) => k.triedGroup(group, i) % TRIED_BUCKET_COUNT
  }

  function NewSlots(k: Key, group: nat): nat -> nat {
    (i: nat) => k.newSource(group, i) % NEW_BUCKET_COUNT
  }

  function TriedBucket(k: Key, s: Service): (b: nat)
    ensures b < TRIED_BUCKET_COUNT
    ensures b in GroupBuckets(k, k.group(s.ip))
  {
    var slot := k.service(s) % TRIED_BUCKETS_PER_GROUP;
    TriedSlots(k, k.group(s.ip))(slot)
  }

  function NewBucket(k: Key, ip: NetAddr, source: NetAddr): (b: nat)
    ensures b < NEW_BUCKET_COUNT
    ensures b in SourceBuckets(k, k.group(source))
  {
    var slot := k.newGroups(k.group(ip), k.group(source)) % NEW_BUCKETS_PER_SOURCE_GROUP;
    NewSlots(k, k.group(source))(slot)
  }

  function Position(k: Key, s: Service, isNew: bool, bucket: nat): (p: nat)
    ensures p < BUCKET_SIZE
  {
    k.position(isNew, bucket, s) % BUCKET_SIZE
  }

  function TriedCell(k: Key, s: Service): Cell {
    var b := TriedBucket(k, s);
    (b, Position(k, s, false, b))
  }

  function NewCell(k: Key, s: Service, bucket: nat): Cell {
    (bucket, Position(k, s, true, bucket))
  }

  ghost function Image(f: nat -> nat, n: nat): set<nat> {
    set i | 0 <= i < n :: f(i)
  }

  /** The tried buckets an address group can reach, and the new buckets a source group can reach. */
  ghost function GroupBuckets(k: Key, group: nat): set<nat> {
    Image(TriedSlots(k, group), TRIED_BUCKETS_PER_GROUP)
  }

  ghost function SourceBuckets(k: Key, group: nat): set<nat> {
    Image(NewSlots(k, group), NEW_BUCKETS_PER_SOURCE_GROUP)
  }

  lemma {:induction false} ImageSize(f: nat -> nat, n: nat)
    ensures |Image(f, n)| <= n
  {
    if n == 0 {
      assert Image(f, n) == {};
    } else {
      ImageSize(f, n - 1);
      assert Image(f, n) == Image(f, n - 1) + {f(n - 1)};
    }
  }

  /** No address group can fill more than 8 tried buckets, and no source group more than 64 new
      ones, whatever addresses it invents. */
  lemma BucketsPerGroup(k: Key, group: nat)
    ensures |GroupBuckets(k, group)| <= 8
    ensures |SourceBuckets(k, group)| <= 64
  {
    ImageSize(TriedSlots(k, group), TRIED_BUCKETS_PER_GROUP);
    ImageSize(NewSlots(k, group), NEW_BUCKETS_PER_SOURCE_GROUP);
  }

  predicate IsTerrible(e: AddrInfo, now: int) {
    if e.lastTry != 0 && e.lastTry >= now - 60 then false
    else
      || e.time > now + 10 * 60
      || e.time == 0
      || now - e.time > HORIZON_DAYS * 24 * 60 * 60
      || (e.lastSuccess == 0 && e.attempts >= RETRIES)
      || (now - e.lastSuccess > MIN_FAIL_DAYS * 24 * 60 * 60 && e.attempts >= MAX_FAILURES)
  }

  /** Tried within the last minute; or last seen at a known time, at most 10 minutes ahead and 30 days back,
      with fewer than 3 attempts if it was never reached and fewer than 10 if not within the last 7 days. */
  predicate WorthGiving(e: AddrInfo, now: int) {
    || (e.lastTry != 0 && now - e.lastTry <= 60)
    || (&& e.time != 0 && -600 <= now - e.time <= 2_592_000
        && (e.lastSuccess == 0 ==> e.attempts < 3)
        && (now - e.lastSuccess > 604_800 ==> e.attempts < 10))
  }

  lemma TerribleExactly(e: AddrInfo, now: int)
    ensures IsTerrible(e, now) <==> !WorthGiving(e, now)
  {
  }

  // ----- The indexes -----

  /** An empty cell of a table is not in its map. */
  datatype Manager = Manager(
    info: map<nat, AddrInfo>,
    addr: map<NetAddr, nat>,
    random: seq<nat>,
    newCells: map<Cell, nat>,
    triedCells: map<Cell, nat>,
    nNew: int,
    nTried: int,
    nIdCount: nat)

  ghost function CellsOf(cells: map<Cell, nat>, id: nat): set<Cell> {
    set c | c in cells && cells[c] == id
  }

  ghost function NewIds(m: Manager, limbo: set<nat>): set<nat> {
    set id | id in m.info && !m.info[id].inTried && id !in limbo
  }

  ghost function TriedIds(m: Manager): set<nat> {
    set id | id in m.info && m.info[id].inTried
  }

  ghost predicate RandomOk(info: map<nat, AddrInfo>, random: seq<nat>) {
    && (forall id | id in info :: 0 <= info[id].randomPos < |random| && random[info[id].randomPos] == id)
    && (forall i | 0 <= i < |random| :: random[i] in info && info[random[i]].randomPos == i)
  }

  ghost predicate AddrOk(info: map<nat, AddrInfo>, addr: map<NetAddr, nat>) {
    && (forall id | id in info :: info[id].service.ip in addr && addr[info[id].service.ip] == id)
    && (forall a | a in addr :: addr[a] in info && info[addr[a]].service.ip == a)
  }

  /** Every cell holds an entry of its table, at the entry's hashed position. */
  ghost predicate NewCellOk(k: Key, m: Manager, limbo: set<nat>, c: Cell)
    requires c in m.newCells
  {
    var id := m.newCells[c];
    && id in m.info && !m.info[id].inTried && id !in limbo
    && c.0 < NEW_BUCKET_COUNT && c == NewCell(k, m.info[id].service, c.0)
  }

  ghost predicate TriedCellOk(k: Key, m: Manager, c: Cell)
    requires c in m.triedCells
  {
    var id := m.triedCells[c];
    id in m.info && m.info[id].inTried && c == TriedCell(k, m.info[id].service)
  }

  /** Reference counts are the numbers of cells: none for tried entries, 1 to 8 for new ones. */
  ghost predicate EntryOk(k: Key, m: Manager, limbo: set<nat>, id: nat)
    requires id in m.info
  {
    var e := m.info[id];
    && id < m.nIdCount
    && e.refCount == |CellsOf(m.newCells, id)|
    && (if e.inTried then
          var c := TriedCell(k, e.service);
          e.refCount == 0 && id !in limbo && c in m.triedCells && m.triedCells[c] == id
        else if id in limbo then e.refCount == 0
        else 1 <= e.refCount <= NEW_BUCKETS_PER_ADDRESS)
  }

  /** The tables agree with the entries. The entries in `limbo` are being moved: in no table and not
      counted. */
  ghost predicate TablesOk(k: Key, m: Manager, limbo: set<nat>) {
    && (forall c {:trigger NewCellOk(k, m, limbo, c)} | c in m.newCells :: NewCellOk(k, m, limbo, c))
    && (forall c {:trigger TriedCellOk(k, m, c)} | c in m.triedCells :: TriedCellOk(k, m, c))
    && (forall id {:trigger EntryOk(k, m, limbo, id)} | id in m.info :: EntryOk(k, m, limbo, id))
    && limbo <= m.info.Keys
  }

  ghost predicate CountsOk(m: Manager, limbo: set<nat>) {
    m.nNew == |NewIds(m, limbo)| && m.nTried == |TriedIds(m)|
  }

  /** All indexes agree. */
  ghost predicate Agree(k: Key, m: Manager, limbo: set<nat>) {
    RandomOk(m.info, m.random) && AddrOk(m.info, m.addr) && TablesOk(k, m, limbo) && CountsOk(m, limbo)
  }

  /** No time is negative, and a tried entry has been reached. */
  ghost predicate TimesOk(m: Manager) {
    forall id | id in m.info ::
      m.info[id].lastTry >= 0 && m.info[id].lastSuccess >= 0 && (m.info[id].inTried ==> m.info[id].lastSuccess != 0)
  }

  /** The tables are no larger than they should be: 256 tried and 1024 new buckets of 64 places, and 8 places
      for an address. */
  lemma WithinTables(k: Key, m: Manager, limbo: set<nat>)
    requires TablesOk(k, m, limbo)
    ensures forall c | c in m.triedCells :: c.0 < 256 && c.1 < 64
    ensures forall c | c in m.newCells :: c.0 < 1024 && c.1 < 64
    ensures forall id | id in m.info :: m.info[id].refCount <= 8
  {
    hide CellsOf;
    forall c | c in m.triedCells
      ensures c.0 < 256 && c.1 < 64
    {
      assert TriedCellOk(k, m, c);
    }
    forall c | c in m.newCells
      ensures c.0 < 1024 && c.1 < 64
    {
      assert NewCellOk(k, m, limbo, c);
    }
    forall id | id in m.info
      ensures m.info[id].refCount <= 8
    {
      assert EntryOk(k, m, limbo, id);
    }
  }

  const FRESH := Manager(map[], map[], [], map[], map[], 0, 0, 0)

  lemma FreshAgrees(k: Key)
    ensures Agree(k, FRESH, {})
  {
    assert NewIds(FRESH, {}) == {};
    assert TriedIds(FRESH) == {};
  }

  // ----- Each single change -----

  /** `Create`: a new entry, in no table yet. */
  function Created(m: Manager, e: AddrInfo): Manager
    requires e.service.ip !in m.addr
  {
    m.(info := m.info[m.nIdCount := e.(refCount := 0, inTried := false, randomPos := |m.random|)],
       addr := m.addr[e.service.ip := m.nIdCount],
       random := m.random + [m.nIdCount],
       nIdCount := m.nIdCount + 1)
  }

  lemma CreateAgrees(k: Key, m: Manager, e: AddrInfo)
    requires Agree(k, m, {}) && e.service.ip !in m.addr
    ensures m.nIdCount !in m.info && Agree(k, Created(m, e), {m.nIdCount})
  {
    hide TablesOk, CountsOk, AddrOk, RandomOk;
    IdIsFree(k, m);
    CreateRandom(m, e);
    CreateAddr(m, e);
    CreateTables(k, m, e);
    assert CountsOk(Created(m, e), {m.nIdCount}) by {
      CreateCounts(m, e);
    }
  }

  lemma IdIsFree(k: Key, m: Manager)
    requires TablesOk(k, m, {})
    ensures m.nIdCount !in m.info
  {
    assert m.nIdCount in m.info ==> EntryOk(k, m, {}, m.nIdCount);
  }

  lemma CreateRandom(m: Manager, e: AddrInfo)
    requires RandomOk(m.info, m.random) && e.service.ip !in m.addr && m.nIdCount !in m.info
    ensures RandomOk(Created(m, e).info, Created(m, e).random)
  {
  }

  lemma CreateAddr(m: Manager, e: AddrInfo)
    requires AddrOk(m.info, m.addr) && e.service.ip !in m.addr && m.nIdCount !in m.info
    ensures AddrOk(Created(m, e).info, Created(m, e).addr)
  {
  }

  lemma CreateTables(k: Key, m: Manager, e: AddrInfo)
    requires TablesOk(k, m, {}) && e.service.ip !in m.addr && m.nIdCount !in m.info
    ensures TablesOk(k, Created(m, e), {m.nIdCount})
  {
    var id, m' := m.nIdCount, Created(m, e);
    forall c | c in m.newCells
      ensures NewCellOk(k, m', {id}, c) && m.newCells[c] != id
    {
      assert NewCellOk(k, m, {}, c);
    }
    forall c | c in m.triedCells
      ensures TriedCellOk(k, m', c)
    {
      assert TriedCellOk(k, m, c);
    }
    assert CellsOf(m.newCells, id) == {};
    forall g | g in m'.info
      ensures EntryOk(k, m', {id}, g)
    {
      assert g != id ==> EntryOk(k, m, {}, g);
    }
  }

  lemma CreateCounts(m: Manager, e: AddrInfo)
    requires CountsOk(m, {}) && e.service.ip !in m.addr && m.nIdCount !in m.info
    ensures CountsOk(Created(m, e), {m.nIdCount})
  {
    assert NewIds(Created(m, e), {m.nIdCount}) == NewIds(m, {});
    assert TriedIds(Created(m, e)) == TriedIds(m);
  }

  /** Entries keep their place in the tables; statistics and random positions may differ. */
  ghost predicate SamePlaces(m: Manager, m': Manager) {
    && m' == m.(info := m'.info, random := m'.random)
    && m'.info.Keys == m.info.Keys
    && forall id | id in m.info ::
         && m'.info[id].service == m.info[id].service
         && m'.info[id].refCount == m.info[id].refCount
         && m'.info[id].inTried == m.info[id].inTried
  }

  lemma SamePlacesAgree(k: Key, m: Manager, m': Manager, limbo: set<nat>)
    requires SamePlaces(m, m')
    ensures AddrOk(m.info, m.addr) ==> AddrOk(m'.info, m'.addr)
    ensures TablesOk(k, m, limbo) ==> TablesOk(k, m', limbo)
    ensures CountsOk(m, limbo) ==> CountsOk(m', limbo)
  {
    assert NewIds(m', limbo) == NewIds(m, limbo) && TriedIds(m') == TriedIds(m);
    if TablesOk(k, m, limbo) {
      forall c | c in m'.newCells
        ensures NewCellOk(k, m', limbo, c)
      {
        assert NewCellOk(k, m, limbo, c);
      }
      forall c | c in m'.triedCells
        ensures TriedCellOk(k, m', c)
      {
        assert TriedCellOk(k, m, c);
      }
      forall id | id in m'.info
        ensures EntryOk(k, m', limbo, id)
      {
        assert EntryOk(k, m, limbo, id);
      }
    }
  }

  /** `SwapRandom`. */
  function Swapped(m: Manager, i: nat, j: nat): Manager
    requires i < |m.random| && j < |m.random| && m.random[i] in m.info && m.random[j] in m.info
  {
    if i == j then m
    else
      var a, b := m.random[i], m.random[j];
      var info := m.info[a := m.info[a].(randomPos := j)];
      m.(info := info[b := info[b].(randomPos := i)], random := m.random[i := b][j := a])
  }

  lemma SwapAgrees(k: Key, m: Manager, limbo: set<nat>, i: nat, j: nat)
    requires Agree(k, m, limbo) && i < |m.random| && j < |m.random|
    ensures m.random[i] in m.info && m.random[j] in m.info
    ensures Agree(k, Swapped(m, i, j), limbo) && SamePlaces(m, Swapped(m, i, j))
    ensures multiset(Swapped(m, i, j).random) == multiset(m.random)
  {
    hide TablesOk, CountsOk, AddrOk, RandomOk;
    SwapRandomOk(m, i, j);
    SwapSamePlaces(m, i, j);
    SamePlacesAgree(k, m, Swapped(m, i, j), limbo);
    if i != j {
      SwapPermutes(m.random, i, j);
    }
  }

  lemma SwapRandomOk(m: Manager, i: nat, j: nat)
    requires RandomOk(m.info, m.random) && i < |m.random| && j < |m.random|
    ensures m.random[i] in m.info && m.random[j] in m.info
    ensures RandomOk(Swapped(m, i, j).info, Swapped(m, i, j).random)
  {
  }

  lemma SwapSamePlaces(m: Manager, i: nat, j: nat)
    requires i < |m.random| && j < |m.random| && m.random[i] in m.info && m.random[j] in m.info
    ensures SamePlaces(m, Swapped(m, i, j))
  {
  }

  /** Only the random order differs. */
  ghost predicate Reordered(m: Manager, m': Manager) {
    && m' == m.(info := m'.info, random := m'.random)
    && multiset(m'.random) == multiset(m.random)
    && m'.info.Keys == m.info.Keys
    && forall id | id in m.info :: SameEntry(m.info[id], m'.info[id])
  }

  lemma SwapReorders(m: Manager, i: nat, j: nat)
    requires i < |m.random| && j < |m.random| && m.random[i] in m.info && m.random[j] in m.info
    ensures Reordered(m, Swapped(m, i, j))
  {
    if i != j {
      SwapPermutes(m.random, i, j);
    }
  }

  lemma SwapPermutes(s: seq<nat>, i: nat, j: nat)
    requires i < |s| && j < |s| && i != j
    ensures multiset(s[i := s[j]][j := s[i]]) == multiset(s)
  {
  }

  /** `Delete` without its count: the last id of the random order takes the deleted one's place. */
  function Removed(m: Manager, id: nat): Manager
    requires id in m.info && RandomOk(m.info, m.random)
  {
    var last := |m.random| - 1;
    var e := m.info[id];
    var m' := Swapped(m, e.randomPos, last);
    m'.(info := m'.info - {id}, addr := m'.addr - {e.service.ip}, random := m'.random[..last])
  }

  /** An entry in limbo can be deleted. */
  lemma RemoveAgrees(k: Key, m: Manager, limbo: set<nat>, id: nat)
    requires Agree(k, m, limbo) && id in limbo
    ensures id in m.info && Agree(k, Removed(m, id), limbo - {id})
    ensures Removed(m, id).info.Keys == m.info.Keys - {id}
  {
    hide TablesOk, CountsOk, AddrOk, RandomOk;
    assert id in m.info by {
      LimboKnown(k, m, limbo, id);
    }
    var last := |m.random| - 1;
    RemoveRandom(m, id);
    RemovedEntries(m, id);
    SwapAgrees(k, m, limbo, m.info[id].randomPos, last);
    var m1 := Swapped(m, m.info[id].randomPos, last);
    RemoveRest(k, m1, Removed(m, id), limbo, id);
  }

  lemma LimboKnown(k: Key, m: Manager, limbo: set<nat>, id: nat)
    requires TablesOk(k, m, limbo) && id in limbo
    ensures id in m.info
  {
  }

  lemma RemoveRandom(m: Manager, id: nat)
    requires RandomOk(m.info, m.random) && id in m.info
    ensures |m.random| > 0 && 0 <= m.info[id].randomPos < |m.random| && m.random[|m.random| - 1] in m.info
    ensures m.random[m.info[id].randomPos] == id
    ensures RandomOk(Removed(m, id).info, Removed(m, id).random)
  {
    hide RandomOk, Swapped;
    RandomAt(m, id);
    var i, last := m.info[id].randomPos, |m.random| - 1;
    SwapRandomOk(m, i, last);
    SwappedLast(m, i, last);
    DropLast(Swapped(m, i, last).info, Swapped(m, i, last).random, id);
  }

  lemma RandomAt(m: Manager, id: nat)
    requires RandomOk(m.info, m.random) && id in m.info
    ensures |m.random| > 0 && 0 <= m.info[id].randomPos < |m.random| && m.random[|m.random| - 1] in m.info
    ensures m.random[m.info[id].randomPos] == id
  {
  }

  lemma SwappedLast(m: Manager, i: nat, last: nat)
    requires i <= last == |m.random| - 1 && m.random[i] in m.info && m.random[last] in m.info
    ensures var m' := Swapped(m, i, last); |m'.random| == |m.random| && m'.random[last] == m.random[i]
  {
  }

  lemma DropLast(info: map<nat, AddrInfo>, random: seq<nat>, id: nat)
    requires RandomOk(info, random) && random != [] && random[|random| - 1] == id
    ensures RandomOk(info - {id}, random[..|random| - 1])
  {
  }

  lemma RemoveAddr(m: Manager, m': Manager, id: nat)
    requires AddrOk(m.info, m.addr) && id in m.info
    requires m' == m.(info := m.info - {id}, addr := m.addr - {m.info[id].service.ip}, random := m'.random)
    ensures AddrOk(m'.info, m'.addr)
  {
  }

  lemma RemoveRest(k: Key, m: Manager, m': Manager, limbo: set<nat>, id: nat)
    requires AddrOk(m.info, m.addr) && TablesOk(k, m, limbo) && CountsOk(m, limbo) && id in limbo && id in m.info
    requires m' == m.(info := m.info - {id}, addr := m.addr - {m.info[id].service.ip}, random := m'.random)
    ensures AddrOk(m'.info, m'.addr) && TablesOk(k, m', limbo - {id}) && CountsOk(m', limbo - {id})
  {
    hide AddrOk, TablesOk, CountsOk;
    RemoveAddr(m, m', id);
    RemoveTables(k, m, m', limbo, id);
    RemoveCounts(m, m', limbo, id);
  }

  lemma RemoveCounts(m: Manager, m': Manager, limbo: set<nat>, id: nat)
    requires CountsOk(m, limbo) && id in limbo && id in m.info && !m.info[id].inTried
    requires m'.info == m.info - {id} && m'.nNew == m.nNew && m'.nTried == m.nTried
    ensures CountsOk(m', limbo - {id})
  {
    assert NewIds(m', limbo - {id}) == NewIds(m, limbo) && TriedIds(m') == TriedIds(m);
  }

  lemma RemoveTables(k: Key, m: Manager, m': Manager, limbo: set<nat>, id: nat)
    requires TablesOk(k, m, limbo) && id in limbo && id in m.info
    requires m'.newCells == m.newCells && m'.triedCells == m.triedCells && m'.info == m.info - {id}
    requires m'.nIdCount == m.nIdCount
    ensures TablesOk(k, m', limbo - {id}) && !m.info[id].inTried
  {
    hide Position, TriedCell;
    assert EntryOk(k, m, limbo, id);
    forall c | c in m'.newCells
      ensures NewCellOk(k, m', limbo - {id}, c)
    {
      assert NewCellOk(k, m, limbo, c);
    }
    forall c | c in m'.triedCells
      ensures TriedCellOk(k, m', c)
    {
      assert TriedCellOk(k, m, c);
    }
    forall g | g in m'.info
      ensures EntryOk(k, m', limbo - {id}, g)
    {
      assert EntryOk(k, m, limbo, g);
    }
  }

  /** A new cell is emptied; an entry without cells falls into limbo. */
  function Dropped(m: Manager, c: Cell): Manager
    requires c in m.newCells && m.newCells[c] in m.info
  {
    var id := m.newCells[c];
    var e := m.info[id];
    m.(newCells := m.newCells - {c}, info := m.info[id := e.(refCount := e.refCount - 1)])
  }

  lemma DropAgrees(k: Key, m: Manager, limbo: set<nat>, c: Cell)
    requires Agree(k, m, limbo) && c in m.newCells
    ensures var id := m.newCells[c];
            && id in m.info && id !in limbo && m.info[id].refCount > 0 && !m.info[id].inTried
            && if m.info[id].refCount == 1
               then Agree(k, Dropped(m, c).(nNew := m.nNew - 1), limbo + {id})
               else Agree(k, Dropped(m, c), limbo)
  {
    var id := m.newCells[c];
    assert NewCellOk(k, m, limbo, c) && EntryOk(k, m, limbo, id);
    var gone := m.info[id].refCount == 1;
    var m' := Dropped(m, c).(nNew := m.nNew - if gone then 1 else 0);
    var limbo' := if gone then limbo + {id} else limbo;
    hide AddrOk, RandomOk, Position, TriedCell;
    DropTables(k, m, m', limbo, limbo', c);
    DropCounts(m, m', limbo, limbo', id);
    assert RandomOk(m'.info, m'.random) && AddrOk(m'.info, m'.addr) by {
      DropIndexes(m, m', id);
    }
  }

  lemma DropIndexes(m: Manager, m': Manager, id: nat)
    requires RandomOk(m.info, m.random) && AddrOk(m.info, m.addr) && id in m.info
    requires m'.random == m.random && m'.addr == m.addr && id in m'.info && m'.info == m.info[id := m'.info[id]]
    requires m'.info[id].randomPos == m.info[id].randomPos && m'.info[id].service == m.info[id].service
    ensures RandomOk(m'.info, m'.random) && AddrOk(m'.info, m'.addr)
  {
  }

  lemma DropTables(k: Key, m: Manager, m': Manager, limbo: set<nat>, limbo': set<nat>, c: Cell)
    requires TablesOk(k, m, limbo) && c in m.newCells && NewCellOk(k, m, limbo, c)
    requires EntryOk(k, m, limbo, m.newCells[c])
    requires m' == Dropped(m, c).(nNew := m'.nNew)
    requires limbo' == if m.info[m.newCells[c]].refCount == 1 then limbo + {m.newCells[c]} else limbo
    ensures TablesOk(k, m', limbo')
  {
    hide NewCell, TriedCell;
    var id := m.newCells[c];
    assert CellsOf(m'.newCells, id) == CellsOf(m.newCells, id) - {c};
    assert c in CellsOf(m.newCells, id);
    forall d | d in m'.newCells
      ensures NewCellOk(k, m', limbo', d)
    {
      assert NewCellOk(k, m, limbo, d);
      assert m.newCells[d] == id ==> d in CellsOf(m'.newCells, id);
    }
    forall d | d in m'.triedCells
      ensures TriedCellOk(k, m', d)
    {
      assert TriedCellOk(k, m, d);
    }
    forall g | g in m'.info
      ensures EntryOk(k, m', limbo', g)
    {
      assert EntryOk(k, m, limbo, g);
      if g != id {
        assert CellsOf(m'.newCells, g) == CellsOf(m.newCells, g);
      }
    }
  }

  lemma DropCounts(m: Manager, m': Manager, limbo: set<nat>, limbo': set<nat>, id: nat)
    requires CountsOk(m, limbo) && id in m.info && id in m'.info && m'.info == m.info[id := m'.info[id]]
    requires !m.info[id].inTried && !m'.info[id].inTried && m'.nTried == m.nTried && id !in limbo
    requires limbo' == limbo || limbo' == limbo + {id}
    requires m'.nNew == if limbo' == limbo then m.nNew else m.nNew - 1
    ensures CountsOk(m', limbo')
  {
    assert TriedIds(m') == TriedIds(m);
    assert id in NewIds(m, limbo);
    assert NewIds(m', limbo') == if limbo' == limbo then NewIds(m, limbo) else NewIds(m, limbo) - {id};
  }

  /** An entry gets another new cell. */
  function Put(k: Key, m: Manager, id: nat, bucket: nat): Manager
    requires id in m.info
  {
    var e := m.info[id];
    m.(newCells := m.newCells[NewCell(k, e.service, bucket) := id], info := m.info[id := e.(refCount := e.refCount + 1)])
  }

  lemma PutAgrees(k: Key, m: Manager, limbo: set<nat>, id: nat, bucket: nat)
    requires Agree(k, m, limbo) && id in m.info && !m.info[id].inTried && bucket < NEW_BUCKET_COUNT
    requires m.info[id].refCount < NEW_BUCKETS_PER_ADDRESS
    requires NewCell(k, m.info[id].service, bucket) !in m.newCells
    ensures Agree(k, Put(k, m, id, bucket).(nNew := m.nNew + if id in limbo then 1 else 0), limbo - {id})
  {
    var m' := Put(k, m, id, bucket).(nNew := m.nNew + if id in limbo then 1 else 0);
    hide AddrOk, RandomOk, TablesOk, CountsOk;
    PutTables(k, m, m', limbo, id, bucket);
    PutCounts(m, m', limbo, id);
    DropIndexes(m, m', id);
  }

  lemma PutTables(k: Key, m: Manager, m': Manager, limbo: set<nat>, id: nat, bucket: nat)
    requires TablesOk(k, m, limbo) && id in m.info && !m.info[id].inTried && bucket < NEW_BUCKET_COUNT
    requires m.info[id].refCount < NEW_BUCKETS_PER_ADDRESS
    requires NewCell(k, m.info[id].service, bucket) !in m.newCells
    requires m' == Put(k, m, id, bucket).(nNew := m'.nNew)
    ensures TablesOk(k, m', limbo - {id})
  {
    hide Position, TriedCell;
    var c := NewCell(k, m.info[id].service, bucket);
    assert EntryOk(k, m, limbo, id);
    assert CellsOf(m'.newCells, id) == CellsOf(m.newCells, id) + {c};
    forall d | d in m'.newCells
      ensures NewCellOk(k, m', limbo - {id}, d)
    {
      assert d != c ==> NewCellOk(k, m, limbo, d);
    }
    forall d | d in m'.triedCells
      ensures TriedCellOk(k, m', d)
    {
      assert TriedCellOk(k, m, d);
    }
    forall g | g in m'.info
      ensures EntryOk(k, m', limbo - {id}, g)
    {
      assert EntryOk(k, m, limbo, g);
      if g != id {
        assert CellsOf(m'.newCells, g) == CellsOf(m.newCells, g);
      }
    }
  }

  lemma PutCounts(m: Manager, m': Manager, limbo: set<nat>, id: nat)
    requires CountsOk(m, limbo) && id in m.info && id in m'.info && m'.info == m.info[id := m'.info[id]]
    requires !m.info[id].inTried && !m'.info[id].inTried && m'.nTried == m.nTried
    requires m'.nNew == m.nNew + if id in limbo then 1 else 0
    ensures CountsOk(m', limbo - {id})
  {
    assert TriedIds(m') == TriedIds(m);
    if id in limbo {
      assert NewIds(m', limbo - {id}) == NewIds(m, limbo) + {id} && id !in NewIds(m, limbo);
    } else {
      assert NewIds(m', limbo - {id}) == NewIds(m, limbo);
    }
  }

  /** A tried entry leaves its cell. */
  function Evicted(m: Manager, c: Cell): Manager
    requires c in m.triedCells && m.triedCells[c] in m.info
  {
    var id := m.triedCells[c];
    m.(triedCells := m.triedCells - {c}, info := m.info[id := m.info[id].(inTried := false)], nTried := m.nTried - 1)
  }

  lemma EvictAgrees(k: Key, m: Manager, limbo: set<nat>, c: Cell)
    requires Agree(k, m, limbo) && c in m.triedCells
    ensures var id := m.triedCells[c];
            && id in m.info && m.info[id].inTried && id !in limbo && m.info[id].refCount == 0
            && Agree(k, Evicted(m, c), limbo + {id})
  {
    hide AddrOk, RandomOk, CountsOk, TablesOk;
    EvictTables(k, m, limbo, c);
    var id := m.triedCells[c];
    DropIndexes(m, Evicted(m, c), id);
    EvictCounts(m, Evicted(m, c), limbo, id);
  }

  lemma EvictTables(k: Key, m: Manager, limbo: set<nat>, c: Cell)
    requires TablesOk(k, m, limbo) && c in m.triedCells
    ensures var id := m.triedCells[c];
            && id in m.info && m.info[id].inTried && id !in limbo && m.info[id].refCount == 0
            && TablesOk(k, Evicted(m, c), limbo + {id})
  {
    hide Position, TriedCell, NewCell;
    var id := m.triedCells[c];
    assert TriedCellOk(k, m, c) && EntryOk(k, m, limbo, id);
    var m' := Evicted(m, c);
    assert m'.info.Keys == m.info.Keys;
    forall d | d in m'.newCells
      ensures NewCellOk(k, m', limbo + {id}, d)
    {
      assert NewCellOk(k, m, limbo, d);
    }
    forall d | d in m'.triedCells
      ensures TriedCellOk(k, m', d)
    {
      assert TriedCellOk(k, m, d);
    }
    forall g | g in m'.info
      ensures EntryOk(k, m', limbo + {id}, g)
    {
      assert EntryOk(k, m, limbo, g);
    }
  }

  lemma EvictCounts(m: Manager, m': Manager, limbo: set<nat>, id: nat)
    requires CountsOk(m, limbo) && id in m.info && id in m'.info && m'.info == m.info[id := m'.info[id]]
    requires m.info[id].inTried && !m'.info[id].inTried && m'.nTried == m.nTried - 1 && m'.nNew == m.nNew
    ensures CountsOk(m', limbo + {id})
  {
    assert id in TriedIds(m);
    assert TriedIds(m') == TriedIds(m) - {id};
    assert NewIds(m', limbo + {id}) == NewIds(m, limbo);
  }

  /** An entry in limbo goes to its free tried cell. */
  function Promoted(k: Key, m: Manager, id: nat): Manager
    requires id in m.info
  {
    var e := m.info[id];
    m.(triedCells := m.triedCells[TriedCell(k, e.service) := id], info := m.info[id := e.(inTried := true)],
       nTried := m.nTried + 1)
  }

  lemma PromoteAgrees(k: Key, m: Manager, limbo: set<nat>, id: nat)
    requires Agree(k, m, limbo) && id in limbo && id in m.info && !m.info[id].inTried
    requires TriedCell(k, m.info[id].service) !in m.triedCells
    ensures Agree(k, Promoted(k, m, id), limbo - {id})
  {
    hide AddrOk, RandomOk, CountsOk, Position, TriedCell;
    assert EntryOk(k, m, limbo, id);
    var m' := Promoted(k, m, id);
    DropIndexes(m, m', id);
    PromoteCounts(m, m', limbo, id);
    forall d | d in m'.newCells
      ensures NewCellOk(k, m', limbo - {id}, d)
    {
      assert NewCellOk(k, m, limbo, d);
    }
    forall d | d in m'.triedCells
      ensures TriedCellOk(k, m', d)
    {
      assert d != TriedCell(k, m.info[id].service) ==> TriedCellOk(k, m, d);
    }
    forall g | g in m'.info
      ensures EntryOk(k, m', limbo - {id}, g)
    {
      assert EntryOk(k, m, limbo, g);
    }
  }

  lemma PromoteCounts(m: Manager, m': Manager, limbo: set<nat>, id: nat)
    requires CountsOk(m, limbo) && id in m.info && id in m'.info && m'.info == m.info[id := m'.info[id]]
    requires !m.info[id].inTried && m'.info[id].inTried && m'.nTried == m.nTried + 1 && m'.nNew == m.nNew && id in limbo
    ensures CountsOk(m', limbo - {id})
  {
    assert id !in TriedIds(m);
    assert TriedIds(m') == TriedIds(m) + {id};
    assert NewIds(m', limbo - {id}) == NewIds(m, limbo);
  }

  /** A new entry leaves all its new cells. */
  function Withdrawn(m: Manager, id: nat): Manager
    requires id in m.info
  {
    m.(newCells := map c | c in m.newCells && m.newCells[c] != id :: m.newCells[c],
       info := m.info[id := m.info[id].(refCount := 0)],
       nNew := m.nNew - 1)
  }

  lemma WithdrawAgrees(k: Key, m: Manager, limbo: set<nat>, id: nat)
    requires Agree(k, m, limbo) && id in m.info && !m.info[id].inTried && id !in limbo
    ensures Agree(k, Withdrawn(m, id), limbo + {id})
  {
    hide AddrOk, RandomOk, CountsOk, Position, TriedCell;
    assert EntryOk(k, m, limbo, id);
    var m' := Withdrawn(m, id);
    DropIndexes(m, m', id);
    DropCounts(m, m', limbo, limbo + {id}, id);
    assert CellsOf(m'.newCells, id) == {};
    forall d | d in m'.newCells
      ensures NewCellOk(k, m', limbo + {id}, d)
    {
      assert NewCellOk(k, m, limbo, d);
    }
    forall d | d in m'.triedCells
      ensures TriedCellOk(k, m', d)
    {
      assert TriedCellOk(k, m, d);
    }
    forall g | g in m'.info
      ensures EntryOk(k, m', limbo + {id}, g)
    {
      assert EntryOk(k, m, limbo, g);
      if g != id {
        assert CellsOf(m'.newCells, g) == CellsOf(m.newCells, g);
      }
    }
  }

  /** `ClearNew`: empties a cell; an entry left without cells is deleted. */
  function Cleared(m: Manager, c: Cell): Manager
    requires RandomOk(m.info, m.random) && (c in m.newCells ==> m.newCells[c] in m.info)
  {
    if c !in m.newCells then m
    else if m.info[m.newCells[c]].refCount != 1 then Dropped(m, c)
    else DropRandom(m, c); Removed(Dropped(m, c), m.newCells[c]).(nNew := m.nNew - 1)
  }

  lemma DropRandom(m: Manager, c: Cell)
    requires RandomOk(m.info, m.random) && c in m.newCells && m.newCells[c] in m.info
    ensures RandomOk(Dropped(m, c).info, m.random)
  {
  }

  /** The same entry, perhaps at another place of the random order. */
  predicate SameEntry(e: AddrInfo, e': AddrInfo) {
    e' == e.(randomPos := e'.randomPos)
  }

  /** Clearing a cell keeps everything in agreement and touches no entry but the one in the cell. */
  lemma ClearAgrees(k: Key, m: Manager, limbo: set<nat>, c: Cell)
    requires Agree(k, m, limbo)
    ensures c in m.newCells ==> m.newCells[c] in m.info && m.info[m.newCells[c]].refCount > 0
    ensures Agree(k, Cleared(m, c), limbo) && Cleared(m, c).newCells == m.newCells - {c}
    ensures Cleared(m, c).triedCells == m.triedCells && Cleared(m, c).nIdCount == m.nIdCount
    ensures forall id | id in m.info && (c !in m.newCells || id != m.newCells[c]) ::
              id in Cleared(m, c).info && SameEntry(m.info[id], Cleared(m, c).info[id])
    ensures c in m.newCells ==>
              (m.newCells[c] in Cleared(m, c).info <==> m.info[m.newCells[c]].refCount > 1)
    ensures Cleared(m, c).info.Keys <= m.info.Keys
  {
    hide RandomOk, AddrOk, TablesOk, CountsOk, SameEntry;
    AgreeRandom(k, m, limbo);
    if c in m.newCells {
      ClearKnown(k, m, limbo, c);
      var id := m.newCells[c];
      if m.info[id].refCount == 1 {
        DropRandom(m, c);
        ClearLast(k, m, limbo, c);
      } else {
        ClearOne(k, m, limbo, c);
        SameEntries(m.info);
      }
    } else {
      assert m.newCells - {c} == m.newCells;
      SameEntries(m.info);
    }
  }

  lemma AgreeRandom(k: Key, m: Manager, limbo: set<nat>)
    requires Agree(k, m, limbo)
    ensures RandomOk(m.info, m.random)
  {
  }

  lemma SameEntries(info: map<nat, AddrInfo>)
    ensures forall id | id in info :: SameEntry(info[id], info[id])
  {
  }

  lemma ClearKnown(k: Key, m: Manager, limbo: set<nat>, c: Cell)
    requires Agree(k, m, limbo) && c in m.newCells
    ensures m.newCells[c] in m.info && m.info[m.newCells[c]].refCount > 0 && RandomOk(m.info, m.random)
  {
    assert NewCellOk(k, m, limbo, c) && EntryOk(k, m, limbo, m.newCells[c]);
  }

  lemma ClearOne(k: Key, m: Manager, limbo: set<nat>, c: Cell)
    requires Agree(k, m, limbo) && c in m.newCells && m.newCells[c] in m.info && m.info[m.newCells[c]].refCount > 1
    ensures Agree(k, Cleared(m, c), limbo) && Cleared(m, c).newCells == m.newCells - {c}
    ensures Cleared(m, c).triedCells == m.triedCells && Cleared(m, c).nIdCount == m.nIdCount
    ensures Cleared(m, c).info == m.info[m.newCells[c] := Dropped(m, c).info[m.newCells[c]]]
  {
    hide RandomOk, AddrOk, TablesOk, CountsOk;
    DropAgrees(k, m, limbo, c);
  }

  lemma ClearLast(k: Key, m: Manager, limbo: set<nat>, c: Cell)
    requires Agree(k, m, limbo) && c in m.newCells && m.newCells[c] in m.info && m.info[m.newCells[c]].refCount == 1
    requires RandomOk(Dropped(m, c).info, m.random)
    ensures Agree(k, Cleared(m, c), limbo) && Cleared(m, c).newCells == m.newCells - {c}
    ensures Cleared(m, c).triedCells == m.triedCells && Cleared(m, c).nIdCount == m.nIdCount
    ensures Cleared(m, c).info.Keys == m.info.Keys - {m.newCells[c]}
    ensures forall id | id in m.info && id != m.newCells[c] :: SameEntry(m.info[id], Cleared(m, c).info[id])
  {
    hide RandomOk, AddrOk, TablesOk, CountsOk;
    var id := m.newCells[c];
    DropAgrees(k, m, limbo, c);
    var d := Dropped(m, c).(nNew := m.nNew - 1);
    RemoveAgrees(k, d, limbo + {id}, id);
    assert limbo + {id} - {id} == limbo;
    RemoveRandom(d, id);
    RemovedEntries(d, id);
    assert Cleared(m, c) == Removed(d, id) by {
      RemoveRandom(Dropped(m, c), id);
    }
  }

  lemma RemovedEntries(m: Manager, id: nat)
    requires RandomOk(m.info, m.random) && id in m.info
    ensures Removed(m, id) == m.(info := Removed(m, id).info, addr := Removed(m, id).addr, random := Removed(m, id).random)
    ensures Removed(m, id).info.Keys == m.info.Keys - {id}
    ensures forall g | g in m.info && g != id :: SameEntry(m.info[g], Removed(m, id).info[g])
  {
  }

  lemma LimboStays(k: Key, m: Manager, limbo: set<nat>)
    requires Agree(k, m, limbo)
    ensures limbo <= m.info.Keys
    ensures forall id | id in limbo :: !m.info[id].inTried && m.info[id].refCount == 0
  {
    forall id | id in limbo
      ensures !m.info[id].inTried && m.info[id].refCount == 0
    {
      assert EntryOk(k, m, limbo, id);
    }
  }
}
