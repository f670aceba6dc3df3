/** The address manager (`CAddrMan`): its operations keep all its indexes in agreement. Random
    numbers and the clock are parameters. */
module AddrMan {
  import opened Primitives
  import opened Numerals
  import opened AddrTables

  class AddrManager {
    const key: Key
    var nIdCount: nat
    var mapInfo: map<nat, AddrInfo>
    var mapAddr: map<NetAddr, nat>
    var vRandom: seq<nat>
    var nTried: int
    var vvTried: map<Cell, nat>
    var nNew: int
    var vvNew: map<Cell, nat>

    function State(): Manager
      reads this
    {
      Manager(mapInfo, mapAddr, vRandom, vvNew, vvTried, nNew, nTried, nIdCount)
    }

    ghost predicate Valid()
      reads this
    {
      Agree(key, State(), {})
    }

    constructor (key: Key)
      ensures Valid() && this.key == key && State() == FRESH && TimesOk(State())
    {
      this.key := key;
      mapInfo, mapAddr, vRandom, vvNew, vvTried := map[], map[], [], map[], map[];
      nNew, nTried, nIdCount := 0, 0, 0;
      new;
      FreshAgrees(key);
    }

    /** The id of an address, if it is known. */
    method Find(ip: NetAddr) returns (id: Option<nat>)
      requires Valid()
      ensures id.Some? ==> id.value in mapInfo && mapInfo[id.value].service.ip == ip
      ensures id.None? ==> forall g | g in mapInfo :: mapInfo[g].service.ip != ip
      ensures id.None? <==> ip !in mapAddr
    {
      id := if ip in mapAddr then Some(mapAddr[ip]) else None;
    }

    method Create(e: AddrInfo) returns (id: nat)
      requires Valid() && e.service.ip !in mapAddr
      modifies this
      ensures State() == Created(old(State()), e) && id == old(nIdCount) && id !in old(mapInfo)
      ensures Agree(key, State(), {id})
    {
      hide RandomOk, AddrOk, TablesOk, CountsOk;
      CreateAgrees(key, State(), e);
      id := nIdCount;
      nIdCount := nIdCount + 1;
      mapInfo := mapInfo[id := e.(refCount := 0, inTried := false)];
      mapAddr := mapAddr[e.service.ip := id];
      mapInfo := mapInfo[id := mapInfo[id].(randomPos := |vRandom|)];
      vRandom := vRandom + [id];
    }

    method SwapRandom(i: nat, j: nat)
      requires i < |vRandom| && j < |vRandom| && vRandom[i] in mapInfo && vRandom[j] in mapInfo
      modifies this`mapInfo, this`vRandom
      ensures State() == Swapped(old(State()), i, j)
      ensures vRandom == old(vRandom)[i := old(vRandom)[j]][j := old(vRandom)[i]]
    {
      if i == j {
        return;
      }
      var a, b := vRandom[i], vRandom[j];
      mapInfo := mapInfo[a := mapInfo[a].(randomPos := j)];
      mapInfo := mapInfo[b := mapInfo[b].(randomPos := i)];
      vRandom := vRandom[i := b];
      vRandom := vRandom[j := a];
    }

    /** Deletes an entry that is in no table. */
    method Delete(id: nat)
      requires RandomOk(mapInfo, vRandom) && id in mapInfo && !mapInfo[id].inTried && mapInfo[id].refCount == 0
      modifies this
      ensures State() == Removed(old(State()), id).(nNew := old(nNew) - 1)
    {
      hide RandomOk;
      RemoveRandom(State(), id);
      var e := mapInfo[id];
      SwapRandom(e.randomPos, |vRandom| - 1);
      vRandom := vRandom[..|vRandom| - 1];
      mapAddr := mapAddr - {e.service.ip};
      mapInfo := mapInfo - {id};
      nNew := nNew - 1;
    }

    /** Empties a new cell. `ahead` tells how far `nNew` is ahead of the entries in the tables. */
    method ClearNew(c: Cell, ghost limbo: set<nat>, ghost ahead: int)
      requires Agree(key, State().(nNew := nNew - ahead), limbo)
      modifies this
      ensures RandomOk(old(mapInfo), old(vRandom)) && (c in old(vvNew) ==> old(vvNew)[c] in old(mapInfo))
      ensures State() == Cleared(old(State()), c)
    {
      hide Agree, RandomOk, Removed;
      ghost var m := State().(nNew := nNew - ahead);
      AgreeRandom(key, m, limbo);
      if c in vvNew {
        DropAgrees(key, m, limbo, c);
        DropRandom(m, c);
        var id := vvNew[c];
        assert mapInfo[id].refCount > 0;
        mapInfo := mapInfo[id := mapInfo[id].(refCount := mapInfo[id].refCount - 1)];
        vvNew := vvNew - {c};
        if mapInfo[id].refCount == 0 {
          Delete(id);
        }
      }
    }

    // ----- Moving entries -----

    /** Takes an entry out of all its new cells, bucket by bucket. */
    method Withdraw(id: nat)
      requires Valid() && id in mapInfo && !mapInfo[id].inTried
      modifies this`mapInfo, this`vvNew, this`nNew
      ensures State() == Withdrawn(old(State()), id)
    {
      hide RandomOk, AddrOk, CountsOk;
      ghost var m := State();
      assert EntryOk(key, m, {}, id);
      var e := mapInfo[id];
      for bucket := 0 to NEW_BUCKET_COUNT
        invariant id in mapInfo && mapInfo == old(mapInfo)[id := e.(refCount := mapInfo[id].refCount)]
        invariant vvNew == LeftFrom(m.newCells, id, bucket)
        invariant mapInfo[id].refCount == |CellsOf(vvNew, id)|
        invariant State() == m.(info := mapInfo, newCells := vvNew)
      {
        var c := NewCell(key, e.service, bucket);
        LeftStep(key, m, id, bucket);
        if c in vvNew && vvNew[c] == id {
          vvNew := vvNew - {c};
          mapInfo := mapInfo[id := mapInfo[id].(refCount := mapInfo[id].refCount - 1)];
        }
      }
      nNew := nNew - 1;
      LeftNone(key, m, id);
    }

    /** Sends a tried entry back to the new cell that its address and source select. */
    method SendBack(c: Cell, ghost limbo: set<nat>)
      requires Agree(key, State(), limbo) && c in vvTried
      modifies this
      ensures Agree(key, State(), limbo) && vvTried == old(vvTried) - {c}
      ensures Survive(old(State()), State(), limbo + {old(vvTried)[c]})
      ensures old(vvTried)[c] in mapInfo && mapInfo[old(vvTried)[c]].refCount == 1
      ensures old(vvTried)[c] in old(mapInfo) && SentTo(key, old(mapInfo)[old(vvTried)[c]], old(vvTried)[c], vvNew)
      ensures forall g | g in limbo :: g in mapInfo && !mapInfo[g].inTried
    {
      hide Agree, RandomOk, Cleared, Survive, NewBucket, NewCell;
      ghost var m := State();
      EvictReady(key, m, limbo, c);
      SendBackAgrees(key, m, limbo, c);
      var id := vvTried[c];
      mapInfo := mapInfo[id := mapInfo[id].(inTried := false)];
      vvTried := vvTried - {c};
      nTried := nTried - 1;
      var e := mapInfo[id];
      var bucket := NewBucket(key, e.service.ip, e.source);
      var cell := NewCell(key, e.service, bucket);
      assert State() == Evicted(m, c);
      ClearNew(cell, limbo + {id}, 0);
      mapInfo := mapInfo[id := mapInfo[id].(refCount := 1)];
      vvNew := vvNew[cell := id];
      nNew := nNew + 1;
      assert State() == Returned(key, m, c);
    }

    /** Moves an entry from its new cells to its tried cell; an entry it finds there goes back to a new
        cell. */
    method MakeTried(id: nat)
      requires Valid() && id in mapInfo && !mapInfo[id].inTried
      modifies this
      ensures Valid() && id in mapInfo && mapInfo[id].inTried
      ensures vvTried == old(vvTried)[TriedCell(key, old(mapInfo)[id].service) := id]
      ensures Survive(old(State()), State(), {id} + At(old(vvTried), TriedCell(key, old(mapInfo)[id].service)))
      ensures forall g | g in At(old(vvTried), TriedCell(key, old(mapInfo)[id].service)) ::
                g in old(mapInfo) && SentTo(key, old(mapInfo)[g], g, vvNew)
    {
      hide Agree, Survive, TriedCell, Withdrawn;
      ghost var m := State();
      WithdrawAgrees(key, m, {}, id);
      WithdrawnEntries(m, id);
      assert {} + {id} == {id};
      Withdraw(id);
      ghost var m1 := State();
      var c := TriedCell(key, mapInfo[id].service);
      MakeRoom(c, id);
      ghost var m2 := State();
      PromoteAgrees(key, m2, {id}, id);
      assert {id} - {id} == {};
      vvTried := vvTried[c := id];
      nTried := nTried + 1;
      mapInfo := mapInfo[id := mapInfo[id].(inTried := true)];
      assert State() == Promoted(key, m2, id);
      MovedSurvive(m, m1, m2, State(), {id} + At(m.triedCells, c), id);
    }

    /** Frees a tried cell for the entry `id`, which is in no table. */
    method MakeRoom(c: Cell, ghost id: nat)
      requires Agree(key, State(), {id}) && id in mapInfo
      modifies this
      ensures Agree(key, State(), {id}) && vvTried == old(vvTried) - {c}
      ensures Survive(old(State()), State(), {id} + At(old(vvTried), c))
      ensures forall g | g in At(old(vvTried), c) :: g in old(mapInfo) && SentTo(key, old(mapInfo)[g], g, vvNew)
      ensures id in mapInfo && !mapInfo[id].inTried && mapInfo[id].service == old(mapInfo)[id].service
    {
      hide Agree, Survive;
      ghost var m := State();
      LimboStays(key, m, {id});
      if c in vvTried {
        SendBack(c, {id});
      } else {
        Unchanged(m, {id});
        assert vvTried - {c} == vvTried;
        assert {id} + At(m.triedCells, c) == {id};
      }
      SurviveMoved(m, State(), {id} + At(m.triedCells, c), id);
    }

    // ----- The operations -----

    /** Changes the statistics of an entry. */
    method SetStats(id: nat, e: AddrInfo)
      requires Valid() && id in mapInfo && SamePlace(mapInfo[id], e)
      modifies this`mapInfo
      ensures Valid() && mapInfo == old(mapInfo)[id := e]
    {
      hide Agree;
      StatsAgree(key, State(), id, e);
      mapInfo := mapInfo[id := e];
    }

    /** A new bucket that holds `id`, searching from a random one. There always is one. */
    method FindNewBucket(id: nat, rnd: nat) returns (bucket: Option<nat>)
      requires Valid() && id in mapInfo && !mapInfo[id].inTried
      ensures bucket.Some? && bucket.value < NEW_BUCKET_COUNT
      ensures var c := NewCell(key, mapInfo[id].service, bucket.value);
              c in vvNew && vvNew[c] == id
    {
      hide Agree, NewCell;
      bucket := None;
      for n := 0 to NEW_BUCKET_COUNT
        invariant forall i | 0 <= i < n :: !InBucket(vvNew, key, mapInfo[id].service, Turn(i, rnd), id)
      {
        var b := Turn(n, rnd);
        var c := NewCell(key, mapInfo[id].service, b);
        if c in vvNew && vvNew[c] == id {
          return Some(b);
        }
      }
      SomeBucket(key, State(), id, rnd);
      assert false;
    }

    /** A connection to `s` succeeded. */
    method Good(s: Service, time: int, rnd: nat)
      requires Valid()
      modifies this
      ensures Valid()
      ensures (forall id :: !Known(old(State()), s, id)) ==> State() == old(State())
      ensures forall id | Known(old(State()), s, id) ::
                var m := Seen(old(State()), id, time);
                && id in mapInfo && mapInfo[id].inTried
                && if old(mapInfo)[id].inTried then State() == m
                   else Survive(m, State(), {id} + At(old(vvTried), TriedCell(key, s)))
      ensures time > 0 && old(TimesOk(State())) ==> TimesOk(State())
    {
      hide Agree, Survive, TriedCell, TimesOk;
      KnownOnce(key, State(), s);
      var found := Find(s.ip);
      if found.None? {
        return;
      }
      var id := found.value;
      if mapInfo[id].service != s {
        return;
      }
      assert Known(State(), s, id);
      SetStats(id, mapInfo[id].(lastSuccess := time, lastTry := time, attempts := 0));
      ghost var m1 := State();
      if time > 0 {
        SeenTimes(old(State()), id, time);
      }
      if mapInfo[id].inTried {
        return;
      }
      var bucket := FindNewBucket(id, rnd);
      if bucket.None? {
        return;
      }
      MakeTried(id);
      if time > 0 {
        TriedAt(key, m1, TriedCell(key, s));
        SurviveTimes(m1, State(), {id} + At(m1.triedCells, TriedCell(key, s)), id);
      }
    }

    /** A connection to `s` is being attempted. */
    method Attempt(s: Service, time: int)
      requires Valid()
      modifies this`mapInfo
      ensures Valid()
      ensures mapInfo.Keys == old(mapInfo).Keys
      ensures forall id | id in mapInfo ::
                mapInfo[id] == if old(mapInfo)[id].service == s
                               then old(mapInfo)[id].(lastTry := time, attempts := old(mapInfo)[id].attempts + 1)
                               else old(mapInfo)[id]
      ensures time >= 0 && old(TimesOk(State())) ==> TimesOk(State())
    {
      hide Agree;
      KnownOnce(key, State(), s);
      var found := Find(s.ip);
      if found.Some? && mapInfo[found.value].service == s {
        var id := found.value;
        assert Known(State(), s, id);
        SetStats(id, mapInfo[id].(lastTry := time, attempts := mapInfo[id].attempts + 1));
      }
    }

    /** `s` is connected: its time moves on, at most once in 20 minutes. */
    method Connected(s: Service, time: int)
      requires Valid()
      modifies this`mapInfo
      ensures Valid()
      ensures mapInfo.Keys == old(mapInfo).Keys
      ensures forall id | id in mapInfo ::
                mapInfo[id] == if old(mapInfo)[id].service == s && time - old(mapInfo)[id].time > 20 * 60
                               then old(mapInfo)[id].(time := time)
                               else old(mapInfo)[id]
      ensures old(TimesOk(State())) ==> TimesOk(State())
    {
      hide Agree;
      KnownOnce(key, State(), s);
      var found := Find(s.ip);
      if found.Some? && mapInfo[found.value].service == s {
        var id := found.value;
        assert Known(State(), s, id);
        if time - mapInfo[id].time > 20 * 60 {
          SetStats(id, mapInfo[id].(time := time));
        }
      }
    }

    /** Gives an entry its cell in a new bucket, clearing the cell first. */
    method Insert(id: nat, bucket: nat, ghost limbo: set<nat>, ghost ahead: int)
      requires id in mapInfo && !mapInfo[id].inTried && mapInfo[id].refCount < NEW_BUCKETS_PER_ADDRESS
      requires (limbo == {id} && ahead == 1) || (limbo == {} && ahead == 0)
      requires Agree(key, State().(nNew := nNew - ahead), limbo) && bucket < NEW_BUCKET_COUNT
      requires var c := NewCell(key, mapInfo[id].service, bucket);
               c in vvNew ==> vvNew[c] != id
      modifies this
      ensures Valid() && LosesOne(old(State()), State()) && id in mapInfo
      ensures vvNew == old(vvNew)[NewCell(key, old(mapInfo)[id].service, bucket) := id]
      ensures vvTried == old(vvTried) && nIdCount == old(nIdCount)
    {
      hide Agree, LosesOne, RandomOk, Cleared, NewCell;
      ghost var m := State();
      var c := NewCell(key, mapInfo[id].service, bucket);
      PlaceCleared(key, m, id, limbo, ahead, bucket);
      ClearNew(c, limbo, ahead);
      mapInfo := mapInfo[id := mapInfo[id].(refCount := mapInfo[id].refCount + 1)];
      vvNew := vvNew[c := id];
      assert vvNew == m.newCells[c := id];
    }

    /** Gives an entry a cell in the new bucket that its address and `source` select, unless another
        entry has it that should stay. A fresh entry that finds no cell is deleted again. */
    method Place(id: nat, source: NetAddr, now: int, ghost isFresh: bool)
      requires id in mapInfo && !mapInfo[id].inTried && mapInfo[id].refCount < NEW_BUCKETS_PER_ADDRESS
      requires if isFresh then Agree(key, State().(nNew := nNew - 1), {id}) else Valid()
      modifies this
      ensures Valid() && LosesOne(old(State()), State())
      ensures id !in mapInfo <==> isFresh && Blocked(key, old(State()), id, source, now)
      ensures isFresh && Blocked(key, old(State()), id, source, now) ==>
                RandomOk(old(mapInfo), old(vRandom)) && State() == Removed(old(State()), id).(nNew := old(nNew) - 1)
      ensures vvTried == old(vvTried) && nIdCount == old(nIdCount)
      ensures !isFresh && Blocked(key, old(State()), id, source, now) ==> State() == old(State())
      ensures !Blocked(key, old(State()), id, source, now) ==>
                vvNew == old(vvNew)[NewCell(key, old(mapInfo)[id].service,
                                            NewBucket(key, old(mapInfo)[id].service.ip, source)) := id]
    {
      hide Agree, LosesOne, RandomOk, Removed, NewCell, NewBucket, IsTerrible, WorthGiving;
      ghost var m := State();
      ghost var limbo, ahead := if isFresh then {id} else {}, if isFresh then 1 else 0;
      var e := mapInfo[id];
      var bucket := NewBucket(key, e.service.ip, source);
      var c := NewCell(key, e.service, bucket);
      PlaceReady(key, m, id, limbo, ahead, c);
      if c in vvNew && vvNew[c] == id {
        assert vvNew == vvNew[c := id];
        return;
      }
      var insert := c !in vvNew;
      if !insert {
        var existing := mapInfo[vvNew[c]];
        TerribleExactly(existing, now);
        insert := IsTerrible(existing, now) || (existing.refCount > 1 && e.refCount == 0);
      }
      if insert {
        Insert(id, bucket, limbo, ahead);
      } else if e.refCount == 0 {
        PlaceRefused(key, m, id, limbo, ahead);
        Delete(id);
      }
    }

    /** An address is heard of from `source`. A known one may get another cell, a new one is added;
        a known one with N cells gets its chance once in 2^N times. */
    method Add(a: Address, source: NetAddr, penalty: int, routable: bool, rnd: nat, now: int) returns (isNew: bool)
      requires Valid()
      modifies this
      ensures Valid()
      ensures isNew <==> routable && a.service.ip !in old(mapAddr)
      ensures !routable ==> State() == old(State())
      ensures Kept(old(State()), State())
      ensures routable ==>
                forall id | id in old(mapInfo) && old(mapInfo)[id].service.ip == a.service.ip ::
                  Grown(key, Updated(old(State()), id, a, penalty, now), State(), id, a, source, rnd, now)
      ensures isNew ==> old(nIdCount) !in old(mapInfo)
      ensures isNew ==> Added(key, old(State()), State(), a, source, penalty, now)
      ensures old(TimesOk(State())) ==> TimesOk(State())
    {
      hide Agree, Kept, Blocked, Added, TimesOk;
      KeptAll(State());
      KnownOnce(key, State(), a.service);
      if !routable {
        return false;
      }
      var found := Find(a.service.ip);
      ghost var m := State();
      if found.Some? {
        AddKnown(found.value, a, source, penalty, rnd, now);
        NoneAdded(m, State());
        return false;
      }
      AddNew(a, source, penalty, now);
      NewTimes(key, m, State(), a, source, penalty, now);
      isNew := true;
    }

    method AddKnown(id: nat, a: Address, source: NetAddr, penalty: int, rnd: nat, now: int)
      requires Valid() && id in mapInfo
      modifies this
      ensures Valid() && Kept(old(State()), State())
      ensures Grown(key, Updated(old(State()), id, a, penalty, now), State(), id, a, source, rnd, now)
      ensures mapInfo.Keys <= old(mapInfo).Keys
    {
      hide Agree, LosesOne, Kept, Blocked, NewBucket, NewCell, Refreshed, SameHistory;
      ghost var m := State();
      var go := Refresh(id, a, penalty, rnd, now);
      ghost var m1 := State();
      KeptAll(m1);
      RefreshedPlace(m.info[id], a, penalty, now);
      if go {
        Place(id, source, now, false);
        KeptAfter(m1, State());
        LostServices(m1, State());
      }
      KeptStats(m, m1, State(), id);
    }

    method AddNew(a: Address, source: NetAddr, penalty: int, now: int)
      requires Valid() && a.service.ip !in mapAddr
      modifies this
      ensures Valid() && Kept(old(State()), State())
      ensures old(nIdCount) !in old(mapInfo)
      ensures Added(key, old(State()), State(), a, source, penalty, now)
    {
      hide Agree, LosesOne, Kept, Blocked, NewBucket, NewCell, Added, RandomOk, Removed;
      ghost var m, e := State(), NewInfo(a, source, penalty);
      CreatedNext(key, m, e);
      var id := Create(NewInfo(a, source, penalty));
      nNew := nNew + 1;
      ghost var m1 := State();
      assert m1.(nNew := m1.nNew - 1) == Created(m, e);
      Place(id, source, now, true);
      AddedAfter(key, m, e, m1, State());
      BlockedSame(key, m1, Created(m, e), id, source, now);
      AddedExactly(key, m, m1, State(), a, source, penalty, now);
    }

    /** New information about a known address; tells whether the entry may get another cell. */
    method Refresh(id: nat, a: Address, penalty: int, rnd: nat, now: int) returns (go: bool)
      requires Valid() && id in mapInfo
      modifies this`mapInfo
      ensures Valid() && State() == Updated(old(State()), id, a, penalty, now)
      ensures go <==> MayGrow(mapInfo[id], a, rnd)
      ensures go ==> mapInfo[id].refCount < NEW_BUCKETS_PER_ADDRESS
    {
      hide Agree;
      CellCount(key, State(), id);
      var e := mapInfo[id];
      var online := now - a.time < 24 * 60 * 60;
      var interval := if online then 60 * 60 else 24 * 60 * 60;
      if a.time != 0 && (e.time == 0 || e.time < a.time - interval - penalty) {
        e := e.(time := if a.time - penalty > 0 then a.time - penalty else 0);
      }
      e := e.(services := e.services + a.services);
      SetStats(id, e);
      if a.time == 0 || (e.time != 0 && a.time <= e.time) {
        return false;
      }
      if e.inTried || e.refCount == NEW_BUCKETS_PER_ADDRESS {
        return false;
      }
      var factor := 1;
      for n := 0 to e.refCount
        invariant factor == Pow(2, n)
      {
        factor := factor * 2;
      }
      go := factor <= 1 || rnd % factor == 0;
    }

    /** Brings a random entry to position `n`. */
    method Shuffle(n: nat, pos: nat)
      requires Valid() && n <= pos < |vRandom|
      modifies this`mapInfo, this`vRandom
      ensures Valid() && Reordered(old(State()), State())
      ensures |vRandom| == |old(vRandom)| && vRandom[..n] == old(vRandom)[..n]
      ensures vRandom[n] == old(vRandom)[pos] && vRandom[pos] == old(vRandom)[n]
      ensures vRandom[n] in mapInfo && vRandom[n] !in vRandom[..n]
      ensures vRandom[..n + 1] == vRandom[..n] + [vRandom[n]]
    {
      hide Agree, SamePlaces, RandomOk, Swapped, Reordered;
      AgreeRandom(key, State(), {});
      SwapAgrees(key, State(), {}, n, pos);
      SwapReorders(State(), n, pos);
      SwapKeeps(State(), n, pos);
      SwapRandom(n, pos);
      NotYetChosen(key, State(), n);
    }

    /** A random choice of addresses that are not terrible: at most 23 percent of all and at most 2500, none
        twice, and all of them if there are fewer. `pick` gives the random numbers. */
    method GetAddr(pick: nat -> nat, now: int) returns (addrs: seq<Address>, ghost ids: seq<nat>)
      requires Valid()
      modifies this`mapInfo, this`vRandom
      ensures Valid() && Reordered(old(State()), State())
      ensures old(TimesOk(State())) ==> TimesOk(State())
      ensures |addrs| == |ids| <= 2_500 && 100 * |addrs| <= 23 * |vRandom| && Distinct(ids)
      ensures forall i | 0 <= i < |ids| ::
                && ids[i] in mapInfo && WorthGiving(mapInfo[ids[i]], now)
                && addrs[i] == Address(mapInfo[ids[i]].service, mapInfo[ids[i]].services, mapInfo[ids[i]].time)
      ensures |addrs| < 2_500 && 100 * (|addrs| + 1) <= 23 * |vRandom| ==>
                forall id | id in mapInfo && WorthGiving(mapInfo[id], now) :: id in ids
    {
      hide Agree, Reordered, IsTerrible, WorthGiving, TimesOk, Chosen, RandomOk;
      var nodes := GETADDR_MAX_PCT * |vRandom| / 100;
      if nodes > GETADDR_MAX {
        nodes := GETADDR_MAX;
      }
      addrs, ids := [], [];
      ghost var m := State();
      InOrder(m);
      NothingChosen(m, now);
      var n := 0;
      while n < |vRandom| && |addrs| < nodes
        invariant Valid() && Reordered(m, State()) && |vRandom| == |m.random| && nodes == AddrLimit(|vRandom|)
        invariant n <= |vRandom| && |addrs| <= nodes && Chosen(State(), n, addrs, ids, now)
      {
        ghost var m1 := State();
        Shuffle(n, pick(n) % (|vRandom| - n) + n);
        OrderTransitive(m, m1, State());
        ChosenKept(m1, State(), n, addrs, ids, now);
        ChosenNext(State(), n, addrs, ids, now);
        var e := mapInfo[vRandom[n]];
        TerribleExactly(e, now);
        if !IsTerrible(e, now) {
          addrs := addrs + [AddressOf(e)];
          ids := ids + [vRandom[n]];
        }
        n := n + 1;
      }
      ChosenAtEnd(key, State(), n, addrs, ids, now);
      LimitMeans(|vRandom|);
      OrderTimes(m, State());
    }
  }

  /** How many addresses are given away. */
  function AddrLimit(n: nat): nat {
    var share := GETADDR_MAX_PCT * n / 100;
    if share > GETADDR_MAX then GETADDR_MAX else share
  }

  /** The limit is the largest number within both bounds. */
  lemma LimitMeans(n: nat)
    ensures AddrLimit(n) <= 2_500 && 100 * AddrLimit(n) <= 23 * n
    ensures AddrLimit(n) == 2_500 || 100 * (AddrLimit(n) + 1) > 23 * n
  {
  }

  datatype Address = Address(service: Service, services: set<nat>, time: int)

  function AddressOf(e: AddrInfo): Address {
    Address(e.service, e.services, e.time)
  }

  /** The entry for a new address. */
  function NewInfo(a: Address, source: NetAddr, penalty: int): AddrInfo {
    AddrInfo(a.service, a.services, if a.time - penalty > 0 then a.time - penalty else 0, source, 0, 0, 0, 0, false, -1)
  }

  /** The entry after its address has been heard of again. */
  function Refreshed(e: AddrInfo, a: Address, penalty: int, now: int): AddrInfo {
    var interval := if now - a.time < 24 * 60 * 60 then 60 * 60 else 24 * 60 * 60;
    var stale := a.time != 0 && (e.time == 0 || e.time < a.time - interval - penalty);
    var time := if !stale then e.time else if a.time - penalty > 0 then a.time - penalty else 0;
    e.(time := time, services := e.services + a.services)
  }

  function Updated(m: Manager, id: nat, a: Address, penalty: int, now: int): Manager
    requires id in m.info
  {
    m.(info := m.info[id := Refreshed(m.info[id], a, penalty, now)])
  }

  lemma RefreshedPlace(e: AddrInfo, a: Address, penalty: int, now: int)
    ensures SamePlace(e, Refreshed(e, a, penalty, now)) && SameHistory(e, Refreshed(e, a, penalty, now))
  {
  }

  /** News of a known address never makes it look older: its time stays, unless it was unknown or more than
      an hour behind, and hearing the same again changes nothing. */
  lemma RefreshedOnce(e: AddrInfo, a: Address, penalty: int, now: int)
    requires penalty >= 0 && e.time >= 0 && a.time >= 0
    ensures var e' := Refreshed(e, a, penalty, now);
            && e'.time >= e.time && (e'.time != e.time ==> e.time == 0 || e'.time > e.time + 3_600)
            && (e'.time != e.time ==> a.time > 0 && e'.time == a.time - penalty)
            && (e.time == 0 && a.time > penalty ==> e'.time == a.time - penalty)
            && (now - a.time < 86_400 && a.time - penalty > e.time + 3_600 ==> e'.time == a.time - penalty)
            && (a.time - penalty > e.time + 86_400 ==> e'.time == a.time - penalty)
            && e.services <= e'.services && a.services <= e'.services
            && Refreshed(e', a, penalty, now) == e'
  {
  }

  lemma CellCount(k: Key, m: Manager, id: nat)
    requires Agree(k, m, {}) && id in m.info
    ensures if m.info[id].inTried then m.info[id].refCount == 0
            else 1 <= m.info[id].refCount <= NEW_BUCKETS_PER_ADDRESS
  {
    assert EntryOk(k, m, {}, id);
  }

  /** There is news, the entry is new with N cells, fewer than 8, and a random number is a multiple of 2^N. */
  predicate MayGrow(e: AddrInfo, a: Address, rnd: nat) {
    && a.time != 0
    && (e.time == 0 || a.time > e.time)
    && !e.inTried
    && 0 <= e.refCount != NEW_BUCKETS_PER_ADDRESS
    && rnd % Pow(2, e.refCount) == 0
  }

  /** An entry with N cells may grow for exactly one of 2^N random numbers, if it is new, there is news and N is
      less than 8; otherwise for none. */
  lemma ChanceToGrow(e: AddrInfo, a: Address, rnd: nat)
    requires 0 <= e.refCount <= 8 && rnd < Pow(2, e.refCount)
    ensures MayGrow(e, a, rnd) <==>
              rnd == 0 && !e.inTried && e.refCount < 8 && a.time != 0 && (e.time != 0 ==> e.time < a.time)
  {
    hide Pow;
    SmallRest(rnd, Pow(2, e.refCount));
  }

  lemma SmallRest(n: nat, d: nat)
    requires n < d
    ensures n % d == n
  {
  }

  /** A known entry gets the cell for `source`, unless it may not grow or the cell is blocked. */
  ghost predicate Grown(
    k: Key, m: Manager, m': Manager, id: nat, a: Address, source: NetAddr, rnd: nat, now: int)
    requires id in m.info
  {
    var e := m.info[id];
    && id in m'.info
    && if !MayGrow(e, a, rnd) || Blocked(k, m, id, source, now) then m' == m
       else m'.newCells == m.newCells[NewCell(k, e.service, NewBucket(k, e.service.ip, source)) := id]
  }

  /** What has happened to an entry: its address, where it came from, its statistics and its table. */
  predicate SameHistory(e: AddrInfo, e': AddrInfo) {
    && e'.service == e.service && e'.source == e.source
    && e'.lastTry == e.lastTry && e'.lastSuccess == e.lastSuccess && e'.attempts == e.attempts
    && e'.inTried == e.inTried
  }

  /** At most one entry is lost, never a tried one, and the others keep their history. */
  ghost predicate Kept(m: Manager, m': Manager) {
    && |m.info.Keys - m'.info.Keys| <= 1
    && (forall id | id in m.info && m.info[id].inTried :: id in m'.info)
    && (forall id | id in m.info && id in m'.info :: SameHistory(m.info[id], m'.info[id]))
  }

  /** A new address: it stays, with its one cell, exactly when that cell is not blocked; otherwise
      everything is as before but for the next id. */
  ghost predicate Added(k: Key, m: Manager, m': Manager, a: Address, source: NetAddr, penalty: int, now: int) {
    && a.service.ip !in m.addr && m.nIdCount in Created(m, NewInfo(a, source, penalty)).info
    && m'.info.Keys <= m.info.Keys + {m.nIdCount}
    && if Blocked(k, Created(m, NewInfo(a, source, penalty)), m.nIdCount, source, now) then
         m' == m.(nIdCount := m.nIdCount + 1)
       else
         var cell := NewCell(k, a.service, NewBucket(k, a.service.ip, source));
         && m'.newCells == m.newCells[cell := m.nIdCount] && m'.triedCells == m.triedCells
         && m'.nIdCount == m.nIdCount + 1
         && a.service.ip in m'.addr && m'.addr[a.service.ip] == m.nIdCount && m.nIdCount in m'.info
         && m'.info[m.nIdCount]
            == NewInfo(a, source, penalty).(refCount := 1, randomPos := m'.info[m.nIdCount].randomPos)
  }

  // ----- The times -----

  lemma NoneAdded(m: Manager, m': Manager)
    requires Kept(m, m') && m'.info.Keys <= m.info.Keys
    ensures TimesOk(m) ==> TimesOk(m')
  {
  }

  lemma NewTimes(k: Key, m: Manager, m': Manager, a: Address, source: NetAddr, penalty: int, now: int)
    requires Kept(m, m') && m.nIdCount !in m.info
    requires Added(k, m, m', a, source, penalty, now)
    ensures TimesOk(m) ==> TimesOk(m')
  {
    hide Blocked, NewCell, NewBucket;
  }

  lemma SeenTimes(m: Manager, id: nat, time: int)
    requires id in m.info && time > 0
    ensures TimesOk(m) ==> TimesOk(Seen(m, id, time))
  {
  }

  lemma TriedAt(k: Key, m: Manager, c: Cell)
    requires Agree(k, m, {})
    ensures forall g | g in At(m.triedCells, c) :: g in m.info && m.info[g].inTried
  {
    hide TriedCell;
    if c in m.triedCells {
      assert TriedCellOk(k, m, c);
    }
  }

  lemma SurviveTimes(m: Manager, m': Manager, moved: set<nat>, id: nat)
    requires Survive(m, m', moved) && id in m.info && id in m'.info && m.info[id].lastSuccess != 0
    requires forall g | g in moved && g != id :: g in m.info && m.info[g].inTried
    ensures TimesOk(m) ==> TimesOk(m')
  {
  }

  lemma KeptAll(m: Manager)
    ensures Kept(m, m)
  {
    assert m.info.Keys - m.info.Keys == {};
  }

  lemma KeptAfter(m: Manager, m': Manager)
    requires LosesOne(m, m')
    ensures Kept(m, m')
  {
  }

  lemma KeptStats(m: Manager, m1: Manager, m2: Manager, id: nat)
    requires id in m.info && id in m1.info && m1.info == m.info[id := m1.info[id]]
    requires SameHistory(m.info[id], m1.info[id]) && Kept(m1, m2)
    ensures Kept(m, m2)
  {
    hide SameHistory;
    assert m1.info.Keys == m.info.Keys;
    forall g | g in m.info
      ensures m.info[g].inTried ==> g in m2.info
      ensures g in m2.info ==> SameHistory(m.info[g], m2.info[g])
    {
      if g == id {
        HistoryThrough(m.info[g], m1.info[g], if g in m2.info then m2.info[g] else m1.info[g]);
      }
    }
  }

  lemma HistoryThrough(a: AddrInfo, b: AddrInfo, c: AddrInfo)
    requires SameHistory(a, b) && (b == c || SameHistory(b, c))
    ensures SameHistory(a, c) && b.inTried == a.inTried
  {
  }

  lemma CreatedNext(k: Key, m: Manager, e: AddrInfo)
    requires Agree(k, m, {}) && e.service.ip !in m.addr
    ensures var m' := Created(m, e);
            && m.nIdCount !in m.info && m.nIdCount in m'.info && !m'.info[m.nIdCount].inTried
            && m'.info[m.nIdCount].refCount == 0
  {
    IdIsFree(k, m);
  }

  lemma AddedAfter(k: Key, m: Manager, e: AddrInfo, m1: Manager, m2: Manager)
    requires Agree(k, m, {}) && e.service.ip !in m.addr
    requires m1 == Created(m, e).(nNew := m.nNew + 1) && LosesOne(m1, m2) && Agree(k, m2, {})
    ensures Kept(m, m2)
    ensures e.service.ip in m2.addr <==> m.nIdCount in m2.info
  {
    hide RandomOk, TablesOk, CountsOk, AddrOk, LosesOne, Kept;
    IdIsFree(k, m);
    KeptAfter(m1, m2);
    CreatedKept(m, e, m1, m2);
    AddrMeans(m.info, m.addr);
    AddrMeans(m2.info, m2.addr);
    LostServices(m1, m2);
  }

  lemma AddedExactly(
    k: Key, m: Manager, m1: Manager, m2: Manager, a: Address, source: NetAddr, penalty: int, now: int)
    requires Agree(k, m, {}) && a.service.ip !in m.addr && m.nIdCount !in m.info
    requires m1 == Created(m, NewInfo(a, source, penalty)).(nNew := m.nNew + 1) && LosesOne(m1, m2) && Agree(k, m2, {})
    requires m2.triedCells == m.triedCells && m2.nIdCount == m1.nIdCount
    requires var blocked := Blocked(k, Created(m, NewInfo(a, source, penalty)), m.nIdCount, source, now);
             && (m.nIdCount in m2.info <==> !blocked)
             && (blocked ==> RandomOk(m1.info, m1.random) && m2 == Removed(m1, m.nIdCount).(nNew := m.nNew))
             && (!blocked ==>
                   m2.newCells == m.newCells[NewCell(k, a.service, NewBucket(k, a.service.ip, source)) := m.nIdCount])
    ensures Added(k, m, m2, a, source, penalty, now)
  {
    hide Blocked, NewCell, NewBucket, Agree, Removed, RandomOk, Added, LosesOne, NewInfo;
    if m.nIdCount in m2.info {
      AddedStays(k, m, m1, m2, a, source, penalty, now);
    } else {
      AddedGone(k, m, m1, m2, a, source, penalty, now);
    }
  }

  lemma AddedStays(
    k: Key, m: Manager, m1: Manager, m2: Manager, a: Address, source: NetAddr, penalty: int, now: int)
    requires Agree(k, m, {}) && a.service.ip !in m.addr && m.nIdCount !in m.info
    requires m1 == Created(m, NewInfo(a, source, penalty)).(nNew := m.nNew + 1) && LosesOne(m1, m2) && Agree(k, m2, {})
    requires m2.triedCells == m.triedCells && m2.nIdCount == m1.nIdCount && m.nIdCount in m2.info
    requires m.nIdCount in Created(m, NewInfo(a, source, penalty)).info
    requires !Blocked(k, Created(m, NewInfo(a, source, penalty)), m.nIdCount, source, now)
    requires m2.newCells == m.newCells[NewCell(k, a.service, NewBucket(k, a.service.ip, source)) := m.nIdCount]
    ensures Added(k, m, m2, a, source, penalty, now)
  {
    hide Blocked, NewCell, NewBucket, Agree, RandomOk;
    OneCell(k, m, m2, NewCell(k, a.service, NewBucket(k, a.service.ip, source)));
    FoundAt(k, m2, m.nIdCount);
  }

  lemma AddedGone(
    k: Key, m: Manager, m1: Manager, m2: Manager, a: Address, source: NetAddr, penalty: int, now: int)
    requires a.service.ip !in m.addr && m.nIdCount !in m.info
    requires m1 == Created(m, NewInfo(a, source, penalty)).(nNew := m.nNew + 1)
    requires m.nIdCount in Created(m, NewInfo(a, source, penalty)).info
    requires Blocked(k, Created(m, NewInfo(a, source, penalty)), m.nIdCount, source, now)
    requires m.nIdCount in m1.info && RandomOk(m1.info, m1.random) && m2 == Removed(m1, m.nIdCount).(nNew := m.nNew)
    ensures Added(k, m, m2, a, source, penalty, now)
  {
    hide Blocked, NewCell, NewBucket, Removed, RandomOk;
    RemovedAgain(m, NewInfo(a, source, penalty), m1);
  }

  /** Deleting what was just created leaves no trace but the next id. */
  lemma RemovedAgain(m: Manager, e: AddrInfo, m1: Manager)
    requires e.service.ip !in m.addr && m.nIdCount !in m.info
    requires m1 == Created(m, e).(nNew := m.nNew + 1) && RandomOk(m1.info, m1.random)
    ensures Removed(m1, m.nIdCount).(nNew := m.nNew) == m.(nIdCount := m.nIdCount + 1)
  {
    var r := Removed(m1, m.nIdCount);
    assert r.info == m.info && r.addr == m.addr && r.random == m.random;
  }

  /** An id that no cell had and one cell has now. */
  lemma OneCell(k: Key, m: Manager, m2: Manager, cell: Cell)
    requires Agree(k, m, {}) && m.nIdCount !in m.info && Agree(k, m2, {}) && m.nIdCount in m2.info
    requires m2.newCells == m.newCells[cell := m.nIdCount]
    ensures m2.info[m.nIdCount].refCount == 1
  {
    hide AddrOk, RandomOk, CountsOk;
    assert EntryOk(k, m2, {}, m.nIdCount);
    forall c | c in m.newCells
      ensures m.newCells[c] != m.nIdCount
    {
      assert NewCellOk(k, m, {}, c);
    }
    assert CellsOf(m2.newCells, m.nIdCount) == {cell};
  }

  lemma FoundAt(k: Key, m: Manager, id: nat)
    requires Agree(k, m, {}) && id in m.info
    ensures m.info[id].service.ip in m.addr && m.addr[m.info[id].service.ip] == id
  {
    hide TablesOk, RandomOk, CountsOk;
  }

  lemma CreatedKept(m: Manager, e: AddrInfo, m1: Manager, m2: Manager)
    requires e.service.ip !in m.addr && m.nIdCount !in m.info
    requires m1 == Created(m, e).(nNew := m.nNew + 1) && Kept(m1, m2)
    ensures Kept(m, m2)
  {
    assert m1.info.Keys == m.info.Keys + {m.nIdCount};
    SubsetSize(m.info.Keys - m2.info.Keys, m1.info.Keys - m2.info.Keys);
    assert forall id | id in m.info :: m1.info[id] == m.info[id];
  }

  lemma AddrMeans(info: map<nat, AddrInfo>, addr: map<NetAddr, nat>)
    requires AddrOk(info, addr)
    ensures forall a :: a in addr <==> exists id :: id in info && info[id].service.ip == a
  {
    forall a | a in addr
      ensures exists id :: id in info && info[id].service.ip == a
    {
      assert addr[a] in info;
    }
  }

  lemma LostServices(m: Manager, m': Manager)
    requires LosesOne(m, m')
    ensures forall id | id in m'.info :: id in m.info && m'.info[id].service == m.info[id].service
  {
  }

  lemma BlockedSame(k: Key, m: Manager, m': Manager, id: nat, source: NetAddr, now: int)
    requires m.info == m'.info && m.newCells == m'.newCells && id in m.info
    ensures Blocked(k, m, id, source, now) <==> Blocked(k, m', id, source, now)
  {
  }

  lemma InOrder(m: Manager)
    ensures Reordered(m, m)
  {
  }

  lemma OrderTimes(m: Manager, m': Manager)
    requires Reordered(m, m')
    ensures TimesOk(m) ==> TimesOk(m')
  {
  }

  lemma OrderTransitive(a: Manager, b: Manager, c: Manager)
    requires Reordered(a, b) && Reordered(b, c)
    ensures Reordered(a, c)
  {
  }

  /** What has been chosen among the first `n` of the random order: every entry that is not terrible,
      with its address, and none twice. */
  ghost predicate Chosen(m: Manager, n: nat, addrs: seq<Address>, ids: seq<nat>, now: int) {
    && n <= |m.random| && |addrs| == |ids| && Distinct(ids)
    && (forall i | 0 <= i < |ids| ::
          && ids[i] in m.random[..n] && ids[i] in m.info
          && addrs[i] == AddressOf(m.info[ids[i]]) && WorthGiving(m.info[ids[i]], now))
    && (forall g | g in m.random[..n] :: g in m.info && (WorthGiving(m.info[g], now) ==> g in ids))
  }

  lemma NothingChosen(m: Manager, now: int)
    ensures Chosen(m, 0, [], [], now)
  {
  }

  /** The order has no part in what is reported. */
  lemma ChosenKept(m: Manager, m': Manager, n: nat, addrs: seq<Address>, ids: seq<nat>, now: int)
    requires Reordered(m, m') && n <= |m'.random| && n <= |m.random| && m'.random[..n] == m.random[..n]
    requires Chosen(m, n, addrs, ids, now)
    ensures Chosen(m', n, addrs, ids, now)
  {
    hide SameEntry;
    forall id | id in m.info
      ensures AddressOf(m'.info[id]) == AddressOf(m.info[id])
      ensures WorthGiving(m'.info[id], now) <==> WorthGiving(m.info[id], now)
    {
      SameReport(m.info[id], m'.info[id], now);
    }
    hide WorthGiving, AddressOf;
  }

  lemma SameReport(e: AddrInfo, e': AddrInfo, now: int)
    requires SameEntry(e, e')
    ensures AddressOf(e') == AddressOf(e) && (WorthGiving(e', now) <==> WorthGiving(e, now))
  {
  }

  lemma ChosenNext(m: Manager, n: nat, addrs: seq<Address>, ids: seq<nat>, now: int)
    requires Chosen(m, n, addrs, ids, now) && n < |m.random|
    requires m.random[n] in m.info && m.random[n] !in m.random[..n] && m.random[..n + 1] == m.random[..n] + [m.random[n]]
    ensures var e := m.info[m.random[n]];
            if WorthGiving(e, now) then Chosen(m, n + 1, addrs + [AddressOf(e)], ids + [m.random[n]], now)
            else Chosen(m, n + 1, addrs, ids, now)
  {
    hide WorthGiving, AddressOf;
  }

  /** The random order has every entry. */
  lemma ChosenAtEnd(k: Key, m: Manager, n: nat, addrs: seq<Address>, ids: seq<nat>, now: int)
    requires Agree(k, m, {}) && Chosen(m, n, addrs, ids, now)
    ensures Distinct(ids) && |addrs| == |ids|
    ensures forall i | 0 <= i < |ids| ::
              ids[i] in m.info && addrs[i] == AddressOf(m.info[ids[i]]) && WorthGiving(m.info[ids[i]], now)
    ensures n == |m.random| ==> forall id | id in m.info && WorthGiving(m.info[id], now) :: id in ids
  {
    hide WorthGiving, AddressOf, TablesOk, AddrOk, CountsOk;
    if n == |m.random| {
      forall id | id in m.info
        ensures id in m.random[..n]
      {
        assert m.random[..n][m.info[id].randomPos] == id;
      }
    }
  }

  /** Swapping behind position `n` keeps what is before it. */
  lemma SwapKeeps(m: Manager, n: nat, pos: nat)
    requires RandomOk(m.info, m.random) && n <= pos < |m.random|
    ensures m.random[n] in m.info && m.random[pos] in m.info
    ensures Swapped(m, n, pos).random[..n] == m.random[..n] && |Swapped(m, n, pos).random| == |m.random|
  {
  }

  lemma NotYetChosen(k: Key, m: Manager, n: nat)
    requires Agree(k, m, {}) && n < |m.random|
    ensures m.random[n] in m.info && m.random[n] !in m.random[..n]
    ensures m.random[..n + 1] == m.random[..n] + [m.random[n]]
  {
  }

  /** At most one entry is lost, never a tried one; no entry changes its table or its statistics. */
  ghost predicate LosesOne(m: Manager, m': Manager) {
    && m'.info.Keys <= m.info.Keys
    && |m.info.Keys - m'.info.Keys| <= 1
    && (forall id | id in m.info && id !in m'.info :: !m.info[id].inTried)
    && (forall id | id in m'.info :: SameStats(m.info[id], m'.info[id]) && m'.info[id].inTried == m.info[id].inTried)
  }

  /** The cell `id` would go to is held by another entry that is not terrible and, if `id` has no
      cell yet, has no other cell. */
  predicate Blocked(k: Key, m: Manager, id: nat, source: NetAddr, now: int)
    requires id in m.info
  {
    var e := m.info[id];
    var c := NewCell(k, e.service, NewBucket(k, e.service.ip, source));
    && c in m.newCells
    && m.newCells[c] != id
    && m.newCells[c] in m.info
    && WorthGiving(m.info[m.newCells[c]], now)
    && !(m.info[m.newCells[c]].refCount > 1 && e.refCount == 0)
  }

  /** A cell is blocked exactly if another entry holds it that is worth giving away, unless the newcomer has no
      cell yet and that entry has another one. */
  lemma BlockedExactly(k: Key, m: Manager, limbo: set<nat>, ahead: int, id: nat, source: NetAddr, now: int)
    requires Agree(k, m.(nNew := m.nNew - ahead), limbo) && id in m.info
    ensures var c := NewCell(k, m.info[id].service, NewBucket(k, m.info[id].service.ip, source));
            Blocked(k, m, id, source, now) <==>
              && c in m.newCells && m.newCells[c] != id
              && m.newCells[c] in m.info && WorthGiving(m.info[m.newCells[c]], now)
              && (CellsOf(m.newCells, id) == {} ==> CellsOf(m.newCells, m.newCells[c]) == {c})
  {
    hide NewBucket, NewCell, WorthGiving, RandomOk, AddrOk, CountsOk;
    var m0 := m.(nNew := m.nNew - ahead);
    var c := NewCell(k, m.info[id].service, NewBucket(k, m.info[id].service.ip, source));
    assert EntryOk(k, m0, limbo, id);
    if c in m.newCells {
      assert NewCellOk(k, m0, limbo, c);
      var g := m.newCells[c];
      assert EntryOk(k, m0, limbo, g);
      OnlyCell(CellsOf(m.newCells, g), c);
    }
  }

  lemma OnlyCell(cells: set<Cell>, c: Cell)
    requires c in cells
    ensures |cells| > 1 <==> cells != {c}
  {
    assert |cells - {c}| == |cells| - 1;
    assert cells == {c} <==> cells - {c} == {};
  }

  /** What holds before an entry is placed. */
  lemma PlaceReady(k: Key, m: Manager, id: nat, limbo: set<nat>, ahead: int, c: Cell)
    requires id in m.info && !m.info[id].inTried
    requires (limbo == {id} && ahead == 1) || (limbo == {} && ahead == 0)
    requires Agree(k, m.(nNew := m.nNew - ahead), limbo)
    ensures RandomOk(m.info, m.random) && (c in m.newCells ==> m.newCells[c] in m.info)
    ensures m.info[id].refCount == 0 <==> limbo == {id}
    ensures limbo == {id} && c in m.newCells ==> m.newCells[c] != id
    ensures LosesOne(m, m)
  {
    var m0 := m.(nNew := m.nNew - ahead);
    assert EntryOk(k, m0, limbo, id);
    if c in m.newCells {
      assert NewCellOk(k, m0, limbo, c);
    }
    assert m.info.Keys - m.info.Keys == {};
  }

  lemma ClearShift(m: Manager, c: Cell, ahead: int)
    requires RandomOk(m.info, m.random) && (c in m.newCells ==> m.newCells[c] in m.info)
    ensures Cleared(m.(nNew := m.nNew - ahead), c) == Cleared(m, c).(nNew := Cleared(m, c).nNew - ahead)
  {
    hide RandomOk, Removed;
    if c in m.newCells {
      DropRandom(m, c);
      RemoveShift(Dropped(m, c), m.newCells[c], m.nNew - ahead);
    }
  }

  lemma RemoveShift(m: Manager, id: nat, n: int)
    requires RandomOk(m.info, m.random) && id in m.info
    ensures Removed(m.(nNew := n), id) == Removed(m, id).(nNew := n)
  {
    hide RandomOk;
    RemoveRandom(m, id);
  }

  lemma PlaceCleared(k: Key, m: Manager, id: nat, limbo: set<nat>, ahead: int, bucket: nat)
    requires id in m.info && !m.info[id].inTried && bucket < NEW_BUCKET_COUNT
    requires m.info[id].refCount < NEW_BUCKETS_PER_ADDRESS
    requires (limbo == {id} && ahead == 1) || (limbo == {} && ahead == 0)
    requires Agree(k, m.(nNew := m.nNew - ahead), limbo)
    requires var c := NewCell(k, m.info[id].service, bucket);
             c in m.newCells ==> m.newCells[c] != id
    ensures var c := NewCell(k, m.info[id].service, bucket);
            && RandomOk(m.info, m.random) && (c in m.newCells ==> m.newCells[c] in m.info)
            && var m1 := Cleared(m, c);
            && id in m1.info && m1.newCells == m.newCells - {c}
            && m1.triedCells == m.triedCells && m1.nIdCount == m.nIdCount
            && var m2 := m1.(info := m1.info[id := m1.info[id].(refCount := m1.info[id].refCount + 1)],
                             newCells := m1.newCells[c := id]);
            && Agree(k, m2, {}) && LosesOne(m, m2)
  {
    hide Agree, RandomOk, Cleared, LosesOne, NewCell, SameEntry, SameStats;
    var c := NewCell(k, m.info[id].service, bucket);
    var m0 := m.(nNew := m.nNew - ahead);
    ClearAgrees(k, m0, limbo, c);
    AgreeRandom(k, m0, limbo);
    ClearShift(m, c, ahead);
    var m1 := Cleared(m, c);
    ClearedSame(m0.info[id], Cleared(m0, c).info[id]);
    var m2 := m1.(info := m1.info[id := m1.info[id].(refCount := m1.info[id].refCount + 1)],
                  newCells := m1.newCells[c := id]);
    assert Agree(k, m2, {}) by {
      PutAgrees(k, Cleared(m0, c), limbo, id, bucket);
      assert limbo - {id} == {};
    }
    assert LosesOne(m, m2) by {
      ClearedHolder(k, m0, limbo, c);
      PlacedLoses(m, m1, id, c);
    }
  }

  lemma ClearedSame(e: AddrInfo, e': AddrInfo)
    requires SameEntry(e, e')
    ensures e'.service == e.service && e'.refCount == e.refCount && e'.inTried == e.inTried
  {
  }

  lemma PlacedLoses(m: Manager, m1: Manager, id: nat, c: Cell)
    requires id in m.info && id in m1.info && m1.info.Keys <= m.info.Keys
    requires c in m.newCells ==> m.newCells[c] in m.info && m.newCells[c] != id && !m.info[m.newCells[c]].inTried
    requires forall g | g in m.info && (c !in m.newCells || g != m.newCells[c]) ::
               g in m1.info && SameEntry(m.info[g], m1.info[g])
    requires c in m.newCells && m.newCells[c] in m1.info ==>
               SameStats(m.info[m.newCells[c]], m1.info[m.newCells[c]]) && !m1.info[m.newCells[c]].inTried
    ensures var m2 := m1.(info := m1.info[id := m1.info[id].(refCount := m1.info[id].refCount + 1)],
                          newCells := m1.newCells[c := id]);
            LosesOne(m, m2)
  {
    hide SameEntry, SameStats;
    var gone := m.info.Keys - m1.info.Keys;
    if gone != {} {
      assert c in m.newCells;
      AtMostOne(gone, m.newCells[c]);
    }
    assert LosesOne(m, m1) by {
      forall g | g in m1.info
        ensures SameStats(m.info[g], m1.info[g]) && m1.info[g].inTried == m.info[g].inTried
      {
        if c !in m.newCells || g != m.newCells[c] {
          EntryStats(m.info[g], m1.info[g]);
        }
      }
    }
    OneMoreCell(m, m1, id, c);
  }

  lemma OneMoreCell(m: Manager, m1: Manager, id: nat, c: Cell)
    requires LosesOne(m, m1) && id in m1.info
    ensures LosesOne(m, m1.(info := m1.info[id := m1.info[id].(refCount := m1.info[id].refCount + 1)],
                            newCells := m1.newCells[c := id]))
  {
    var info := m1.info[id := m1.info[id].(refCount := m1.info[id].refCount + 1)];
    assert info.Keys == m1.info.Keys;
  }

  lemma AtMostOne(s: set<nat>, x: nat)
    requires forall g | g in s :: g == x
    ensures |s| <= 1
  {
    assert s <= {x};
    assert s == {} || s == {x};
  }

  lemma PlaceRefused(k: Key, m: Manager, id: nat, limbo: set<nat>, ahead: int)
    requires id in m.info && !m.info[id].inTried && limbo == {id} && ahead == 1
    requires Agree(k, m.(nNew := m.nNew - ahead), limbo)
    ensures RandomOk(m.info, m.random)
    ensures Agree(k, Removed(m, id).(nNew := m.nNew - 1), {}) && LosesOne(m, Removed(m, id).(nNew := m.nNew - 1))
    ensures id !in Removed(m, id).info
    ensures Removed(m, id).triedCells == m.triedCells && Removed(m, id).nIdCount == m.nIdCount
  {
    hide Agree, RandomOk, SameEntry, Removed;
    var m0 := m.(nNew := m.nNew - ahead);
    RemoveAgrees(k, m0, limbo, id);
    AgreeRandom(k, m0, limbo);
    assert limbo - {id} == {};
    RemoveShift(m, id, m.nNew - 1);
    RefusedLoses(m, id);
    RemovedEntries(m, id);
  }

  lemma RefusedLoses(m: Manager, id: nat)
    requires RandomOk(m.info, m.random) && id in m.info && !m.info[id].inTried
    ensures LosesOne(m, Removed(m, id).(nNew := m.nNew - 1)) && id !in Removed(m, id).info
  {
    hide RandomOk, Removed;
    RemovedEntries(m, id);
    LosesOnly(m, Removed(m, id).(nNew := m.nNew - 1), id);
  }

  lemma LosesOnly(m: Manager, m': Manager, id: nat)
    requires id in m.info && !m.info[id].inTried && m'.info.Keys == m.info.Keys - {id}
    requires forall g | g in m.info && g != id :: SameEntry(m.info[g], m'.info[g])
    ensures LosesOne(m, m')
  {
    hide SameEntry, SameStats;
    OneLess(m.info.Keys, m'.info.Keys, id);
    forall g | g in m'.info
      ensures g in m.info && SameStats(m.info[g], m'.info[g]) && m'.info[g].inTried == m.info[g].inTried
    {
      assert g in m.info.Keys - {id};
      EntryStats(m.info[g], m'.info[g]);
    }
  }

  lemma OneLess(a: set<nat>, b: set<nat>, id: nat)
    requires id in a && b == a - {id}
    ensures |a - b| == 1 && forall g | g in a && g !in b :: g == id
  {
    assert a - b == {id};
  }

  lemma EntryStats(e: AddrInfo, e': AddrInfo)
    requires SameEntry(e, e')
    ensures SameStats(e, e') && e'.inTried == e.inTried
  {
  }

  /** The same address in the same place. */
  predicate SamePlace(e: AddrInfo, e': AddrInfo) {
    e'.service == e.service && e'.refCount == e.refCount && e'.inTried == e.inTried && e'.randomPos == e.randomPos
  }

  lemma StatsAgree(k: Key, m: Manager, id: nat, e: AddrInfo)
    requires Agree(k, m, {}) && id in m.info && SamePlace(m.info[id], e)
    ensures Agree(k, m.(info := m.info[id := e]), {})
  {
    hide TablesOk, AddrOk, CountsOk, RandomOk;
    var m' := m.(info := m.info[id := e]);
    SamePlacesAgree(k, m, m', {});
    DropIndexes(m, m', id);
  }

  /** The entry `id` of this very address and port. */
  predicate Known(m: Manager, s: Service, id: nat) {
    id in m.info && m.info[id].service == s
  }

  lemma KnownOnce(k: Key, m: Manager, s: Service)
    requires Agree(k, m, {})
    ensures forall id | Known(m, s, id) :: s.ip in m.addr && m.addr[s.ip] == id
    ensures forall a, b | Known(m, s, a) && Known(m, s, b) :: a == b
    ensures forall a, b | a in m.info && b in m.info && m.info[a].service.ip == m.info[b].service.ip :: a == b
  {
  }

  /** Statistics after a success. */
  function Seen(m: Manager, id: nat, time: int): Manager
    requires id in m.info
  {
    m.(info := m.info[id := m.info[id].(lastSuccess := time, lastTry := time, attempts := 0)])
  }

  /** The bucket looked at in turn `n`. */
  function Turn(n: nat, rnd: nat): nat {
    (n + rnd) % NEW_BUCKET_COUNT
  }

  predicate InBucket(cells: map<Cell, nat>, k: Key, s: Service, bucket: nat, id: nat) {
    NewCell(k, s, bucket) in cells && cells[NewCell(k, s, bucket)] == id
  }

  /** A new entry is found, wherever the search begins. */
  lemma SomeBucket(k: Key, m: Manager, id: nat, rnd: nat)
    requires Agree(k, m, {}) && id in m.info && !m.info[id].inTried
    ensures exists i :: 0 <= i < NEW_BUCKET_COUNT
              && InBucket(m.newCells, k, m.info[id].service, Turn(i, rnd), id)
  {
    assert EntryOk(k, m, {}, id);
    assert CellsOf(m.newCells, id) != {};
    var c: Cell :| c in CellsOf(m.newCells, id);
    assert NewCellOk(k, m, {}, c);
    var i := (c.0 - rnd) % NEW_BUCKET_COUNT;
    assert Turn(i, rnd) == c.0;
    assert InBucket(m.newCells, k, m.info[id].service, c.0, id);
  }

  lemma WithdrawnEntries(m: Manager, id: nat)
    requires id in m.info
    ensures Withdrawn(m, id).info == m.info[id := m.info[id].(refCount := 0)]
    ensures Withdrawn(m, id).triedCells == m.triedCells
  {
  }

  ghost function At(cells: map<Cell, nat>, c: Cell): set<nat> {
    if c in cells then {cells[c]} else {}
  }

  lemma Unchanged(m: Manager, moved: set<nat>)
    ensures Survive(m, m, moved)
  {
    assert m.info.Keys - m.info.Keys == {};
  }

  lemma SurviveMoved(m: Manager, m': Manager, moved: set<nat>, id: nat)
    requires Survive(m, m', moved) && id in moved && id in m.info
    ensures id in m'.info && m'.info[id].service == m.info[id].service
  {
  }

  /** Only the table of `id` changed before and after. */
  lemma MovedSurvive(m: Manager, m1: Manager, m2: Manager, m3: Manager, moved: set<nat>, id: nat)
    requires id in moved && id in m.info && id in m1.info && id in m2.info && id in m3.info && Survive(m1, m2, moved)
    requires m1.info == m.info[id := m1.info[id]] && SameStats(m.info[id], m1.info[id])
    requires m3.info == m2.info[id := m3.info[id]] && SameStats(m2.info[id], m3.info[id])
    ensures Survive(m, m3, moved)
  {
    hide SameStats;
    assert m1.info.Keys == m.info.Keys && m3.info.Keys == m2.info.Keys;
    forall g | g in m.info
      ensures g !in m3.info ==> g !in m2.info && m.info[g] == m1.info[g]
      ensures g in m3.info ==> SameStats(m.info[g], m3.info[g])
      ensures g in m3.info && g !in moved ==> m.info[g] == m1.info[g] && m3.info[g] == m2.info[g]
    {
      if g == id {
        StatsThrough(m.info[id], m1.info[id], m2.info[id], m3.info[id]);
      }
    }
  }

  lemma StatsThrough(a: AddrInfo, b: AddrInfo, c: AddrInfo, d: AddrInfo)
    requires SameStats(a, b) && SameStats(b, c) && SameStats(c, d)
    ensures SameStats(a, d)
  {
  }

  /** The entry holds the new cell that its address and its source select. */
  ghost predicate SentTo(k: Key, e: AddrInfo, id: nat, cells: map<Cell, nat>) {
    var c := NewCell(k, e.service, NewBucket(k, e.service.ip, e.source));
    c in cells && cells[c] == id
  }

  function BackCell(k: Key, e: AddrInfo): Cell {
    NewCell(k, e.service, NewBucket(k, e.service.ip, e.source))
  }

  /** The tried entry in `c` back in a new cell. */
  function Returned(k: Key, m: Manager, c: Cell): Manager
    requires c in m.triedCells && m.triedCells[c] in m.info && RandomOk(Evicted(m, c).info, m.random)
    requires var cell := BackCell(k, m.info[m.triedCells[c]]);
             && (cell in m.newCells ==> m.newCells[cell] in m.info)
             && m.triedCells[c] in Cleared(Evicted(m, c), cell).info
  {
    var id := m.triedCells[c];
    var cell := BackCell(k, m.info[id]);
    var m' := Cleared(Evicted(m, c), cell);
    m'.(info := m'.info[id := m'.info[id].(refCount := 1)], newCells := m'.newCells[cell := id], nNew := m'.nNew + 1)
  }

  lemma EvictReady(k: Key, m: Manager, limbo: set<nat>, c: Cell)
    requires Agree(k, m, limbo) && c in m.triedCells
    ensures m.triedCells[c] in m.info && m.triedCells[c] !in limbo
    ensures Agree(k, Evicted(m, c), limbo + {m.triedCells[c]})
    ensures RandomOk(Evicted(m, c).info, m.random)
    ensures var cell := BackCell(k, m.info[m.triedCells[c]]);
            && (cell in m.newCells ==> m.newCells[cell] in m.info)
            && m.triedCells[c] in Cleared(Evicted(m, c), cell).info
            && Cleared(Evicted(m, c), cell).info[m.triedCells[c]].refCount == 0
  {
    hide Agree, RandomOk, Cleared, BackCell;
    EvictAgrees(k, m, limbo, c);
    var id := m.triedCells[c];
    var m1 := Evicted(m, c);
    ClearAgrees(k, m1, limbo + {id}, BackCell(k, m.info[id]));
    AgreeRandom(k, m1, limbo + {id});
    LimboStays(k, Cleared(m1, BackCell(k, m.info[id])), limbo + {id});
  }

  lemma SendBackAgrees(k: Key, m: Manager, limbo: set<nat>, c: Cell)
    requires Agree(k, m, limbo) && c in m.triedCells
    ensures m.triedCells[c] in m.info && RandomOk(Evicted(m, c).info, m.random)
    ensures var cell := BackCell(k, m.info[m.triedCells[c]]);
            && (cell in m.newCells ==> m.newCells[cell] in m.info)
            && m.triedCells[c] in Cleared(Evicted(m, c), cell).info
    ensures var m' := Returned(k, m, c);
            && Agree(k, m', limbo) && m'.triedCells == m.triedCells - {c}
            && Survive(m, m', limbo + {m.triedCells[c]})
            && forall g | g in limbo :: g in m'.info && !m'.info[g].inTried
  {
    hide Agree, RandomOk, Cleared, Survive, SameStats, SameEntry, NewCell, NewBucket;
    EvictReady(k, m, limbo, c);
    var id := m.triedCells[c];
    var m1, e := Evicted(m, c), m.info[id];
    var cell := BackCell(k, e);
    ClearAgrees(k, m1, limbo + {id}, cell);
    var m2 := Cleared(m1, cell);
    LimboStays(k, m2, limbo + {id});
    ClearedHolder(k, m1, limbo + {id}, cell);
    ReturnAgrees(k, m1, m2, Returned(k, m, c), limbo, id, cell);
    SentBack(m, m1, m2, Returned(k, m, c), limbo, c, cell);
  }

  lemma ReturnAgrees(k: Key, m1: Manager, m2: Manager, m3: Manager, limbo: set<nat>, id: nat, cell: Cell)
    requires Agree(k, m2, limbo + {id}) && id in m1.info && id in m2.info && id !in limbo
    requires m2.info[id].refCount == 0 && !m2.info[id].inTried && SameEntry(m1.info[id], m2.info[id])
    requires cell == BackCell(k, m1.info[id]) && cell !in m2.newCells
    requires m3 == m2.(info := m2.info[id := m2.info[id].(refCount := 1)], newCells := m2.newCells[cell := id],
                       nNew := m2.nNew + 1)
    ensures Agree(k, m3, limbo)
  {
    hide Agree;
    var e := m1.info[id];
    PutAgrees(k, m2, limbo + {id}, id, NewBucket(k, e.service.ip, e.source));
    assert limbo + {id} - {id} == limbo;
  }

  /** The entry in a cell being cleared: a new one, which keeps its statistics or is deleted. */
  lemma ClearedHolder(k: Key, m: Manager, limbo: set<nat>, c: Cell)
    requires Agree(k, m, limbo)
    ensures RandomOk(m.info, m.random)
    ensures c in m.newCells ==>
              && m.newCells[c] in m.info && m.newCells[c] !in limbo
              && !m.info[m.newCells[c]].inTried && m.info[m.newCells[c]].refCount > 0
              && (m.newCells[c] in Cleared(m, c).info ==>
                    && SameStats(m.info[m.newCells[c]], Cleared(m, c).info[m.newCells[c]])
                    && !Cleared(m, c).info[m.newCells[c]].inTried)
              && (m.newCells[c] !in Cleared(m, c).info ==> m.info[m.newCells[c]].refCount == 1)
  {
    hide RandomOk, TablesOk, AddrOk, CountsOk;
    if c in m.newCells {
      DropAgrees(k, m, limbo, c);
      if m.info[m.newCells[c]].refCount == 1 {
        DropRandom(m, c);
        ClearLast(k, m, limbo, c);
      } else {
        ClearOne(k, m, limbo, c);
      }
    }
  }

  /** What clearing the cell and moving `id` there did to the entries. */
  lemma SentBack(m: Manager, m1: Manager, m2: Manager, m3: Manager, limbo: set<nat>, c: Cell, cell: Cell)
    requires c in m.triedCells && m.triedCells[c] in m.info && m1 == Evicted(m, c)
    requires cell in m1.newCells ==> m1.newCells[cell] in m1.info && m1.newCells[cell] !in limbo + {m.triedCells[c]}
    requires cell in m1.newCells ==> !m1.info[m1.newCells[cell]].inTried && m1.info[m1.newCells[cell]].refCount > 0
    requires m2.info.Keys <= m1.info.Keys
    requires forall g | g in m1.info && (cell !in m1.newCells || g != m1.newCells[cell]) ::
               g in m2.info && SameEntry(m1.info[g], m2.info[g])
    requires cell in m1.newCells && m1.newCells[cell] in m2.info ==>
               SameStats(m1.info[m1.newCells[cell]], m2.info[m1.newCells[cell]])
               && m2.info[m1.newCells[cell]].inTried == m1.info[m1.newCells[cell]].inTried
    requires cell in m1.newCells && m1.newCells[cell] !in m2.info ==> m1.info[m1.newCells[cell]].refCount == 1
    requires m.triedCells[c] in m2.info
    requires m3.info == m2.info[m.triedCells[c] := m2.info[m.triedCells[c]].(refCount := 1)]
    ensures Survive(m, m3, limbo + {m.triedCells[c]})
  {
    var gone := m.info.Keys - m3.info.Keys;
    if gone != {} {
      assert cell in m1.newCells && gone == {m1.newCells[cell]};
    }
  }

  /** Statistics are the same; the place in the tables may differ. */
  predicate SameStats(e: AddrInfo, e': AddrInfo) {
    e' == e.(refCount := e'.refCount, inTried := e'.inTried, randomPos := e'.randomPos)
  }

  /** At most one entry is lost, and that one was new and had a single cell; nothing else changes its
      table but the entries in `moved`, and no statistics change. */
  ghost predicate Survive(m: Manager, m': Manager, moved: set<nat>) {
    && m'.info.Keys <= m.info.Keys
    && |m.info.Keys - m'.info.Keys| <= 1
    && (forall id | id in m.info && id !in m'.info :: !m.info[id].inTried && m.info[id].refCount == 1 && id !in moved)
    && (forall id | id in m'.info :: SameStats(m.info[id], m'.info[id]))
    && (forall id | id in m'.info && id !in moved :: m'.info[id].inTried == m.info[id].inTried)
  }

  /** The cells without those of `id` in buckets below `bucket`. */
  ghost function LeftFrom(cells: map<Cell, nat>, id: nat, bucket: nat): map<Cell, nat> {
    map c: Cell | c in cells && !(cells[c] == id && c.0 < bucket) :: cells[c]
  }

  /** Every entry has at most one cell in a bucket, at its position there. */
  lemma LeftStep(k: Key, m: Manager, id: nat, bucket: nat)
    requires TablesOk(k, m, {}) && id in m.info
    ensures var c := NewCell(k, m.info[id].service, bucket);
            var left := LeftFrom(m.newCells, id, bucket);
            if c in left && left[c] == id
            then
              && LeftFrom(m.newCells, id, bucket + 1) == left - {c}
              && CellsOf(left - {c}, id) == CellsOf(left, id) - {c} && c in CellsOf(left, id)
            else LeftFrom(m.newCells, id, bucket + 1) == left
  {
    var c := NewCell(k, m.info[id].service, bucket);
    var left := LeftFrom(m.newCells, id, bucket);
    forall d: Cell | d in m.newCells && m.newCells[d] == id && d.0 == bucket
      ensures d == c
    {
      assert NewCellOk(k, m, {}, d);
    }
    if c in left && left[c] == id {
      assert LeftFrom(m.newCells, id, bucket + 1) == left - {c};
    } else {
      assert LeftFrom(m.newCells, id, bucket + 1) == left;
    }
  }

  lemma LeftNone(k: Key, m: Manager, id: nat)
    requires TablesOk(k, m, {}) && id in m.info
    ensures LeftFrom(m.newCells, id, NEW_BUCKET_COUNT) == Withdrawn(m, id).newCells
    ensures CellsOf(LeftFrom(m.newCells, id, NEW_BUCKET_COUNT), id) == {}
  {
    forall d | d in m.newCells
      ensures d.0 < NEW_BUCKET_COUNT
    {
      assert NewCellOk(k, m, {}, d);
    }
  }
}
