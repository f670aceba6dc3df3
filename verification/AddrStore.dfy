/** Saving and loading the address manager. The stream holds whole values: how a number or an entry
    becomes bytes is not modelled. */
module AddrStore {
  import opened Primitives
  import opened AddrTables

  /** What is saved of an entry. */
  datatype Saved = Saved(
    service: Service,
    services: set<nat>,
    time: int,
    source: NetAddr,
    lastSuccess: int,
    attempts: int)

  datatype Token =
    | Byte(value: nat)
    | Number(n: int)
    | Secret(key: Key)
    | Entry(saved: Saved)

  function Save(e: AddrInfo): Saved {
    Saved(e.service, e.services, e.time, e.source, e.lastSuccess, e.attempts)
  }

  /** An entry as it is after loading. */
  function Load(d: Saved, inTried: bool, randomPos: int): AddrInfo {
    AddrInfo(d.service, d.services, d.time, d.source, 0, d.lastSuccess, d.attempts, 0, inTried, randomPos)
  }

  /** `n ^ (1 << 30)`. */
  function ToggleBit30(n: int): (r: int)
    ensures n >= 0 && r >= 0 ==> Bit30(r) == !Bit30(n)
  {
    if Bit30(n) then n - 0x4000_0000 else n + 0x4000_0000
  }

  predicate Bit30(n: int) {
    n / 0x4000_0000 % 2 == 1
  }

  // ----- The order of ids -----

  /** The ids below `n` of new or of tried entries, in ascending order. */
  function Ids(info: map<nat, AddrInfo>, inTried: bool, n: nat): (ids: seq<nat>)
    ensures forall i | 0 <= i < |ids| :: ids[i] < n && ids[i] in info && info[ids[i]].inTried == inTried
  {
    if n == 0 then []
    else Ids(info, inTried, n - 1) + if n - 1 in info && info[n - 1].inTried == inTried then [n - 1] else []
  }

  /** The number under which an id is saved. */
  function Rank(info: map<nat, AddrInfo>, id: nat): nat {
    |Ids(info, false, id)|
  }

  lemma {:induction false} IdsDistinct(info: map<nat, AddrInfo>, inTried: bool, n: nat)
    ensures Distinct(Ids(info, inTried, n))
  {
    if n > 0 {
      IdsDistinct(info, inTried, n - 1);
    }
  }

  lemma {:induction false} IdsComplete(info: map<nat, AddrInfo>, inTried: bool, n: nat, id: nat)
    requires id < n && id in info && info[id].inTried == inTried
    ensures var ids := Ids(info, inTried, n);
            |Ids(info, inTried, id)| < |ids| && ids[|Ids(info, inTried, id)|] == id
  {
    if id < n - 1 {
      IdsComplete(info, inTried, n - 1, id);
    }
  }

  // ----- What is written -----

  function Entries(info: map<nat, AddrInfo>, ids: seq<nat>): (t: seq<Token>)
    requires forall i | 0 <= i < |ids| :: ids[i] in info
    ensures |t| == |ids| && forall i | 0 <= i < |ids| :: t[i] == Entry(Save(info[ids[i]]))
  {
    if ids == [] then [] else Entries(info, ids[..|ids| - 1]) + [Entry(Save(info[ids[|ids| - 1]]))]
  }

  /** The positions below `i` of a bucket that are taken, in ascending order. */
  function Taken(m: Manager, bucket: nat, i: nat): (r: seq<nat>)
    ensures forall n | 0 <= n < |r| :: r[n] < i && (bucket, r[n]) in m.newCells
  {
    if i == 0 then [] else Taken(m, bucket, i - 1) + if (bucket, i - 1) in m.newCells then [i - 1] else []
  }

  function Index(m: Manager, c: Cell): Token
    requires c in m.newCells
  {
    Number(Rank(m.info, m.newCells[c]))
  }

  function Indexes(m: Manager, bucket: nat, taken: seq<nat>): (t: seq<Token>)
    requires forall n | 0 <= n < |taken| :: (bucket, taken[n]) in m.newCells
    ensures |t| == |taken| && forall n | 0 <= n < |taken| :: t[n] == Index(m, (bucket, taken[n]))
  {
    if taken == [] then []
    else Indexes(m, bucket, taken[..|taken| - 1]) + [Index(m, (bucket, taken[|taken| - 1]))]
  }

  function BucketTokens(m: Manager, bucket: nat): seq<Token> {
    var taken := Taken(m, bucket, BUCKET_SIZE);
    [Number(|taken|)] + Indexes(m, bucket, taken)
  }

  /** The buckets from `bucket` on. */
  function BucketsFrom(m: Manager, bucket: nat): seq<Token>
    decreases NEW_BUCKET_COUNT - bucket
  {
    if bucket >= NEW_BUCKET_COUNT then [] else BucketTokens(m, bucket) + BucketsFrom(m, bucket + 1)
  }

  function Header(k: Key, m: Manager): seq<Token> {
    [Byte(1), Byte(32), Secret(k), Number(m.nNew), Number(m.nTried), Number(ToggleBit30(NEW_BUCKET_COUNT))]
  }

  function Serialized(k: Key, m: Manager): seq<Token> {
    Header(k, m)
      + Entries(m.info, Ids(m.info, false, m.nIdCount))
      + Entries(m.info, Ids(m.info, true, m.nIdCount))
      + BucketsFrom(m, 0)
  }

  // ----- Counting -----

  /** As many ids are listed as the manager counts. */
  lemma IdsCounted(k: Key, m: Manager)
    requires Agree(k, m, {})
    ensures |Ids(m.info, false, m.nIdCount)| == m.nNew && |Ids(m.info, true, m.nIdCount)| == m.nTried
  {
    hide RandomOk, AddrOk, TablesOk;
    ListedOnce(k, m, false);
    ListedOnce(k, m, true);
    assert NewIds(m, {}) == ToSet(Ids(m.info, false, m.nIdCount));
    assert TriedIds(m) == ToSet(Ids(m.info, true, m.nIdCount));
  }

  lemma ListedOnce(k: Key, m: Manager, inTried: bool)
    requires TablesOk(k, m, {})
    ensures var ids := Ids(m.info, inTried, m.nIdCount);
            && Distinct(ids) && |ToSet(ids)| == |ids|
            && forall id :: id in ToSet(ids) <==> id in m.info && m.info[id].inTried == inTried
  {
    var ids := Ids(m.info, inTried, m.nIdCount);
    IdsDistinct(m.info, inTried, m.nIdCount);
    DistinctSize(ids);
    forall id | id in m.info && m.info[id].inTried == inTried
      ensures id in ids
    {
      assert EntryOk(k, m, {}, id);
      IdsComplete(m.info, inTried, m.nIdCount, id);
    }
  }

  // ----- Saving -----

  method Serialize(k: Key, m: Manager) returns (s: seq<Token>)
    requires Agree(k, m, {})
    ensures s == Serialized(k, m)
  {
    hide Agree, Entries, Ids, BucketsFrom;
    var unk, unkIds := SerializeNew(k, m);
    var tried := SerializeTried(k, m);
    KnownCells(k, m);
    var buckets := SerializeBuckets(m, unkIds);
    s := Header(k, m) + unk + tried + buckets;
  }

  method SerializeNew(ghost k: Key, m: Manager) returns (t: seq<Token>, unkIds: map<nat, nat>)
    requires Agree(k, m, {})
    ensures t == Entries(m.info, Ids(m.info, false, m.nIdCount))
    ensures forall g | g < m.nIdCount && g in m.info :: g in unkIds && unkIds[g] == Rank(m.info, g)
  {
    hide *;
    IdsCounted(k, m);
    t, unkIds := [], map[];
    var nIds := 0;
    NoneYet(m.info, false);
    for id := 0 to m.nIdCount
      invariant nIds == |Ids(m.info, false, id)|
      invariant t == Entries(m.info, Ids(m.info, false, id))
      invariant forall g | g < id && g in m.info :: g in unkIds && unkIds[g] == Rank(m.info, g)
    {
      IdsStep(m.info, false, id);
      if id in m.info {
        unkIds := unkIds[id := nIds];
        CellsTell(k, m, id);
        if m.info[id].refCount != 0 {
          IdsComplete(m.info, false, m.nIdCount, id);
          assert nIds != m.nNew;
          EntriesSnoc(m.info, Ids(m.info, false, id), id);
          t := t + [Entry(Save(m.info[id]))];
          nIds := nIds + 1;
        }
      }
    }
  }

  method SerializeTried(ghost k: Key, m: Manager) returns (t: seq<Token>)
    requires Agree(k, m, {})
    ensures t == Entries(m.info, Ids(m.info, true, m.nIdCount))
  {
    hide *;
    IdsCounted(k, m);
    t := [];
    var nIds := 0;
    NoneYet(m.info, true);
    for id := 0 to m.nIdCount
      invariant nIds == |Ids(m.info, true, id)|
      invariant t == Entries(m.info, Ids(m.info, true, id))
    {
      IdsStep(m.info, true, id);
      if id in m.info && m.info[id].inTried {
        IdsComplete(m.info, true, m.nIdCount, id);
        assert nIds != m.nTried;
        EntriesSnoc(m.info, Ids(m.info, true, id), id);
        t := t + [Entry(Save(m.info[id]))];
        nIds := nIds + 1;
      }
    }
  }

  lemma NoneYet(info: map<nat, AddrInfo>, inTried: bool)
    ensures Ids(info, inTried, 0) == [] && Entries(info, []) == []
  {
  }

  lemma IdsStep(info: map<nat, AddrInfo>, inTried: bool, n: nat)
    ensures Ids(info, inTried, n + 1) ==
            if n in info && info[n].inTried == inTried then Ids(info, inTried, n) + [n] else Ids(info, inTried, n)
    ensures Rank(info, n) == |Ids(info, false, n)|
  {
  }

  lemma EntriesSnoc(info: map<nat, AddrInfo>, ids: seq<nat>, id: nat)
    requires id in info && forall i | 0 <= i < |ids| :: ids[i] in info
    ensures Entries(info, ids + [id]) == Entries(info, ids) + [Entry(Save(info[id]))]
  {
    assert (ids + [id])[..|ids|] == ids;
  }

  method SerializeBuckets(m: Manager, unkIds: map<nat, nat>) returns (t: seq<Token>)
    requires forall c | c in m.newCells :: m.newCells[c] in unkIds && unkIds[m.newCells[c]] == Rank(m.info, m.newCells[c])
    ensures t == BucketsFrom(m, 0)
  {
    hide BucketTokens, BucketsFrom, Rank;
    t := [];
    for bucket := 0 to NEW_BUCKET_COUNT
      invariant t + BucketsFrom(m, bucket) == BucketsFrom(m, 0)
    {
      BucketsStep(m, bucket);
      var tokens := SerializeBucket(m, bucket, unkIds);
      assert t + (tokens + BucketsFrom(m, bucket + 1)) == t + tokens + BucketsFrom(m, bucket + 1);
      t := t + tokens;
    }
    BucketsStep(m, NEW_BUCKET_COUNT);
  }

  lemma BucketsStep(m: Manager, bucket: nat)
    ensures BucketsFrom(m, bucket) ==
            if bucket >= NEW_BUCKET_COUNT then [] else BucketTokens(m, bucket) + BucketsFrom(m, bucket + 1)
  {
  }

  lemma CellsTell(k: Key, m: Manager, id: nat)
    requires Agree(k, m, {}) && id in m.info
    ensures m.info[id].refCount != 0 <==> !m.info[id].inTried
  {
    assert EntryOk(k, m, {}, id);
  }

  lemma KnownCells(k: Key, m: Manager)
    requires Agree(k, m, {})
    ensures forall c | c in m.newCells ::
              && m.newCells[c] in m.info && m.newCells[c] < m.nIdCount && !m.info[m.newCells[c]].inTried
  {
    forall c | c in m.newCells
      ensures m.newCells[c] in m.info && m.newCells[c] < m.nIdCount && !m.info[m.newCells[c]].inTried
    {
      assert NewCellOk(k, m, {}, c) && EntryOk(k, m, {}, m.newCells[c]);
    }
  }

  method SerializeBucket(m: Manager, bucket: nat, unkIds: map<nat, nat>) returns (t: seq<Token>)
    requires forall c | c in m.newCells :: m.newCells[c] in unkIds && unkIds[m.newCells[c]] == Rank(m.info, m.newCells[c])
    ensures t == BucketTokens(m, bucket)
  {
    hide Taken, Indexes, BucketTokens, Rank;
    TakenNone(m, bucket);
    var size := 0;
    for i := 0 to BUCKET_SIZE
      invariant size == |Taken(m, bucket, i)|
    {
      TakenStep(m, bucket, i);
      if (bucket, i) in m.newCells {
        size := size + 1;
      }
    }
    t := [Number(size)];
    for i := 0 to BUCKET_SIZE
      invariant t == [Number(size)] + Indexes(m, bucket, Taken(m, bucket, i))
    {
      TakenStep(m, bucket, i);
      if (bucket, i) in m.newCells {
        t := t + [Number(unkIds[m.newCells[(bucket, i)]])];
      }
    }
    TokensAre(m, bucket);
  }

  lemma TokensAre(m: Manager, bucket: nat)
    ensures var taken := Taken(m, bucket, BUCKET_SIZE);
            BucketTokens(m, bucket) == [Number(|taken|)] + Indexes(m, bucket, taken)
  {
    hide Taken, Indexes;
  }

  lemma TakenNone(m: Manager, bucket: nat)
    ensures Taken(m, bucket, 0) == [] && Indexes(m, bucket, []) == []
  {
  }

  lemma TakenStep(m: Manager, bucket: nat, i: nat)
    ensures var taken := Taken(m, bucket, i);
            if (bucket, i) in m.newCells then
              && Taken(m, bucket, i + 1) == taken + [i]
              && Indexes(m, bucket, taken + [i]) ==
                   Indexes(m, bucket, taken) + [Number(Rank(m.info, m.newCells[(bucket, i)]))]
            else
              Taken(m, bucket, i + 1) == taken
  {
    hide Rank;
    var taken := Taken(m, bucket, i);
    assert (taken + [i])[..|taken|] == taken;
  }

  // ----- The format -----

  /** Version 1, the length of the key and the key, the two counts, and the number of buckets with bit 30
      turned round; then all new entries, all tried ones, and at least a count for each of 1024 buckets. */
  lemma SavedForm(k: Key, m: Manager)
    requires Agree(k, m, {})
    ensures var s := Serialized(k, m);
            && m.nNew >= 0 && m.nTried >= 0 && |s| >= 6 + m.nNew + m.nTried + 1024
            && s[..6] == [Byte(1), Byte(32), Secret(k), Number(m.nNew), Number(m.nTried), Number(1_073_742_848)]
            && forall id | id in m.info :: SavedAt(s, m, id)
  {
    hide Agree, Ids, Entries, BucketsFrom, SavedAt;
    IdsCounted(k, m);
    BucketCounts(m, 0);
    forall id | id in m.info
      ensures SavedAt(Serialized(k, m), m, id)
    {
      IdBelow(k, m, id);
      EntrySaved(k, m, id);
    }
  }

  /** The entry is saved among those of its table. */
  ghost predicate SavedAt(s: seq<Token>, m: Manager, id: nat)
    requires id in m.info
  {
    var first := if m.info[id].inTried then 6 + m.nNew else 6;
    var count := if m.info[id].inTried then m.nTried else m.nNew;
    exists i | first <= i < first + count && 0 <= i < |s| :: s[i] == Entry(Save(m.info[id]))
  }

  lemma IdBelow(k: Key, m: Manager, id: nat)
    requires Agree(k, m, {}) && id in m.info
    ensures id < m.nIdCount
  {
    assert EntryOk(k, m, {}, id);
  }

  lemma EntrySaved(k: Key, m: Manager, id: nat)
    requires id in m.info && id < m.nIdCount
    requires |Ids(m.info, false, m.nIdCount)| == m.nNew && |Ids(m.info, true, m.nIdCount)| == m.nTried
    ensures SavedAt(Serialized(k, m), m, id)
  {
    hide Ids, Entries, BucketsFrom;
    var inTried := m.info[id].inTried;
    IdsComplete(m.info, inTried, m.nIdCount, id);
    var i := |Ids(m.info, inTried, id)|;
    var first := if inTried then 6 + m.nNew else 6;
    var a, b := Entries(m.info, Ids(m.info, false, m.nIdCount)), Entries(m.info, Ids(m.info, true, m.nIdCount));
    assert Serialized(k, m) == Header(k, m) + a + b + BucketsFrom(m, 0);
    assert Serialized(k, m)[first + i] == if inTried then b[i] else a[i];
  }

  lemma {:induction false} BucketCounts(m: Manager, bucket: nat)
    requires bucket <= NEW_BUCKET_COUNT
    ensures |BucketsFrom(m, bucket)| >= NEW_BUCKET_COUNT - bucket
    decreases NEW_BUCKET_COUNT - bucket
  {
    hide BucketTokens;
    if bucket < NEW_BUCKET_COUNT {
      BucketCounts(m, bucket + 1);
      OneCount(m, bucket);
    }
  }

  lemma OneCount(m: Manager, bucket: nat)
    ensures |BucketTokens(m, bucket)| >= 1
  {
  }
}
