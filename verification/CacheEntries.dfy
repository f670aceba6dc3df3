/** Cache entries and what a map of them shows on top of a base view: the pure part of the
    write-back caches. */
module CacheEntries {
  import opened Primitives
  import opened Coins
  import opened ChainView

  /** `isDirty`: may differ from the base view. `isFresh`: the base view has no unspent outputs here. */
  datatype CoinEntry = CoinEntry(coins: Coins, isDirty: bool, isFresh: bool)

  datatype AnchorEntry = AnchorEntry(entered: bool, tree: Tree, isDirty: bool)

  datatype NullifierEntry = NullifierEntry(entered: bool, isDirty: bool)

  type CoinCache = map<Hash, CoinEntry>
  type AnchorCache = map<Root, AnchorEntry>
  type NullifierCache = map<Hash, NullifierEntry>

  function Get<K, V>(m: map<K, V>, k: K): Option<V> {
    if k in m then Some(m[k]) else None
  }

  // ----- What a cache shows -----

  function ShownCoins(base: CoinMap, cache: CoinCache): CoinMap {
    (base - cache.Keys) + (map h | h in cache && !cache[h].coins.IsPruned() :: cache[h].coins)
  }

  function ShownAnchors(base: set<Root>, cache: AnchorCache): set<Root> {
    (base - cache.Keys) + (set r | r in cache && cache[r].entered)
  }

  function ShownNullifiers(base: set<Hash>, cache: NullifierCache): set<Hash> {
    (base - cache.Keys) + (set n | n in cache && cache[n].entered)
  }

  function Shown(
    base: View, coins: CoinCache, anchors: AnchorCache, nullifiers: NullifierCache, best: Root, block: Hash): View
  {
    View(ShownCoins(base.coins, coins),
         ShownNullifiers(base.nullifiers, nullifiers),
         ShownAnchors(base.anchors, anchors),
         if best.NullRoot? then base.bestAnchor else best,
         if block == NULL_HASH then base.bestBlock else block)
  }

  // ----- When the flags tell the truth -----

  ghost predicate CoinEntryOk(base: CoinMap, h: Hash, e: CoinEntry) {
    && e.coins.IsClean()
    && (e.isFresh ==> h !in base)
    && (!e.isDirty ==> if e.coins.IsPruned() then h !in base else h in base && base[h] == e.coins)
  }

  ghost predicate CoinCacheOk(base: CoinMap, cache: CoinCache) {
    forall h | h in cache :: CoinEntryOk(base, h, cache[h])
  }

  ghost predicate AnchorCacheOk(base: set<Root>, cache: AnchorCache) {
    forall r | r in cache :: r == RootOf(cache[r].tree) && (!cache[r].isDirty ==> (cache[r].entered <==> r in base))
  }

  ghost predicate NullifierCacheOk(base: set<Hash>, cache: NullifierCache) {
    forall n | n in cache && !cache[n].isDirty :: cache[n].entered <==> n in base
  }

  ghost predicate CleanMap(m: CoinMap) {
    forall h | h in m :: m[h].IsClean() && !m[h].IsPruned()
  }

  // ----- Merging a child's entries into its parent -----

  function MergedEntry(parent: Option<CoinEntry>, child: CoinEntry): Option<CoinEntry> {
    if !child.isDirty then parent
    else
      match parent
      case None =>
        if child.coins.IsPruned() then None else Some(CoinEntry(child.coins, true, true))
      case Some(p) =>
        if p.isFresh && child.coins.IsPruned() then None else Some(CoinEntry(child.coins, true, p.isFresh))
  }

  function MergedAnchor(parent: Option<AnchorEntry>, child: AnchorEntry): Option<AnchorEntry> {
    if !child.isDirty then parent
    else
      match parent
      case None => Some(AnchorEntry(child.entered, child.tree, true))
      case Some(p) =>
        if p.entered != child.entered then Some(AnchorEntry(child.entered, p.tree, true)) else Some(p)
  }

  function MergedNullifier(parent: Option<NullifierEntry>, child: NullifierEntry): Option<NullifierEntry> {
    if !child.isDirty then parent
    else
      match parent
      case None => Some(NullifierEntry(child.entered, true))
      case Some(p) =>
        if p.entered != child.entered then Some(NullifierEntry(child.entered, true)) else Some(p)
  }

  /** `after` is `before` with the entries of `child` whose keys are in `done` merged in. */
  ghost predicate IsMergedCoins(before: CoinCache, child: CoinCache, done: set<Hash>, after: CoinCache)
    requires done <= child.Keys
  {
    forall h :: Get(after, h) == if h in done then MergedEntry(Get(before, h), child[h]) else Get(before, h)
  }

  ghost predicate IsMergedAnchors(before: AnchorCache, child: AnchorCache, done: set<Root>, after: AnchorCache)
    requires done <= child.Keys
  {
    forall r :: Get(after, r) == if r in done then MergedAnchor(Get(before, r), child[r]) else Get(before, r)
  }

  ghost predicate IsMergedNullifiers(
    before: NullifierCache, child: NullifierCache, done: set<Hash>, after: NullifierCache)
    requires done <= child.Keys
  {
    forall n :: Get(after, n) == if n in done then MergedNullifier(Get(before, n), child[n]) else Get(before, n)
  }

  /** `m` with the optional value put at `k`, or `k` removed. */
  function Put<K, V>(m: map<K, V>, k: K, v: Option<V>): map<K, V> {
    match v
    case None => m - {k}
    case Some(x) => m[k := x]
  }

  lemma PutGet<K, V>(m: map<K, V>, k: K, v: Option<V>, j: K)
    ensures Get(Put(m, k, v), j) == if j == k then v else Get(m, j)
  {
  }

  lemma MergeCoinsStep(before: CoinCache, child: CoinCache, done: set<Hash>, after: CoinCache, h: Hash)
    requires done <= child.Keys && h in child && h !in done && IsMergedCoins(before, child, done, after)
    ensures Get(after, h) == Get(before, h)
    ensures IsMergedCoins(before, child, done + {h}, Put(after, h, MergedEntry(Get(after, h), child[h])))
  {
    var next := Put(after, h, MergedEntry(Get(after, h), child[h]));
    forall k
      ensures Get(next, k) == if k in done + {h} then MergedEntry(Get(before, k), child[k]) else Get(before, k)
    {
      PutGet(after, h, MergedEntry(Get(after, h), child[h]), k);
    }
  }

  lemma MergeAnchorsStep(before: AnchorCache, child: AnchorCache, done: set<Root>, after: AnchorCache, r: Root)
    requires done <= child.Keys && r in child && r !in done && IsMergedAnchors(before, child, done, after)
    ensures IsMergedAnchors(before, child, done + {r}, Put(after, r, MergedAnchor(Get(after, r), child[r])))
  {
    var next := Put(after, r, MergedAnchor(Get(after, r), child[r]));
    forall k
      ensures Get(next, k) == if k in done + {r} then MergedAnchor(Get(before, k), child[k]) else Get(before, k)
    {
      PutGet(after, r, MergedAnchor(Get(after, r), child[r]), k);
    }
  }

  lemma MergeNullifiersStep(
    before: NullifierCache, child: NullifierCache, done: set<Hash>, after: NullifierCache, n: Hash)
    requires done <= child.Keys && n in child && n !in done && IsMergedNullifiers(before, child, done, after)
    ensures IsMergedNullifiers(before, child, done + {n}, Put(after, n, MergedNullifier(Get(after, n), child[n])))
  {
    var next := Put(after, n, MergedNullifier(Get(after, n), child[n]));
    forall k
      ensures Get(next, k) == if k in done + {n} then MergedNullifier(Get(before, k), child[k]) else Get(before, k)
    {
      PutGet(after, n, MergedNullifier(Get(after, n), child[n]), k);
    }
  }

  /** What a child that fetches through `parent` relies on: an entry that is not fresh was found
      in the parent's cache, or pulled into it. */
  ghost predicate FetchedThrough(parent: CoinCache, child: CoinCache) {
    forall h | h in child && !child[h].isFresh :: h in parent
  }

  // ----- Reading -----

  lemma ShownCoinsAt(base: CoinMap, cache: CoinCache, h: Hash)
    ensures Get(ShownCoins(base, cache), h) ==
            if h in cache then (if cache[h].coins.IsPruned() then None else Some(cache[h].coins)) else Get(base, h)
  {
  }

  /** Two maps that agree at every key are equal. */
  lemma EqualByGet<K(!new), V>(a: map<K, V>, b: map<K, V>)
    requires forall k :: Get(a, k) == Get(b, k)
    ensures a == b
  {
    forall k
      ensures k in a <==> k in b
      ensures k in a ==> a[k] == b[k]
    {
      assert Get(a, k) == Get(b, k);
    }
  }

  /** What a view may answer to a request for the coins of `h`: fully spent coins count as none. */
  ghost predicate Answers(view: CoinMap, h: Hash, found: bool, c: Coins) {
    && (found ==> c.IsClean())
    && (found && !c.IsPruned() <==> h in view)
    && (h in view ==> c == view[h])
  }

  ghost predicate Extends(a: CoinCache, b: CoinCache) {
    forall k | k in a :: k in b && b[k] == a[k]
  }

  lemma AnswerFromCache(base: CoinMap, cache: CoinCache, h: Hash)
    requires CoinCacheOk(base, cache) && h in cache
    ensures Answers(ShownCoins(base, cache), h, true, cache[h].coins)
  {
    ShownCoinsAt(base, cache, h);
  }

  /** The entry that `FetchCoins` makes of what the base returned. */
  function Fetched(c: Coins): CoinEntry {
    CoinEntry(c, false, c.IsPruned())
  }

  /** Filling the cache from below answers the request and changes nothing that is shown. */
  lemma AnswerFromBelow(base: CoinMap, cache: CoinCache, h: Hash, found: bool, c: Coins)
    requires CoinCacheOk(base, cache) && h !in cache && Answers(base, h, found, c)
    ensures var after := if found then cache[h := Fetched(c)] else cache;
            && CoinCacheOk(base, after)
            && ShownCoins(base, after) == ShownCoins(base, cache)
            && Extends(cache, after)
            && Answers(ShownCoins(base, after), h, found, c)
  {
    ShownCoinsAt(base, cache, h);
    if found {
      FetchShowsTheSame(base, cache, h, Fetched(c));
    }
  }

  lemma ExtendsKeepsFetched(parent: CoinCache, parent': CoinCache, child: CoinCache)
    requires FetchedThrough(parent, child) && Extends(parent, parent')
    ensures FetchedThrough(parent', child)
  {
  }

  lemma FetchKeepsFetched(parent: CoinCache, child: CoinCache, h: Hash, c: Coins)
    requires FetchedThrough(parent, child) && h in parent
    ensures FetchedThrough(parent, child[h := Fetched(c)])
  {
  }

  // ----- Opening a modifier -----

  /** A new entry for `h`, made of what the base returned: nothing that is shown changes. */
  lemma OpenFresh(base: CoinMap, cache: CoinCache, h: Hash, found: bool, c: Coins)
    requires CoinCacheOk(base, cache) && h !in cache
    requires if found then Answers(base, h, true, c) else h !in base && c == EMPTY_COINS
    ensures var after := cache[h := CoinEntry(c, true, c.IsPruned())];
            && CoinCacheOk(base, after)
            && ShownCoins(base, after) == ShownCoins(base, cache)
            && c.IsClean() && SameCoins(c, Lookup(ShownCoins(base, after), h))
  {
    var e := CoinEntry(c, true, c.IsPruned());
    var after := cache[h := e];
    var a, b := ShownCoins(base, after), ShownCoins(base, cache);
    forall k
      ensures Get(a, k) == Get(b, k)
    {
      ShownCoinsAt(base, cache, k);
      ShownCoinsAt(base, after, k);
    }
    EqualByGet(a, b);
    ShownCoinsAt(base, after, h);
  }

  lemma OpenExisting(base: CoinMap, cache: CoinCache, h: Hash)
    requires CoinCacheOk(base, cache) && h in cache
    ensures var after := cache[h := cache[h].(isDirty := true)];
            && CoinCacheOk(base, after)
            && ShownCoins(base, after) == ShownCoins(base, cache)
            && cache[h].coins.IsClean() && SameCoins(cache[h].coins, Lookup(ShownCoins(base, after), h))
  {
    var after := cache[h := cache[h].(isDirty := true)];
    var a, b := ShownCoins(base, after), ShownCoins(base, cache);
    forall k
      ensures Get(a, k) == Get(b, k)
    {
      ShownCoinsAt(base, cache, k);
      ShownCoinsAt(base, after, k);
    }
    EqualByGet(a, b);
    ShownCoinsAt(base, after, h);
  }

  lemma OpenKeepsFetched(parent: CoinCache, child: CoinCache, h: Hash, found: bool, c: Coins)
    requires FetchedThrough(parent, child) && (if found then h in parent else c == EMPTY_COINS)
    ensures FetchedThrough(parent, child[h := CoinEntry(c, true, c.IsPruned())])
  {
  }

  lemma MarkKeepsFetched(parent: CoinCache, child: CoinCache, h: Hash)
    requires FetchedThrough(parent, child) && h in child
    ensures FetchedThrough(parent, child[h := child[h].(isDirty := true)])
  {
  }

  lemma WriteKeepsFetched(parent: CoinCache, child: CoinCache, h: Hash, e: CoinEntry)
    requires FetchedThrough(parent, child) && h in child && e.isFresh == child[h].isFresh
    ensures FetchedThrough(parent, child[h := e]) && FetchedThrough(parent, child - {h})
  {
  }

  /** Filling the cache with what the base shows changes nothing. */
  lemma FetchShowsTheSame(base: CoinMap, cache: CoinCache, h: Hash, e: CoinEntry)
    requires CoinCacheOk(base, cache) && h !in cache
    requires CoinEntryOk(base, h, e) && (e.isDirty ==> e.isFresh && e.coins.IsPruned())
    ensures CoinCacheOk(base, cache[h := e])
    ensures ShownCoins(base, cache[h := e]) == ShownCoins(base, cache)
  {
    var a, b := ShownCoins(base, cache[h := e]), ShownCoins(base, cache);
    forall k
      ensures Get(a, k) == Get(b, k)
    {
      ShownCoinsAt(base, cache, k);
      ShownCoinsAt(base, cache[h := e], k);
    }
    EqualByGet(a, b);
  }

  lemma FetchAnchorShowsTheSame(base: set<Root>, cache: AnchorCache, r: Root, e: AnchorEntry)
    requires AnchorCacheOk(base, cache) && r !in cache
    requires r == RootOf(e.tree) && (e.entered <==> r in base)
    ensures AnchorCacheOk(base, cache[r := e])
    ensures ShownAnchors(base, cache[r := e]) == ShownAnchors(base, cache)
  {
  }

  lemma FetchNullifierShowsTheSame(base: set<Hash>, cache: NullifierCache, n: Hash, e: NullifierEntry)
    requires NullifierCacheOk(base, cache) && n !in cache
    requires e.entered <==> n in base
    ensures NullifierCacheOk(base, cache[n := e])
    ensures ShownNullifiers(base, cache[n := e]) == ShownNullifiers(base, cache)
  {
  }

  // ----- Writing -----

  /** Replacing a dirty entry's coins stores them in the view; a fresh entry that became fully
      spent is dropped. */
  lemma WriteShows(base: CoinMap, cache: CoinCache, h: Hash, coins: Coins)
    requires CoinCacheOk(base, cache) && h in cache && cache[h].isDirty && coins.IsClean()
    ensures var e := cache[h].(coins := coins);
            var after := if e.isFresh && coins.IsPruned() then cache - {h} else cache[h := e];
            && CoinCacheOk(base, after)
            && ShownCoins(base, after) == Store(ShownCoins(base, cache), h, coins)
  {
    var e := cache[h].(coins := coins);
    var after := if e.isFresh && coins.IsPruned() then cache - {h} else cache[h := e];
    var a, b := ShownCoins(base, after), Store(ShownCoins(base, cache), h, coins);
    forall k
      ensures Get(a, k) == Get(b, k)
    {
      ShownCoinsAt(base, cache, k);
      ShownCoinsAt(base, after, k);
    }
    EqualByGet(a, b);
  }

  lemma WriteAnchorShows(base: set<Root>, cache: AnchorCache, r: Root, e: AnchorEntry)
    requires AnchorCacheOk(base, cache) && r == RootOf(e.tree) && e.isDirty
    ensures AnchorCacheOk(base, cache[r := e])
    ensures ShownAnchors(base, cache[r := e]) ==
            if e.entered then ShownAnchors(base, cache) + {r} else ShownAnchors(base, cache) - {r}
  {
  }

  lemma WriteNullifierShows(base: set<Hash>, cache: NullifierCache, n: Hash, spent: bool)
    requires NullifierCacheOk(base, cache)
    ensures NullifierCacheOk(base, cache[n := NullifierEntry(spent, true)])
    ensures ShownNullifiers(base, cache[n := NullifierEntry(spent, true)]) ==
            if spent then ShownNullifiers(base, cache) + {n} else ShownNullifiers(base, cache) - {n}
  {
  }

  // ----- Flushing into a parent cache -----

  /** One entry: the parent shows what the child showed, and its flags stay truthful. */
  lemma MergedEntryShows(base: CoinMap, parent: CoinCache, child: CoinCache, after: CoinCache, h: Hash)
    requires CoinCacheOk(base, parent) && CoinCacheOk(ShownCoins(base, parent), child)
    requires FetchedThrough(parent, child) && IsMergedCoins(parent, child, child.Keys, after)
    ensures Get(ShownCoins(base, after), h) == Get(ShownCoins(ShownCoins(base, parent), child), h)
    ensures h in after ==> CoinEntryOk(base, h, after[h]) && (!after[h].isFresh ==> h in parent && !parent[h].isFresh)
  {
    ShownCoinsAt(base, after, h);
    ShownCoinsAt(base, parent, h);
    ShownCoinsAt(ShownCoins(base, parent), child, h);
    assert Get(after, h) == if h in child then MergedEntry(Get(parent, h), child[h]) else Get(parent, h);
    assert h in child ==> CoinEntryOk(ShownCoins(base, parent), h, child[h]);
    assert h in parent ==> CoinEntryOk(base, h, parent[h]);
  }

  /** Merging a child's coins makes the parent show exactly what the child showed. */
  lemma MergeShows(base: CoinMap, parent: CoinCache, child: CoinCache, after: CoinCache)
    requires CoinCacheOk(base, parent) && CoinCacheOk(ShownCoins(base, parent), child)
    requires FetchedThrough(parent, child) && IsMergedCoins(parent, child, child.Keys, after)
    ensures ShownCoins(base, after) == ShownCoins(ShownCoins(base, parent), child)
    ensures CoinCacheOk(base, after)
    ensures forall h | h in after && !after[h].isFresh :: h in parent && !parent[h].isFresh
  {
    var a, b := ShownCoins(base, after), ShownCoins(ShownCoins(base, parent), child);
    forall h
      ensures Get(a, h) == Get(b, h)
    {
      MergedEntryShows(base, parent, child, after, h);
    }
    EqualByGet(a, b);
    forall h | h in after
      ensures CoinEntryOk(base, h, after[h]) && (!after[h].isFresh ==> h in parent && !parent[h].isFresh)
    {
      MergedEntryShows(base, parent, child, after, h);
    }
  }

  lemma MergeKeepsFetched(grandparent: CoinCache, parent: CoinCache, after: CoinCache)
    requires FetchedThrough(grandparent, parent)
    requires forall h | h in after && !after[h].isFresh :: h in parent && !parent[h].isFresh
    ensures FetchedThrough(grandparent, after)
  {
  }

  /** The assertion in `BatchWrite` cannot fail, and setting the flag in the parent is right: an entry
      that the parent does not have is fresh in the child, and the level below the parent has no
      unspent coins for it. */
  lemma MovedUpIsFresh(base: CoinMap, parent: CoinCache, child: CoinCache, h: Hash)
    requires CoinCacheOk(base, parent) && CoinCacheOk(ShownCoins(base, parent), child)
    requires FetchedThrough(parent, child) && h in child && h !in parent
    ensures child[h].isFresh && h !in base
  {
    hide ShownCoins;
    ShownCoinsAt(base, parent, h);
    assert CoinEntryOk(ShownCoins(base, parent), h, child[h]);
  }

  lemma MergeAnchorsShows(base: set<Root>, parent: AnchorCache, child: AnchorCache, after: AnchorCache)
    requires AnchorCacheOk(base, parent) && AnchorCacheOk(ShownAnchors(base, parent), child)
    requires IsMergedAnchors(parent, child, child.Keys, after)
    ensures ShownAnchors(base, after) == ShownAnchors(ShownAnchors(base, parent), child)
    ensures AnchorCacheOk(base, after)
  {
    var mid := ShownAnchors(base, parent);
    forall r
      ensures r in ShownAnchors(base, after) <==> r in ShownAnchors(mid, child)
      ensures r in after ==> r == RootOf(after[r].tree) && (!after[r].isDirty ==> (after[r].entered <==> r in base))
    {
      assert Get(after, r) == if r in child then MergedAnchor(Get(parent, r), child[r]) else Get(parent, r);
    }
  }

  lemma MergeNullifiersShows(base: set<Hash>, parent: NullifierCache, child: NullifierCache, after: NullifierCache)
    requires NullifierCacheOk(base, parent) && NullifierCacheOk(ShownNullifiers(base, parent), child)
    requires IsMergedNullifiers(parent, child, child.Keys, after)
    ensures ShownNullifiers(base, after) == ShownNullifiers(ShownNullifiers(base, parent), child)
    ensures NullifierCacheOk(base, after)
  {
    var mid := ShownNullifiers(base, parent);
    forall n
      ensures n in ShownNullifiers(base, after) <==> n in ShownNullifiers(mid, child)
      ensures n in after && !after[n].isDirty ==> (after[n].entered <==> n in base)
    {
      assert Get(after, n) == if n in child then MergedNullifier(Get(parent, n), child[n]) else Get(parent, n);
    }
  }

  // ----- Flushing to disk -----

  /** What a batch leaves in the database under one key: a dirty entry is written, or erased
      when it is fully spent. */
  function WrittenAt(before: CoinMap, child: CoinCache, h: Hash): Option<Coins>
    requires h in child
  {
    if !child[h].isDirty then Get(before, h)
    else if child[h].coins.IsPruned() then None
    else Some(child[h].coins)
  }

  ghost predicate IsWrittenCoins(before: CoinMap, child: CoinCache, done: set<Hash>, after: CoinMap)
    requires done <= child.Keys
  {
    forall h :: Get(after, h) == if h in done then WrittenAt(before, child, h) else Get(before, h)
  }

  lemma WriteCoinsStep(before: CoinMap, child: CoinCache, done: set<Hash>, after: CoinMap, h: Hash)
    requires done <= child.Keys && h in child && h !in done && IsWrittenCoins(before, child, done, after)
    ensures IsWrittenCoins(before, child, done + {h},
                           if child[h].isDirty then Store(after, h, child[h].coins) else after)
  {
    var next := if child[h].isDirty then Store(after, h, child[h].coins) else after;
    forall k
      ensures Get(next, k) == if k in done + {h} then WrittenAt(before, child, k) else Get(before, k)
    {
      assert Get(after, k) == if k in done then WrittenAt(before, child, k) else Get(before, k);
    }
  }

  /** A batch write brings the database to what the cache showed. */
  lemma WrittenShows(before: CoinMap, child: CoinCache, after: CoinMap)
    requires CoinCacheOk(before, child) && CleanMap(before) && IsWrittenCoins(before, child, child.Keys, after)
    ensures after == ShownCoins(before, child)
    ensures CleanMap(after)
  {
    var b := ShownCoins(before, child);
    forall h
      ensures Get(after, h) == Get(b, h)
    {
      ShownCoinsAt(before, child, h);
      assert h in child ==> CoinEntryOk(before, h, child[h]);
    }
    EqualByGet(after, b);
  }

  /** The anchors in the database after the entries in `done`. */
  ghost predicate IsWrittenAnchors(before: set<Root>, child: AnchorCache, done: set<Root>, after: map<Root, Tree>)
    requires done <= child.Keys
  {
    && (forall r :: r in after <==> if r in done && child[r].isDirty then child[r].entered else r in before)
    && (forall r | r in after :: r == RootOf(after[r]))
  }

  function WrittenAnchor(after: map<Root, Tree>, r: Root, e: AnchorEntry): map<Root, Tree> {
    if !e.isDirty then after else if e.entered then after[r := e.tree] else after - {r}
  }

  lemma WriteAnchorsStep(before: set<Root>, child: AnchorCache, done: set<Root>, after: map<Root, Tree>, r: Root)
    requires done <= child.Keys && r in child && r !in done && IsWrittenAnchors(before, child, done, after)
    requires r == RootOf(child[r].tree)
    ensures IsWrittenAnchors(before, child, done + {r}, WrittenAnchor(after, r, child[r]))
  {
  }

  lemma WriteAnchorsStart(child: AnchorCache, anchors: map<Root, Tree>)
    requires forall r | r in anchors :: r == RootOf(anchors[r])
    ensures IsWrittenAnchors(anchors.Keys, child, {}, anchors)
  {
  }

  lemma WriteAnchorsDone(before: set<Root>, child: AnchorCache, done: set<Root>, after: map<Root, Tree>)
    requires done <= child.Keys && IsWrittenAnchors(before, child, done, after)
    ensures forall r | r in after :: r == RootOf(after[r])
  {
  }

  /** Erasing the empty root is the one thing a batch cannot bring about in what the database shows. */
  lemma WrittenAnchorsShow(before: set<Root>, child: AnchorCache, after: map<Root, Tree>)
    requires AnchorCacheOk(before + {EMPTY_ROOT}, child) && IsWrittenAnchors(before, child, child.Keys, after)
    ensures after.Keys + {EMPTY_ROOT} == ShownAnchors(before + {EMPTY_ROOT}, child) + {EMPTY_ROOT}
  {
    forall r
      ensures r in after.Keys + {EMPTY_ROOT} <==> r in ShownAnchors(before + {EMPTY_ROOT}, child) + {EMPTY_ROOT}
    {
    }
  }
}
