/** The stack of write-back caches over the coin database (`CCoinsViewCache`, `CCoinsViewDB`). */
module CoinsCache {
  import opened Primitives
  import opened Coins
  import opened ChainView
  import opened CacheEntries
  import Blocks

  /** The database at the bottom. The empty tree is always an anchor, stored or not. */
  class CoinsViewDB {
    var coins: CoinMap
    var anchors: map<Root, Tree>
    var nullifiers: set<Hash>
    var bestBlock: Hash
    var bestAnchor: Option<Root>

    ghost predicate Valid()
      reads this
    {
      && CleanMap(coins)
      && (forall r | r in anchors :: r == RootOf(anchors[r]))
    }

    ghost function Effective(): View
      reads this
    {
      View(coins, nullifiers, anchors.Keys + {EMPTY_ROOT},
           if bestAnchor.Some? then bestAnchor.value else EMPTY_ROOT, bestBlock)
    }

    constructor ()
      ensures Valid()
      ensures Effective() == View(map[], {}, {EMPTY_ROOT}, EMPTY_ROOT, NULL_HASH)
    {
      coins, anchors, nullifiers, bestBlock, bestAnchor := map[], map[], {}, NULL_HASH, None;
    }

    method GetCoins(h: Hash) returns (found: bool, c: Coins)
      requires Valid()
      ensures Answers(coins, h, found, c)
    {
      if h in coins {
        return true, coins[h];
      }
      return false, EMPTY_COINS;
    }

    method GetAnchorAt(r: Root) returns (found: bool, tree: Tree)
      requires Valid()
      ensures found <==> r in Effective().anchors
      ensures found ==> r == RootOf(tree)
    {
      if r == EMPTY_ROOT {
        return true, [];
      }
      if r in anchors {
        return true, anchors[r];
      }
      return false, [];
    }

    method GetNullifier(n: Hash) returns (spent: bool)
      ensures spent <==> n in Effective().nullifiers
    {
      spent := n in nullifiers;
    }

    method GetBestAnchor() returns (r: Root)
      ensures r == Effective().bestAnchor
    {
      r := if bestAnchor.Some? then bestAnchor.value else EMPTY_ROOT;
    }

    /** Writes the dirty entries; the hashes only when they are not null. */
    method BatchWrite(
      mapCoins: CoinCache, block: Hash, anchor: Root, mapAnchors: AnchorCache, mapNullifiers: NullifierCache)
      requires Valid()
      requires CoinCacheOk(coins, mapCoins)
      requires AnchorCacheOk(Effective().anchors, mapAnchors)
      requires NullifierCacheOk(nullifiers, mapNullifiers)
      modifies this
      ensures Valid()
      ensures var shown := Shown(old(Effective()), mapCoins, mapAnchors, mapNullifiers, anchor, block);
              Effective() == shown.(anchors := shown.anchors + {EMPTY_ROOT})
    {
      WriteCoins(mapCoins);
      WriteAnchors(mapAnchors);
      WriteNullifiers(mapNullifiers);
      if block != NULL_HASH {
        bestBlock := block;
      }
      if anchor != NullRoot {
        bestAnchor := Some(anchor);
      }
    }

    method WriteCoins(mapCoins: CoinCache)
      requires CleanMap(coins) && CoinCacheOk(coins, mapCoins)
      modifies this`coins
      ensures coins == ShownCoins(old(coins), mapCoins) && CleanMap(coins)
    {
      hide CoinCacheOk, CleanMap, ShownCoins, Store;
      var rest := mapCoins.Keys;
      assert IsWrittenCoins(coins, mapCoins, mapCoins.Keys - rest, coins);
      while rest != {}
        invariant rest <= mapCoins.Keys && IsWrittenCoins(old(coins), mapCoins, mapCoins.Keys - rest, coins)
        decreases |rest|
      {
        hide IsWrittenCoins;
        var h :| h in rest;
        WriteCoinsStep(old(coins), mapCoins, mapCoins.Keys - rest, coins, h);
        OneMoreDone(mapCoins.Keys, rest, h);
        if mapCoins[h].isDirty {
          coins := Store(coins, h, mapCoins[h].coins);
        }
        rest := rest - {h};
      }
      assert mapCoins.Keys - rest == mapCoins.Keys;
      WrittenShows(old(coins), mapCoins, coins);
    }

    method WriteAnchors(mapAnchors: AnchorCache)
      requires AnchorCacheOk(anchors.Keys + {EMPTY_ROOT}, mapAnchors)
      requires forall r | r in anchors :: r == RootOf(anchors[r])
      modifies this`anchors
      ensures anchors.Keys + {EMPTY_ROOT} == ShownAnchors(old(anchors.Keys) + {EMPTY_ROOT}, mapAnchors) + {EMPTY_ROOT}
      ensures forall r | r in anchors :: r == RootOf(anchors[r])
    {
      hide IsWrittenAnchors, ShownAnchors;
      ghost var before := anchors.Keys;
      var rest := mapAnchors.Keys;
      WriteAnchorsStart(mapAnchors, anchors);
      assert mapAnchors.Keys - rest == {};
      while rest != {}
        invariant rest <= mapAnchors.Keys && IsWrittenAnchors(before, mapAnchors, mapAnchors.Keys - rest, anchors)
        decreases |rest|
      {
        var r :| r in rest;
        WriteAnchorsStep(before, mapAnchors, mapAnchors.Keys - rest, anchors, r);
        OneMoreDone(mapAnchors.Keys, rest, r);
        if mapAnchors[r].isDirty {
          if mapAnchors[r].entered {
            anchors := anchors[r := mapAnchors[r].tree];
          } else {
            anchors := anchors - {r};
          }
        }
        rest := rest - {r};
      }
      assert mapAnchors.Keys - rest == mapAnchors.Keys;
      WriteAnchorsDone(before, mapAnchors, mapAnchors.Keys, anchors);
      WrittenAnchorsShow(before, mapAnchors, anchors);
    }

    method WriteNullifiers(mapNullifiers: NullifierCache)
      requires NullifierCacheOk(nullifiers, mapNullifiers)
      modifies this`nullifiers
      ensures nullifiers == ShownNullifiers(old(nullifiers), mapNullifiers)
    {
      var rest := mapNullifiers.Keys;
      while rest != {}
        invariant rest <= mapNullifiers.Keys
        invariant forall n :: n in nullifiers <==>
                    if n in mapNullifiers && n !in rest && mapNullifiers[n].isDirty then mapNullifiers[n].entered
                    else n in old(nullifiers)
        decreases |rest|
      {
        var n :| n in rest;
        if mapNullifiers[n].isDirty {
          nullifiers := if mapNullifiers[n].entered then nullifiers + {n} else nullifiers - {n};
        }
        rest := rest - {n};
      }
    }
  }

  /** What a cache is placed on: the database, or another cache. */
  datatype Base = Disk(db: CoinsViewDB) | Parent(cache: CoinsViewCache)

  /** A write-back cache. Even reading fills it, and the caches below it. */
  class CoinsViewCache {
    const base: Base
    var hashBlock: Hash
    var hashAnchor: Root
    var cacheCoins: CoinCache
    var cacheAnchors: AnchorCache
    var cacheNullifiers: NullifierCache
    var hasModifier: bool

    ghost const depth: nat
    ghost const Repr: set<object>

    /** The stack below is finite and this cache is not part of it. */
    ghost predicate Shape()
      decreases depth
    {
      match base
      case Disk(db) => Repr == {this, db}
      case Parent(c) => c.depth < depth && c.Shape() && this !in c.Repr && Repr == {this} + c.Repr
    }

    ghost function BaseView(): View
      requires Shape()
      reads Repr
      decreases depth, 0
    {
      match base
      case Disk(db) => db.Effective()
      case Parent(c) => c.Effective()
    }

    /** What this cache shows: the state it represents. */
    ghost function Effective(): View
      requires Shape()
      reads Repr
      decreases depth, 1
    {
      Shown(BaseView(), cacheCoins, cacheAnchors, cacheNullifiers, hashAnchor, hashBlock)
    }

    /** The states of all levels of the stack, this cache first, the database last. */
    ghost function Levels(): (views: seq<View>)
      requires Shape()
      reads Repr
      ensures |views| >= 2 && views[0] == Effective() && views[1] == BaseView()
      decreases depth
    {
      [Effective()] + match base { case Disk(db) => [db.Effective()] case Parent(c) => c.Levels() }
    }

    ghost predicate BaseValid()
      requires Shape()
      reads Repr
      decreases depth, 0
    {
      match base
      case Disk(db) => db.Valid()
      case Parent(c) => c.Valid() && !c.hasModifier && FetchedThrough(c.cacheCoins, cacheCoins)
    }

    ghost predicate Valid()
      reads Repr
      ensures Valid() ==> Shape() && this in Repr
      decreases depth, 1
    {
      && Shape()
      && BaseValid()
      && CoinCacheOk(BaseView().coins, cacheCoins)
      && AnchorCacheOk(BaseView().anchors, cacheAnchors)
      && NullifierCacheOk(BaseView().nullifiers, cacheNullifiers)
    }

    constructor (b: Base)
      requires match b { case Disk(db) => db.Valid() case Parent(c) => c.Valid() && !c.hasModifier }
      ensures Valid() && !hasModifier && base == b
      ensures Effective() == BaseView() && hashBlock == NULL_HASH && hashAnchor == NullRoot
      ensures Repr == {this} + (match b { case Disk(db) => {db} case Parent(c) => c.Repr })
    {
      base := b;
      hashBlock, hashAnchor := NULL_HASH, NullRoot;
      cacheCoins, cacheAnchors, cacheNullifiers := map[], map[], map[];
      hasModifier := false;
      depth := match b { case Disk(db) => 0 case Parent(c) => c.depth + 1 };
      Repr := {this} + (match b { case Disk(db) => {db} case Parent(c) => c.Repr });
      new;
      EmptyCacheShows(BaseView());
      hide Shown, CoinCacheOk, AnchorCacheOk, NullifierCacheOk;
    }

    // ----- Reading -----

    /** `base->GetCoins` */
    method BaseGetCoins(h: Hash) returns (found: bool, c: Coins)
      requires Valid()
      modifies Repr - {this}
      ensures Valid() && Levels() == old(Levels())
      ensures Answers(BaseView().coins, h, found, c)
      ensures base.Parent? && found ==> h in base.cache.cacheCoins
      decreases depth, 0
    {
      hide CoinCacheOk, AnchorCacheOk, NullifierCacheOk, Shown, Answers, FetchedThrough, Extends;
      match base {
        case Disk(db) =>
          found, c := db.GetCoins(h);
        case Parent(p) =>
          found, c := p.GetCoins(h);
          ExtendsKeepsFetched(old(p.cacheCoins), p.cacheCoins, cacheCoins);
      }
    }

    /** `FetchCoins` and `GetCoins`: the coins of `h`, pulled in from below when they are missing. */
    method GetCoins(h: Hash) returns (found: bool, c: Coins)
      requires Valid()
      modifies Repr
      ensures Valid() && Levels() == old(Levels()) && hasModifier == old(hasModifier)
      ensures Answers(Effective().coins, h, found, c)
      ensures Extends(old(cacheCoins), cacheCoins)
      ensures found ==> h in cacheCoins
      decreases depth, 1
    {
      hide CoinCacheOk, AnchorCacheOk, NullifierCacheOk, Answers, FetchedThrough, ShownCoins, ShownAnchors,
        ShownNullifiers, Levels;
      ShownParts();
      if h in cacheCoins {
        AnswerFromCache(BaseView().coins, cacheCoins, h);
        found, c := true, cacheCoins[h].coins;
      } else {
        found, c := BaseGetCoins(h);
        AnswerFromBelow(BaseView().coins, cacheCoins, h, found, c);
        if found {
          if base.Parent? {
            FetchKeepsFetched(base.cache.cacheCoins, cacheCoins, h, c);
          }
          SetCoinEntry(h, Fetched(c));
        }
      }
    }
  
    /** `base->GetAnchorAt` */
    method BaseGetAnchorAt(r: Root) returns (found: bool, tree: Tree)
      requires Valid()
      modifies Repr - {this}
      ensures Valid() && Levels() == old(Levels())
      ensures found <==> r in BaseView().anchors
      ensures found ==> r == RootOf(tree)
      decreases depth, 0
    {
      hide CoinCacheOk, AnchorCacheOk, NullifierCacheOk, Shown, FetchedThrough;
      match base {
        case Disk(db) => found, tree := db.GetAnchorAt(r);
        case Parent(p) => found, tree := p.GetAnchorAt(r);
      }
    }

    method GetAnchorAt(r: Root) returns (found: bool, tree: Tree)
      requires Valid()
      modifies Repr
      ensures Valid() && Levels() == old(Levels()) && hasModifier == old(hasModifier)
      ensures cacheCoins == old(cacheCoins) && hashAnchor == old(hashAnchor) && hashBlock == old(hashBlock)
      ensures found <==> r in Effective().anchors
      ensures found ==> r == RootOf(tree) && r in cacheAnchors
      decreases depth, 1
    {
      hide CoinCacheOk, NullifierCacheOk, FetchedThrough, ShownCoins, ShownNullifiers, Levels;
      if r in cacheAnchors {
        found, tree := cacheAnchors[r].entered, cacheAnchors[r].tree;
      } else {
        found, tree := BaseGetAnchorAt(r);
        if found {
          var e := AnchorEntry(true, tree, false);
          FetchAnchorShowsTheSame(BaseView().anchors, cacheAnchors, r, e);
          SetAnchorEntry(r, e);
        }
      }
    }

    /** `base->GetNullifier` */
    method BaseGetNullifier(n: Hash) returns (spent: bool)
      requires Valid()
      modifies Repr - {this}
      ensures Valid() && Levels() == old(Levels())
      ensures spent <==> n in BaseView().nullifiers
      decreases depth, 0
    {
      hide CoinCacheOk, AnchorCacheOk, NullifierCacheOk, Shown, FetchedThrough;
      match base {
        case Disk(db) => spent := db.GetNullifier(n);
        case Parent(p) => spent := p.GetNullifier(n);
      }
    }

    method GetNullifier(n: Hash) returns (spent: bool)
      requires Valid()
      modifies Repr
      ensures Valid() && Levels() == old(Levels()) && hasModifier == old(hasModifier)
      ensures cacheCoins == old(cacheCoins)
      ensures spent <==> n in Effective().nullifiers
      decreases depth, 1
    {
      hide CoinCacheOk, AnchorCacheOk, FetchedThrough, ShownCoins, ShownAnchors, Levels;
      if n in cacheNullifiers {
        spent := cacheNullifiers[n].entered;
      } else {
        spent := BaseGetNullifier(n);
        var e := NullifierEntry(spent, false);
        FetchNullifierShowsTheSame(BaseView().nullifiers, cacheNullifiers, n, e);
        SetNullifierEntry(n, e);
      }
    }

    method GetBestBlock() returns (h: Hash)
      requires Valid()
      modifies Repr
      ensures Valid() && Levels() == old(Levels()) && hasModifier == old(hasModifier)
      ensures cacheCoins == old(cacheCoins)
      ensures h == Effective().bestBlock == hashBlock
      decreases depth, 1
    {
      hide CoinCacheOk, AnchorCacheOk, NullifierCacheOk, FetchedThrough, ShownCoins, ShownAnchors, ShownNullifiers,
        Levels;
      if hashBlock == NULL_HASH {
        h := BaseGetBestBlock();
        LoadHashes(h, hashAnchor);
      }
      h := hashBlock;
    }

    /** `base->GetBestBlock` */
    method BaseGetBestBlock() returns (h: Hash)
      requires Valid()
      modifies Repr - {this}
      ensures Valid() && Levels() == old(Levels())
      ensures h == BaseView().bestBlock
      decreases depth, 0
    {
      hide CoinCacheOk, AnchorCacheOk, NullifierCacheOk, FetchedThrough, ShownCoins, ShownAnchors, ShownNullifiers;
      match base {
        case Disk(db) => h := db.bestBlock;
        case Parent(p) => h := p.GetBestBlock();
      }
    }

    method GetBestAnchor() returns (r: Root)
      requires Valid()
      modifies Repr
      ensures Valid() && Levels() == old(Levels()) && hasModifier == old(hasModifier)
      ensures cacheCoins == old(cacheCoins)
      ensures r == Effective().bestAnchor == hashAnchor
      decreases depth, 1
    {
      hide CoinCacheOk, AnchorCacheOk, NullifierCacheOk, FetchedThrough, ShownCoins, ShownAnchors, ShownNullifiers,
        Levels;
      if hashAnchor == NullRoot {
        r := BaseGetBestAnchor();
        LoadHashes(hashBlock, r);
      }
      r := hashAnchor;
    }

    /** `base->GetBestAnchor` */
    method BaseGetBestAnchor() returns (r: Root)
      requires Valid()
      modifies Repr - {this}
      ensures Valid() && Levels() == old(Levels())
      ensures r == BaseView().bestAnchor
      decreases depth, 0
    {
      hide CoinCacheOk, AnchorCacheOk, NullifierCacheOk, FetchedThrough, ShownCoins, ShownAnchors, ShownNullifiers;
      match base {
        case Disk(db) => r := db.GetBestAnchor();
        case Parent(p) => r := p.GetBestAnchor();
      }
    }

    /** `AccessCoins` and `IsAvailable` */
    method HaveInput(op: OutPoint) returns (ok: bool)
      requires Valid()
      modifies Repr
      ensures Valid() && Levels() == old(Levels()) && hasModifier == old(hasModifier)
      ensures ok <==> Available(old(Effective()).coins, op)
    {
      hide Valid, Shape, BaseValid, Levels, Effective, BaseView;
      var found, c := GetCoins(op.hash);
      ok := found && c.IsAvailable(op.n);
    }

    /** `AccessCoins` and `IsPruned`: the transaction has unspent outputs. */
    method HaveUnspent(h: Hash) returns (ok: bool)
      requires Valid()
      modifies Repr
      ensures Valid() && Levels() == old(Levels()) && hasModifier == old(hasModifier)
      ensures ok <==> h in old(Effective()).coins
    {
      hide Valid, Shape, BaseValid, Levels, Effective, BaseView;
      var found, c := GetCoins(h);
      ok := found && !c.IsPruned();
    }

    /** Every input of the transaction refers to an unspent output. */
    method HaveInputs(tx: Tx) returns (ok: bool)
      requires Valid()
      modifies Repr
      ensures Valid() && Levels() == old(Levels()) && hasModifier == old(hasModifier)
      ensures ok <==> tx.IsCoinBase() || ChainView.HaveInputs(old(Effective()).coins, tx.vin)
    {
      hide Valid, Shape, BaseValid, Levels, Effective, BaseView, Available;
      ghost var coins := Effective().coins;
      if tx.IsCoinBase() {
        return true;
      }
      var i := 0;
      ok := true;
      while i < |tx.vin| && ok
        invariant 0 <= i <= |tx.vin|
        invariant Valid() && Levels() == old(Levels()) && hasModifier == old(hasModifier)
        invariant ok ==> ChainView.HaveInputs(coins, tx.vin[..i])
        invariant !ok ==> !ChainView.HaveInputs(coins, tx.vin)
      {
        ok := HaveInput(tx.vin[i].prevout);
        i := i + 1;
      }
      assert tx.vin[..|tx.vin|] == tx.vin;
    }

    method GetOutputFor(op: OutPoint) returns (out: TxOut)
      requires Valid() && Available(Effective().coins, op)
      modifies Repr
      ensures Valid() && Levels() == old(Levels()) && hasModifier == old(hasModifier)
      ensures out == old(Effective()).coins[op.hash].outs[op.n]
    {
      hide Valid, Shape, BaseValid, Levels, Effective, BaseView;
      var found, c := GetCoins(op.hash);
      out := c.outs[op.n];
    }

    /** The outputs a transaction spends, and their sum. */
    method SpentOutputs(tx: Tx) returns (outs: seq<TxOut>, sum: int)
      requires Valid() && ChainView.HaveInputs(Effective().coins, tx.vin)
      modifies Repr
      ensures Valid() && Levels() == old(Levels()) && hasModifier == old(hasModifier)
      ensures outs == Blocks.SpentOutputs(old(Effective()).coins, tx.vin) && sum == Blocks.SumOuts(outs)
    {
      hide Valid, Shape, BaseValid, Levels, Effective, BaseView;
      ghost var coins := Effective().coins;
      outs, sum := [], 0;
      for i := 0 to |tx.vin|
        invariant Valid() && Levels() == old(Levels()) && hasModifier == old(hasModifier)
        invariant outs == Blocks.SpentOutputs(coins, tx.vin[..i]) && sum == Blocks.SumOuts(outs)
      {
        PrefixSnoc(tx.vin, i);
        var out := GetOutputFor(tx.vin[i].prevout);
        assert (outs + [out])[..|outs|] == outs;
        outs, sum := outs + [out], sum + out.value;
      }
      WholePrefix(tx.vin);
    }

    method NoneSpent(nullifiers: seq<Hash>) returns (ok: bool)
      requires Valid()
      modifies Repr
      ensures Valid() && Levels() == old(Levels()) && hasModifier == old(hasModifier)
      ensures ok <==> forall i | 0 <= i < |nullifiers| :: nullifiers[i] !in old(Effective()).nullifiers
    {
      hide Valid, Shape, BaseValid, Levels, Effective, BaseView;
      ghost var spent := Effective().nullifiers;
      var i := 0;
      ok := true;
      while i < |nullifiers| && ok
        invariant 0 <= i <= |nullifiers|
        invariant Valid() && Levels() == old(Levels()) && hasModifier == old(hasModifier)
        invariant ok ==> forall j | 0 <= j < i :: nullifiers[j] !in spent
        invariant !ok ==> exists j | 0 <= j < |nullifiers| :: nullifiers[j] in spent
      {
        var found := GetNullifier(nullifiers[i]);
        ok := !found;
        i := i + 1;
      }
    }

    /** The tree a JoinSplit is anchored in: one that an earlier JoinSplit of the same transaction
        made, or one in the state. */
    method FindTree(intermediates: map<Root, Tree>, anchor: Root) returns (found: bool, tree: Tree)
      requires Valid() && forall r | r in intermediates :: r == RootOf(intermediates[r])
      modifies Repr
      ensures Valid() && Levels() == old(Levels()) && hasModifier == old(hasModifier)
      ensures found <==> anchor in intermediates || anchor in old(Effective()).anchors
      ensures found ==> anchor == RootOf(tree)
    {
      hide Valid, Shape, BaseValid, Levels, Effective, BaseView;
      if anchor in intermediates {
        found, tree := true, intermediates[anchor];
      } else {
        found, tree := GetAnchorAt(anchor);
      }
    }

    /** One JoinSplit: its nullifiers are unspent and its anchor is known. */
    method CheckJoinSplit(js: seq<JoinSplit>, k: nat, intermediates: map<Root, Tree>)
      returns (ok: bool, next: map<Root, Tree>)
      requires Valid() && k < |js| && MadeBy(intermediates, js, k)
      modifies Repr
      ensures Valid() && Levels() == old(Levels()) && hasModifier == old(hasModifier)
      ensures ok <==> Blocks.JoinSplitOk(old(Effective()), js, k)
      ensures ok ==> MadeBy(next, js, k + 1)
    {
      hide Valid, Shape, BaseValid, Levels, Effective, BaseView;
      ghost var v := Effective();
      var unspent := NoneSpent(js[k].nullifiers);
      var found, tree := FindTree(intermediates, js[k].anchor);
      JoinSplitDecided(v, intermediates, js, k, unspent, found);
      hide Blocks.JoinSplitOk;
      ok, next := unspent && found, intermediates;
      if ok {
        var after := tree + js[k].commitments;
        MadeByNext(intermediates, js, k, tree);
        if RootOf(after) !in intermediates {
          next := intermediates[RootOf(after) := after];
        }
      }
    }

    /** No nullifier has been revealed before, and every anchor is known to the state or made by an
        earlier JoinSplit of the same transaction. */
    method HaveJoinSplitRequirements(tx: Tx) returns (ok: bool)
      requires Valid()
      modifies Repr
      ensures Valid() && Levels() == old(Levels()) && hasModifier == old(hasModifier)
      ensures ok <==> Blocks.JoinSplitsOk(old(Effective()), tx.joinSplits)
    {
      hide Valid, Shape, BaseValid, Levels, Effective, BaseView, MadeBy, Blocks.JoinSplitOk;
      var js := tx.joinSplits;
      ghost var v := Effective();
      var intermediates: map<Root, Tree> := map[];
      NothingMade(js);
      var k := 0;
      ok := true;
      while k < |js| && ok
        invariant 0 <= k <= |js|
        invariant Valid() && Levels() == old(Levels()) && hasModifier == old(hasModifier)
        invariant ok ==> MadeBy(intermediates, js, k) && forall i | 0 <= i < k :: Blocks.JoinSplitOk(v, js, i)
        invariant !ok ==> !Blocks.JoinSplitsOk(v, js)
      {
        ok, intermediates := CheckJoinSplit(js, k, intermediates);
        k := k + 1;
      }
    }

    // ----- Writing -----

    /** Puts an entry in place that shows what was shown before. */
    method SetCoinEntry(h: Hash, e: CoinEntry)
      requires Valid()
      requires CoinCacheOk(BaseView().coins, cacheCoins[h := e])
      requires ShownCoins(BaseView().coins, cacheCoins[h := e]) == ShownCoins(BaseView().coins, cacheCoins)
      requires base.Parent? ==> FetchedThrough(base.cache.cacheCoins, cacheCoins[h := e])
      modifies this`cacheCoins
      ensures Valid() && Levels() == old(Levels())
      ensures cacheCoins == old(cacheCoins)[h := e]
    {
      hide CoinCacheOk, AnchorCacheOk, NullifierCacheOk, FetchedThrough, ShownCoins, ShownAnchors, ShownNullifiers;
      cacheCoins := cacheCoins[h := e];
    }

    method SetAnchorEntry(r: Root, e: AnchorEntry)
      requires Valid()
      requires AnchorCacheOk(BaseView().anchors, cacheAnchors[r := e])
      requires ShownAnchors(BaseView().anchors, cacheAnchors[r := e]) == ShownAnchors(BaseView().anchors, cacheAnchors)
      modifies this`cacheAnchors
      ensures Valid() && Levels() == old(Levels())
      ensures cacheAnchors == old(cacheAnchors)[r := e]
    {
      hide CoinCacheOk, AnchorCacheOk, NullifierCacheOk, FetchedThrough, ShownCoins, ShownAnchors, ShownNullifiers;
      cacheAnchors := cacheAnchors[r := e];
    }

    method SetNullifierEntry(n: Hash, e: NullifierEntry)
      requires Valid()
      requires NullifierCacheOk(BaseView().nullifiers, cacheNullifiers[n := e])
      requires ShownNullifiers(BaseView().nullifiers, cacheNullifiers[n := e]) ==
               ShownNullifiers(BaseView().nullifiers, cacheNullifiers)
      modifies this`cacheNullifiers
      ensures Valid() && Levels() == old(Levels())
      ensures cacheNullifiers == old(cacheNullifiers)[n := e]
    {
      hide CoinCacheOk, AnchorCacheOk, NullifierCacheOk, FetchedThrough, ShownCoins, ShownAnchors, ShownNullifiers;
      cacheNullifiers := cacheNullifiers[n := e];
    }

    /** Loads a hash that has not been asked for before. */
    method LoadHashes(block: Hash, anchor: Root)
      requires Valid()
      requires block == hashBlock || (hashBlock == NULL_HASH && block == BaseView().bestBlock)
      requires anchor == hashAnchor || (hashAnchor == NullRoot && anchor == BaseView().bestAnchor)
      modifies this`hashBlock, this`hashAnchor
      ensures Valid() && Levels() == old(Levels()) && hashBlock == block && hashAnchor == anchor
    {
      hide CoinCacheOk, AnchorCacheOk, NullifierCacheOk, FetchedThrough, ShownCoins, ShownAnchors, ShownNullifiers;
      hashBlock, hashAnchor := block, anchor;
    }

    /** Opens the one modifier this cache may have: the entry of `h`, created if need be and marked
        dirty. A missing or fully spent entry below makes it fresh. */
    method ModifyCoins(h: Hash) returns (c: Coins)
      requires Valid() && !hasModifier
      modifies Repr
      ensures Valid() && Levels() == old(Levels()) && hasModifier
      ensures h in cacheCoins && cacheCoins[h].isDirty && cacheCoins[h].coins == c
      ensures c.IsClean() && SameCoins(c, Lookup(Effective().coins, h))
    {
      if h !in cacheCoins {
        c := OpenMissing(h);
      } else {
        hide CoinCacheOk, AnchorCacheOk, NullifierCacheOk, FetchedThrough, ShownCoins;
        OpenExisting(BaseView().coins, cacheCoins, h);
        if base.Parent? {
          MarkKeepsFetched(base.cache.cacheCoins, cacheCoins, h);
        }
        c := cacheCoins[h].coins;
        SetCoinEntry(h, cacheCoins[h].(isDirty := true));
      }
      hide *;
      SetModifier(true);
    }

    method SetModifier(open: bool)
      requires Valid()
      modifies this`hasModifier
      ensures hasModifier == open
      ensures Valid() && Levels() == old(Levels()) && Effective() == old(Effective())
    {
      hide CoinCacheOk, AnchorCacheOk, NullifierCacheOk, FetchedThrough, Shown;
      hasModifier := open;
    }

    method OpenMissing(h: Hash) returns (c: Coins)
      requires Valid() && h !in cacheCoins
      modifies Repr
      ensures Valid() && Levels() == old(Levels()) && hasModifier == old(hasModifier)
      ensures h in cacheCoins && cacheCoins[h].isDirty && cacheCoins[h].coins == c
      ensures c.IsClean() && SameCoins(c, Lookup(Effective().coins, h))
    {
      hide CoinCacheOk, AnchorCacheOk, NullifierCacheOk, FetchedThrough, ShownCoins;
      var found;
      found, c := BaseGetCoins(h);
      if !found {
        c := EMPTY_COINS;
      }
      OpenFresh(BaseView().coins, cacheCoins, h, found, c);
      if base.Parent? {
        OpenKeepsFetched(base.cache.cacheCoins, cacheCoins, h, found, c);
      }
      SetCoinEntry(h, CoinEntry(c, true, c.IsPruned()));
    }

    /** Ends the modifier: the coins it left are cleaned up, and a fresh entry that is fully spent
        is dropped. */
    method Release(h: Hash, c: Coins)
      requires Valid() && hasModifier && h in cacheCoins && cacheCoins[h].isDirty
      modifies this
      ensures Valid() && !hasModifier
      ensures Effective() == old(Effective()).(coins := Store(old(Effective()).coins, h, c.Cleanup()))
      ensures Levels()[1..] == old(Levels())[1..]
    {
      hide CoinCacheOk, AnchorCacheOk, NullifierCacheOk, FetchedThrough, ShownCoins, ShownAnchors, ShownNullifiers,
        Store, Levels, Coins.IsPruned;
      var clean := c.Cleanup();
      var e := cacheCoins[h].(coins := clean);
      WriteShows(BaseView().coins, cacheCoins, h, clean);
      if base.Parent? {
        WriteKeepsFetched(base.cache.cacheCoins, cacheCoins, h, e);
      }
      ShownParts();
      Install(if e.isFresh && clean.IsPruned() then cacheCoins - {h} else cacheCoins[h := e]);
    }

    lemma ShownParts()
      requires Shape()
      ensures Effective().coins == ShownCoins(BaseView().coins, cacheCoins)
    {
      hide ShownCoins;
    }

    /** Replaces the coin entries and ends the modifier. */
    method Install(entries: CoinCache)
      requires Valid() && CoinCacheOk(BaseView().coins, entries)
      requires base.Parent? ==> FetchedThrough(base.cache.cacheCoins, entries)
      modifies this
      ensures Valid() && !hasModifier
      ensures Effective() == old(Effective()).(coins := ShownCoins(old(BaseView().coins), entries))
      ensures Levels()[1..] == old(Levels())[1..]
    {
      hide CoinCacheOk, AnchorCacheOk, NullifierCacheOk, FetchedThrough, ShownCoins, ShownAnchors, ShownNullifiers;
      hasModifier, cacheCoins := false, entries;
    }

    method SetNullifier(n: Hash, spent: bool)
      requires Valid()
      modifies this
      ensures Valid() && hasModifier == old(hasModifier)
      ensures Effective() == old(Effective()).(nullifiers :=
                if spent then old(Effective()).nullifiers + {n} else old(Effective()).nullifiers - {n})
      ensures Levels()[1..] == old(Levels())[1..]
    {
      hide CoinCacheOk, AnchorCacheOk, NullifierCacheOk, FetchedThrough, ShownCoins, ShownAnchors, ShownNullifiers;
      WriteNullifierShows(BaseView().nullifiers, cacheNullifiers, n, spent);
      cacheNullifiers := cacheNullifiers[n := NullifierEntry(spent, true)];
    }

    /** Writes an anchor entry and names the best anchor. */
    method PutAnchor(r: Root, e: AnchorEntry, best: Root)
      requires Valid() && r == RootOf(e.tree) && e.isDirty && best != NullRoot
      modifies this
      ensures Valid() && hasModifier == old(hasModifier) && hashAnchor == Effective().bestAnchor
      ensures Effective() == old(Effective()).(bestAnchor := best, anchors :=
                if e.entered then old(Effective()).anchors + {r} else old(Effective()).anchors - {r})
      ensures Levels()[1..] == old(Levels())[1..]
    {
      hide CoinCacheOk, AnchorCacheOk, NullifierCacheOk, FetchedThrough, ShownCoins, ShownAnchors, ShownNullifiers;
      WriteAnchorShows(BaseView().anchors, cacheAnchors, r, e);
      cacheAnchors := cacheAnchors[r := e];
      hashAnchor := best;
    }

    /** Enters `tree` as an anchor and makes it the best one, unless it already is. */
    method PushAnchor(tree: Tree)
      requires Valid()
      modifies Repr
      ensures Valid() && hasModifier == old(hasModifier) && hashAnchor == Effective().bestAnchor
      ensures Effective() == ChainView.PushAnchor(old(Effective()), tree)
      ensures Levels()[1..] == old(Levels())[1..]
    {
      hide Valid, Shape, Levels, Effective;
      var current := GetBestAnchor();
      if current != RootOf(tree) {
        PutAnchor(RootOf(tree), AnchorEntry(true, tree, true), RootOf(tree));
      }
    }

    /** Removes the best anchor and goes back to `root`, unless that is the best one already. */
    method PopAnchor(root: Root)
      requires Valid() && root != NullRoot
      requires Effective().bestAnchor == root || Effective().bestAnchor in Effective().anchors
      modifies Repr
      ensures Valid() && hasModifier == old(hasModifier) && hashAnchor == Effective().bestAnchor
      ensures Effective() == ChainView.PopAnchor(old(Effective()), root)
      ensures Levels()[1..] == old(Levels())[1..]
    {
      hide Levels, Effective, CoinCacheOk, NullifierCacheOk, FetchedThrough;
      var current := GetBestAnchor();
      if current != root {
        var found, tree := GetAnchorAt(current);
        assert found;
        PutAnchor(current, AnchorEntry(false, cacheAnchors[current].tree, true), root);
      }
    }

    /** A null hash means "ask the base again". */
    method SetBestBlock(h: Hash)
      requires Valid()
      modifies this
      ensures Valid() && hasModifier == old(hasModifier)
      ensures hashBlock == h && hashAnchor == old(hashAnchor)
      ensures Effective() ==
              old(Effective()).(bestBlock := if h == NULL_HASH then old(BaseView()).bestBlock else h)
      ensures Levels()[1..] == old(Levels())[1..]
    {
      hide CoinCacheOk, AnchorCacheOk, NullifierCacheOk, FetchedThrough, ShownCoins, ShownAnchors, ShownNullifiers;
      hashBlock := h;
    }
  
    // ----- Flushing -----

    /** Takes over a child's coins. */
    method MergeCoins(mapCoins: CoinCache)
      requires Valid() && CoinCacheOk(Effective().coins, mapCoins) && FetchedThrough(cacheCoins, mapCoins)
      modifies this`cacheCoins
      ensures Valid()
      ensures Effective() == old(Effective()).(coins := ShownCoins(old(Effective()).coins, mapCoins))
      ensures Levels()[1..] == old(Levels())[1..]
    {
      hide CoinCacheOk, AnchorCacheOk, NullifierCacheOk, FetchedThrough, ShownCoins, ShownAnchors, ShownNullifiers;
      var merged := MergedCoinsLoop(cacheCoins, mapCoins);
      MergeShows(BaseView().coins, cacheCoins, mapCoins, merged);
      if base.Parent? {
        MergeKeepsFetched(base.cache.cacheCoins, cacheCoins, merged);
      }
      cacheCoins := merged;
    }

    method MergeAnchors(mapAnchors: AnchorCache)
      requires Valid() && AnchorCacheOk(Effective().anchors, mapAnchors)
      modifies this`cacheAnchors
      ensures Valid()
      ensures Effective() == old(Effective()).(anchors := ShownAnchors(old(Effective()).anchors, mapAnchors))
      ensures Levels()[1..] == old(Levels())[1..]
    {
      hide CoinCacheOk, AnchorCacheOk, NullifierCacheOk, FetchedThrough, ShownCoins, ShownAnchors, ShownNullifiers;
      var merged := MergedAnchorsLoop(cacheAnchors, mapAnchors);
      MergeAnchorsShows(BaseView().anchors, cacheAnchors, mapAnchors, merged);
      cacheAnchors := merged;
    }

    method MergeNullifiers(mapNullifiers: NullifierCache)
      requires Valid() && NullifierCacheOk(Effective().nullifiers, mapNullifiers)
      modifies this`cacheNullifiers
      ensures Valid()
      ensures Effective() ==
              old(Effective()).(nullifiers := ShownNullifiers(old(Effective()).nullifiers, mapNullifiers))
      ensures Levels()[1..] == old(Levels())[1..]
    {
      hide CoinCacheOk, AnchorCacheOk, NullifierCacheOk, FetchedThrough, ShownCoins, ShownAnchors, ShownNullifiers;
      var merged := MergedNullifiersLoop(cacheNullifiers, mapNullifiers);
      MergeNullifiersShows(BaseView().nullifiers, cacheNullifiers, mapNullifiers, merged);
      cacheNullifiers := merged;
    }

    method SetHashes(block: Hash, anchor: Root)
      requires Valid()
      modifies this`hashBlock, this`hashAnchor
      ensures Valid()
      ensures Effective() == FlushedView(false, old(Effective()), block, anchor, BaseView())
      ensures Levels()[1..] == old(Levels())[1..]
    {
      hide CoinCacheOk, AnchorCacheOk, NullifierCacheOk, FetchedThrough, ShownCoins, ShownAnchors, ShownNullifiers;
      hashAnchor := anchor;
      hashBlock := block;
    }

    /** Takes over everything a child holds. */
    method BatchWrite(
      mapCoins: CoinCache, block: Hash, anchor: Root, mapAnchors: AnchorCache, mapNullifiers: NullifierCache)
      requires Valid() && !hasModifier
      requires CoinCacheOk(Effective().coins, mapCoins) && FetchedThrough(cacheCoins, mapCoins)
      requires AnchorCacheOk(Effective().anchors, mapAnchors)
      requires NullifierCacheOk(Effective().nullifiers, mapNullifiers)
      modifies this
      ensures Valid() && !hasModifier
      ensures Effective() ==
              FlushedView(false, Shown(old(Effective()), mapCoins, mapAnchors, mapNullifiers, anchor, block),
                          block, anchor, BaseView())
      ensures Levels()[1..] == old(Levels())[1..]
    {
      hide Valid, Levels, Effective, CoinCacheOk, AnchorCacheOk, NullifierCacheOk, FetchedThrough,
        ShownCoins, ShownAnchors, ShownNullifiers;
      MergeCoins(mapCoins);
      MergeAnchors(mapAnchors);
      MergeNullifiers(mapNullifiers);
      SetHashes(block, anchor);
    }
  
    /** What the base falls back to when it is handed a null hash. */
    ghost function BelowBase(): View
      requires Shape()
      reads Repr
    {
      match base
      case Disk(db) => db.Effective()
      case Parent(c) => c.BaseView()
    }

    /** `base->BatchWrite`, with everything this cache holds. */
    method WriteToBase()
      requires Valid() && !hasModifier
      modifies Repr - {this}
      ensures Shape() && (match base { case Disk(db) => db.Valid() case Parent(c) => c.Valid() && !c.hasModifier })
      ensures BaseView() == FlushedView(base.Disk?, old(Effective()), hashBlock, hashAnchor, old(BelowBase()))
      ensures Levels()[2..] == old(Levels())[2..]
    {
      hide CoinCacheOk, AnchorCacheOk, NullifierCacheOk, FetchedThrough, ShownCoins, ShownAnchors, ShownNullifiers;
      match base {
        case Disk(db) =>
          db.BatchWrite(cacheCoins, hashBlock, hashAnchor, cacheAnchors, cacheNullifiers);
        case Parent(p) =>
          assert p.Shape() && p in p.Repr;
          p.BatchWrite(cacheCoins, hashBlock, hashAnchor, cacheAnchors, cacheNullifiers);
      }
    }

    method ClearCaches()
      requires Shape() && (match base { case Disk(db) => db.Valid() case Parent(c) => c.Valid() && !c.hasModifier })
      modifies this`cacheCoins, this`cacheAnchors, this`cacheNullifiers
      ensures Valid()
      ensures Levels()[1..] == old(Levels())[1..] && BaseView() == old(BaseView())
      ensures Effective() == Shown(BaseView(), map[], map[], map[], hashAnchor, hashBlock)
    {
      hide CoinCacheOk, AnchorCacheOk, NullifierCacheOk, FetchedThrough, Shown;
      cacheCoins, cacheAnchors, cacheNullifiers := map[], map[], map[];
      EmptyCacheOk(BaseView());
      if base.Parent? {
        EmptyFetched(base);
      }
    }

    /** Hands everything to the base and starts over empty. */
    method Flush()
      requires Valid() && !hasModifier
      modifies Repr
      ensures Valid() && !hasModifier
      ensures BaseView() == FlushedView(base.Disk?, old(Effective()), old(hashBlock), old(hashAnchor), old(BelowBase()))
      ensures Effective() == BaseView()
      ensures Levels()[2..] == old(Levels())[2..]
    {
      hide Valid, Shape, Effective, BaseView, Levels, BelowBase;
      WriteToBase();
      ghost var written := Levels();
      ClearCaches();
      assert Levels()[1..][1..] == Levels()[2..] && written[1..][1..] == written[2..];
      FlushedShows(BaseView(), hashAnchor, hashBlock);
    }
  }

  /** What the base of a cache that showed `shown` shows after the flush; `below` is what a null
      hash falls back to. */
  function FlushedView(onDisk: bool, shown: View, block: Hash, anchor: Root, below: View): View {
    shown.(anchors := if onDisk then shown.anchors + {EMPTY_ROOT} else shown.anchors,
           bestAnchor := if anchor.NullRoot? then below.bestAnchor else anchor,
           bestBlock := if block == NULL_HASH then below.bestBlock else block)
  }

  /** The loops of `BatchWrite` over the child's entries. */
  method MergedCoinsLoop(cache: CoinCache, mapCoins: CoinCache) returns (merged: CoinCache)
    requires FetchedThrough(cache, mapCoins)
    ensures IsMergedCoins(cache, mapCoins, mapCoins.Keys, merged)
  {
    merged := cache;
    var rest := mapCoins.Keys;
    assert IsMergedCoins(cache, mapCoins, mapCoins.Keys - rest, merged);
    while rest != {}
      invariant rest <= mapCoins.Keys && IsMergedCoins(cache, mapCoins, mapCoins.Keys - rest, merged)
      decreases |rest|
    {
      hide IsMergedCoins;
      var h :| h in rest;
      MergeCoinsStep(cache, mapCoins, mapCoins.Keys - rest, merged, h);
      OneMoreDone(mapCoins.Keys, rest, h);
      merged := MergeOne(cache, mapCoins, merged, h);
      rest := rest - {h};
    }
    assert mapCoins.Keys - rest == mapCoins.Keys;
  }

  /** One entry. The parent has either no entry, then unspent coins are known to be fresh, or one
      that is replaced, or dropped when both the grandparent and the child have nothing. */
  method MergeOne(ghost cache: CoinCache, mapCoins: CoinCache, merged: CoinCache, h: Hash) returns (next: CoinCache)
    requires FetchedThrough(cache, mapCoins) && h in mapCoins && Get(merged, h) == Get(cache, h)
    ensures next == Put(merged, h, MergedEntry(Get(merged, h), mapCoins[h]))
  {
    var child := mapCoins[h];
    next := merged;
    if child.isDirty {
      if h !in merged {
        if !child.coins.IsPruned() {
          assert child.isFresh;
          next := merged[h := CoinEntry(child.coins, true, true)];
        }
      } else if merged[h].isFresh && child.coins.IsPruned() {
        next := merged - {h};
      } else {
        next := merged[h := CoinEntry(child.coins, true, merged[h].isFresh)];
      }
    }
  }

  method MergedAnchorsLoop(cache: AnchorCache, mapAnchors: AnchorCache) returns (merged: AnchorCache)
    ensures IsMergedAnchors(cache, mapAnchors, mapAnchors.Keys, merged)
  {
    merged := cache;
    var rest := mapAnchors.Keys;
    assert IsMergedAnchors(cache, mapAnchors, mapAnchors.Keys - rest, merged);
    while rest != {}
      invariant rest <= mapAnchors.Keys && IsMergedAnchors(cache, mapAnchors, mapAnchors.Keys - rest, merged)
      decreases |rest|
    {
      hide IsMergedAnchors;
      var r :| r in rest;
      MergeAnchorsStep(cache, mapAnchors, mapAnchors.Keys - rest, merged, r);
      OneMoreDone(mapAnchors.Keys, rest, r);
      merged := MergeOneAnchor(mapAnchors[r], merged, r);
      rest := rest - {r};
    }
    assert mapAnchors.Keys - rest == mapAnchors.Keys;
  }

  method MergeOneAnchor(child: AnchorEntry, merged: AnchorCache, r: Root) returns (next: AnchorCache)
    ensures next == Put(merged, r, MergedAnchor(Get(merged, r), child))
  {
    next := merged;
    if child.isDirty {
      if r !in merged {
        next := merged[r := AnchorEntry(child.entered, child.tree, true)];
      } else if merged[r].entered != child.entered {
        next := merged[r := AnchorEntry(child.entered, merged[r].tree, true)];
      }
    }
  }

  method MergedNullifiersLoop(cache: NullifierCache, mapNullifiers: NullifierCache) returns (merged: NullifierCache)
    ensures IsMergedNullifiers(cache, mapNullifiers, mapNullifiers.Keys, merged)
  {
    merged := cache;
    var rest := mapNullifiers.Keys;
    assert IsMergedNullifiers(cache, mapNullifiers, mapNullifiers.Keys - rest, merged);
    while rest != {}
      invariant rest <= mapNullifiers.Keys
      invariant IsMergedNullifiers(cache, mapNullifiers, mapNullifiers.Keys - rest, merged)
      decreases |rest|
    {
      hide IsMergedNullifiers;
      var n :| n in rest;
      MergeNullifiersStep(cache, mapNullifiers, mapNullifiers.Keys - rest, merged, n);
      OneMoreDone(mapNullifiers.Keys, rest, n);
      merged := MergeOneNullifier(mapNullifiers[n], merged, n);
      rest := rest - {n};
    }
    assert mapNullifiers.Keys - rest == mapNullifiers.Keys;
  }

  method MergeOneNullifier(child: NullifierEntry, merged: NullifierCache, n: Hash) returns (next: NullifierCache)
    ensures next == Put(merged, n, MergedNullifier(Get(merged, n), child))
  {
    next := merged;
    if child.isDirty {
      if n !in merged {
        next := merged[n := NullifierEntry(child.entered, true)];
      } else if merged[n].entered != child.entered {
        next := merged[n := NullifierEntry(child.entered, true)];
      }
    }
  }

  /** The intermediate trees are those that the first `k` JoinSplits lead to. */
  ghost predicate MadeBy(intermediates: map<Root, Tree>, js: seq<JoinSplit>, k: nat)
    requires k <= |js|
  {
    && (forall r | r in intermediates :: r == RootOf(intermediates[r]))
    && (forall r | r in intermediates :: exists i | 0 <= i < k :: r == Blocks.RootAfter(js[i]))
    && (forall i | 0 <= i < k :: js[i].anchor.RootOf? && Blocks.RootAfter(js[i]) in intermediates)
  }

  lemma NothingMade(js: seq<JoinSplit>)
    ensures MadeBy(map[], js, 0)
  {
  }

  lemma MadeByNext(intermediates: map<Root, Tree>, js: seq<JoinSplit>, k: nat, tree: Tree)
    requires k < |js| && MadeBy(intermediates, js, k) && js[k].anchor == RootOf(tree)
    ensures var after := tree + js[k].commitments;
            var next := if RootOf(after) in intermediates then intermediates else intermediates[RootOf(after) := after];
            MadeBy(next, js, k + 1)
  {
    var after := tree + js[k].commitments;
    assert Blocks.RootAfter(js[k]) == RootOf(after);
    var next := if RootOf(after) in intermediates then intermediates else intermediates[RootOf(after) := after];
    forall r | r in next
      ensures exists i | 0 <= i < k + 1 :: r == Blocks.RootAfter(js[i])
    {
      if r in intermediates {
        var i :| 0 <= i < k && r == Blocks.RootAfter(js[i]);
      } else {
        assert r == Blocks.RootAfter(js[k]);
      }
    }
  }

  lemma JoinSplitDecided(v: View, intermediates: map<Root, Tree>, js: seq<JoinSplit>, k: nat, unspent: bool, found: bool)
    requires k < |js| && MadeBy(intermediates, js, k)
    requires unspent <==> forall i | 0 <= i < |js[k].nullifiers| :: js[k].nullifiers[i] !in v.nullifiers
    requires found <==> js[k].anchor in intermediates || js[k].anchor in v.anchors
    ensures unspent && found <==> Blocks.JoinSplitOk(v, js, k)
  {
  }

  /** The flush makes the base show what the cache showed exactly when nothing depended on a null
      hash meaning different things on the two levels, and a database is not asked to forget the
      empty root. */
  lemma FlushExact(onDisk: bool, shown: View, block: Hash, anchor: Root, below: View)
    requires block != NULL_HASH ==> shown.bestBlock == block
    requires anchor != NullRoot ==> shown.bestAnchor == anchor
    ensures FlushedView(onDisk, shown, block, anchor, below) == shown <==>
              && (onDisk ==> EMPTY_ROOT in shown.anchors)
              && (block == NULL_HASH ==> below.bestBlock == shown.bestBlock)
              && (anchor == NullRoot ==> below.bestAnchor == shown.bestAnchor)
  {
    if onDisk && EMPTY_ROOT in shown.anchors {
      assert shown.anchors + {EMPTY_ROOT} == shown.anchors;
    }
    assert EMPTY_ROOT in shown.anchors + {EMPTY_ROOT};
  }

  /** What a cache placed on another one says about that one. */
  lemma OverParent(view: CoinsViewCache, parent: CoinsViewCache)
    requires view.Valid() && view.base == Base.Parent(parent)
    ensures view.Shape() && parent.Shape() && parent.Valid() && !parent.hasModifier
    ensures view.hashBlock != NULL_HASH ==> view.Effective().bestBlock == view.hashBlock
    ensures view.hashAnchor != NullRoot ==> view.Effective().bestAnchor == view.hashAnchor
    ensures view.Repr == {view} + parent.Repr && view !in parent.Repr && parent in parent.Repr
    ensures view.BaseView() == parent.Effective() && view.BelowBase() == parent.BaseView()
    ensures view.Levels()[1..] == parent.Levels()
    ensures view.Levels()[2..] == parent.Levels()[1..]
  {
    hide CoinCacheOk, AnchorCacheOk, NullifierCacheOk, FetchedThrough,
      ShownCoins, ShownAnchors, ShownNullifiers;
  }

  /** An empty cache shows its base, except for hashes that it holds itself. */
  lemma FlushedShows(v: View, anchor: Root, block: Hash)
    requires anchor != NullRoot ==> v.bestAnchor == anchor
    requires block != NULL_HASH ==> v.bestBlock == block
    ensures Shown(v, map[], map[], map[], anchor, block) == v
  {
    EmptyCacheShows(v);
  }

  lemma EmptyCacheOk(v: View)
    ensures CoinCacheOk(v.coins, map[]) && AnchorCacheOk(v.anchors, map[]) && NullifierCacheOk(v.nullifiers, map[])
  {
  }

  lemma EmptyFetched(base: Base)
    requires base.Parent?
    ensures FetchedThrough(base.cache.cacheCoins, map[])
  {
  }

  lemma EmptyCacheShows(v: View)
    ensures Shown(v, map[], map[], map[], NullRoot, NULL_HASH) == v
  {
    assert ShownCoins(v.coins, map[]) == v.coins;
  }

  /** A child that never asked for the best block hands down a null hash, and the parent falls back to what
      is below it. */
  method FlushForgets() returns (before: Hash, after: Hash)
    ensures before == 1 && after == NULL_HASH
  {
    hide CoinsViewCache.Valid, CoinsViewCache.Effective, CoinsViewCache.BaseView, CoinsViewCache.Levels,
      CoinsViewCache.BelowBase;
    var db := new CoinsViewDB();
    var parent := new CoinsViewCache(Disk(db));
    OverDisk(parent, db);
    parent.SetBestBlock(1);
    before := parent.GetBestBlock();
    OverDisk(parent, db);
    var child := new CoinsViewCache(Base.Parent(parent));
    OverParent(child, parent);
    child.Flush();
    OverParent(child, parent);
    after := parent.GetBestBlock();
  }

  lemma OverDisk(view: CoinsViewCache, db: CoinsViewDB)
    requires view.Valid() && view.base == Disk(db)
    ensures view.Shape() && view.BaseView() == db.Effective() && view.Repr == {view, db}
  {
  }
}
