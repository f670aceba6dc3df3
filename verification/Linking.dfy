/** Headers and block data arriving in any order (`AddToBlockIndex`, `ReceivedBlockTransactions`). */
module Linking {
  import opened Primitives
  import opened BlockTree
  import opened SkipList
  import opened Candidates

  /** Pairs of a parent and a block with data that waits for it. */
  type Waiting = multiset<(Hash, Hash)>

  // ----- The invariant -----

  predicate ParentLinked(m: BlockMap, h: Hash)
    requires h in m
  {
    m[h].prev.None? || (Parent(m, h) in m && m[Parent(m, h)].chainTx != 0)
  }

  predicate ParentFailed(m: BlockMap, h: Hash)
    requires h in m
  {
    m[h].prev.Some? && Parent(m, h) in m && m[Parent(m, h)].Failed()
  }

  /** Transactions and shielded value of the chain below `h`. */
  function TxBelow(m: BlockMap, h: Hash): nat
    requires h in m
  {
    if m[h].prev.Some? && Parent(m, h) in m then m[Parent(m, h)].chainTx else 0
  }

  function SproutBelow(m: BlockMap, h: Hash): Option<int>
    requires h in m
  {
    if m[h].prev.Some? && Parent(m, h) in m then m[Parent(m, h)].chainSprout else Some(0)
  }

  function Plus(a: Option<int>, b: Option<int>): Option<int> {
    if a.Some? && b.Some? then Some(a.value + b.value) else None
  }

  predicate DataOk(e: BlockIndex) {
    && (if e.haveData then e.txCount > 0 && e.sprout.Some? else e.txCount == 0 && e.sprout.None? && e.chainTx == 0)
    && (e.chainTx == 0 ==> e.chainSprout.None?)
    && (e.chainTx != 0 ==> e.chainSprout.Some?)
  }

  /** A linked block carries the totals of its chain. */
  predicate TotalsOk(m: BlockMap, h: Hash)
    requires h in m
  {
    m[h].chainTx != 0 ==>
      && ParentLinked(m, h)
      && m[h].chainTx == TxBelow(m, h) + m[h].txCount
      && m[h].chainSprout == Plus(SproutBelow(m, h), m[h].sprout)
  }

  /** `h` has its data and only waits for its turn. */
  predicate Ripe(m: BlockMap, h: Hash) {
    h in m && m[h].haveData && m[h].chainTx == 0 && ParentLinked(m, h)
  }

  /** `h` has its data, but its parent is not linked. */
  predicate Waits(m: BlockMap, h: Hash) {
    h in m && m[h].haveData && !ParentLinked(m, h)
  }

  predicate EntryLinked(m: BlockMap, u: Waiting, queue: seq<Hash>, h: Hash)
    requires h in m
  {
    && DataOk(m[h])
    && TotalsOk(m, h)
    && (Ripe(m, h) ==> h in queue || ParentFailed(m, h))
    && (Waits(m, h) && m[h].prev.Some? ==> u[(Parent(m, h), h)] <= 1)
    && (Waits(m, h) && m[h].prev.Some? && !ParentFailed(m, h) ==> u[(Parent(m, h), h)] == 1)
  }

  predicate WaitingOk(m: BlockMap, u: Waiting) {
    forall e | e in u :: Waits(m, e.1) && m[e.1].prev == Some(e.0)
  }

  predicate QueueOk(m: BlockMap, queue: seq<Hash>) {
    && (forall i | 0 <= i < |queue| :: Ripe(m, queue[i]))
    && (forall i, j | 0 <= i < j < |queue| :: queue[i] != queue[j])
  }

  /** Every block with data is linked, waits for its parent under `u`, is in the queue, or was left
      out because its parent had failed. */
  ghost predicate Links(m: BlockMap, u: Waiting, queue: seq<Hash>) {
    && (forall h {:trigger EntryLinked(m, u, queue, h)} | h in m :: EntryLinked(m, u, queue, h))
    && WaitingOk(m, u)
    && QueueOk(m, queue)
  }

  // ----- What the invariant says -----

  ghost predicate AllData(m: BlockMap, h: Hash)
    requires WellFormed(m) && h in m
  {
    forall k | 0 <= k <= m[h].height :: m[Ancestor(m, h, k)].haveData
  }

  /** Totals over the path to `h`. */
  ghost function SumTx(m: BlockMap, h: Hash): nat
    requires WellFormed(m) && h in m
    decreases m[h].height
  {
    assert LinkOk(m, h);
    m[h].txCount + if m[h].prev.Some? then SumTx(m, Parent(m, h)) else 0
  }

  ghost function SumSprout(m: BlockMap, h: Hash): int
    requires WellFormed(m) && h in m
    decreases m[h].height
  {
    assert LinkOk(m, h);
    (if m[h].sprout.Some? then m[h].sprout.value else 0) + if m[h].prev.Some? then SumSprout(m, Parent(m, h)) else 0
  }

  ghost predicate NothingFailed(m: BlockMap) {
    forall h | h in m :: !m[h].Failed()
  }

  /** A linked block has all its data below it, and its totals are the sums. */
  lemma {:induction false} LinkedTotals(m: BlockMap, u: Waiting, h: Hash)
    requires WellFormed(m) && Links(m, u, []) && h in m && m[h].chainTx != 0
    ensures AllData(m, h) && m[h].chainTx == SumTx(m, h) && m[h].chainSprout == Some(SumSprout(m, h))
    decreases m[h].height
  {
    assert LinkOk(m, h) && EntryLinked(m, u, [], h);
    if m[h].prev.Some? {
      var p := Parent(m, h);
      LinkedTotals(m, u, p);
      forall k | 0 <= k <= m[h].height
        ensures m[Ancestor(m, h, k)].haveData
      {
        if k < m[h].height {
          assert Ancestor(m, h, k) == Ancestor(m, p, k);
        }
      }
    }
  }

  /** With nothing failed, a block with all its data below it is linked. */
  lemma {:induction false} DataLinks(m: BlockMap, u: Waiting, h: Hash)
    requires WellFormed(m) && Links(m, u, []) && NothingFailed(m) && h in m && AllData(m, h)
    ensures m[h].chainTx != 0
    decreases m[h].height
  {
    assert LinkOk(m, h) && EntryLinked(m, u, [], h);
    assert m[Ancestor(m, h, m[h].height)].haveData;
    if m[h].prev.Some? {
      var p := Parent(m, h);
      forall k | 0 <= k <= m[p].height
        ensures m[Ancestor(m, p, k)].haveData
      {
        assert Ancestor(m, h, k) == Ancestor(m, p, k);
      }
      DataLinks(m, u, p);
    }
  }

  /** Out-of-order arrival links correctly: with nothing failed, a block is linked exactly when it
      and all its ancestors have data, it then carries the sums over its path, and the blocks waiting
      are exactly those with data under a parent that is not linked, once each. */
  lemma OutOfOrderLinking(m: BlockMap, u: Waiting)
    requires WellFormed(m) && Links(m, u, []) && NothingFailed(m)
    ensures forall h | h in m :: m[h].chainTx != 0 <==> AllData(m, h)
    ensures forall h | h in m && AllData(m, h) ::
              m[h].chainTx == SumTx(m, h) && m[h].chainSprout == Some(SumSprout(m, h))
    ensures forall p, x :: u[(p, x)] ==
              if x in m && m[x].haveData && m[x].prev == Some(p) && p in m && m[p].chainTx == 0 then 1 else 0
  {
    forall h | h in m
      ensures m[h].chainTx != 0 <==> AllData(m, h)
      ensures m[h].chainTx != 0 ==> m[h].chainTx == SumTx(m, h) && m[h].chainSprout == Some(SumSprout(m, h))
    {
      if m[h].chainTx != 0 {
        LinkedTotals(m, u, h);
      }
      if AllData(m, h) {
        DataLinks(m, u, h);
      }
    }
    assert forall x | x in m :: LinkOk(m, x);
    forall p, x
      ensures u[(p, x)] == if x in m && m[x].haveData && m[x].prev == Some(p) && p in m && m[p].chainTx == 0 then 1 else 0
    {
      if x in m && m[x].haveData && m[x].prev == Some(p) && p in m && m[p].chainTx == 0 {
        assert EntryLinked(m, u, [], x) && Waits(m, x);
      }
    }
  }

  /** A usable block is linked, also when other blocks have failed. */
  lemma {:induction false} GoodIsLinked(m: BlockMap, u: Waiting, h: Hash)
    requires WellFormed(m) && Links(m, u, []) && h in m && Good(m, h)
    ensures m[h].chainTx != 0
    decreases m[h].height
  {
    assert LinkOk(m, h) && EntryLinked(m, u, [], h);
    if m[h].prev.Some? {
      GoodIsLinked(m, u, Parent(m, h));
    }
  }

  /** Failure flags do not disturb the links. */
  lemma LinksFlagged(m: BlockMap, m': BlockMap, u: Waiting, queue: seq<Hash>)
    requires Links(m, u, queue) && OnlyFlagged(m, m')
    ensures Links(m', u, queue)
  {
    assert forall h | h in m :: FlaggedEntry(m[h], m'[h]);
    forall h | h in m'
      ensures EntryLinked(m', u, queue, h)
    {
      assert EntryLinked(m, u, queue, h);
    }
  }

  // ----- Adding a header -----

  /** The entry `AddToBlockIndex` creates: its place in the tree, no data yet. */
  ghost predicate IsNewEntry(m: BlockMap, hashPrev: Hash, proof: nat, e: BlockIndex)
    requires WellFormed(m)
  {
    && !e.haveData && e.txCount == 0 && e.chainTx == 0 && e.sprout.None? && e.chainSprout.None?
    && !e.Failed() && e.sequenceId == 0
    && if hashPrev in m then
         && e.prev == Some(hashPrev) && e.height == m[hashPrev].height + 1
         && e.chainWork == m[hashPrev].chainWork + proof
         && e.skip == Some(Ancestor(m, hashPrev, SkipHeight(e.height)))
       else
         e.prev.None? && e.height == 0 && e.chainWork == proof && e.skip.None?
  }

  method AddToBlockIndex(m: BlockMap, h: Hash, hashPrev: Hash, proof: nat) returns (m': BlockMap)
    requires WellFormed(m) && SkipsOk(m) && h != NULL_HASH && proof > 0
    ensures h in m ==> m' == m
    ensures h !in m ==> h in m' && m' == m[h := m'[h]] && IsNewEntry(m, hashPrev, proof, m'[h])
    ensures WellFormed(m') && SkipsOk(m') && Grows(m, m')
  {
    if h in m {
      return m;
    }
    var e := BlockIndex(None, None, 0, proof, 0, 0, None, None, false, false, false, 0);
    if hashPrev in m {
      var skip := BuildSkip(m, hashPrev);
      e := e.(prev := Some(hashPrev), skip := skip, height := m[hashPrev].height + 1,
              chainWork := m[hashPrev].chainWork + proof);
    }
    ExtendKeepsWellFormed(m, h, e);
    m' := m[h := e];
  }

  /** A new header leaves everything linked as it was. */
  lemma AddKeepsLinks(m: BlockMap, m': BlockMap, u: Waiting, h: Hash)
    requires WellFormed(m) && Links(m, u, []) && h !in m && h in m' && m' == m[h := m'[h]]
    requires !m'[h].haveData && m'[h].txCount == 0 && m'[h].chainTx == 0
    requires m'[h].sprout.None? && m'[h].chainSprout.None?
    ensures Links(m', u, [])
  {
    forall g | g in m'
      ensures EntryLinked(m', u, [], g)
    {
      if g in m {
        assert EntryLinked(m, u, [], g) && LinkOk(m, g);
      }
    }
    forall e | e in u
      ensures Waits(m', e.1) && m'[e.1].prev == Some(e.0)
    {
      assert Waits(m, e.1) && LinkOk(m, e.1);
    }
  }

  // ----- Receiving data -----

  /** Same tree, data and failures; blocks linked before are untouched, and only blocks linked now
      have changed, with sequence numbers from `from` to below `to`. */
  ghost predicate OnlyLinked(m: BlockMap, m': BlockMap, from: nat, to: nat) {
    && m'.Keys == m.Keys
    && from <= to
    && forall h | h in m :: LinkedEntryOf(m[h], m'[h], from, to)
  }

  ghost predicate LinkedEntryOf(e: BlockIndex, e': BlockIndex, from: nat, to: nat) {
    && e' == e.(chainTx := e'.chainTx, chainSprout := e'.chainSprout, sequenceId := e'.sequenceId)
    && (e.chainTx != 0 || e'.chainTx == 0 ==> e' == e)
    && (e' != e ==> from <= e'.sequenceId < to)
  }

  /** The entry of `h` once it is linked. */
  function Link(m: BlockMap, h: Hash, id: nat): BlockIndex
    requires h in m
  {
    m[h].(chainTx := TxBelow(m, h) + m[h].txCount, chainSprout := Plus(SproutBelow(m, h), m[h].sprout), sequenceId := id)
  }

  /** Takes the blocks waiting for `x` out of the multimap. */
  method TakeChildren(u: Waiting, x: Hash) returns (u': Waiting, children: seq<Hash>)
    ensures forall e: (Hash, Hash) :: u'[e] == if e.0 == x then 0 else u[e]
    ensures forall c :: multiset(children)[c] == u[(x, c)]
  {
    u', children := u, [];
    while exists e | e in u' :: e.0 == x
      invariant forall e: (Hash, Hash) | e.0 != x :: u'[e] == u[e]
      invariant forall c :: multiset(children)[c] + u'[(x, c)] == u[(x, c)]
      decreases |u'|
    {
      var e :| e in u' && e.0 == x;
      assert e == (x, e.1);
      children := children + [e.1];
      u' := u' - multiset{e};
    }
    forall e: (Hash, Hash)
      ensures u'[e] == if e.0 == x then 0 else u[e]
    {
      assert e.0 == x ==> e !in u';
    }
    forall c
      ensures multiset(children)[c] == u[(x, c)]
    {
      assert (x, c).0 == x;
    }
  }

  lemma LinkKeepsTree(m: BlockMap, x: Hash, id: nat)
    requires WellFormed(m) && x in m
    ensures WellFormed(m[x := Link(m, x, id)]) && Grows(m, m[x := Link(m, x, id)])
  {
    var m' := m[x := Link(m, x, id)];
    forall h | h in m'
      ensures LinkOk(m', h)
    {
      assert LinkOk(m, h);
    }
  }

  /** No block is its own parent. */
  lemma NotOwnParent(m: BlockMap, h: Hash)
    requires WellFormed(m) && h in m
    ensures m[h].prev != Some(h)
  {
    assert LinkOk(m, h);
  }

  lemma {:induction false} CountOne<T>(s: seq<T>, i: nat, j: nat)
    requires i < j < |s| && s[i] == s[j]
    ensures multiset(s)[s[i]] >= 2
  {
    assert s == s[..j] + [s[j]] + s[j + 1..];
    assert s[..j][i] == s[i];
    assert s[i] in multiset(s[..j]);
  }

  /** Linking the first block of the queue and queueing those that waited for it keeps the links. */
  lemma LinkStep(m: BlockMap, u: Waiting, u': Waiting, queue: seq<Hash>, children: seq<Hash>, id: nat)
    requires WellFormed(m) && queue != [] && Links(m, u, queue)
    requires forall e: (Hash, Hash) :: u'[e] == if e.0 == queue[0] then 0 else u[e]
    requires forall c :: multiset(children)[c] == u[(queue[0], c)]
    ensures queue[0] in m && Links(m[queue[0] := Link(m, queue[0], id)], u', queue[1..] + children)
  {
    hide EntryLinked, DataOk, QueueOk, LinkOk, Ripe, Waits, WaitingOk, Link;
    FrontOk(m, u, queue);
    var x := queue[0];
    var m' := m[x := Link(m, x, id)];
    var queue' := queue[1..] + children;
    NewQueue(m, u, queue, children, id);
    forall h | h in m'
      ensures EntryLinked(m', u', queue', h)
    {
      assert LinkOk(m, h) && EntryLinked(m, u, queue, h);
      NotOwnParent(m, h);
      StepEntry(m, u, u', queue, children, id, h);
    }
    StillWaiting(m, u, u', x, id);
  }

  /** The first block of the queue is ripe, and its parent is in order. */
  lemma FrontOk(m: BlockMap, u: Waiting, queue: seq<Hash>)
    requires WellFormed(m) && queue != [] && Links(m, u, queue)
    ensures Ripe(m, queue[0]) && queue[0] in m && DataOk(m[queue[0]]) && m[queue[0]].prev != Some(queue[0])
    ensures ParentLinked(m, queue[0]) && (m[queue[0]].prev.Some? ==> DataOk(m[Parent(m, queue[0])]))
  {
    hide LinkOk;
    assert Ripe(m, queue[0]) && EntryLinked(m, u, queue, queue[0]);
    NotOwnParent(m, queue[0]);
    if m[queue[0]].prev.Some? {
      assert EntryLinked(m, u, queue, Parent(m, queue[0]));
    }
  }

  lemma StillWaiting(m: BlockMap, u: Waiting, u': Waiting, x: Hash, id: nat)
    requires WellFormed(m) && x in m && WaitingOk(m, u)
    requires forall e: (Hash, Hash) :: u'[e] == if e.0 == x then 0 else u[e]
    ensures WaitingOk(m[x := Link(m, x, id)], u')
  {
    hide LinkOk;
    var m' := m[x := Link(m, x, id)];
    forall e | e in u'
      ensures Waits(m', e.1) && m'[e.1].prev == Some(e.0)
    {
      assert e in u && Waits(m, e.1);
    }
  }

  lemma NewQueue(m: BlockMap, u: Waiting, queue: seq<Hash>, children: seq<Hash>, id: nat)
    requires WellFormed(m) && queue != [] && Links(m, u, queue)
    requires forall c :: multiset(children)[c] == u[(queue[0], c)]
    ensures queue[0] in m && QueueOk(m[queue[0] := Link(m, queue[0], id)], queue[1..] + children)
    ensures forall c | c in children :: c in m && m[c].prev == Some(queue[0]) && Waits(m, c)
  {
    var x := queue[0];
    assert Ripe(m, x) && EntryLinked(m, u, queue, x);
    var m' := m[x := Link(m, x, id)];
    forall c | c in children
      ensures c in m && m[c].prev == Some(x) && Waits(m, c) && Ripe(m', c) && u[(x, c)] == 1
    {
      assert multiset(children)[c] > 0;
      assert (x, c) in u;
      assert EntryLinked(m, u, queue, c);
      NotOwnParent(m, c);
    }
    forall i | 0 <= i < |queue[1..]|
      ensures Ripe(m', queue[1..][i]) && queue[1..][i] != x && queue[1..][i] !in children
    {
      assert Ripe(m, queue[i + 1]);
      NotOwnParent(m, queue[i + 1]);
    }
    forall i, j | 0 <= i < j < |children|
      ensures children[i] != children[j]
    {
      if children[i] == children[j] {
        CountOne(children, i, j);
      }
    }
  }

  lemma StepEntry(m: BlockMap, u: Waiting, u': Waiting, queue: seq<Hash>, children: seq<Hash>, id: nat, h: Hash)
    requires queue != [] && Ripe(m, queue[0]) && h in m && LinkOk(m, h) && m[h].prev != Some(h)
    requires DataOk(m[queue[0]]) && m[queue[0]].prev != Some(queue[0])
    requires ParentLinked(m, queue[0]) && (m[queue[0]].prev.Some? ==> DataOk(m[Parent(m, queue[0])]))
    requires EntryLinked(m, u, queue, h)
    requires forall e: (Hash, Hash) :: u'[e] == if e.0 == queue[0] then 0 else u[e]
    requires forall c :: multiset(children)[c] == u[(queue[0], c)]
    ensures EntryLinked(m[queue[0] := Link(m, queue[0], id)], u', queue[1..] + children, h)
  {
    var x := queue[0];
    var m' := m[x := Link(m, x, id)];
    var queue' := queue[1..] + children;
    assert forall g | g in queue && g != x :: g in queue';
    if h != x && m[h].prev == Some(x) {
      assert u[(x, h)] > 0 ==> h in children;
    }
  }

  // ----- The candidates -----

  /** Every candidate is linked. */
  ghost predicate AllLinked(m: BlockMap, cands: set<Hash>) {
    forall c | c in cands :: c in m && m[c].chainTx != 0
  }

  predicate NotWorse(m: BlockMap, h: Hash, tip: Option<Hash>)
    requires h in m && (tip.Some? ==> tip.value in m)
  {
    tip.None? || !Worse(m, h, tip.value)
  }

  /** Every usable linked block that is not worse than the tip is a candidate. */
  ghost predicate LinkedComplete(m: BlockMap, cands: set<Hash>, tip: Option<Hash>)
    requires WellFormed(m) && (tip.Some? ==> tip.value in m)
  {
    forall g {:trigger Good(m, g)} | g in m && m[g].chainTx != 0 && Good(m, g) && NotWorse(m, g, tip) :: g in cands
  }

  lemma {:induction false} GoodSame(m: BlockMap, m': BlockMap, from: nat, to: nat, h: Hash)
    requires WellFormed(m) && WellFormed(m') && OnlyLinked(m, m', from, to) && h in m
    ensures Good(m', h) <==> Good(m, h)
    decreases m[h].height
  {
    assert LinkOk(m, h) && LinkOk(m', h) && LinkedEntryOf(m[h], m'[h], from, to);
    if m[h].prev.Some? {
      GoodSame(m, m', from, to, Parent(m, h));
    }
  }

  /** Linking one block changes only that block. */
  lemma LinkIsOnly(m: BlockMap, x: Hash, id: nat)
    requires Ripe(m, x) && DataOk(m[x])
    ensures OnlyLinked(m, m[x := Link(m, x, id)], id, id + 1)
  {
    var m' := m[x := Link(m, x, id)];
    forall h | h in m
      ensures LinkedEntryOf(m[h], m'[h], id, id + 1)
    {
    }
  }

  lemma OnlyLinkedTransitive(m: BlockMap, m': BlockMap, m'': BlockMap, from: nat, mid: nat, to: nat)
    requires OnlyLinked(m, m', from, mid) && OnlyLinked(m', m'', mid, to)
    ensures OnlyLinked(m, m'', from, to)
  {
    forall h | h in m
      ensures LinkedEntryOf(m[h], m''[h], from, to)
    {
      assert LinkedEntryOf(m[h], m'[h], from, mid) && LinkedEntryOf(m'[h], m''[h], mid, to);
    }
  }

  /** A newly linked block becomes a candidate unless it is worse than the tip. */
  lemma CompleteStep(m: BlockMap, cands: set<Hash>, tip: Option<Hash>, x: Hash, id: nat)
    requires WellFormed(m) && Ripe(m, x) && DataOk(m[x])
    requires tip.Some? ==> tip.value in m && m[tip.value].chainTx != 0
    requires AllLinked(m, cands) && LinkedComplete(m, cands, tip)
    ensures var m' := m[x := Link(m, x, id)];
            var cands' := if NotWorse(m', x, tip) then cands + {x} else cands;
            WellFormed(m') && AllLinked(m', cands') && LinkedComplete(m', cands', tip)
  {
    LinkKeepsTree(m, x, id);
    LinkIsOnly(m, x, id);
    var m' := m[x := Link(m, x, id)];
    forall g | g in m' && m'[g].chainTx != 0 && Good(m', g) && NotWorse(m', g, tip) && g != x
      ensures g in cands
    {
      GoodSame(m, m', id, id + 1, g);
    }
  }

  // ----- Receiving data -----

  /** Blocks not linked yet. */
  ghost function Pending(m: BlockMap): set<Hash> {
    set h | h in m && m[h].chainTx == 0
  }

  /** The candidates gained are linked now and not worse than the tip. */
  ghost predicate Gained(m: BlockMap, m': BlockMap, cands: set<Hash>, cands': set<Hash>, tip: Option<Hash>)
    requires tip.Some? ==> tip.value in m'
  {
    && cands <= cands'
    && forall c | c in cands' && c !in cands ::
         c in m && c in m' && m[c].chainTx == 0 && m'[c].chainTx != 0 && NotWorse(m', c, tip)
  }

  /** The blocks of `order` have been linked, in that order, and numbered from `from` on; no other block has
      changed. */
  ghost predicate Numbered(m: BlockMap, m': BlockMap, order: seq<Hash>, from: nat) {
    && m'.Keys == m.Keys
    && (forall i | 0 <= i < |order| :: order[i] in m && NewlyLinked(m[order[i]], m'[order[i]], from + i))
    && (forall h | h in m && h !in order :: m'[h] == m[h])
  }

  predicate NewlyLinked(e: BlockIndex, e': BlockIndex, id: nat) {
    e.chainTx == 0 && e'.chainTx != 0 && e'.sequenceId == id
  }

  /** Every sequence number given so far is below the next one. */
  ghost predicate IdsBelow(m: BlockMap, next: nat) {
    next > 0 && forall h | h in m :: m[h].sequenceId < next
  }

  /** Blocks linked now get larger sequence numbers than all blocks before. */
  lemma NewIdsLater(m: BlockMap, h: Hash, txCount: nat, sprout: int, m': BlockMap, order: seq<Hash>, next: nat)
    requires h in m && IdsBelow(m, next) && Numbered(WithData(m, h, txCount, sprout), m', order, next)
    ensures IdsBelow(m', next + |order|)
    ensures forall g, i | g in m && 0 <= i < |order| :: order[i] in m' && m[g].sequenceId < m'[order[i]].sequenceId
  {
    forall g | g in m'
      ensures m'[g].sequenceId < next + |order|
    {
      if g in order {
        var i :| 0 <= i < |order| && order[i] == g;
      }
    }
  }

  /** A block comes after its parent, and no block before one that is lower in the tree. */
  ghost predicate BreadthFirst(m: BlockMap, order: seq<Hash>) {
    && (forall i | 0 <= i < |order| :: order[i] in m && ParentBefore(m, order[i], order[..i]))
    && (forall i, j | 0 <= i < j < |order| :: m[order[i]].height <= m[order[j]].height)
  }

  ghost predicate ParentBefore(m: BlockMap, h: Hash, done: seq<Hash>)
    requires h in m
  {
    m[h].prev.Some? ==> m[h].prev.value in done || (m[h].prev.value in m && m[m[h].prev.value].chainTx != 0)
  }

  /** What is queued continues the order: by height, and at most one level above what was linked last. */
  ghost predicate Continues(m: BlockMap, order: seq<Hash>, queue: seq<Hash>) {
    && (forall i | 0 <= i < |queue| :: queue[i] in m)
    && (forall i, j | 0 <= i < j < |queue| :: m[queue[i]].height <= m[queue[j]].height)
    && (if order == [] then |queue| <= 1
        else
          var last := order[|order| - 1];
          last in m && forall i | 0 <= i < |queue| :: m[last].height <= m[queue[i]].height <= m[last].height + 1)
  }

  lemma NumberedStep(m: BlockMap, m': BlockMap, order: seq<Hash>, from: nat, x: Hash)
    requires WellFormed(m) && Numbered(m, m', order, from) && Ripe(m', x) && DataOk(m'[x])
    requires OnlyLinked(m, m', from, from + |order|)
    ensures Numbered(m, m'[x := Link(m', x, from + |order|)], order + [x], from)
    ensures x in m && ParentBefore(m, x, order)
  {
    assert LinkOk(m, x) && LinkedEntryOf(m[x], m'[x], from, from + |order|);
    forall i | 0 <= i < |order|
      ensures order[i] != x
    {
      assert NewlyLinked(m[order[i]], m'[order[i]], from + i);
    }
    assert x !in order;
  }

  lemma BreadthStep(m: BlockMap, order: seq<Hash>, queue: seq<Hash>, children: seq<Hash>)
    requires WellFormed(m) && BreadthFirst(m, order) && queue != [] && Continues(m, order, queue)
    requires ParentBefore(m, queue[0], order)
    requires forall i | 0 <= i < |children| :: children[i] in m && m[children[i]].prev == Some(queue[0])
    ensures BreadthFirst(m, order + [queue[0]]) && Continues(m, order + [queue[0]], queue[1..] + children)
  {
    var x, order', queue' := queue[0], order + [queue[0]], queue[1..] + children;
    forall i | 0 <= i < |children|
      ensures m[children[i]].height == m[x].height + 1
    {
      assert LinkOk(m, children[i]);
    }
    forall i | 0 <= i < |order'|
      ensures order'[i] in m && ParentBefore(m, order'[i], order'[..i])
    {
      if i < |order| {
        assert order'[..i] == order[..i] && ParentBefore(m, order[i], order[..i]);
      } else {
        assert order'[..i] == order;
      }
    }
    HeightsStep(m, order, queue, children);
  }

  lemma HeightsStep(m: BlockMap, order: seq<Hash>, queue: seq<Hash>, children: seq<Hash>)
    requires queue != [] && Continues(m, order, queue)
    requires forall i | 0 <= i < |order| :: order[i] in m
    requires forall i, j | 0 <= i < j < |order| :: m[order[i]].height <= m[order[j]].height
    requires forall i | 0 <= i < |children| :: children[i] in m && m[children[i]].height == m[queue[0]].height + 1
    ensures var order' := order + [queue[0]];
            forall i, j | 0 <= i < j < |order'| :: m[order'[i]].height <= m[order'[j]].height
    ensures Continues(m, order + [queue[0]], queue[1..] + children)
  {
    var x, queue' := queue[0], queue[1..] + children;
    forall i | 0 <= i < |queue'|
      ensures queue'[i] in m && m[x].height <= m[queue'[i]].height <= m[x].height + 1
    {
      if i < |queue| - 1 {
        assert queue'[i] == queue[i + 1];
        assert order != [] ==> m[order[|order| - 1]].height <= m[x].height;
      } else {
        assert queue'[i] == children[i - (|queue| - 1)];
      }
    }
  }

  /** Links `h` and, breadth first, all blocks that had been waiting for it. Each gets the next sequence
      number, so that an earlier block stays ahead of a later one with as much work. */
  method LinkDescendants(m: BlockMap, u: Waiting, cands: set<Hash>, tip: Option<Hash>, nextId: nat, h: Hash)
    returns (m': BlockMap, u': Waiting, cands': set<Hash>, nextId': nat, ghost order: seq<Hash>)
    requires WellFormed(m) && Links(m, u, [h])
    requires tip.Some? ==> tip.value in m && m[tip.value].chainTx != 0
    requires AllLinked(m, cands) && LinkedComplete(m, cands, tip)
    ensures WellFormed(m') && Links(m', u', []) && OnlyLinked(m, m', nextId, nextId')
    ensures tip.Some? ==> tip.value in m'
    ensures AllLinked(m', cands') && LinkedComplete(m', cands', tip) && Gained(m, m', cands, cands', tip)
    ensures Numbered(m, m', order, nextId) && nextId' == nextId + |order|
    ensures BreadthFirst(m, order) && |order| > 0 && order[0] == h
  {
    hide *;
    m', u', cands', nextId', order := m, u, cands, nextId, [];
    LinkStart(m, cands, tip, nextId);
    OrderStart(m, nextId);
    QueueStart(m, u, h);
    var queue := [h];
    while queue != []
      invariant WellFormed(m') && Links(m', u', queue) && OnlyLinked(m, m', nextId, nextId')
      invariant tip.Some? ==> tip.value in m' && m'[tip.value].chainTx != 0
      invariant AllLinked(m', cands') && LinkedComplete(m', cands', tip) && Gained(m, m', cands, cands', tip)
      invariant Numbered(m, m', order, nextId) && nextId' == nextId + |order|
      invariant BreadthFirst(m, order) && Continues(m, order, queue)
      invariant if order == [] then queue == [h] else order[0] == h
      decreases Pending(m')
    {
      var x := queue[0];
      FrontOk(m', u', queue);
      var linked := m'[x := Link(m', x, nextId')];
      ghost var before, grown := m', cands';
      Keys(m', tip, x, nextId');
      CompleteStep(m', cands', tip, x, nextId');
      if NotWorse(linked, x, tip) {
        cands' := cands' + {x};
      }
      var rest, children := TakeChildren(u', x);
      LinkStep(m', u', rest, queue, children, nextId');
      LinkIsOnly(m', x, nextId');
      OnlyLinkedTransitive(m, m', linked, nextId, nextId', nextId' + 1);
      GainedStep(m, m', x, nextId', nextId, cands, grown, tip);
      NumberedStep(m, m', order, nextId, x);
      ChildrenOf(m, m', u', queue, children, nextId, nextId');
      BreadthStep(m, order, queue, children);
      m', u', queue, nextId', order := linked, rest, queue[1..] + children, nextId' + 1, order + [x];
    }
  }

  lemma OrderStart(m: BlockMap, id: nat)
    ensures Numbered(m, m, [], id) && BreadthFirst(m, [])
  {
  }

  lemma QueueStart(m: BlockMap, u: Waiting, h: Hash)
    requires Links(m, u, [h])
    ensures Continues(m, [], [h])
  {
    assert Ripe(m, [h][0]);
  }

  /** The blocks taken from the multimap are children of the block they waited for. */
  lemma ChildrenOf(
    m: BlockMap, m': BlockMap, u: Waiting, queue: seq<Hash>, children: seq<Hash>, from: nat, to: nat)
    requires OnlyLinked(m, m', from, to) && queue != [] && Links(m', u, queue)
    requires forall c :: multiset(children)[c] == u[(queue[0], c)]
    ensures forall i | 0 <= i < |children| :: children[i] in m && m[children[i]].prev == Some(queue[0])
  {
    forall i | 0 <= i < |children|
      ensures children[i] in m && m[children[i]].prev == Some(queue[0])
    {
      var c := children[i];
      assert multiset(children)[c] > 0;
      assert (queue[0], c) in u;
      assert LinkedEntryOf(m[c], m'[c], from, to);
    }
  }

  lemma LinkStart(m: BlockMap, cands: set<Hash>, tip: Option<Hash>, id: nat)
    requires tip.Some? ==> tip.value in m
    ensures OnlyLinked(m, m, id, id) && Gained(m, m, cands, cands, tip)
  {
  }

  lemma Keys(m: BlockMap, tip: Option<Hash>, x: Hash, id: nat)
    requires Ripe(m, x) && DataOk(m[x]) && (tip.Some? ==> tip.value in m && m[tip.value].chainTx != 0)
    ensures var m' := m[x := Link(m, x, id)];
            && x in m' && Pending(m') < Pending(m)
            && (tip.Some? ==> tip.value in m' && m'[tip.value].chainTx != 0)
  {
    assert x in Pending(m) && x !in Pending(m[x := Link(m, x, id)]);
  }

  lemma GainedStep(
    m: BlockMap, m': BlockMap, x: Hash, id: nat, from: nat, cands: set<Hash>, cands': set<Hash>, tip: Option<Hash>)
    requires Ripe(m', x) && DataOk(m'[x]) && OnlyLinked(m, m', from, id)
    requires tip.Some? ==> tip.value in m' && m'[tip.value].chainTx != 0
    requires Gained(m, m', cands, cands', tip)
    ensures var linked := m'[x := Link(m', x, id)];
            Gained(m, linked, cands, if NotWorse(linked, x, tip) then cands' + {x} else cands', tip)
  {
    assert LinkedEntryOf(m[x], m'[x], from, id);
  }

  /** The index once the data of `h` is there. */
  function WithData(m: BlockMap, h: Hash, txCount: nat, sprout: int): BlockMap
    requires h in m
  {
    m[h := m[h].(txCount := txCount, chainTx := 0, sprout := Some(sprout), chainSprout := None, haveData := true)]
  }

  /** Data of `h` arrives: it is ripe, waits for its parent, or is ignored under a failed parent. */
  lemma DataArrives(m: BlockMap, u: Waiting, h: Hash, txCount: nat, sprout: int)
    requires WellFormed(m) && Links(m, u, []) && h in m && !m[h].haveData && txCount > 0
    ensures var m' := WithData(m, h, txCount, sprout);
            && WellFormed(m')
            && Links(m', if !ParentLinked(m, h) && !ParentFailed(m, h) then u + multiset{(Parent(m, h), h)} else u,
                     if ParentLinked(m, h) then [h] else [])
  {
    hide DataOk, TotalsOk, EntryLinked, QueueOk;
    var m' := WithData(m, h, txCount, sprout);
    var u' := if !ParentLinked(m, h) && !ParentFailed(m, h) then u + multiset{(Parent(m, h), h)} else u;
    var queue := if ParentLinked(m, h) then [h] else [];
    assert EntryLinked(m, u, [], h);
    NotOwnParent(m, h);
    Unarrived(m, u, h);
    forall g | g in m'
      ensures LinkOk(m', g)
    {
      assert LinkOk(m, g);
    }
    forall g | g in m'
      ensures EntryLinked(m', u', queue, g)
    {
      assert EntryLinked(m, u, [], g) && LinkOk(m, g);
      NotOwnParent(m, g);
      ArrivedEntry(m, u, h, txCount, sprout, g);
    }
    ArrivedQueue(m', h);
  }

  lemma Unarrived(m: BlockMap, u: Waiting, h: Hash)
    requires h in m && !m[h].haveData && EntryLinked(m, u, [], h)
    ensures m[h].chainTx == 0
  {
  }

  lemma ArrivedQueue(m: BlockMap, h: Hash)
    requires h in m && m[h].haveData && m[h].chainTx == 0
    ensures QueueOk(m, if ParentLinked(m, h) then [h] else [])
  {
  }

  lemma ArrivedEntry(m: BlockMap, u: Waiting, h: Hash, txCount: nat, sprout: int, g: Hash)
    requires h in m && g in m && !m[h].haveData && m[h].chainTx == 0 && txCount > 0
    requires EntryLinked(m, u, [], g) && LinkOk(m, g) && LinkOk(m, h) && m[h].prev != Some(h) && m[g].prev != Some(g)
    requires forall e | e in u :: e.1 != h
    ensures EntryLinked(WithData(m, h, txCount, sprout),
                        if !ParentLinked(m, h) && !ParentFailed(m, h) then u + multiset{(Parent(m, h), h)} else u,
                        if ParentLinked(m, h) then [h] else [], g)
  {
  }

  /** A block above `h` was not linked while `h` had no data, so new data adds no usable linked block. */
  lemma DataKeepsComplete(m: BlockMap, u: Waiting, cands: set<Hash>, tip: Option<Hash>, h: Hash, txCount: nat, sprout: int)
    requires WellFormed(m) && Links(m, u, []) && h in m && !m[h].haveData
    requires tip.Some? ==> tip.value in m && m[tip.value].chainTx != 0
    requires AllLinked(m, cands) && LinkedComplete(m, cands, tip)
    requires WellFormed(WithData(m, h, txCount, sprout))
    ensures var m' := WithData(m, h, txCount, sprout);
            && AllLinked(m', cands) && LinkedComplete(m', cands, tip)
            && (tip.Some? ==> tip.value in m' && m'[tip.value].chainTx != 0)
  {
    var m' := WithData(m, h, txCount, sprout);
    assert EntryLinked(m, u, [], h);
    forall g | g in m' && m'[g].chainTx != 0 && Good(m', g) && NotWorse(m', g, tip)
      ensures g in cands
    {
      StillGood(m, u, h, txCount, sprout, g);
    }
  }

  lemma {:induction false} StillGood(m: BlockMap, u: Waiting, h: Hash, txCount: nat, sprout: int, g: Hash)
    requires WellFormed(m) && Links(m, u, []) && h in m && !m[h].haveData && WellFormed(WithData(m, h, txCount, sprout))
    requires g in m && m[g].chainTx != 0 && Good(WithData(m, h, txCount, sprout), g)
    ensures Good(m, g)
    decreases m[g].height
  {
    assert LinkOk(m, g) && EntryLinked(m, u, [], g);
    if m[g].prev.Some? {
      StillGood(m, u, h, txCount, sprout, Parent(m, g));
    }
  }

  /** The data of `h` has been received and checked. */
  method ReceivedBlockTransactions(
    m: BlockMap, u: Waiting, cands: set<Hash>, tip: Option<Hash>, nextId: nat, h: Hash, txCount: nat, sprout: int)
    returns (m': BlockMap, u': Waiting, cands': set<Hash>, nextId': nat, ghost order: seq<Hash>)
    requires WellFormed(m) && Links(m, u, []) && h in m && !m[h].haveData && txCount > 0
    requires tip.Some? ==> tip.value in m && m[tip.value].chainTx != 0
    requires AllLinked(m, cands) && LinkedComplete(m, cands, tip)
    ensures WellFormed(m') && Links(m', u', []) && OnlyLinked(WithData(m, h, txCount, sprout), m', nextId, nextId')
    ensures tip.Some? ==> tip.value in m'
    ensures AllLinked(m', cands') && LinkedComplete(m', cands', tip)
    ensures Gained(WithData(m, h, txCount, sprout), m', cands, cands', tip)
    ensures Numbered(WithData(m, h, txCount, sprout), m', order, nextId) && nextId' == nextId + |order|
    ensures BreadthFirst(WithData(m, h, txCount, sprout), order)
    ensures if ParentLinked(m, h) then |order| > 0 && order[0] == h else order == []
  {
    hide *;
    m' := WithData(m, h, txCount, sprout);
    u', cands', nextId', order := u, cands, nextId, [];
    DataArrives(m, u, h, txCount, sprout);
    DataKeepsComplete(m, u, cands, tip, h, txCount, sprout);
    if ParentLinked(m, h) {
      m', u', cands', nextId', order := LinkDescendants(m', u', cands', tip, nextId, h);
    } else {
      LinkStart(m', cands, tip, nextId);
      OrderStart(m', nextId);
      HasParent(m, h);
      if !ParentFailed(m, h) {
        u' := u' + multiset{(m[h].prev.value, h)};
      }
    }
  }

  lemma HasParent(m: BlockMap, h: Hash)
    requires h in m && !ParentLinked(m, h)
    ensures m[h].prev.Some? && Parent(m, h) == m[h].prev.value
  {
  }
}
