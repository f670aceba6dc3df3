/** What the rules mean for a whole chain, on its blocks and heights. */
module ChainFacts {
  import opened Primitives
  import opened ChainView
  import opened Blocks
  import opened Inversion
  import opened Runs
  import opened Ledger
  import opened Reflection
  import opened Consensus
  import Redo

  // ----- Positions in the history -----

  lemma PastStep(chain: seq<Block>, h: nat)
    requires 1 <= h < |chain|
    ensures Past(chain[..h + 1]) == Past(chain[..h]) + Placing(chain[h].vtx, h, |chain[h].vtx|)
  {
    PrefixSnoc(chain, h);
  }

  lemma {:induction false} PastGrows(chain: seq<Block>, g: nat, h: nat)
    requires g <= h <= |chain|
    ensures Past(chain[..g]) <= Past(chain[..h])
    decreases h
  {
    if g < h {
      PastGrows(chain, g, h - 1);
      if h > 1 {
        PastStep(chain, h - 1);
      }
    }
  }

  lemma {:induction false} PlacingPrefix(vtx: seq<Tx>, height: nat, m: nat, n: nat)
    requires m <= n <= |vtx|
    ensures Placing(vtx, height, m) <= Placing(vtx, height, n)
  {
    if m < n {
      PlacingPrefix(vtx, height, m, n - 1);
    }
  }

  /** The transactions before number `i` of block `h` come first. */
  lemma PastPrefix(chain: seq<Block>, h: nat, i: nat, top: nat)
    requires 1 <= h < top <= |chain| && i <= |chain[h].vtx|
    ensures Past(chain[..h]) + Placing(chain[h].vtx, h, i) <= Past(chain[..top])
  {
    hide Past, Placing;
    PlacingPrefix(chain[h].vtx, h, i, |chain[h].vtx|);
    PastStep(chain, h);
    PastGrows(chain, h + 1, top);
  }

  lemma PastNone(chain: seq<Block>, h: nat)
    requires h <= |chain|
    ensures h <= 1 ==> Past(chain[..h]) == []
  {
  }

  lemma ConcatAt(a: seq<Placed>, b: seq<Placed>, p: nat)
    requires p < |a + b|
    ensures (a + b)[p] == if p < |a| then a[p] else b[p - |a|]
  {
  }

  /** Each entry of the history is some transaction of some block. */
  lemma {:induction false} WhereIs(chain: seq<Block>, h: nat, p: nat) returns (g: nat, i: nat)
    requires h <= |chain| && p < |Past(chain[..h])|
    ensures 1 <= g < h && i < |chain[g].vtx|
    ensures Past(chain[..h])[p] == Placed(chain[g].vtx[i], g) && p == |Past(chain[..g])| + i
    decreases h
  {
    hide *;
    PastNone(chain, h);
    PastStep(chain, h - 1);
    var before, added := Past(chain[..h - 1]), Placing(chain[h - 1].vtx, h - 1, |chain[h - 1].vtx|);
    ConcatAt(before, added, p);
    if p < |before| {
      g, i := WhereIs(chain, h - 1, p);
    } else {
      g, i := h - 1, p - |before|;
    }
  }

  // ----- Coinbase maturity -----

  /** Transactions with the same id are the same, wherever they are in the chain. */
  ghost predicate OneMeaning(chain: seq<Block>) {
    forall g, i, h, j | 0 <= g < |chain| && 0 <= i < |chain[g].vtx| && 0 <= h < |chain| && 0 <= j < |chain[h].vtx| ::
      chain[g].vtx[i].hash == chain[h].vtx[j].hash ==> chain[g].vtx[i] == chain[h].vtx[j]
  }

  /** No block below has an unspent output of an id that block `g` uses. */
  lemma NewInBlock(rules: Rules, chain: seq<Block>, past: seq<Placed>, g: nat, i: nat, p: nat, op: OutPoint)
    requires rules.halvingInterval > 0 && FollowsRules(rules, chain)
    requires 1 <= g < |chain| && i < |chain[g].vtx| && op.hash == chain[g].vtx[i].hash
    requires Past(chain[..g]) <= past && Unspent(past, p, op)
    ensures p >= |Past(chain[..g])|
  {
    hide FormedBlock, JoinsAt, Pays, SigOps, Fees, Makes, Uses, Past;
    assert Valid(rules, chain[..g], chain[g]);
    var spent, reward: nat :| Extends(rules, chain[..g], chain[g], spent, reward);
    assert !Unspent(Past(chain[..g]), p, OutPoint(chain[g].vtx[i].hash, op.n));
  }

  /** The first transaction of each block, and no other, is a coinbase. */
  lemma FirstIsCoinBase(rules: Rules, chain: seq<Block>, g: nat)
    requires rules.halvingInterval > 0 && FollowsRules(rules, chain) && g < |chain|
    ensures forall i | 0 <= i < |chain[g].vtx| :: CoinBase(chain[g].vtx[i]) <==> i == 0
  {
    hide CoinBase, Formed, Extends;
    assert Valid(rules, chain[..g], chain[g]);
  }

  /** What pays for an input: a transaction before it, mature if it is a coinbase. */
  lemma FundedBy(rules: Rules, chain: seq<Block>, h: nat, i: nat, j: nat) returns (p: nat)
    requires rules.halvingInterval > 0 && FollowsRules(rules, chain)
    requires 1 <= h < |chain| && 0 < i < |chain[h].vtx| && j < |chain[h].vtx[i].vin|
    ensures var past, tx := Past(chain[..h]) + Placing(chain[h].vtx, h, i), chain[h].vtx[i];
            && p < |past|
            && Unspent(past, p, tx.vin[j].prevout)
            && Mature(rules, past[p], tx, h)
  {
    hide FormedBlock, Pays, SigOps, Fees, Past, NewIds, JoinSplitJoins, Placing, Worth, In, Out, Mature, Unspent;
    FirstIsCoinBase(rules, chain, h);
    assert Valid(rules, chain[..h], chain[h]);
    var spent, reward: nat :| Extends(rules, chain[..h], chain[h], spent, reward);
    var tx := chain[h].vtx[i];
    assert JoinsAt(rules, chain[..h], chain[h].vtx, i, spent[i]);
    assert Funds(rules, Past(chain[..h]) + Placing(chain[h].vtx, h, i), tx, h, tx.vin[j].prevout, spent[i][j]);
    p := FundedAt(rules, Past(chain[..h]) + Placing(chain[h].vtx, h, i), tx, h, tx.vin[j].prevout, spent[i][j]);
  }

  lemma FundedAt(rules: Rules, past: seq<Placed>, tx: Tx, height: nat, op: OutPoint, out: TxOut) returns (p: nat)
    requires Funds(rules, past, tx, height, op, out)
    ensures p < |past| && Unspent(past, p, op) && Mature(rules, past[p], tx, height)
  {
    p :| Unspent(past, p, op) && out == past[p].tx.vout[op.n] && Mature(rules, past[p], tx, height);
  }

  /** Where the payer of an input is, and that it has the id the input names. */
  lemma PayerOf(rules: Rules, chain: seq<Block>, h: nat, i: nat, j: nat) returns (g: nat, k: nat)
    requires rules.halvingInterval > 0 && FollowsRules(rules, chain)
    requires 1 <= h < |chain| && 0 < i < |chain[h].vtx| && j < |chain[h].vtx[i].vin|
    ensures 1 <= g <= h && k < |chain[g].vtx|
    ensures var op, tx := chain[h].vtx[i].vin[j].prevout, chain[h].vtx[i];
            && chain[g].vtx[k].hash == op.hash
            && Mature(rules, Placed(chain[g].vtx[k], g), tx, h)
            && forall f, l | g < f <= h && 0 <= l < |chain[f].vtx| && (f == h ==> l < i) :: chain[f].vtx[l].hash != op.hash
  {
    hide FollowsRules, Past, Placing, Mature, Makes, Uses;
    var past, op := Past(chain[..h]) + Placing(chain[h].vtx, h, i), chain[h].vtx[i].vin[j].prevout;
    var p := FundedBy(rules, chain, h, i, j);
    UnspentIsMade(past, p, op);
    if p < |Past(chain[..h])| {
      g, k := WhereIs(chain, h, p);
    } else {
      g, k := h, p - |Past(chain[..h])|;
    }
    forall f, l | g < f <= h && 0 <= l < |chain[f].vtx| && (f == h ==> l < i)
      ensures chain[f].vtx[l].hash != op.hash
    {
      PastGrows(chain, f, h);
      PastGrows(chain, g + 1, f);
      PastStep(chain, g);
      if chain[f].vtx[l].hash == op.hash {
        NewInBlock(rules, chain, past, f, l, p, op);
      }
    }
  }

  /** An input that names the first transaction of block `g` is at least 100 blocks above it, and where
      that is enforced its transaction has no transparent outputs. */
  lemma CoinbaseMatures(rules: Rules, chain: seq<Block>, g: nat, h: nat, i: nat, j: nat)
    requires rules.halvingInterval > 0 && Linked(rules, chain) && OneMeaning(chain) && Replay(rules, chain).Some?
    requires 1 <= g <= h < |chain| && |chain[g].vtx| > 0
    requires i < |chain[h].vtx| && !chain[h].vtx[i].IsCoinBase() && j < |chain[h].vtx[i].vin|
    requires chain[h].vtx[i].vin[j].prevout.hash == chain[g].vtx[0].hash
    ensures h - g >= 100
    ensures rules.coinbaseProtected ==> chain[h].vtx[i].vout == []
  {
    hide Replay, Linked, FollowsRules;
    OneMeaningInBlocks(chain);
    ConnectsExactly(rules, chain);
    FirstIsCoinBase(rules, chain, g);
    FirstIsCoinBase(rules, chain, h);
    var f, k := PayerOf(rules, chain, h, i, j);
    assert chain[g].vtx[0].hash == chain[h].vtx[i].vin[j].prevout.hash;
    assert chain[f].vtx[k] == chain[g].vtx[0];
  }

  lemma OneMeaningInBlocks(chain: seq<Block>)
    requires OneMeaning(chain)
    ensures InjectiveBlocks(chain)
  {
  }

  // ----- The reward -----

  /** A block that meets all other rules connects exactly if its coinbase claims at most the fees plus the
      reward at its height. */
  lemma RewardLimit(rules: Rules, chain: seq<Block>, b: Block, spent: seq<seq<TxOut>>, reward: nat)
    requires rules.halvingInterval > 0 && Linked(rules, chain + [b]) && InjectiveBlocks(chain + [b])
    requires chain != [] && Replay(rules, chain).Some?
    requires FormedBlock(rules, b) && TxsJoin(rules, chain, b.vtx, spent)
    requires Pays(|chain|, rules.halvingInterval, reward)
    ensures Replay(rules, chain + [b]).Some? <==> Out(b.vtx[0]) <= Fees(b.vtx, spent, |b.vtx|) + reward
  {
    hide Replay, StateReflects, InjectiveIds, ConnectTxs, FormedBlock, CheckBlock, NewIds, NoOverwrite, Keeps, Pays,
      Subsidy, JoinsAt, SigOps, Fees, Out, ValueOut, AllDistinctInputs, SoundView, Linked, InjectiveBlocks;
    LinkedPrefix(rules, chain, b);
    ReplayStep(rules, chain, b);
    ReplaySound(rules, chain);
    ConnectsExactly(rules, chain);
    var v := Replay(rules, chain).value;
    BlockFormed(rules, b);
    SubsidyExactly(|chain|, rules.halvingInterval, reward);
    ViewIds(chain, v, b.vtx);
    SettingOf(rules, chain, v, b);
    WholePrefix(b.vtx);
    TxsBack(rules, chain, v, b.vtx, spent, |b.vtx|);
    KeepsMeans(rules, chain, v, b.vtx, spent, ConnectTxs(rules, Start(v), b.vtx, |chain|).value);
    TotalsAgree(b.vtx[0], []);
  }

  // ----- Notes -----

  function CountIn(vtx: seq<Tx>, n: nat): nat
    requires n <= |vtx|
  {
    if n == 0 then 0 else CountIn(vtx, n - 1) + |vtx[n - 1].joinSplits|
  }

  /** The number of JoinSplits in the blocks above the genesis block and below height `h`. */
  function CountBelow(chain: seq<Block>, h: nat): nat
    requires h <= |chain|
  {
    if h <= 1 then 0 else CountBelow(chain, h - 1) + CountIn(chain[h - 1].vtx, |chain[h - 1].vtx|)
  }

  lemma JoinSplitsSnoc(past: seq<Placed>, x: Placed)
    ensures JoinSplitsOf(past + [x]) == JoinSplitsOf(past) + x.tx.joinSplits
  {
    assert (past + [x])[..|past|] == past;
  }

  lemma JoinSplitsNone()
    ensures JoinSplitsOf([]) == []
  {
  }

  lemma {:induction false} JoinSplitsAppend(a: seq<Placed>, b: seq<Placed>)
    ensures JoinSplitsOf(a + b) == JoinSplitsOf(a) + JoinSplitsOf(b)
  {
    hide *;
    if b == [] {
      JoinSplitsNone();
      assert a + b == a;
    } else {
      var init, last := b[..|b| - 1], b[|b| - 1];
      JoinSplitsAppend(a, init);
      JoinSplitsSnoc(init, last);
      JoinSplitsSnoc(a + init, last);
      assert init + [last] == b;
      Regrouped(a, init, [last]);
      Regrouped(JoinSplitsOf(a), JoinSplitsOf(init), last.tx.joinSplits);
    }
  }

  lemma Regrouped<T>(a: seq<T>, b: seq<T>, c: seq<T>)
    ensures a + b + c == a + (b + c)
  {
  }

  lemma {:induction false} PlacingCount(vtx: seq<Tx>, height: nat, n: nat)
    requires n <= |vtx|
    ensures |JoinSplitsOf(Placing(vtx, height, n))| == CountIn(vtx, n)
  {
    hide *;
    JoinSplitsNone();
    CountStep(vtx, n);
    if n > 0 {
      PlacingCount(vtx, height, n - 1);
      PlacingNext(vtx, height, n - 1);
      JoinSplitsSnoc(Placing(vtx, height, n - 1), Placed(vtx[n - 1], height));
    } else {
      assert Placing(vtx, height, 0) == [];
    }
  }

  lemma CountStep(vtx: seq<Tx>, n: nat)
    requires n <= |vtx|
    ensures CountIn(vtx, n) == if n == 0 then 0 else CountIn(vtx, n - 1) + |vtx[n - 1].joinSplits|
  {
  }

  lemma PlacingNext(vtx: seq<Tx>, height: nat, n: nat)
    requires n < |vtx|
    ensures Placing(vtx, height, n + 1) == Placing(vtx, height, n) + [Placed(vtx[n], height)]
  {
  }

  lemma {:induction false} PastCount(chain: seq<Block>, h: nat)
    requires h <= |chain|
    ensures |JoinSplitsOf(Past(chain[..h]))| == CountBelow(chain, h)
  {
    PastNone(chain, h);
    if h > 1 {
      hide Past, Placing;
      PastCount(chain, h - 1);
      PastStep(chain, h - 1);
      var vtx := chain[h - 1].vtx;
      PlacingCount(vtx, h - 1, |vtx|);
      JoinSplitsAppend(Past(chain[..h - 1]), Placing(vtx, h - 1, |vtx|));
    }
  }

  lemma JoinSplitsPrefix(a: seq<Placed>, b: seq<Placed>)
    requires a <= b
    ensures JoinSplitsOf(a) <= JoinSplitsOf(b)
  {
    JoinSplitsAppend(a, b[|a|..]);
    assert a + b[|a|..] == b;
  }

  /** Where JoinSplit `k` of transaction `i` in block `h` is among all of them. */
  lemma JoinSplitAt(chain: seq<Block>, h: nat, i: nat, k: nat)
    requires 1 <= h < |chain| && i < |chain[h].vtx| && k < |chain[h].vtx[i].joinSplits|
    ensures var js, j := JoinSplitsOf(Past(chain)), CountBelow(chain, h) + CountIn(chain[h].vtx, i) + k;
            j < |js| && js[j] == chain[h].vtx[i].joinSplits[k]
  {
    hide Past, Placing, JoinSplitsOf, CountBelow, CountIn;
    var vtx := chain[h].vtx;
    var before := Past(chain[..h]) + Placing(vtx, h, i);
    PastCount(chain, h);
    PlacingCount(vtx, h, i);
    JoinSplitsAppend(Past(chain[..h]), Placing(vtx, h, i));
    JoinSplitsSnoc(before, Placed(vtx[i], h));
    PlacingStep(Past(chain[..h]), vtx, h, i);
    PastPrefix(chain, h, i + 1, |chain|);
    WholePrefix(chain);
    JoinSplitsPrefix(before + [Placed(vtx[i], h)], Past(chain));
    EntryOf(JoinSplitsOf(before), vtx[i].joinSplits, JoinSplitsOf(Past(chain)), k);
  }

  lemma EntryOf(a: seq<JoinSplit>, b: seq<JoinSplit>, all: seq<JoinSplit>, k: nat)
    requires a + b <= all && k < |b|
    ensures |a| + k < |all| && all[|a| + k] == b[k]
  {
    assert (a + b)[|a| + k] == b[k];
  }

  /** The best anchor is the root of a tree with two notes for each JoinSplit above the genesis block. */
  lemma BestAnchorCounts(rules: Rules, chain: seq<Block>)
    requires rules.halvingInterval > 0 && Linked(rules, chain) && InjectiveBlocks(chain) && Replay(rules, chain).Some?
    ensures var root := Replay(rules, chain).value.bestAnchor;
            && root.RootOf? && |root.leaves| == 2 * CountBelow(chain, |chain|)
            && NotesOf(root.leaves, JoinSplitsOf(Past(chain)))
  {
    hide Replay, Linked, InjectiveBlocks, FollowsRules, KnownRoot, JoinSplitsOf, Past, CoinsReflect, NullifiersReflect;
    ConnectsExactly(rules, chain);
    RootAtTop(chain, Replay(rules, chain).value.bestAnchor);
    PastCount(chain, |chain|);
    WholePrefix(chain);
  }

  /** Notes `c` of JoinSplit `k` of transaction `i` in block `h` is where the JoinSplits before it leave it:
      in block, transaction and JoinSplit order. */
  lemma NoteAt(rules: Rules, chain: seq<Block>, h: nat, i: nat, k: nat, c: nat)
    requires rules.halvingInterval > 0 && Linked(rules, chain) && InjectiveBlocks(chain) && Replay(rules, chain).Some?
    requires 1 <= h < |chain| && i < |chain[h].vtx| && k < |chain[h].vtx[i].joinSplits| && c < 2
    ensures var root := Replay(rules, chain).value.bestAnchor;
            var j := CountBelow(chain, h) + CountIn(chain[h].vtx, i) + k;
            var j0 := chain[h].vtx[i].joinSplits[k];
            && root.RootOf? && |root.leaves| == 2 * CountBelow(chain, |chain|)
            && 2 * j + c < |root.leaves| && |j0.commitments| == 2 && root.leaves[2 * j + c] == j0.commitments[c]
  {
    hide Replay, Linked, InjectiveBlocks, JoinSplitsOf, Past, CountBelow, CountIn;
    BestAnchorCounts(rules, chain);
    JoinSplitAt(chain, h, i, k);
  }

  // ----- Outputs that cannot be spent -----

  /** No reachable coin set keeps an output that no script can spend. */
  lemma NothingUnspendable(rules: Rules, chain: seq<Block>)
    requires rules.halvingInterval > 0 && Linked(rules, chain) && InjectiveBlocks(chain) && Replay(rules, chain).Some?
    ensures WellFormedMap(Replay(rules, chain).value.coins) && Redo.ClearMap(Replay(rules, chain).value.coins)
  {
    hide Replay, Linked, InjectiveBlocks, FollowsRules, Past, Unspent, NullifiersReflect, AnchorsReflect;
    ConnectsExactly(rules, chain);
    ReplaySound(rules, chain);
    var m := Replay(rules, chain).value.coins;
    forall h, n: nat | h in m && n < |m[h].outs|
      ensures !m[h].outs[n].IsUnspendable()
    {
      var op := OutPoint(h, n);
      if Available(m, op) {
        var p: nat :| Unspent(Past(chain), p, op);
        UnspentIsMade(Past(chain), p, op);
        assert Shows(m, Past(chain)[p], op);
      }
    }
  }
}
