/** The chain state after any number of blocks says exactly what their history says. */
module Reflection {
  import opened Primitives
  import opened Coins
  import opened ChainView
  import opened Blocks
  import opened Inversion
  import opened Ledger

  // ----- Unspent outputs -----

  /** The coin set holds the output as `p` made it, with the height and the kind of `p`. */
  ghost predicate Shows(m: CoinMap, p: Placed, op: OutPoint)
    requires Makes(p, op)
  {
    && Available(m, op)
    && m[op.hash].outs[op.n] == p.tx.vout[op.n]
    && m[op.hash].coinBase == CoinBase(p.tx)
    && m[op.hash].height == p.height
  }

  /** The coin set holds the unspent outputs of the history and nothing else. */
  ghost predicate CoinsReflect(m: CoinMap, past: seq<Placed>) {
    && (forall op | Available(m, op) :: exists p: nat :: Unspent(past, p, op))
    && (forall p: nat, op | Unspent(past, p, op) :: Shows(m, past[p], op))
  }

  lemma FromTxShows(tx: Tx, height: nat, n: nat)
    requires WellFormedTx(tx)
    ensures var c := FromTx(tx, height);
            && (c.IsAvailable(n) <==> Makes(Placed(tx, height), OutPoint(tx.hash, n)))
            && (c.IsAvailable(n) ==> c.outs[n] == tx.vout[n])
            && c.coinBase == CoinBase(tx) && c.height == height
  {
    var c, all := FromTx(tx, height), Spendable(tx.vout);
    assert c.outs == Trimmed(all);
    if n < |tx.vout| {
      assert MoneyRange(tx.vout[n].value);
      assert all[n] == SpendableOut(tx.vout[n]);
    }
  }

  /** Spending one output leaves the metadata of the others alone. */
  lemma SpendInputMetadata(m: CoinMap, op: OutPoint, h: Hash)
    requires Available(m, op) && h in SpendInput(m, op).0
    ensures h in m
    ensures SpendInput(m, op).0[h].coinBase == m[h].coinBase && SpendInput(m, op).0[h].height == m[h].height
  {
  }

  lemma {:induction false} SpendInputsMetadata(m: CoinMap, vin: seq<TxIn>, h: Hash)
    requires CanSpend(m, vin) && h in SpendInputs(m, vin).0
    ensures h in m
    ensures SpendInputs(m, vin).0[h].coinBase == m[h].coinBase && SpendInputs(m, vin).0[h].height == m[h].height
  {
    if vin != [] {
      var init := vin[..|vin| - 1];
      SpendInputMetadata(SpendInputs(m, init).0, vin[|vin| - 1].prevout, h);
      SpendInputsMetadata(m, init, h);
    }
  }

  /** What a transaction with an unused id does to one outpoint. */
  lemma UpdateOutpoint(v: View, tx: Tx, height: nat, op: OutPoint)
    requires WellFormedTx(tx) && tx.hash !in v.coins
    requires !tx.IsCoinBase() ==> CanSpend(v.coins, tx.vin)
    ensures var after, made := UpdateCoins(v, tx, height).0.coins, Placed(tx, height);
            if op.hash == tx.hash then
              (Available(after, op) <==> Makes(made, op)) && (Makes(made, op) ==> Shows(after, made, op))
            else
              && (Available(after, op) <==> Available(v.coins, op) && !Uses(tx, op))
              && (Available(after, op) ==>
                    && after[op.hash].outs[op.n] == v.coins[op.hash].outs[op.n]
                    && after[op.hash].coinBase == v.coins[op.hash].coinBase
                    && after[op.hash].height == v.coins[op.hash].height)
  {
    hide WellFormedTx, FromTx, SpendInputs, CanSpend;
    if op.hash == tx.hash {
      FromTxShows(tx, height, op.n);
    } else {
      var after := UpdateCoins(v, tx, height).0.coins;
      if !tx.IsCoinBase() {
        SpendInputsAvailability(v.coins, tx.vin, op);
        if Available(after, op) {
          SpendInputsMetadata(v.coins, tx.vin, op.hash);
        }
      }
    }
  }

  lemma UnspentSnoc(past: seq<Placed>, x: Placed, p: nat, op: OutPoint)
    ensures Unspent(past + [x], p, op) <==>
              (Unspent(past, p, op) && !Uses(x.tx, op)) || (p == |past| && Makes(x, op))
  {
    hide Makes, Uses;
    var all := past + [x];
    assert all[|past|] == x;
    assert forall q | 0 <= q < |past| :: all[q] == past[q];
  }

  lemma OutpointStep(v: View, past: seq<Placed>, tx: Tx, height: nat, op: OutPoint, p: nat)
    requires CoinsReflect(v.coins, past) && WellFormedTx(tx) && tx.hash !in v.coins
    requires !tx.IsCoinBase() ==> CanSpend(v.coins, tx.vin)
    ensures var after, all := UpdateCoins(v, tx, height).0.coins, past + [Placed(tx, height)];
            && (Available(after, op) ==> exists q: nat :: Unspent(all, q, op))
            && (Unspent(all, p, op) ==> p < |all| && Makes(all[p], op) && Shows(after, all[p], op))
  {
    hide UpdateCoins, WellFormedTx, CanSpend, Unspent, Makes, Uses;
    var after, made := UpdateCoins(v, tx, height).0.coins, Placed(tx, height);
    var all := past + [made];
    UpdateOutpoint(v, tx, height, op);
    UnspentIsMade(past, p, op);
    UnspentIsMade(all, p, op);
    UnspentSnoc(past, made, p, op);
    if Available(after, op) {
      if op.hash == tx.hash {
        UnspentSnoc(past, made, |past|, op);
      } else {
        var q: nat :| Unspent(past, q, op);
        UnspentSnoc(past, made, q, op);
      }
    }
  }

  lemma UnspentIsMade(past: seq<Placed>, p: nat, op: OutPoint)
    ensures Unspent(past, p, op) ==> p < |past| && Makes(past[p], op) && past[p].tx.hash == op.hash
  {
  }

  lemma CoinsStep(v: View, past: seq<Placed>, tx: Tx, height: nat)
    requires CoinsReflect(v.coins, past) && WellFormedTx(tx) && tx.hash !in v.coins
    requires !tx.IsCoinBase() ==> CanSpend(v.coins, tx.vin)
    ensures CoinsReflect(UpdateCoins(v, tx, height).0.coins, past + [Placed(tx, height)])
  {
    var after, all := UpdateCoins(v, tx, height).0.coins, past + [Placed(tx, height)];
    hide UpdateCoins, Unspent, Makes, Available, Shows, WellFormedTx, CanSpend;
    forall op | Available(after, op)
      ensures exists q: nat :: Unspent(all, q, op)
    {
      OutpointStep(v, past, tx, height, op, 0);
    }
    forall p: nat, op | Unspent(all, p, op)
      ensures p < |all| && Makes(all[p], op) && Shows(after, all[p], op)
    {
      OutpointStep(v, past, tx, height, op, p);
    }
  }

  // ----- Nullifiers -----

  ghost predicate NullifiersReflect(nullifiers: set<Hash>, past: seq<Placed>) {
    forall nf: Hash :: nf in nullifiers <==> Disclosed(past, nf)
  }

  lemma {:induction false} NullifiersListed(js: seq<JoinSplit>, nf: Hash)
    ensures nf in AllNullifiers(js) <==> Reveals(js, nf)
  {
    if js != [] {
      var last := |js| - 1;
      NullifiersListed(js[..last], nf);
      assert forall k | 0 <= k < last :: js[..last][k] == js[k];
      if Reveals(js, nf) && nf !in js[last].nullifiers {
        var k, i :| 0 <= k < |js| && 0 <= i < |js[k].nullifiers| && js[k].nullifiers[i] == nf;
        assert js[..last][k].nullifiers[i] == nf;
      }
    }
  }

  lemma DisclosedSnoc(past: seq<Placed>, x: Placed, nf: Hash)
    ensures Disclosed(past + [x], nf) <==> Disclosed(past, nf) || Reveals(x.tx.joinSplits, nf)
  {
    hide Reveals;
    var all := past + [x];
    assert all[|past|] == x;
    assert forall q | 0 <= q < |past| :: all[q] == past[q];
  }

  lemma NullifiersStep(nullifiers: set<Hash>, past: seq<Placed>, x: Placed)
    requires NullifiersReflect(nullifiers, past)
    ensures NullifiersReflect(nullifiers + ToSet(AllNullifiers(x.tx.joinSplits)), past + [x])
  {
    hide Reveals, Disclosed, AllNullifiers;
    forall nf: Hash
      ensures nf in nullifiers + ToSet(AllNullifiers(x.tx.joinSplits)) <==> Disclosed(past + [x], nf)
    {
      NullifiersListed(x.tx.joinSplits, nf);
      DisclosedSnoc(past, x, nf);
    }
  }

  // ----- Notes -----

  lemma NotesAppend(t: Tree, a: seq<JoinSplit>, u: Tree, b: seq<JoinSplit>)
    requires NotesOf(t, a) && NotesOf(u, b)
    ensures NotesOf(t + u, a + b)
  {
    forall j | 0 <= j < |a + b|
      ensures (a + b)[j].commitments == [(t + u)[2 * j], (t + u)[2 * j + 1]]
    {
      if j >= |a| {
        assert (t + u)[2 * j] == u[2 * (j - |a|)] && (t + u)[2 * j + 1] == u[2 * (j - |a|) + 1];
      }
    }
  }

  lemma {:induction false} CommitmentsAreNotes(js: seq<JoinSplit>)
    requires forall k | 0 <= k < |js| :: |js[k].commitments| == 2
    ensures NotesOf(AllCommitments(js), js)
  {
    if js != [] {
      var last := |js| - 1;
      CommitmentsAreNotes(js[..last]);
      assert NotesOf(js[last].commitments, [js[last]]);
      NotesAppend(AllCommitments(js[..last]), js[..last], js[last].commitments, [js[last]]);
      assert js == js[..last] + [js[last]];
    }
  }

  lemma NotesUnique(t: Tree, u: Tree, js: seq<JoinSplit>)
    requires NotesOf(t, js) && NotesOf(u, js)
    ensures t == u
  {
    forall i | 0 <= i < |t|
      ensures t[i] == u[i]
    {
      var j := i / 2;
      assert js[j].commitments == [t[2 * j], t[2 * j + 1]] == [u[2 * j], u[2 * j + 1]];
      assert i == 2 * j || i == 2 * j + 1;
    }
  }

  lemma NotesStep(tree: Tree, past: seq<Placed>, x: Placed)
    requires NotesOf(tree, JoinSplitsOf(past)) && WellFormedTx(x.tx)
    ensures NotesOf(tree + AllCommitments(x.tx.joinSplits), JoinSplitsOf(past + [x]))
  {
    hide NotesOf, AllCommitments;
    var js := x.tx.joinSplits;
    assert forall k | 0 <= k < |js| :: WellFormedJoinSplit(js[k]);
    CommitmentsAreNotes(js);
    NotesAppend(tree, JoinSplitsOf(past), AllCommitments(js), js);
    assert (past + [x])[..|past|] == past;
  }

  // ----- One transaction -----

  /** What has been built up inside a block agrees with the history up to that point. */
  ghost predicate Reflects(q: Progress, past: seq<Placed>) {
    && CoinsReflect(q.view.coins, past)
    && NullifiersReflect(q.view.nullifiers, past)
    && NotesOf(q.tree, JoinSplitsOf(past))
  }

  lemma ReflectsStep(rules: Rules, q: Progress, past: seq<Placed>, tx: Tx, height: nat, first: bool)
    requires Reflects(q, past) && WellFormedTx(tx) && tx.hash !in q.view.coins
    requires Step(rules, Some(q), tx, height, first).Some?
    ensures Reflects(Step(rules, Some(q), tx, height, first).value, past + [Placed(tx, height)])
  {
    AcceptedFacts(rules, q, tx, height, first);
    CoinsStep(q.view, past, tx, height);
    NullifiersStep(q.view.nullifiers, past, Placed(tx, height));
    NotesStep(q.tree, past, Placed(tx, height));
    hide Step, WellFormedTx, CoinsReflect, NullifiersReflect, NotesOf, CanSpend, HaveInputs, SpendInputs;
  }

  // ----- Anchors -----

  ghost predicate AnchorsReflect(v: View, chain: seq<Block>) {
    RootAt(chain, |chain|, v.bestAnchor) && forall r :: r in v.anchors <==> KnownRoot(chain, r)
  }

  lemma RootAtPrefix(chain: seq<Block>, b: Block, g: nat, r: Root)
    requires g <= |chain|
    ensures RootAt(chain + [b], g, r) <==> RootAt(chain, g, r)
  {
    assert (chain + [b])[..g] == chain[..g];
  }

  lemma RootAtTop(chain: seq<Block>, r: Root)
    ensures RootAt(chain, |chain|, r) <==> r.RootOf? && NotesOf(r.leaves, JoinSplitsOf(Past(chain)))
  {
    hide NotesOf, JoinSplitsOf, Past;
    WholePrefix(chain);
  }

  lemma KnownRootSnoc(chain: seq<Block>, b: Block, r: Root)
    ensures KnownRoot(chain + [b], r) <==> KnownRoot(chain, r) || RootAt(chain + [b], |chain| + 1, r)
  {
    hide NotesOf, JoinSplitsOf, Past;
    if KnownRoot(chain + [b], r) {
      var g: nat :| RootAt(chain + [b], g, r);
      if g <= |chain| {
        RootAtPrefix(chain, b, g, r);
      }
    }
    if KnownRoot(chain, r) {
      var g: nat :| RootAt(chain, g, r);
      RootAtPrefix(chain, b, g, r);
    }
  }

  lemma AnchorsStep(v: View, chain: seq<Block>, b: Block, tree: Tree)
    requires AnchorsReflect(v, chain) && NotesOf(tree, JoinSplitsOf(Past(chain + [b])))
    ensures AnchorsReflect(PushAnchor(v, tree), chain + [b])
  {
    hide NotesOf, JoinSplitsOf, Past, RootAt, KnownRoot;
    var next := chain + [b];
    RootAtTop(next, RootOf(tree));
    forall r
      ensures r in PushAnchor(v, tree).anchors <==> KnownRoot(next, r)
    {
      KnownRootSnoc(chain, b, r);
      KnownRootHolds(chain, v.bestAnchor);
      RootAtTop(next, r);
      if RootAt(next, |chain| + 1, r) {
        NotesUnique(r.leaves, tree, JoinSplitsOf(Past(next)));
      }
    }
  }

  lemma KnownRootHolds(chain: seq<Block>, r: Root)
    requires RootAt(chain, |chain|, r)
    ensures KnownRoot(chain, r)
  {
  }
}
