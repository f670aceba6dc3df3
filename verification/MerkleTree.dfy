/** Partial Merkle trees (`CPartialMerkleTree`, BIP 37, section "Partial Merkle branch format"): what is
    built, and what is read back from any bits and hashes. */
module MerkleTree {
  import opened Primitives

  /** The double SHA-256 of two hashes. */
  type Combine = (Hash, Hash) -> Hash

  ghost predicate Injective(f: Combine) {
    forall a, b, c, d {:trigger f(a, b), f(c, d)} :: f(a, b) == f(c, d) ==> a == c && b == d
  }

  function Pow2(k: nat): (r: nat)
    ensures r > 0
  {
    if k == 0 then 1 else 2 * Pow2(k - 1)
  }

  /** The number of nodes at a height of a tree over `n` leaves. */
  function Width(n: nat, height: nat): nat {
    (n + Pow2(height) - 1) / Pow2(height)
  }

  /** The first leaf under a node, `pos << height`. */
  function First(height: nat, pos: nat): nat {
    if height == 0 then pos else First(height - 1, 2 * pos)
  }

  lemma {:induction false} FirstIs(height: nat, pos: nat)
    ensures First(height, pos) == pos * Pow2(height)
  {
    if height > 0 {
      FirstIs(height - 1, 2 * pos);
    }
  }

  lemma {:induction false} FirstGrows(height: nat, a: nat, b: nat)
    requires a < b
    ensures First(height, a) < First(height, b)
  {
    if height > 0 {
      FirstGrows(height - 1, 2 * a, 2 * b);
    }
  }

  /** The node exists. */
  predicate InTree(n: nat, height: nat, pos: nat) {
    First(height, pos) < n
  }

  lemma WidthMeans(n: nat, height: nat, pos: nat)
    ensures pos < Width(n, height) <==> InTree(n, height, pos)
  {
    FirstIs(height, pos);
    var p := Pow2(height);
    var w := (n + p - 1) / p;
    DivBounds(n + p - 1, p);
    if pos < w {
      MulAtMost(pos + 1, w, p);
    } else {
      MulAtMost(w, pos, p);
    }
  }

  lemma DivBounds(a: nat, d: nat)
    requires d > 0
    ensures a / d * d <= a < a / d * d + d
  {
  }

  lemma MulAtMost(a: nat, b: nat, c: nat)
    requires a <= b
    ensures a * c <= b * c
  {
  }

  /** The children of a node divide its leaves. */
  lemma Halves(height: nat, pos: nat)
    requires height > 0
    ensures First(height - 1, 2 * pos) == First(height, pos)
    ensures First(height, pos + 1) == First(height - 1, 2 * pos + 2)
    ensures First(height, pos) < First(height - 1, 2 * pos + 1) < First(height, pos + 1)
  {
    FirstGrows(height - 1, 2 * pos, 2 * pos + 1);
    FirstGrows(height - 1, 2 * pos + 1, 2 * pos + 2);
  }

  /** The hash of a node. */
  function CalcHash(f: Combine, txids: seq<Hash>, height: nat, pos: nat): Hash
    requires InTree(|txids|, height, pos)
  {
    if height == 0 then txids[pos]
    else
      Halves(height, pos);
      var left := CalcHash(f, txids, height - 1, 2 * pos);
      f(left, if InTree(|txids|, height - 1, 2 * pos + 1) then CalcHash(f, txids, height - 1, 2 * pos + 1) else left)
  }

  // ----- What is built -----

  /** The end of the leaves under a node, in a tree over `n` leaves. */
  function End(n: nat, height: nat, pos: nat): nat {
    if First(height, pos + 1) < n then First(height, pos + 1) else n
  }

  /** The positions in `[lo, hi)` that are marked, ascending. */
  function Marked(marks: seq<bool>, lo: nat, hi: nat): (r: seq<nat>)
    requires hi <= |marks|
    ensures forall i | 0 <= i < |r| :: lo <= r[i] < hi && marks[r[i]]
    ensures forall i, j | 0 <= i < j < |r| :: r[i] < r[j]
    ensures forall p | lo <= p < hi && marks[p] :: p in r
    decreases hi
  {
    if lo >= hi then [] else Marked(marks, lo, hi - 1) + if marks[hi - 1] then [hi - 1] else []
  }

  lemma {:induction false} MarkedSplit(marks: seq<bool>, lo: nat, mid: nat, hi: nat)
    requires lo <= mid <= hi <= |marks|
    ensures Marked(marks, lo, hi) == Marked(marks, lo, mid) + Marked(marks, mid, hi)
  {
    if mid < hi {
      MarkedSplit(marks, lo, mid, hi - 1);
    }
  }

  /** The marked leaves under a node. */
  function Under(marks: seq<bool>, height: nat, pos: nat): (r: seq<nat>)
    ensures forall i | 0 <= i < |r| :: First(height, pos) <= r[i] < |marks|
  {
    Marked(marks, First(height, pos), End(|marks|, height, pos))
  }

  /** The bits stored for a node, depth first. */
  function Bits(marks: seq<bool>, height: nat, pos: nat): seq<bool>
    requires InTree(|marks|, height, pos)
  {
    if Under(marks, height, pos) == [] then [false]
    else if height == 0 then [true]
    else
      Halves(height, pos);
      [true] + Bits(marks, height - 1, 2 * pos)
        + if InTree(|marks|, height - 1, 2 * pos + 1) then Bits(marks, height - 1, 2 * pos + 1) else []
  }

  /** The hashes stored for a node. */
  function Hashes(f: Combine, txids: seq<Hash>, marks: seq<bool>, height: nat, pos: nat): seq<Hash>
    requires InTree(|marks|, height, pos) && |txids| == |marks|
  {
    if height == 0 || Under(marks, height, pos) == [] then [CalcHash(f, txids, height, pos)]
    else
      Halves(height, pos);
      Hashes(f, txids, marks, height - 1, 2 * pos)
        + if InTree(|marks|, height - 1, 2 * pos + 1) then Hashes(f, txids, marks, height - 1, 2 * pos + 1) else []
  }

  /** The marked leaves of a node are those of its children, in order. */
  lemma UnderChildren(marks: seq<bool>, height: nat, pos: nat)
    requires height > 0 && InTree(|marks|, height, pos)
    ensures InTree(|marks|, height - 1, 2 * pos)
    ensures Under(marks, height, pos) ==
            Under(marks, height - 1, 2 * pos)
              + if InTree(|marks|, height - 1, 2 * pos + 1) then Under(marks, height - 1, 2 * pos + 1) else []
  {
    Halves(height, pos);
    if InTree(|marks|, height - 1, 2 * pos + 1) {
      MarkedSplit(marks, First(height, pos), First(height - 1, 2 * pos + 1), End(|marks|, height, pos));
    }
  }

  /** The stored hashes are no more than the leaves. */
  lemma {:induction false} HashesPerLeaf(f: Combine, txids: seq<Hash>, marks: seq<bool>, height: nat, pos: nat)
    requires InTree(|marks|, height, pos) && |txids| == |marks|
    ensures |Hashes(f, txids, marks, height, pos)| <= End(|marks|, height, pos) - First(height, pos)
  {
    hide Under, CalcHash;
    NodeEnd(|marks|, height, pos);
    if height > 0 && Under(marks, height, pos) != [] {
      Halves(height, pos);
      HashesPerLeaf(f, txids, marks, height - 1, 2 * pos);
      if InTree(|marks|, height - 1, 2 * pos + 1) {
        HashesPerLeaf(f, txids, marks, height - 1, 2 * pos + 1);
      }
    }
  }

  lemma NodeEnd(n: nat, height: nat, pos: nat)
    requires InTree(n, height, pos)
    ensures First(height, pos) < End(n, height, pos)
  {
    FirstGrows(height, pos, pos + 1);
  }

  /** The stored hashes are no more than 1 plus the matches times the height. */
  lemma {:induction false} HashesPerMatch(f: Combine, txids: seq<Hash>, marks: seq<bool>, height: nat, pos: nat)
    requires InTree(|marks|, height, pos) && |txids| == |marks|
    ensures |Hashes(f, txids, marks, height, pos)| <= 1 + |Under(marks, height, pos)| * height
  {
    hide Under, CalcHash, First;
    if height > 0 && Under(marks, height, pos) != [] {
      UnderChildren(marks, height, pos);
      HashesPerMatch(f, txids, marks, height - 1, 2 * pos);
      var a := |Under(marks, height - 1, 2 * pos)|;
      if InTree(|marks|, height - 1, 2 * pos + 1) {
        HashesPerMatch(f, txids, marks, height - 1, 2 * pos + 1);
        TwoChildren(a, |Under(marks, height - 1, 2 * pos + 1)|, height);
      } else {
        TwoChildren(a, 0, height);
      }
    }
  }

  lemma TwoChildren(a: nat, b: nat, height: nat)
    requires a + b > 0 && height > 0
    ensures 1 + a * (height - 1) + (1 + b * (height - 1)) <= 1 + (a + b) * height
    ensures 1 + a * (height - 1) <= 1 + a * height
  {
    assert (a + b) * height == a * (height - 1) + b * (height - 1) + a + b;
  }

  // ----- What is read back -----

  /** How far bits and hashes are used up, and what has been found, with its positions. */
  datatype Reader = Reader(bits: nat, hashes: nat, matches: seq<Hash>, positions: seq<nat>, bad: bool)

  /** Takes the next hash, as a match if it is one. */
  function ReadHash(vHash: seq<Hash>, found: bool, pos: nat, r: Reader): (Hash, Reader) {
    if r.hashes >= |vHash| then (NULL_HASH, r.(bad := true))
    else
      var x := vHash[r.hashes];
      var r1 := r.(hashes := r.hashes + 1);
      (x, if found then r1.(matches := r1.matches + [x], positions := r1.positions + [pos]) else r1)
  }

  /** Reads the node at `pos`: its hash, and the reader after it. */
  function Extract(
    f: Combine, n: nat, vBits: seq<bool>, vHash: seq<Hash>, height: nat, pos: nat, r: Reader): (Hash, Reader)
  {
    if r.bits >= |vBits| then (NULL_HASH, r.(bad := true))
    else
      var bit := vBits[r.bits];
      var r1 := r.(bits := r.bits + 1);
      if height == 0 || !bit then ReadHash(vHash, height == 0 && bit, pos, r1)
      else
        var (left, r2) := Extract(f, n, vBits, vHash, height - 1, 2 * pos, r1);
        if InTree(n, height - 1, 2 * pos + 1) then
          var (right, r3) := Extract(f, n, vBits, vHash, height - 1, 2 * pos + 1, r2);
          (f(left, right), if right == left then r3.(bad := true) else r3)
        else (f(left, left), r2)
  }

  /** Nodes of one height have different hashes when the transactions are different. */
  lemma {:induction false} HashesDiffer(f: Combine, txids: seq<Hash>, height: nat, a: nat, b: nat)
    requires Injective(f) && Distinct(txids) && a != b
    requires InTree(|txids|, height, a) && InTree(|txids|, height, b)
    ensures CalcHash(f, txids, height, a) != CalcHash(f, txids, height, b)
  {
    if height > 0 {
      Halves(height, a);
      Halves(height, b);
      HashesDiffer(f, txids, height - 1, 2 * a, 2 * b);
    }
  }

  /** `part` stands in `whole` at `at`. */
  ghost predicate At<T(!new)>(whole: seq<T>, at: nat, part: seq<T>) {
    at + |part| <= |whole| && whole[at..at + |part|] == part
  }

  lemma AtParts<T(!new)>(whole: seq<T>, at: nat, a: seq<T>, b: seq<T>)
    requires At(whole, at, a + b)
    ensures At(whole, at, a) && At(whole, at + |a|, b)
    ensures a != [] ==> whole[at] == a[0]
  {
    assert whole[at..at + |a|] == (a + b)[..|a|];
    assert whole[at + |a|..at + |a| + |b|] == (a + b)[|a|..];
    if a != [] {
      assert whole[at..at + |a|][0] == whole[at];
    }
  }

  function Pick(txids: seq<Hash>, at: seq<nat>): (r: seq<Hash>)
    requires forall i | 0 <= i < |at| :: at[i] < |txids|
    ensures |r| == |at| && forall i | 0 <= i < |at| :: r[i] == txids[at[i]]
  {
    if at == [] then [] else Pick(txids, at[..|at| - 1]) + [txids[at[|at| - 1]]]
  }

  /** The reader after a node that was built. */
  function After(f: Combine, txids: seq<Hash>, marks: seq<bool>, height: nat, pos: nat, r: Reader): Reader
    requires InTree(|marks|, height, pos) && |txids| == |marks|
  {
    Reader(
      r.bits + |Bits(marks, height, pos)|,
      r.hashes + |Hashes(f, txids, marks, height, pos)|,
      r.matches + Pick(txids, Under(marks, height, pos)),
      r.positions + Under(marks, height, pos),
      r.bad)
  }

  // The definitions, one step at a time.

  predicate HasRight(n: nat, height: nat, pos: nat) {
    height > 0 && InTree(n, height - 1, 2 * pos + 1)
  }

  lemma HasRightMeans(n: nat, height: nat, pos: nat)
    requires height > 0
    ensures HasRight(n, height, pos) <==> InTree(n, height - 1, 2 * pos + 1)
  {
  }

  lemma NodeHash(f: Combine, txids: seq<Hash>, height: nat, pos: nat)
    requires InTree(|txids|, height, pos) && height > 0
    ensures InTree(|txids|, height - 1, 2 * pos)
    ensures CalcHash(f, txids, height, pos) ==
            var left := CalcHash(f, txids, height - 1, 2 * pos);
            f(left, if HasRight(|txids|, height, pos) then CalcHash(f, txids, height - 1, 2 * pos + 1) else left)
  {
    hide First;
    Halves(height, pos);
  }

  lemma NodeBits(marks: seq<bool>, height: nat, pos: nat)
    requires InTree(|marks|, height, pos) && height > 0 && InTree(|marks|, height - 1, 2 * pos)
    requires Under(marks, height, pos) != []
    ensures Bits(marks, height, pos) ==
            [true] + (Bits(marks, height - 1, 2 * pos)
                        + if HasRight(|marks|, height, pos) then Bits(marks, height - 1, 2 * pos + 1) else [])
  {
    hide Under, First;
  }

  lemma NodeHashes(f: Combine, txids: seq<Hash>, marks: seq<bool>, height: nat, pos: nat)
    requires |txids| == |marks| && InTree(|marks|, height, pos) && height > 0 && InTree(|marks|, height - 1, 2 * pos)
    requires Under(marks, height, pos) != []
    ensures Hashes(f, txids, marks, height, pos) ==
            Hashes(f, txids, marks, height - 1, 2 * pos)
              + if HasRight(|marks|, height, pos) then Hashes(f, txids, marks, height - 1, 2 * pos + 1) else []
  {
    hide Under, First;
  }

  lemma EdgeStep(f: Combine, txids: seq<Hash>, marks: seq<bool>, height: nat, pos: nat)
    requires |txids| == |marks| && InTree(|marks|, height, pos) && (height == 0 || Under(marks, height, pos) == [])
    ensures Hashes(f, txids, marks, height, pos) == [CalcHash(f, txids, height, pos)]
    ensures Bits(marks, height, pos) == [Under(marks, height, pos) != []]
    ensures height == 0 ==> pos < |txids| && CalcHash(f, txids, height, pos) == txids[pos]
    ensures height == 0 && Under(marks, height, pos) != [] ==>
              Under(marks, height, pos) == [pos] && Pick(txids, [pos]) == [txids[pos]]
    ensures Pick(txids, []) == []
  {
    if height == 0 {
      assert Marked(marks, pos, pos) == [];
    }
  }

  lemma ExtractLeaf(f: Combine, n: nat, vBits: seq<bool>, vHash: seq<Hash>, height: nat, pos: nat, r: Reader)
    requires r.bits < |vBits| && (height == 0 || !vBits[r.bits])
    ensures Extract(f, n, vBits, vHash, height, pos, r) ==
            ReadHash(vHash, height == 0 && vBits[r.bits], pos, r.(bits := r.bits + 1))
  {
    hide ReadHash, InTree;
  }

  lemma ExtractEdge(f: Combine, n: nat, vBits: seq<bool>, vHash: seq<Hash>, height: nat, pos: nat, r: Reader)
    requires r.bits < |vBits| && r.hashes < |vHash| && (height == 0 || !vBits[r.bits])
    ensures var found := height == 0 && vBits[r.bits];
            var x := vHash[r.hashes];
            Extract(f, n, vBits, vHash, height, pos, r)
            == (x, Reader(r.bits + 1, r.hashes + 1, if found then r.matches + [x] else r.matches,
                          if found then r.positions + [pos] else r.positions, r.bad))
  {
    hide Extract, InTree;
    ExtractLeaf(f, n, vBits, vHash, height, pos, r);
  }

  lemma ExtractInner(
    f: Combine, n: nat, vBits: seq<bool>, vHash: seq<Hash>, height: nat, pos: nat, r: Reader, left: Hash, r2: Reader,
    right: Hash, r3: Reader)
    requires r.bits < |vBits| && height > 0 && vBits[r.bits]
    requires Extract(f, n, vBits, vHash, height - 1, 2 * pos, r.(bits := r.bits + 1)) == (left, r2)
    requires if HasRight(n, height, pos) then Extract(f, n, vBits, vHash, height - 1, 2 * pos + 1, r2) == (right, r3)
             else right == left && r3 == r2
    ensures Extract(f, n, vBits, vHash, height, pos, r)
            == (f(left, right), if HasRight(n, height, pos) && right == left then r3.(bad := true) else r3)
  {
    hide First;
  }

  /** Reading what was built for a node gives its hash and the marked transactions under it. */
  lemma {:induction false} ExtractBuilt(
    f: Combine, txids: seq<Hash>, marks: seq<bool>, vBits: seq<bool>, vHash: seq<Hash>, height: nat, pos: nat, r: Reader)
    requires Injective(f) && Distinct(txids) && |txids| == |marks| && InTree(|marks|, height, pos)
    requires At(vBits, r.bits, Bits(marks, height, pos)) && At(vHash, r.hashes, Hashes(f, txids, marks, height, pos))
    ensures Extract(f, |txids|, vBits, vHash, height, pos, r)
            == (CalcHash(f, txids, height, pos), After(f, txids, marks, height, pos, r))
    decreases height
  {
    hide *;
    if height == 0 || Under(marks, height, pos) == [] {
      BuiltEdge(f, txids, marks, vBits, vHash, height, pos, r);
    } else {
      NodeHash(f, txids, height, pos);
      HasRightMeans(|marks|, height, pos);
      BuiltInner(f, txids, marks, vBits, vHash, height, pos, r);
      var r1 := r.(bits := r.bits + 1);
      ExtractBuilt(f, txids, marks, vBits, vHash, height - 1, 2 * pos, r1);
      var left, r2 := CalcHash(f, txids, height - 1, 2 * pos), After(f, txids, marks, height - 1, 2 * pos, r1);
      AfterCounts(f, txids, marks, height - 1, 2 * pos, r1);
      if HasRight(|marks|, height, pos) {
        var r3 := After(f, txids, marks, height - 1, 2 * pos + 1, r2);
        ExtractBuilt(f, txids, marks, vBits, vHash, height - 1, 2 * pos + 1, r2);
        HashesDiffer(f, txids, height - 1, 2 * pos, 2 * pos + 1);
        ExtractInner(f, |txids|, vBits, vHash, height, pos, r, left, r2,
                     CalcHash(f, txids, height - 1, 2 * pos + 1), r3);
        AfterTogether(f, txids, marks, height, pos, r, r2, r3);
      } else {
        ExtractInner(f, |txids|, vBits, vHash, height, pos, r, left, r2, left, r2);
        AfterTogether(f, txids, marks, height, pos, r, r2, r2);
      }
    }
  }

  lemma BuiltEdge(
    f: Combine, txids: seq<Hash>, marks: seq<bool>, vBits: seq<bool>, vHash: seq<Hash>, height: nat, pos: nat, r: Reader)
    requires |txids| == |marks| && InTree(|marks|, height, pos) && (height == 0 || Under(marks, height, pos) == [])
    requires At(vBits, r.bits, Bits(marks, height, pos)) && At(vHash, r.hashes, Hashes(f, txids, marks, height, pos))
    ensures Extract(f, |txids|, vBits, vHash, height, pos, r)
            == (CalcHash(f, txids, height, pos), After(f, txids, marks, height, pos, r))
  {
    hide *;
    EdgeStep(f, txids, marks, height, pos);
    AtStart(vBits, r.bits, Bits(marks, height, pos));
    AtStart(vHash, r.hashes, Hashes(f, txids, marks, height, pos));
    ExtractEdge(f, |txids|, vBits, vHash, height, pos, r);
    AfterEdge(f, txids, marks, height, pos, r);
  }

  lemma AfterEdge(f: Combine, txids: seq<Hash>, marks: seq<bool>, height: nat, pos: nat, r: Reader)
    requires |txids| == |marks| && InTree(|marks|, height, pos) && (height == 0 || Under(marks, height, pos) == [])
    ensures var found := height == 0 && Under(marks, height, pos) != [];
            After(f, txids, marks, height, pos, r)
            == Reader(r.bits + 1, r.hashes + 1,
                      if found then r.matches + [CalcHash(f, txids, height, pos)] else r.matches,
                      if found then r.positions + [pos] else r.positions, r.bad)
  {
    hide Under, First, CalcHash, Bits, Hashes, Pick;
    EdgeStep(f, txids, marks, height, pos);
    assert r.matches + [] == r.matches && r.positions + [] == r.positions;
  }

  /** The parts of a node with matches below it stand where its children look for them. */
  lemma BuiltInner(
    f: Combine, txids: seq<Hash>, marks: seq<bool>, vBits: seq<bool>, vHash: seq<Hash>, height: nat, pos: nat, r: Reader)
    requires |txids| == |marks| && InTree(|marks|, height, pos) && height > 0 && Under(marks, height, pos) != []
    requires InTree(|marks|, height - 1, 2 * pos)
    requires At(vBits, r.bits, Bits(marks, height, pos)) && At(vHash, r.hashes, Hashes(f, txids, marks, height, pos))
    ensures r.bits < |vBits| && vBits[r.bits]
    ensures At(vBits, r.bits + 1, Bits(marks, height - 1, 2 * pos))
    ensures At(vHash, r.hashes, Hashes(f, txids, marks, height - 1, 2 * pos))
    ensures HasRight(|marks|, height, pos) ==>
              && At(vBits, r.bits + 1 + |Bits(marks, height - 1, 2 * pos)|, Bits(marks, height - 1, 2 * pos + 1))
              && At(vHash, r.hashes + |Hashes(f, txids, marks, height - 1, 2 * pos)|,
                    Hashes(f, txids, marks, height - 1, 2 * pos + 1))
  {
    hide *;
    HasRightMeans(|marks|, height, pos);
    NodeBits(marks, height, pos);
    NodeHashes(f, txids, marks, height, pos);
    var a, ha := Bits(marks, height - 1, 2 * pos), Hashes(f, txids, marks, height - 1, 2 * pos);
    var b: seq<bool> := if HasRight(|marks|, height, pos) then Bits(marks, height - 1, 2 * pos + 1) else [];
    var hb: seq<Hash> := if HasRight(|marks|, height, pos) then Hashes(f, txids, marks, height - 1, 2 * pos + 1) else [];
    AtParts(vBits, r.bits, [true], a + b);
    AtParts(vBits, r.bits + 1, a, b);
    AtParts(vHash, r.hashes, ha, hb);
    AtStart(vBits, r.bits, [true]);
  }

  lemma AtStart<T(!new)>(whole: seq<T>, at: nat, part: seq<T>)
    requires At(whole, at, part) && part != []
    ensures at < |whole| && whole[at] == part[0]
  {
    assert whole[at..at + |part|][0] == whole[at];
  }

  lemma AfterCounts(f: Combine, txids: seq<Hash>, marks: seq<bool>, height: nat, pos: nat, r: Reader)
    requires InTree(|marks|, height, pos) && |txids| == |marks|
    ensures var r' := After(f, txids, marks, height, pos, r);
            && r'.bits == r.bits + |Bits(marks, height, pos)|
            && r'.hashes == r.hashes + |Hashes(f, txids, marks, height, pos)|
  {
  }

  /** What the children report, together, is what the node reports. */
  lemma AfterTogether(
    f: Combine, txids: seq<Hash>, marks: seq<bool>, height: nat, pos: nat, r: Reader, r2: Reader, r3: Reader)
    requires |txids| == |marks| && InTree(|marks|, height, pos) && height > 0
    requires InTree(|marks|, height - 1, 2 * pos)
    requires r2 == After(f, txids, marks, height - 1, 2 * pos, r.(bits := r.bits + 1))
    requires r3 == if HasRight(|marks|, height, pos) then After(f, txids, marks, height - 1, 2 * pos + 1, r2) else r2
    requires Under(marks, height, pos) != []
    ensures After(f, txids, marks, height, pos, r) == r3
  {
    hide *;
    AfterIs(f, txids, marks, height, pos, r);
    AfterIs(f, txids, marks, height - 1, 2 * pos, r.(bits := r.bits + 1));
    UnderChildren(marks, height, pos);
    HasRightMeans(|marks|, height, pos);
    NodeBits(marks, height, pos);
    NodeHashes(f, txids, marks, height, pos);
    if HasRight(|marks|, height, pos) {
      var a, b := Under(marks, height - 1, 2 * pos), Under(marks, height - 1, 2 * pos + 1);
      AfterIs(f, txids, marks, height - 1, 2 * pos + 1, r2);
      PickConcat(txids, a, b);
      Associate(r.matches, Pick(txids, a), Pick(txids, b));
      Associate(r.positions, a, b);
    }
  }

  lemma AfterIs(f: Combine, txids: seq<Hash>, marks: seq<bool>, height: nat, pos: nat, r: Reader)
    requires InTree(|marks|, height, pos) && |txids| == |marks|
    ensures forall i | 0 <= i < |Under(marks, height, pos)| :: Under(marks, height, pos)[i] < |txids|
    ensures After(f, txids, marks, height, pos, r) ==
            Reader(r.bits + |Bits(marks, height, pos)|, r.hashes + |Hashes(f, txids, marks, height, pos)|,
                   r.matches + Pick(txids, Under(marks, height, pos)), r.positions + Under(marks, height, pos), r.bad)
  {
    hide Under, Bits, Hashes, Pick;
  }

  lemma Associate<T>(a: seq<T>, b: seq<T>, c: seq<T>)
    ensures a + (b + c) == a + b + c
  {
  }

  lemma PickConcat(txids: seq<Hash>, a: seq<nat>, b: seq<nat>)
    requires forall i | 0 <= i < |a| :: a[i] < |txids|
    requires forall i | 0 <= i < |b| :: b[i] < |txids|
    ensures Pick(txids, a + b) == Pick(txids, a) + Pick(txids, b)
  {
    hide Pick;
  }

  // ----- Any bits and hashes -----

  predicate Ascending(at: seq<nat>, lo: nat, hi: nat) {
    && (forall i | 0 <= i < |at| :: lo <= at[i] < hi)
    && (forall i, j | 0 <= i < j < |at| :: at[i] < at[j])
  }

  /** From `r` to `r'` transactions at ascending positions in `[lo, hi)` have been found, nothing else. */
  ghost predicate Found(txids: seq<Hash>, r: Reader, r': Reader, lo: nat, hi: nat) {
    exists at :: FoundAt(txids, r, r', lo, hi, at)
  }

  ghost predicate FoundAt(txids: seq<Hash>, r: Reader, r': Reader, lo: nat, hi: nat, at: seq<nat>) {
    && Ascending(at, lo, hi)
    && hi <= |txids|
    && r'.matches == r.matches + Pick(txids, at)
    && r'.positions == r.positions + at
  }

  lemma FoundBoth(txids: seq<Hash>, r: Reader, r1: Reader, r2: Reader, lo: nat, mid: nat, hi: nat)
    requires Found(txids, r, r1, lo, mid) && Found(txids, r1, r2, mid, hi) && lo <= mid <= hi
    ensures Found(txids, r, r2, lo, hi)
  {
    hide Pick;
    var a :| FoundAt(txids, r, r1, lo, mid, a);
    var b :| FoundAt(txids, r1, r2, mid, hi, b);
    PickConcat(txids, a, b);
    assert FoundAt(txids, r, r2, lo, hi, a + b);
  }

  lemma FoundNone(txids: seq<Hash>, r: Reader, r': Reader, lo: nat, hi: nat)
    requires r'.matches == r.matches && r'.positions == r.positions && hi <= |txids|
    ensures Found(txids, r, r', lo, hi)
  {
    assert FoundAt(txids, r, r', lo, hi, []);
  }

  /** A failure is not forgotten. */
  lemma {:induction false} BadStays(
    f: Combine, n: nat, vBits: seq<bool>, vHash: seq<Hash>, height: nat, pos: nat, r: Reader)
    requires r.bad
    ensures Extract(f, n, vBits, vHash, height, pos, r).1.bad
    decreases height
  {
    if r.bits < |vBits| && height > 0 && vBits[r.bits] {
      var r1 := r.(bits := r.bits + 1);
      BadStays(f, n, vBits, vHash, height - 1, 2 * pos, r1);
      var r2 := Extract(f, n, vBits, vHash, height - 1, 2 * pos, r1).1;
      BadStays(f, n, vBits, vHash, height - 1, 2 * pos + 1, r2);
    }
  }

  /** Whatever the bits and hashes are: when reading a node goes well and gives the node's own hash,
      only transactions under the node have been found, in order. */
  lemma {:induction false} ExtractSound(
    f: Combine, txids: seq<Hash>, vBits: seq<bool>, vHash: seq<Hash>, height: nat, pos: nat, r: Reader)
    requires Injective(f) && InTree(|txids|, height, pos)
    requires var (x, r') := Extract(f, |txids|, vBits, vHash, height, pos, r);
             !r'.bad && x == CalcHash(f, txids, height, pos)
    ensures Found(txids, r, Extract(f, |txids|, vBits, vHash, height, pos, r).1, First(height, pos), End(|txids|, height, pos))
    decreases height
  {
    hide *;
    SomeBits(f, |txids|, vBits, vHash, height, pos, r);
    if height == 0 || !vBits[r.bits] {
      SoundEdge(f, txids, vBits, vHash, height, pos, r);
    } else {
      NodeHash(f, txids, height, pos);
      HasRightMeans(|txids|, height, pos);
      var r1 := r.(bits := r.bits + 1);
      var (left, r2) := Extract(f, |txids|, vBits, vHash, height - 1, 2 * pos, r1);
      var (right, r3) := if HasRight(|txids|, height, pos) then Extract(f, |txids|, vBits, vHash, height - 1, 2 * pos + 1, r2)
                         else (left, r2);
      InnerResult(f, |txids|, vBits, vHash, height, pos, r);
      Parts(f, left, right, CalcHash(f, txids, height - 1, 2 * pos),
            if HasRight(|txids|, height, pos) then CalcHash(f, txids, height - 1, 2 * pos + 1) else CalcHash(f, txids, height - 1, 2 * pos));
      ExtractSound(f, txids, vBits, vHash, height - 1, 2 * pos, r1);
      NodeRange(|txids|, height, pos);
      if HasRight(|txids|, height, pos) {
        ExtractSound(f, txids, vBits, vHash, height - 1, 2 * pos + 1, r2);
        FoundBoth(txids, r1, r2, r3, First(height, pos), First(height - 1, 2 * pos + 1), End(|txids|, height, pos));
      }
      SameFinds(txids, r, r1, r3, First(height, pos), End(|txids|, height, pos));
    }
  }

  lemma SomeBits(f: Combine, n: nat, vBits: seq<bool>, vHash: seq<Hash>, height: nat, pos: nat, r: Reader)
    requires !Extract(f, n, vBits, vHash, height, pos, r).1.bad
    ensures r.bits < |vBits|
  {
    hide InTree;
  }

  lemma Parts(f: Combine, a: Hash, b: Hash, c: Hash, d: Hash)
    requires Injective(f) && f(a, b) == f(c, d)
    ensures a == c && b == d
  {
  }

  lemma SameFinds(txids: seq<Hash>, r: Reader, r1: Reader, r': Reader, lo: nat, hi: nat)
    requires r1 == r.(bits := r1.bits) && Found(txids, r1, r', lo, hi)
    ensures Found(txids, r, r', lo, hi)
  {
    var at :| FoundAt(txids, r1, r', lo, hi, at);
    assert FoundAt(txids, r, r', lo, hi, at);
  }

  /** The children's leaves are the node's leaves. */
  lemma NodeRange(n: nat, height: nat, pos: nat)
    requires height > 0 && InTree(n, height, pos) && InTree(n, height - 1, 2 * pos)
    ensures First(height - 1, 2 * pos) == First(height, pos)
    ensures HasRight(n, height, pos) ==>
              && First(height, pos) <= End(n, height - 1, 2 * pos) == First(height - 1, 2 * pos + 1) <= End(n, height, pos)
              && End(n, height - 1, 2 * pos + 1) == End(n, height, pos)
    ensures !HasRight(n, height, pos) ==> End(n, height - 1, 2 * pos) == End(n, height, pos) == n
  {
    Halves(height, pos);
  }

  lemma InnerResult(f: Combine, n: nat, vBits: seq<bool>, vHash: seq<Hash>, height: nat, pos: nat, r: Reader)
    requires r.bits < |vBits| && height > 0 && vBits[r.bits]
    requires !Extract(f, n, vBits, vHash, height, pos, r).1.bad
    ensures var (left, r2) := Extract(f, n, vBits, vHash, height - 1, 2 * pos, r.(bits := r.bits + 1));
            var (right, r3) := if HasRight(n, height, pos) then Extract(f, n, vBits, vHash, height - 1, 2 * pos + 1, r2)
                               else (left, r2);
            && Extract(f, n, vBits, vHash, height, pos, r) == (f(left, right), r3)
            && !r2.bad && !r3.bad
  {
    hide First;
    var r2 := Extract(f, n, vBits, vHash, height - 1, 2 * pos, r.(bits := r.bits + 1)).1;
    if r2.bad {
      BadStays(f, n, vBits, vHash, height - 1, 2 * pos + 1, r2);
    }
  }

  lemma SoundEdge(f: Combine, txids: seq<Hash>, vBits: seq<bool>, vHash: seq<Hash>, height: nat, pos: nat, r: Reader)
    requires InTree(|txids|, height, pos) && (r.bits < |vBits| && height > 0 ==> !vBits[r.bits])
    requires var (x, r') := Extract(f, |txids|, vBits, vHash, height, pos, r);
             !r'.bad && x == CalcHash(f, txids, height, pos)
    ensures Found(txids, r, Extract(f, |txids|, vBits, vHash, height, pos, r).1, First(height, pos), End(|txids|, height, pos))
  {
    var (x, r') := Extract(f, |txids|, vBits, vHash, height, pos, r);
    if height == 0 && vBits[r.bits] {
      assert Pick(txids, [pos]) == [txids[pos]];
      assert FoundAt(txids, r, r', pos, End(|txids|, 0, pos), [pos]);
    } else {
      FoundNone(txids, r, r', First(height, pos), End(|txids|, height, pos));
    }
  }
}
