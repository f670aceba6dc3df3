/** Exactly which bits and hashes are accepted as a partial Merkle tree: those that spell out one. */
module MerkleProof {
  import opened Primitives
  import opened MerkleTree

  const MAX_BLOCK_SIZE := 2_000_000

  /** The height of a tree over `n` leaves. */
  function TreeHeight(n: nat): (h: nat)
    ensures First(h, 1) >= n
    ensures forall k | 0 <= k < h :: First(k, 1) < n
  {
    HeightFrom(n, 0)
  }

  function HeightFrom(n: nat, k: nat): (h: nat)
    requires forall j | 0 <= j < k :: First(j, 1) < n
    ensures First(h, 1) >= n
    ensures forall j | 0 <= j < h :: First(j, 1) < n
    decreases n - k
  {
    TallerThanHigh(k);
    if First(k, 1) >= n then k else HeightFrom(n, k + 1)
  }

  lemma {:induction false} TallerThanHigh(k: nat)
    ensures First(k, 1) > k
  {
    if k > 0 {
      TallerThanHigh(k - 1);
      FirstIs(k, 1);
      FirstIs(k - 1, 1);
    }
  }

  lemma RootInTree(n: nat)
    requires n > 0
    ensures InTree(n, TreeHeight(n), 0) && First(TreeHeight(n), 0) == 0 && End(n, TreeHeight(n), 0) == n
  {
    FirstIs(TreeHeight(n), 0);
  }

  const START := Reader(0, 0, [], [], false)

  /** The root and the matched transactions; a root of null means failure. */
  function Extracted(f: Combine, n: nat, vBits: seq<bool>, vHash: seq<Hash>, bad: bool): (Hash, seq<Hash>) {
    if n == 0 || n > MAX_BLOCK_SIZE / 60 || |vHash| > n || |vBits| < |vHash| then (NULL_HASH, [])
    else
      var (root, r) := Extract(f, n, vBits, vHash, TreeHeight(n), 0, START.(bad := bad));
      (if r.bad || (r.bits + 7) / 8 != (|vBits| + 7) / 8 || r.hashes != |vHash| then NULL_HASH else root, r.matches)
  }

  // ----- Parts of a tree -----

  /** A tree cut off at nodes whose hash is given. A given leaf may be one of the transactions looked for. */
  datatype Part = Given(hash: Hash, wanted: bool) | Split(left: Part, right: Part) | Single(only: Part)

  /** The part has the form of the node at `pos` in a tree over `n` leaves: a node has a right child if
      that covers a leaf. */
  predicate Fits(n: nat, height: nat, pos: nat, part: Part) {
    match part
    case Given(_, wanted) => wanted ==> height == 0
    case Split(left, right) =>
      && height > 0 && (2 * pos + 1) * Pow2(height - 1) < n
      && Fits(n, height - 1, 2 * pos, left) && Fits(n, height - 1, 2 * pos + 1, right)
    case Single(only) =>
      height > 0 && (2 * pos + 1) * Pow2(height - 1) >= n && Fits(n, height - 1, 2 * pos, only)
  }

  function PartHash(f: Combine, part: Part): Hash {
    match part
    case Given(hash, _) => hash
    case Split(left, right) => f(PartHash(f, left), PartHash(f, right))
    case Single(only) => f(PartHash(f, only), PartHash(f, only))
  }

  /** Two children never have the same hash (CVE-2012-2459). */
  predicate NoTwins(f: Combine, part: Part) {
    match part
    case Given(_, _) => true
    case Split(left, right) => NoTwins(f, left) && NoTwins(f, right) && PartHash(f, left) != PartHash(f, right)
    case Single(only) => NoTwins(f, only)
  }

  /** One bit for each node, depth first: whether it is taken apart, or wanted. */
  function PartBits(part: Part): (r: seq<bool>)
    ensures r != []
  {
    match part
    case Given(_, wanted) => [wanted]
    case Split(left, right) => [true] + (PartBits(left) + PartBits(right))
    case Single(only) => [true] + PartBits(only)
  }

  function PartHashes(part: Part): seq<Hash> {
    match part
    case Given(hash, _) => [hash]
    case Split(left, right) => PartHashes(left) + PartHashes(right)
    case Single(only) => PartHashes(only)
  }

  function Wanted(part: Part): seq<Hash> {
    match part
    case Given(hash, wanted) => if wanted then [hash] else []
    case Split(left, right) => Wanted(left) + Wanted(right)
    case Single(only) => Wanted(only)
  }

  // ----- Reading what a part spells -----

  /** The reader has moved over the part. */
  ghost predicate Over(part: Part, r: Reader, r': Reader) {
    && r'.bits == r.bits + |PartBits(part)|
    && r'.hashes == r.hashes + |PartHashes(part)|
    && r'.matches == r.matches + Wanted(part)
  }

  ghost predicate Spelled(part: Part, vBits: seq<bool>, vHash: seq<Hash>, r: Reader) {
    At(vBits, r.bits, PartBits(part)) && At(vHash, r.hashes, PartHashes(part))
  }

  lemma RightChild(n: nat, height: nat, pos: nat)
    requires height > 0
    ensures HasRight(n, height, pos) <==> (2 * pos + 1) * Pow2(height - 1) < n
  {
    FirstIs(height - 1, 2 * pos + 1);
  }

  lemma {:induction false} ReadPart(
    f: Combine, n: nat, vBits: seq<bool>, vHash: seq<Hash>, height: nat, pos: nat, r: Reader, part: Part)
    requires Fits(n, height, pos, part) && Spelled(part, vBits, vHash, r)
    ensures var (x, r') := Extract(f, n, vBits, vHash, height, pos, r);
            x == PartHash(f, part) && Over(part, r, r') && (r'.bad <==> r.bad || !NoTwins(f, part))
    decreases part
  {
    hide Extract, First, HasRight, Pow2;
    match part
    case Given(_, _) =>
      assert vBits[r.bits..r.bits + 1][0] == vBits[r.bits];
      assert vHash[r.hashes..r.hashes + 1][0] == vHash[r.hashes];
      ExtractEdge(f, n, vBits, vHash, height, pos, r);
    case Split(left, right) =>
      SplitSpelled(left, right, vBits, vHash, r);
      var r1 := r.(bits := r.bits + 1);
      var (x, r2) := Extract(f, n, vBits, vHash, height - 1, 2 * pos, r1);
      var (y, r3) := Extract(f, n, vBits, vHash, height - 1, 2 * pos + 1, r2);
      ReadPart(f, n, vBits, vHash, height - 1, 2 * pos, r1, left);
      ReadPart(f, n, vBits, vHash, height - 1, 2 * pos + 1, r2, right);
      RightChild(n, height, pos);
      ExtractInner(f, n, vBits, vHash, height, pos, r, x, r2, y, r3);
    case Single(only) =>
      SingleSpelled(only, vBits, vHash, r);
      var r1 := r.(bits := r.bits + 1);
      var (x, r2) := Extract(f, n, vBits, vHash, height - 1, 2 * pos, r1);
      ReadPart(f, n, vBits, vHash, height - 1, 2 * pos, r1, only);
      RightChild(n, height, pos);
      ExtractInner(f, n, vBits, vHash, height, pos, r, x, r2, x, r2);
  }

  lemma SplitSpelled(left: Part, right: Part, vBits: seq<bool>, vHash: seq<Hash>, r: Reader)
    requires Spelled(Split(left, right), vBits, vHash, r)
    ensures r.bits < |vBits| && vBits[r.bits] && Spelled(left, vBits, vHash, r.(bits := r.bits + 1))
    ensures forall r2: Reader | Over(left, r.(bits := r.bits + 1), r2) :: Spelled(right, vBits, vHash, r2)
  {
    hide At, PartBits, PartHashes;
    PartSteps(left, right);
    AtParts(vBits, r.bits, [true], PartBits(left) + PartBits(right));
    AtParts(vBits, r.bits + 1, PartBits(left), PartBits(right));
    AtParts(vHash, r.hashes, PartHashes(left), PartHashes(right));
    AtBounds(vBits, r.bits, [true]);
  }

  lemma SingleSpelled(only: Part, vBits: seq<bool>, vHash: seq<Hash>, r: Reader)
    requires Spelled(Single(only), vBits, vHash, r)
    ensures r.bits < |vBits| && vBits[r.bits] && Spelled(only, vBits, vHash, r.(bits := r.bits + 1))
  {
    hide At, PartBits, PartHashes;
    PartSteps(only, only);
    AtParts(vBits, r.bits, [true], PartBits(only));
    AtBounds(vBits, r.bits, [true]);
  }

  lemma AtBounds<T(!new)>(whole: seq<T>, at: nat, part: seq<T>)
    requires At(whole, at, part)
    ensures at + |part| <= |whole|
  {
  }

  lemma PartSteps(left: Part, right: Part)
    ensures PartBits(Split(left, right)) == [true] + (PartBits(left) + PartBits(right))
    ensures PartHashes(Split(left, right)) == PartHashes(left) + PartHashes(right)
    ensures PartBits(Single(left)) == [true] + PartBits(left) && PartHashes(Single(left)) == PartHashes(left)
  {
  }

  // ----- What is read without fault is spelled out by a part -----

  lemma {:induction false} PartRead(
    f: Combine, n: nat, vBits: seq<bool>, vHash: seq<Hash>, height: nat, pos: nat, r: Reader)
    returns (part: Part)
    requires !Extract(f, n, vBits, vHash, height, pos, r).1.bad
    ensures Fits(n, height, pos, part) && Spelled(part, vBits, vHash, r)
    decreases height
  {
    hide First, HasRight, Pow2;
    var bit := vBits[r.bits];
    if height == 0 || !bit {
      hide Extract;
      ExtractLeaf(f, n, vBits, vHash, height, pos, r);
      part := Given(vHash[r.hashes], bit);
    } else {
      RightChild(n, height, pos);
      HasRightMeans(n, height, pos);
      var r1 := r.(bits := r.bits + 1);
      var r2 := Extract(f, n, vBits, vHash, height - 1, 2 * pos, r1).1;
      if HasRight(n, height, pos) {
        FaultStays(f, n, vBits, vHash, height - 1, 2 * pos + 1, r2);
        hide Extract;
        var left := PartRead(f, n, vBits, vHash, height - 1, 2 * pos, r1);
        var right := PartRead(f, n, vBits, vHash, height - 1, 2 * pos + 1, r2);
        part := Split(left, right);
        ReadPart(f, n, vBits, vHash, height - 1, 2 * pos, r1, left);
        TogetherSpelled(left, right, vBits, vHash, r, r2);
      } else {
        hide Extract;
        var only := PartRead(f, n, vBits, vHash, height - 1, 2 * pos, r1);
        part := Single(only);
        SpelledAfter(only, vBits, vHash, r);
      }
    }
  }

  lemma {:induction false} FaultStays(
    f: Combine, n: nat, vBits: seq<bool>, vHash: seq<Hash>, height: nat, pos: nat, r: Reader)
    ensures r.bad ==> Extract(f, n, vBits, vHash, height, pos, r).1.bad
    decreases height
  {
    hide InTree;
    if r.bits < |vBits| && height > 0 && vBits[r.bits] {
      var r1 := r.(bits := r.bits + 1);
      FaultStays(f, n, vBits, vHash, height - 1, 2 * pos, r1);
      FaultStays(f, n, vBits, vHash, height - 1, 2 * pos + 1, Extract(f, n, vBits, vHash, height - 1, 2 * pos, r1).1);
    }
  }

  lemma TogetherSpelled(left: Part, right: Part, vBits: seq<bool>, vHash: seq<Hash>, r: Reader, r2: Reader)
    requires r.bits < |vBits| && vBits[r.bits] && Spelled(left, vBits, vHash, r.(bits := r.bits + 1))
    requires Over(left, r.(bits := r.bits + 1), r2) && Spelled(right, vBits, vHash, r2)
    ensures Spelled(Split(left, right), vBits, vHash, r)
  {
    PartSteps(left, right);
    hide PartBits, PartHashes;
    assert vBits[r.bits..r.bits + 1 + |PartBits(left)| + |PartBits(right)|]
           == [true] + (PartBits(left) + PartBits(right));
  }

  lemma SpelledAfter(only: Part, vBits: seq<bool>, vHash: seq<Hash>, r: Reader)
    requires r.bits < |vBits| && vBits[r.bits] && Spelled(only, vBits, vHash, r.(bits := r.bits + 1))
    ensures Spelled(Single(only), vBits, vHash, r)
  {
    PartSteps(only, only);
    hide PartBits, PartHashes;
    assert vBits[r.bits..r.bits + 1 + |PartBits(only)|] == [true] + PartBits(only);
  }

  // ----- Sizes -----

  lemma {:induction false} PartSizes(n: nat, height: nat, pos: nat, part: Part)
    requires Fits(n, height, pos, part) && InTree(n, height, pos)
    ensures |PartHashes(part)| <= End(n, height, pos) - First(height, pos)
    ensures |PartHashes(part)| <= |PartBits(part)|
    decreases part
  {
    hide First, Pow2;
    match part
    case Given(_, _) =>
      NodeEnd(n, height, pos);
    case Split(left, right) =>
      RightChild(n, height, pos);
      Halves(height, pos);
      PartSizes(n, height - 1, 2 * pos, left);
      PartSizes(n, height - 1, 2 * pos + 1, right);
    case Single(only) =>
      RightChild(n, height, pos);
      Halves(height, pos);
      PartSizes(n, height - 1, 2 * pos, only);
  }

  // ----- Acceptance -----

  /** The bits and hashes spell out the part: every hash is used, and all bits but the padding of the last
      byte. */
  ghost predicate Proves(f: Combine, n: nat, vBits: seq<bool>, vHash: seq<Hash>, part: Part) {
    && Fits(n, TreeHeight(n), 0, part) && NoTwins(f, part)
    && vHash == PartHashes(part)
    && PartBits(part) <= vBits && (|vBits| + 7) / 8 == (|PartBits(part)| + 7) / 8
  }

  /** What extraction gives for bits and hashes that begin with those of a part. */
  lemma ExtractedPart(f: Combine, n: nat, vBits: seq<bool>, vHash: seq<Hash>, bad: bool, part: Part)
    requires 0 < n <= 33_333 && Fits(n, TreeHeight(n), 0, part) && PartHashes(part) <= vHash && PartBits(part) <= vBits
    ensures Extracted(f, n, vBits, vHash, bad).0 ==
              if !bad && Proves(f, n, vBits, vHash, part) then PartHash(f, part) else NULL_HASH
    ensures Proves(f, n, vBits, vHash, part) ==> Extracted(f, n, vBits, vHash, bad).1 == Wanted(part)
  {
    hide Extract, TreeHeight, PartHash, PartHashes, PartBits, Wanted, Fits, NoTwins, First;
    var r := START.(bad := bad);
    RootInTree(n);
    PartSizes(n, TreeHeight(n), 0, part);
    assert vBits[0..|PartBits(part)|] == PartBits(part);
    assert vHash[0..|PartHashes(part)|] == PartHashes(part);
    ReadPart(f, n, vBits, vHash, TreeHeight(n), 0, r, part);
    assert [] + Wanted(part) == Wanted(part);
    assert |vHash| == |PartHashes(part)| ==> vHash == PartHashes(part);
  }

  /** A root is returned exactly for the bits and hashes that spell out a tree of the right form without
      twins; it is the root of that tree, and the transactions found are the ones it wants. */
  lemma ExtractedExactly(
    f: Combine, n: nat, vBits: seq<bool>, vHash: seq<Hash>, bad: bool, root: Hash, found: seq<Hash>)
    requires root != NULL_HASH
    ensures Extracted(f, n, vBits, vHash, bad) == (root, found) <==>
              && !bad && 0 < n <= 33_333
              && exists part :: Proves(f, n, vBits, vHash, part) && PartHash(f, part) == root && Wanted(part) == found
  {
    if Extracted(f, n, vBits, vHash, bad) == (root, found) {
      var part := PartOf(f, n, vBits, vHash, bad);
      ExtractedPart(f, n, vBits, vHash, bad, part);
    }
    hide Extracted;
    if !bad && 0 < n <= 33_333 &&
       exists part :: Proves(f, n, vBits, vHash, part) && PartHash(f, part) == root && Wanted(part) == found
    {
      var part :| Proves(f, n, vBits, vHash, part) && PartHash(f, part) == root && Wanted(part) == found;
      ExtractedPart(f, n, vBits, vHash, bad, part);
    }
  }

  lemma PartOf(f: Combine, n: nat, vBits: seq<bool>, vHash: seq<Hash>, bad: bool) returns (part: Part)
    requires Extracted(f, n, vBits, vHash, bad).0 != NULL_HASH
    ensures 0 < n <= 33_333 && Fits(n, TreeHeight(n), 0, part) && PartHashes(part) <= vHash && PartBits(part) <= vBits
  {
    hide Extract, TreeHeight, PartHashes, PartBits, Fits;
    part := PartRead(f, n, vBits, vHash, TreeHeight(n), 0, START.(bad := bad));
  }

  lemma AcceptedOnly(f: Combine, n: nat, vBits: seq<bool>, vHash: seq<Hash>, bad: bool)
    ensures var (root, found) := Extracted(f, n, vBits, vHash, bad);
            if root != NULL_HASH then
              && !bad && 0 < n <= 33_333
              && exists part :: Proves(f, n, vBits, vHash, part) && PartHash(f, part) == root && Wanted(part) == found
            else
              !bad && 0 < n <= 33_333 ==>
                forall part | Proves(f, n, vBits, vHash, part) :: PartHash(f, part) == NULL_HASH
  {
    hide Extracted, Proves, PartHash, Wanted;
    var (root, found) := Extracted(f, n, vBits, vHash, bad);
    if root != NULL_HASH {
      ExtractedExactly(f, n, vBits, vHash, bad, root, found);
    } else if !bad && 0 < n <= 33_333 {
      forall part | Proves(f, n, vBits, vHash, part)
        ensures PartHash(f, part) == NULL_HASH
      {
        ProvenForm(f, n, vBits, vHash, part);
        ExtractedPart(f, n, vBits, vHash, bad, part);
      }
    }
  }

  lemma ProvenForm(f: Combine, n: nat, vBits: seq<bool>, vHash: seq<Hash>, part: Part)
    requires Proves(f, n, vBits, vHash, part)
    ensures Fits(n, TreeHeight(n), 0, part) && PartHashes(part) <= vHash && PartBits(part) <= vBits
  {
  }

  /** Nothing may be left over: with more hashes, or with 8 more bits, an accepted tree is rejected. */
  lemma LeftoversRejected(
    f: Combine, n: nat, vBits: seq<bool>, vHash: seq<Hash>, bad: bool, hashes: seq<Hash>, bits: seq<bool>)
    requires Extracted(f, n, vBits, vHash, bad).0 != NULL_HASH
    ensures hashes != [] ==> Extracted(f, n, vBits, vHash + hashes, bad).0 == NULL_HASH
    ensures |bits| >= 8 ==> Extracted(f, n, vBits + bits, vHash, bad).0 == NULL_HASH
  {
    hide Extracted, TreeHeight, PartHashes, PartBits, Fits, NoTwins;
    var part := PartOf(f, n, vBits, vHash, bad);
    ExtractedPart(f, n, vBits, vHash, bad, part);
    if hashes != [] {
      assert |vHash + hashes| > |PartHashes(part)|;
      ExtractedPart(f, n, vBits, vHash + hashes, bad, part);
    }
    if |bits| >= 8 {
      ExtractedPart(f, n, vBits + bits, vHash, bad, part);
    }
  }
}
