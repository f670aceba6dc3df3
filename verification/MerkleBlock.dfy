/** The class `CPartialMerkleTree`: building, packing of the flag bits, and extraction. */
module MerkleBlock {
  import opened Primitives
  import opened MerkleTree
  import opened MerkleProof

  method CalcHeight(n: nat) returns (h: nat)
    ensures h == TreeHeight(n)
  {
    h := 0;
    WidthMeans(n, 0, 1);
    while Width(n, h) > 1
      invariant forall j | 0 <= j < h :: First(j, 1) < n
      invariant 1 < Width(n, h) <==> InTree(n, h, 1)
      decreases n - h
    {
      TallerThanHigh(h);
      h := h + 1;
      WidthMeans(n, h, 1);
    }
    HeightUnique(n, h);
  }

  lemma HeightUnique(n: nat, h: nat)
    requires First(h, 1) >= n && forall j | 0 <= j < h :: First(j, 1) < n
    ensures h == TreeHeight(n)
  {
    if TreeHeight(n) < h {
      assert false;
    }
  }

  /** The root of the tree over all transactions. */
  function MerkleRoot(f: Combine, txids: seq<Hash>): Hash
    requires txids != []
  {
    RootInTree(|txids|);
    CalcHash(f, txids, TreeHeight(|txids|), 0)
  }

  // ----- Flag bits as bytes -----

  /** `1 << k`. */
  function Mask(k: nat): bv8
    requires k < 8
  {
    if k == 0 then 1 else if k == 1 then 2 else if k == 2 then 4 else if k == 3 then 8
    else if k == 4 then 16 else if k == 5 then 32 else if k == 6 then 64 else 128
  }

  predicate BitOf(b: bv8, k: nat)
    requires k < 8
  {
    b & Mask(k) != 0
  }

  /** Bits are counted from the lowest one. */
  lemma BitIsShifted(b: bv8, k: nat)
    requires k < 8
    ensures BitOf(b, k) <==> (b >> k) & 1 == 1
  {
    if k == 0 {
    } else if k == 1 {
    } else if k == 2 {
    } else if k == 3 {
    } else if k == 4 {
    } else if k == 5 {
    } else if k == 6 {
    } else {
    }
  }

  lemma SetBit(b: bv8, k: nat, j: nat)
    requires k < 8 && j < 8
    ensures BitOf(b | Mask(k), j) <==> j == k || BitOf(b, j)
    ensures !BitOf(0, j)
  {
  }

  /** Whether bit `p` of the bytes is set. */
  predicate Flag(bytes: seq<bv8>, p: nat)
    requires p / 8 < |bytes|
  {
    BitOf(bytes[p / 8], p % 8)
  }

  method Pack(bits: seq<bool>) returns (bytes: seq<bv8>)
    ensures |bytes| == (|bits| + 7) / 8
    ensures forall p | 0 <= p < 8 * |bytes| :: Flag(bytes, p) <==> p < |bits| && bits[p]
  {
    bytes := seq((|bits| + 7) / 8, _ => 0);
    forall p | 0 <= p < 8 * |bytes|
      ensures !Flag(bytes, p)
    {
      SetBit(0, 0, p % 8);
    }
    for p := 0 to |bits|
      invariant |bytes| == (|bits| + 7) / 8
      invariant forall q | 0 <= q < 8 * |bytes| :: Flag(bytes, q) <==> q < p && bits[q]
    {
      ghost var before := bytes;
      bytes := bytes[p / 8 := bytes[p / 8] | if bits[p] then Mask(p % 8) else 0];
      forall q | 0 <= q < 8 * |bytes|
        ensures Flag(bytes, q) <==> q < p + 1 && bits[q]
      {
        OrFlag(before, p, bits[p], q);
      }
    }
  }

  lemma OrFlag(bytes: seq<bv8>, p: nat, v: bool, q: nat)
    requires p / 8 < |bytes| && q / 8 < |bytes|
    ensures Flag(bytes[p / 8 := bytes[p / 8] | if v then Mask(p % 8) else 0], q) <==> (p == q && v) || Flag(bytes, q)
  {
    if q / 8 == p / 8 {
      SetBit(bytes[p / 8], p % 8, q % 8);
      assert p == q <==> p % 8 == q % 8;
      OrZero(bytes[p / 8]);
    }
  }

  lemma OrZero(b: bv8)
    ensures b | 0 == b
  {
  }

  method Unpack(bytes: seq<bv8>) returns (bits: seq<bool>)
    ensures |bits| == 8 * |bytes|
    ensures forall p | 0 <= p < |bits| :: bits[p] <==> Flag(bytes, p)
  {
    bits := [];
    for p := 0 to 8 * |bytes|
      invariant |bits| == p
      invariant forall q | 0 <= q < p :: bits[q] <==> Flag(bytes, q)
    {
      bits := bits + [bytes[p / 8] & Mask(p % 8) != 0];
    }
  }

  /** Packed and unpacked again, the bits are followed by zeros up to a multiple of 8. */
  ghost predicate Padded(bits: seq<bool>, padded: seq<bool>) {
    && |padded| == (|bits| + 7) / 8 * 8
    && forall p | 0 <= p < |padded| :: padded[p] <==> p < |bits| && bits[p]
  }

  /** Bits that are written and read again are padded. */
  lemma PackThenUnpack(bits: seq<bool>, bytes: seq<bv8>, padded: seq<bool>)
    requires |bytes| == (|bits| + 7) / 8 && |padded| == 8 * |bytes|
    requires forall p | 0 <= p < 8 * |bytes| :: Flag(bytes, p) <==> p < |bits| && bits[p]
    requires forall p | 0 <= p < |padded| :: padded[p] <==> Flag(bytes, p)
    ensures Padded(bits, padded)
  {
    hide Flag;
  }

  // ----- Extraction -----

  /** Completeness: what is built for a block and a mask, with or without packing of the bits, gives
      back the block's Merkle root and exactly the marked transactions, in order. */
  lemma BuildThenExtract(f: Combine, txids: seq<Hash>, marks: seq<bool>, vBits: seq<bool>)
    requires Injective(f) && Distinct(txids) && |txids| == |marks| && 0 < |txids| <= MAX_BLOCK_SIZE / 60
    requires InTree(|marks|, TreeHeight(|marks|), 0)
    requires var bits := Bits(marks, TreeHeight(|marks|), 0);
             vBits == bits || Padded(bits, vBits)
    ensures Extracted(f, |txids|, vBits, Hashes(f, txids, marks, TreeHeight(|marks|), 0), false)
            == (MerkleRoot(f, txids), Pick(txids, Marked(marks, 0, |marks|)))
  {
    hide Extract, TreeHeight, Marked, Pick, Bits, Hashes, CalcHash, First;
    var h := TreeHeight(|marks|);
    RootInTree(|marks|);
    var bits, hashes := Bits(marks, h, 0), Hashes(f, txids, marks, h, 0);
    HashesPerLeaf(f, txids, marks, h, 0);
    BitPerHash(f, txids, marks, h, 0);
    Unpadded(bits, vBits);
    assert hashes[0..|hashes|] == hashes;
    ExtractBuilt(f, txids, marks, vBits, hashes, h, 0, START);
    assert [] + Pick(txids, Marked(marks, 0, |marks|)) == Pick(txids, Marked(marks, 0, |marks|));
  }

  lemma Unpadded(bits: seq<bool>, vBits: seq<bool>)
    requires vBits == bits || Padded(bits, vBits)
    ensures At(vBits, 0, bits) && (|bits| + 7) / 8 == (|vBits| + 7) / 8
  {
    assert vBits[0..|bits|] == bits;
  }

  /** There is a bit for every hash. */
  lemma {:induction false} BitPerHash(f: Combine, txids: seq<Hash>, marks: seq<bool>, height: nat, pos: nat)
    requires InTree(|marks|, height, pos) && |txids| == |marks|
    ensures |Hashes(f, txids, marks, height, pos)| <= |Bits(marks, height, pos)|
  {
    hide Under, First, CalcHash;
    if height > 0 && Under(marks, height, pos) != [] {
      Halves(height, pos);
      BitPerHash(f, txids, marks, height - 1, 2 * pos);
      if InTree(|marks|, height - 1, 2 * pos + 1) {
        BitPerHash(f, txids, marks, height - 1, 2 * pos + 1);
      }
    }
  }

  /** Size: as many hashes as transactions at most, and at most 1 plus matches times height. */
  lemma BuiltSize(f: Combine, txids: seq<Hash>, marks: seq<bool>)
    requires |txids| == |marks| && 0 < |txids| && InTree(|marks|, TreeHeight(|marks|), 0)
    ensures var hashes := Hashes(f, txids, marks, TreeHeight(|marks|), 0);
            && |hashes| <= |txids|
            && |hashes| <= 1 + |Marked(marks, 0, |marks|)| * TreeHeight(|marks|)
  {
    RootInTree(|marks|);
    HashesPerLeaf(f, txids, marks, TreeHeight(|marks|), 0);
    HashesPerMatch(f, txids, marks, TreeHeight(|marks|), 0);
  }

  /** Soundness: whatever bits and hashes come with a block's transaction count, an extraction that
      gives the block's root yields only transactions of the block, at ascending positions. */
  lemma ExtractIsSound(f: Combine, txids: seq<Hash>, vBits: seq<bool>, vHash: seq<Hash>, bad: bool)
    requires Injective(f) && txids != [] && MerkleRoot(f, txids) != NULL_HASH
    requires Extracted(f, |txids|, vBits, vHash, bad).0 == MerkleRoot(f, txids)
    ensures exists at :: Ascending(at, 0, |txids|) && Extracted(f, |txids|, vBits, vHash, bad).1 == Pick(txids, at)
  {
    hide Extract, TreeHeight, Pick, CalcHash, First;
    var n := |txids|;
    RootInTree(n);
    var r0 := START.(bad := bad);
    ExtractSound(f, txids, vBits, vHash, TreeHeight(n), 0, r0);
    var r := Extract(f, n, vBits, vHash, TreeHeight(n), 0, r0).1;
    var at :| FoundAt(txids, r0, r, 0, n, at);
    assert r.matches == Pick(txids, at);
  }

  class PartialMerkleTree {
    const f: Combine
    var nTransactions: nat
    var vBits: seq<bool>
    var vHash: seq<Hash>
    var fBad: bool

    /** Builds the tree for the transactions of a block and a mask over them. */
    constructor (f: Combine, vTxid: seq<Hash>, vMatch: seq<bool>)
      requires |vTxid| == |vMatch| > 0
      ensures this.f == f && nTransactions == |vTxid| && !fBad
      ensures InTree(|vTxid|, TreeHeight(|vTxid|), 0)
      ensures vBits == Bits(vMatch, TreeHeight(|vTxid|), 0)
      ensures vHash == Hashes(f, vTxid, vMatch, TreeHeight(|vTxid|), 0)
    {
      this.f := f;
      nTransactions, fBad := |vTxid|, false;
      vBits, vHash := [], [];
      new;
      var height := CalcHeight(nTransactions);
      RootInTree(nTransactions);
      TraverseAndBuild(height, 0, vTxid, vMatch);
    }

    /** Reads a tree from its serialised parts. */
    constructor Read(f: Combine, n: nat, hashes: seq<Hash>, bytes: seq<bv8>)
      ensures this.f == f && nTransactions == n && vHash == hashes && !fBad
      ensures |vBits| == 8 * |bytes| && forall p | 0 <= p < |vBits| :: vBits[p] <==> Flag(bytes, p)
    {
      this.f := f;
      nTransactions, vHash, fBad := n, hashes, false;
      new;
      vBits := Unpack(bytes);
    }

    /** The parts that are written: the number of transactions, the hashes, and the bits as bytes. */
    method Write() returns (n: nat, hashes: seq<Hash>, bytes: seq<bv8>)
      ensures n == nTransactions && hashes == vHash && |bytes| == (|vBits| + 7) / 8
      ensures forall p | 0 <= p < 8 * |bytes| :: Flag(bytes, p) <==> p < |vBits| && vBits[p]
    {
      n, hashes := nTransactions, vHash;
      bytes := Pack(vBits);
    }

    method TraverseAndBuild(height: nat, pos: nat, vTxid: seq<Hash>, vMatch: seq<bool>)
      requires |vTxid| == |vMatch| == nTransactions && InTree(|vMatch|, height, pos)
      modifies this`vBits, this`vHash
      ensures vBits == old(vBits) + Bits(vMatch, height, pos)
      ensures vHash == old(vHash) + Hashes(f, vTxid, vMatch, height, pos)
      decreases height
    {
      hide First, CalcHash, Bits, Hashes, Under;
      var parentOfMatch := AnyMatch(vMatch, height, pos);
      vBits := vBits + [parentOfMatch];
      if height == 0 || !parentOfMatch {
        EdgeStep(f, vTxid, vMatch, height, pos);
        vHash := vHash + [CalcHash(f, vTxid, height, pos)];
      } else {
        NodeHash(f, vTxid, height, pos);
        NodeBits(vMatch, height, pos);
        NodeHashes(f, vTxid, vMatch, height, pos);
        HasRightMeans(nTransactions, height, pos);
        TraverseAndBuild(height - 1, 2 * pos, vTxid, vMatch);
        WidthMeans(nTransactions, height - 1, 2 * pos + 1);
        if 2 * pos + 1 < Width(nTransactions, height - 1) {
          TraverseAndBuild(height - 1, 2 * pos + 1, vTxid, vMatch);
        }
      }
    }

    method TraverseAndExtract(height: nat, pos: nat, nBitsUsed: nat, nHashUsed: nat, vMatch: seq<Hash>, ghost positions: seq<nat>)
      returns (hash: Hash, nBitsUsed': nat, nHashUsed': nat, vMatch': seq<Hash>, ghost positions': seq<nat>)
      modifies this`fBad
      ensures (hash, Reader(nBitsUsed', nHashUsed', vMatch', positions', fBad))
              == Extract(f, nTransactions, vBits, vHash, height, pos,
                         Reader(nBitsUsed, nHashUsed, vMatch, positions, old(fBad)))
      decreases height
    {
      hide First;
      nBitsUsed', nHashUsed', vMatch', positions' := nBitsUsed, nHashUsed, vMatch, positions;
      if nBitsUsed >= |vBits| {
        fBad := true;
        return NULL_HASH, nBitsUsed', nHashUsed', vMatch', positions';
      }
      var parentOfMatch := vBits[nBitsUsed];
      nBitsUsed' := nBitsUsed + 1;
      if height == 0 || !parentOfMatch {
        if nHashUsed >= |vHash| {
          fBad := true;
          return NULL_HASH, nBitsUsed', nHashUsed', vMatch', positions';
        }
        hash := vHash[nHashUsed];
        nHashUsed' := nHashUsed + 1;
        if height == 0 && parentOfMatch {
          vMatch', positions' := vMatch' + [hash], positions' + [pos];
        }
      } else {
        var left, right;
        left, nBitsUsed', nHashUsed', vMatch', positions' :=
          TraverseAndExtract(height - 1, 2 * pos, nBitsUsed', nHashUsed', vMatch', positions');
        WidthMeans(nTransactions, height - 1, 2 * pos + 1);
        if 2 * pos + 1 < Width(nTransactions, height - 1) {
          right, nBitsUsed', nHashUsed', vMatch', positions' :=
            TraverseAndExtract(height - 1, 2 * pos + 1, nBitsUsed', nHashUsed', vMatch', positions');
          if right == left {
            fBad := true;
          }
        } else {
          right := left;
        }
        hash := f(left, right);
      }
    }

    /** The Merkle root and the matched transactions; null on failure. */
    method ExtractMatches() returns (root: Hash, vMatch: seq<Hash>)
      modifies this`fBad
      ensures (root, vMatch) == Extracted(f, nTransactions, vBits, vHash, old(fBad))
      ensures root != NULL_HASH ==>
                && !old(fBad) && 0 < nTransactions <= 33_333
                && exists part ::
                     Proves(f, nTransactions, vBits, vHash, part) && PartHash(f, part) == root && Wanted(part) == vMatch
      ensures root == NULL_HASH && !old(fBad) && 0 < nTransactions <= 33_333 ==>
                forall part | Proves(f, nTransactions, vBits, vHash, part) :: PartHash(f, part) == NULL_HASH
    {
      hide Extract, TreeHeight, Proves, PartHash, Wanted;
      AcceptedOnly(f, nTransactions, vBits, vHash, fBad);
      vMatch := [];
      if nTransactions == 0 || nTransactions > MAX_BLOCK_SIZE / 60 || |vHash| > nTransactions || |vBits| < |vHash| {
        return NULL_HASH, vMatch;
      }
      var height := CalcHeight(nTransactions);
      var nBitsUsed, nHashUsed;
      ghost var positions;
      root, nBitsUsed, nHashUsed, vMatch, positions := TraverseAndExtract(height, 0, 0, 0, vMatch, []);
      if fBad || (nBitsUsed + 7) / 8 != (|vBits| + 7) / 8 || nHashUsed != |vHash| {
        root := NULL_HASH;
      }
    }
  }

  /** From one node to another: what is built for a block and a mask, written, read and extracted gives the
      Merkle root and exactly the marked transactions, in order. */
  method SendAndExtract(f: Combine, vTxid: seq<Hash>, vMatch: seq<bool>) returns (root: Hash, matches: seq<Hash>)
    requires Injective(f) && Distinct(vTxid) && |vTxid| == |vMatch| && 0 < |vTxid| <= MAX_BLOCK_SIZE / 60
    ensures root == MerkleRoot(f, vTxid) && matches == Pick(vTxid, Marked(vMatch, 0, |vMatch|))
  {
    hide Bits, Hashes, Extracted, MerkleRoot, Marked, Pick, InTree, TreeHeight, Flag, Padded;
    var sent := new PartialMerkleTree(f, vTxid, vMatch);
    var n, hashes, bytes := sent.Write();
    var received := new PartialMerkleTree.Read(f, n, hashes, bytes);
    PackThenUnpack(sent.vBits, bytes, received.vBits);
    BuildThenExtract(f, vTxid, vMatch, received.vBits);
    root, matches := received.ExtractMatches();
  }

  /** Whether some leaf under a node is marked. */
  method AnyMatch(marks: seq<bool>, height: nat, pos: nat) returns (r: bool)
    requires InTree(|marks|, height, pos)
    ensures r <==> Under(marks, height, pos) != []
  {
    hide *;
    r := false;
    ghost var lo, hi := First(height, pos), End(|marks|, height, pos);
    SpanOf(|marks|, height, pos);
    var p := pos * Pow2(height);
    while p < (pos + 1) * Pow2(height) && p < |marks|
      invariant lo <= p <= hi
      invariant r <==> exists q :: lo <= q < p && marks[q]
    {
      r := r || marks[p];
      p := p + 1;
    }
    SomeUnder(marks, height, pos);
  }

  /** The leaves of a node, as the loops count them. */
  lemma SpanOf(n: nat, height: nat, pos: nat)
    requires InTree(n, height, pos)
    ensures var lo, hi, end := pos * Pow2(height), (pos + 1) * Pow2(height), End(n, height, pos);
            lo == First(height, pos) <= end && end == if hi < n then hi else n
  {
    hide First, Pow2;
    FirstIs(height, pos);
    FirstIs(height, pos + 1);
    FirstGrows(height, pos, pos + 1);
  }

  lemma SomeUnder(marks: seq<bool>, height: nat, pos: nat)
    ensures Under(marks, height, pos) != [] <==>
              exists q :: First(height, pos) <= q < End(|marks|, height, pos) && marks[q]
  {
    hide First;
    var under := Under(marks, height, pos);
    assert under != [] ==> marks[under[0]];
  }
}
