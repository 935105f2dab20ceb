/** Proofs that a transaction is in a block: the Merkle root that a block carries, and what it commits to. */
module TxProofs {
  import opened Base
  import opened BlockCodec
  import opened Merkle
  import BigEndian

  /** The leaves of a tree over transactions. */
  function Leaves<T>(leafOf: T -> Hash, txs: seq<T>): (leaves: seq<Hash>)
    ensures |leaves| == |txs| && forall i :: 0 <= i < |txs| ==> leaves[i] == leafOf(txs[i])
  {
    seq(|txs|, i requires 0 <= i < |txs| => leafOf(txs[i]))
  }

  /** The root that is computed for transactions is that of their Merkle tree. */
  ghost predicate Rooted<T, V>(s: Scheme<T, V>, h: PairHash, leafOf: T -> Hash, txs: seq<T>) {
    txs != [] ==> BigEndian.Decode(s.txRoot(txs)) == Digest(h, TreeOf(Leaves(leafOf, txs)))
  }

  /** Transaction `i` has the given leaf, and the proof is its path of siblings. */
  predicate Proves<T>(h: PairHash, leafOf: T -> Hash, txs: seq<T>, proof: seq<Hash>, leaf: Hash, i: nat) {
    i < |txs| && leafOf(txs[i]) == leaf && SiblingPath(h, TreeOf(Leaves(leafOf, txs)), i) == proof
  }

  /** The same for the validator transactions. */
  ghost predicate ValidatorRooted<T, V>(s: Scheme<T, V>, h: PairHash, leafOf: V -> Hash, txs: seq<V>) {
    txs != [] ==> BigEndian.Decode(s.validatorRoot(txs)) == Digest(h, TreeOf(Leaves(leafOf, txs)))
  }

  /** A proof of length k leads to the root of 2^k leaves exactly if it is the path of one of them. */
  lemma RootProofIff<X>(h: PairHash, leafOf: X -> Hash, txs: seq<X>, root: Hash, k: nat, proof: seq<Hash>, leaf: Hash)
    requires Injective(h) && |proof| == k && |txs| == Power2(k) && root == Digest(h, TreeOf(Leaves(leafOf, txs)))
    ensures Climb(h, proof, leaf) == root <==> exists i :: Proves(h, leafOf, txs, proof, leaf, i)
  {
    var leaves := Leaves(leafOf, txs);
    FullTree(leaves, k);
    if Climb(h, proof, leaf) == root {
      var i := FullProofSound(h, TreeOf(leaves), k, proof, leaf);
      LeafOfTree(leaves, i);
      assert Proves(h, leafOf, txs, proof, leaf, i);
    }
    if i :| Proves(h, leafOf, txs, proof, leaf, i) {
      PathClimbs(h, TreeOf(leaves), i);
      LeafOfTree(leaves, i);
    }
  }

  /** For all bytes that are read as a block with 2^k transactions: a proof of length k is accepted against
      the root in bytes 161 to 193 if and only if it is the path of one of the block's transactions. */
  lemma TxProofIff<T, V>(
    s: Scheme<T, V>, h: PairHash, leafOf: T -> Hash, bytes: Bytes, k: nat, proof: seq<Hash>, leaf: Hash)
    requires Injective(h) && |proof| == k
    requires var b := Parse(s, bytes); b.Some? && |b.value.txs| == Power2(k) && Rooted(s, h, leafOf, b.value.txs)
    ensures var b := Parse(s, bytes).value;
      && b.txRoot == bytes[161..193]
      && (Climb(h, proof, leaf) == BigEndian.Decode(b.txRoot) <==> exists i :: Proves(h, leafOf, b.txs, proof, leaf, i))
  {
    var b := Parse(s, bytes).value;
    RootProofIff(h, leafOf, b.txs, BigEndian.Decode(b.txRoot), k, proof, leaf);
  }

  /** The same for the validator transactions and the root in bytes 129 to 161. */
  lemma ValidatorProofIff<T, V>(
    s: Scheme<T, V>, h: PairHash, leafOf: V -> Hash, bytes: Bytes, k: nat, proof: seq<Hash>, leaf: Hash)
    requires Injective(h) && |proof| == k
    requires var b := Parse(s, bytes);
      b.Some? && |b.value.validatorTxs| == Power2(k) && ValidatorRooted(s, h, leafOf, b.value.validatorTxs)
    ensures var b := Parse(s, bytes).value;
      && b.validatorRoot == bytes[129..161]
      && (Climb(h, proof, leaf) == BigEndian.Decode(b.validatorRoot) <==>
            exists i :: Proves(h, leafOf, b.validatorTxs, proof, leaf, i))
  {
    var b := Parse(s, bytes).value;
    RootProofIff(h, leafOf, b.validatorTxs, BigEndian.Decode(b.validatorRoot), k, proof, leaf);
  }

  /** Reads a block and checks a proof against its root. */
  method CheckTx<T, V>(
    s: Scheme<T, V>, h: PairHash, ghost leafOf: T -> Hash, bytes: Bytes, threads: nat, proof: seq<Hash>, leaf: Hash)
    returns (ok: bool)
    ensures ok ==> Parse(s, bytes).Some?
    ensures var b := Parse(s, bytes);
      b.Some? && |b.value.txs| == Power2(|proof|) && Injective(h) && Rooted(s, h, leafOf, b.value.txs) ==>
        (ok <==> exists i :: Proves(h, leafOf, b.value.txs, proof, leaf, i))
  {
    var b := FromBytes(s, bytes, threads);
    ok := false;
    if b.Some? {
      ok := Verify(h, proof, leaf, BigEndian.Decode(b.value.txRoot));
      if |b.value.txs| == Power2(|proof|) && Injective(h) && Rooted(s, h, leafOf, b.value.txs) {
        TxProofIff(s, h, leafOf, bytes, |proof|, proof, leaf);
      }
    }
  }
}
