/** The block store: blocks by hash, hashes by height, and an index from transactions to blocks. */
module Storage {
  import opened Base
  import opened BlockCodec
  import OrderedDb
  import BigEndian

  type Db = OrderedDb.Db

  // The first two bytes of a key say what it is for.
  const BLOCKS: Bytes := [0x00, 0x01]
  const HEIGHTS: Bytes := [0x00, 0x02]
  const TXS: Bytes := [0x00, 0x04]

  /** What is stored under a key; the empty value if there is none. */
  function Get(db: Db, p: Bytes, key: Bytes): Bytes {
    if p + key in db then db[p + key] else []
  }

  function Put(db: Db, p: Bytes, key: Bytes, value: Bytes): Db {
    db[p + key := value]
  }

  /** No key is a bare prefix. */
  ghost predicate LongKeys(db: Db) {
    forall k :: k in db ==> |k| > 2
  }

  lemma KeysApart(p: Bytes, a: Bytes, q: Bytes, b: Bytes)
    requires |p| == |q|
    ensures p + a == q + b <==> p == q && a == b
  {
    assert p == (p + a)[..|p|] && a == (p + a)[|p|..];
    assert q == (q + b)[..|p|] && b == (q + b)[|p|..];
  }

  lemma GetPut(db: Db, p: Bytes, key: Bytes, value: Bytes, q: Bytes, other: Bytes)
    requires |p| == |q|
    ensures Get(Put(db, p, key, value), q, other) == if p == q && key == other then value else Get(db, q, other)
  {
    KeysApart(p, key, q, other);
  }

  // ---------- What a block adds ----------

  datatype Chain<!T(!new), !V(!new)> = Chain(scheme: Scheme<T, V>, hash: Bytes -> Bytes, txHash: T -> Bytes) {
    function HashOf(b: Block<T, V>): Bytes {
      hash(Header(b))
    }

    /** Hashes have 32 bytes. */
    ghost predicate Sound() {
      (forall x :: |hash(x)| == 32) && (forall t :: |txHash(t)| == 32)
    }

    /** A block that the node has validated, and whose transactions can be read back. */
    ghost predicate Storable(b: Block<T, V>) {
      && WellSized(b) && Consistent(scheme, b)
      && Faithful(scheme.txCodec, b.txs) && Faithful(scheme.validatorCodec, b.validatorTxs)
      && |Serialized(scheme, b)| < BigEndian.Power256(8)
      && |b.txs| < TWO_TO_32 && ShortFrames(scheme.txCodec, b.txs, |b.txs|)
    }

    /** The last transaction of a block with a given hash. */
    function LastIn(txs: seq<T>, h: Bytes): (r: Option<nat>)
      ensures r.Some? ==> r.value < |txs| && txHash(txs[r.value]) == h
      ensures forall i :: 0 <= i < |txs| && txHash(txs[i]) == h ==> r.Some? && i <= r.value
    {
      if txs == [] then None
      else if txHash(txs[|txs| - 1]) == h then Some(|txs| - 1)
      else LastIn(txs[..|txs| - 1], h)
    }

    /** Where scanning the chain backwards meets a transaction first: block and place in the block. */
    function Find(chain: seq<Block<T, V>>, h: Bytes): (r: Option<(nat, nat)>)
      ensures r.Some? ==>
        r.value.0 < |chain| && r.value.1 < |chain[r.value.0].txs| && txHash(chain[r.value.0].txs[r.value.1]) == h
    {
      if chain == [] then None
      else
        var i := LastIn(chain[|chain| - 1].txs, h);
        if i.Some? then Some((|chain| - 1, i.value)) else Find(chain[..|chain| - 1], h)
    }

    /** Scanning misses nothing, and nothing later. */
    lemma {:induction false} FindIsLast(chain: seq<Block<T, V>>, h: Bytes, b: nat, i: nat)
      requires b < |chain| && i < |chain[b].txs| && txHash(chain[b].txs[i]) == h
      ensures var r := Find(chain, h);
        r.Some? && (b < r.value.0 || (b == r.value.0 && i <= r.value.1))
    {
      if b < |chain| - 1 {
        FindIsLast(chain[..|chain| - 1], h, b, i);
      }
    }

    /** The 44 bytes kept for a transaction: block hash, place in the block, height. */
    function Entry(b: Block<T, V>, i: nat): Bytes {
      HashOf(b) + BigEndian.Encode(i, 4) + BigEndian.Encode(b.height, 8)
    }

    function EntryFor(chain: seq<Block<T, V>>, h: Bytes): Bytes {
      var r := Find(chain, h);
      if r.None? then [] else Entry(chain[r.value.0], r.value.1)
    }

    function Hashes(chain: seq<Block<T, V>>): (hs: seq<Bytes>)
      ensures |hs| == |chain| && forall i :: 0 <= i < |chain| ==> hs[i] == HashOf(chain[i])
    {
      seq(|chain|, i requires 0 <= i < |chain| => HashOf(chain[i]))
    }

    /** Heights count up from 0, every block is a validated one, and no two block hashes collide. */
    ghost predicate WellFormed(chain: seq<Block<T, V>>) {
      && |chain| <= TWO_TO_64
      && (forall i :: 0 <= i < |chain| ==> StorableAt(chain, i))
      && (forall i, j :: 0 <= i < j < |chain| ==> Apart(chain, i, j))
    }

    predicate Apart(chain: seq<Block<T, V>>, i: nat, j: nat)
      requires i < |chain| && j < |chain|
    {
      HashOf(chain[i]) != HashOf(chain[j])
    }

    ghost predicate StorableAt(chain: seq<Block<T, V>>, i: nat)
      requires i < |chain|
    {
      chain[i].height == i && Storable(chain[i])
    }

    // ---------- What the store holds ----------

    ghost predicate HoldsBlocks(db: Db, chain: seq<Block<T, V>>) {
      forall i :: 0 <= i < |chain| ==> Get(db, BLOCKS, HashOf(chain[i])) == Serialized(scheme, chain[i])
    }

    ghost predicate HoldsIndex(db: Db, indexing: bool, chain: seq<Block<T, V>>) {
      forall h :: Get(db, TXS, h) == if indexing then EntryFor(chain, h) else []
    }

    ghost predicate Holds(db: Db, indexing: bool, chain: seq<Block<T, V>>) {
      && HoldsBlocks(db, chain)
      && OrderedDb.HoldsHeights(db, HEIGHTS, Hashes(chain))
      && HoldsIndex(db, indexing, chain)
      && LongKeys(db)
    }

    // ---------- Writing ----------

    /** The store with the index entries of the first `n` transactions. */
    function WithEntries(db: Db, b: Block<T, V>, n: nat): Db
      requires n <= |b.txs|
    {
      if n == 0 then db else Put(WithEntries(db, b, n - 1), TXS, txHash(b.txs[n - 1]), Entry(b, n - 1))
    }

    function WithBlock(db: Db, b: Block<T, V>, indexing: bool): Db {
      var stored := Put(Put(db, BLOCKS, HashOf(b), Serialized(scheme, b)),
                        HEIGHTS, BigEndian.Encode(b.height, 8), HashOf(b));
      if indexing then WithEntries(stored, b, |b.txs|) else stored
    }

    /** Writes a block with its entries in one batch. */
    method StoreBlock(db: Db, b: Block<T, V>, indexing: bool) returns (r: Db)
      requires WellSized(b)
      ensures r == WithBlock(db, b, indexing)
    {
      var bytes := SerializeBlock(scheme, b);
      r := Put(db, BLOCKS, HashOf(b), bytes);
      r := Put(r, HEIGHTS, BigEndian.Encode(b.height, 8), HashOf(b));
      if indexing {
        ghost var stored := r;
        for i := 0 to |b.txs|
          invariant r == WithEntries(stored, b, i)
        {
          r := Put(r, TXS, txHash(b.txs[i]), Entry(b, i));
        }
      }
    }

    lemma {:induction false} EntriesGet(db: Db, b: Block<T, V>, n: nat, p: Bytes, key: Bytes)
      requires n <= |b.txs| && |p| == 2
      ensures var i := LastIn(b.txs[..n], key);
        Get(WithEntries(db, b, n), p, key) == if p == TXS && i.Some? then Entry(b, i.value) else Get(db, p, key)
    {
      if n > 0 {
        EntriesGet(db, b, n - 1, p, key);
        LastInMore(b.txs, n, key);
        GetPut(WithEntries(db, b, n - 1), TXS, txHash(b.txs[n - 1]), Entry(b, n - 1), p, key);
      }
    }

    lemma LastInMore(txs: seq<T>, n: nat, key: Bytes)
      requires 0 < n <= |txs|
      ensures LastIn(txs[..n], key) == if txHash(txs[n - 1]) == key then Some(n - 1) else LastIn(txs[..n - 1], key)
    {
      assert txs[..n][..n - 1] == txs[..n - 1];
    }

    lemma {:induction false} EntriesKeys(db: Db, b: Block<T, V>, n: nat, k: Bytes)
      requires n <= |b.txs|
      ensures k in WithEntries(db, b, n) ==> k in db || (|k| >= 2 && k[..2] == TXS && exists t :: k == TXS + txHash(t))
      ensures (|k| < 2 || k[..2] != TXS) && k in db ==> k in WithEntries(db, b, n) && WithEntries(db, b, n)[k] == db[k]
    {
      if n > 0 {
        EntriesKeys(db, b, n - 1, k);
        var key := TXS + txHash(b.txs[n - 1]);
        assert key[..2] == TXS;
      }
    }

    /** What can be found after a block has been stored. */
    lemma BlockGet(db: Db, b: Block<T, V>, indexing: bool, p: Bytes, key: Bytes)
      requires |p| == 2
      ensures var i := LastIn(b.txs, key);
        Get(WithBlock(db, b, indexing), p, key) ==
        if p == BLOCKS && key == HashOf(b) then Serialized(scheme, b)
        else if p == HEIGHTS && key == BigEndian.Encode(b.height, 8) then HashOf(b)
        else if p == TXS && indexing && i.Some? then Entry(b, i.value)
        else Get(db, p, key)
    {
      var first := Put(db, BLOCKS, HashOf(b), Serialized(scheme, b));
      var second := Put(first, HEIGHTS, BigEndian.Encode(b.height, 8), HashOf(b));
      GetPut(db, BLOCKS, HashOf(b), Serialized(scheme, b), p, key);
      GetPut(first, HEIGHTS, BigEndian.Encode(b.height, 8), HashOf(b), p, key);
      if indexing {
        assert b.txs[..|b.txs|] == b.txs;
        EntriesGet(second, b, |b.txs|, p, key);
      }
    }

    /** The 44 bytes of an index entry. */
    lemma EntryBytes(b: Block<T, V>, i: nat)
      requires Sound() && i < TWO_TO_32 && b.height < TWO_TO_64
      ensures var e := Entry(b, i);
        && |e| == 44 && e[0..32] == HashOf(b)
        && BigEndian.Decode(e[32..36]) == i && BigEndian.Decode(e[36..44]) == b.height
    {
      var e := Entry(b, i);
      assert e[0..32] == HashOf(b) && e[32..36] == BigEndian.Encode(i, 4) && e[36..44] == BigEndian.Encode(b.height, 8);
      BigEndian.DecodeEncode(i, 4);
      BigEndian.DecodeEncode(b.height, 8);
    }

    /** The keys and values that storing a block writes, byte by byte: the block under its hash, and its hash
        under its height. */
    lemma StoredBytes(db: Db, b: Block<T, V>, indexing: bool, heightKey: Bytes)
      requires |heightKey| == 8 && BigEndian.Decode(heightKey) == b.height
      ensures var r := WithBlock(db, b, indexing);
        Get(r, [0, 1], HashOf(b)) == Serialized(scheme, b) && Get(r, [0, 2], heightKey) == HashOf(b)
    {
      BlockGet(db, b, indexing, [0, 1], HashOf(b));
      BigEndian.EncodeDecode(heightKey);
      BlockGet(db, b, indexing, [0, 2], heightKey);
    }

    /** For each transaction, the last of equal ones: the hash of its block, its place and the height. */
    lemma IndexedBytes(db: Db, b: Block<T, V>, i: nat)
      requires Sound() && b.height < TWO_TO_64
      requires i < |b.txs| < TWO_TO_32 && forall j :: i < j < |b.txs| ==> txHash(b.txs[j]) != txHash(b.txs[i])
      ensures var e := Get(WithBlock(db, b, true), [0, 4], txHash(b.txs[i]));
        && |e| == 44 && e[0..32] == HashOf(b)
        && BigEndian.Decode(e[32..36]) == i && BigEndian.Decode(e[36..44]) == b.height
    {
      BlockGet(db, b, true, [0, 4], txHash(b.txs[i]));
      assert LastIn(b.txs, txHash(b.txs[i])) == Some(i);
      EntryBytes(b, i);
    }

    lemma BlockKeys(db: Db, b: Block<T, V>, indexing: bool, k: Bytes)
      requires Sound() && k in WithBlock(db, b, indexing)
      ensures k in db || |k| > 2
      ensures HEIGHTS <= k ==> k in db || k == OrderedDb.HeightKey(HEIGHTS, b.height)
    {
      var second := Put(Put(db, BLOCKS, HashOf(b), Serialized(scheme, b)),
                        HEIGHTS, BigEndian.Encode(b.height, 8), HashOf(b));
      if indexing {
        EntriesKeys(second, b, |b.txs|, k);
      }
      if k == BLOCKS + HashOf(b) {
        assert k[1] == 1;
      }
      if HEIGHTS <= k {
        assert k[1] == 2 && (|k| >= 2 ==> k[..2] != TXS);
      }
    }

    // ---------- Growing the chain ----------

    lemma GrowsBlocks(db: Db, indexing: bool, chain: seq<Block<T, V>>, b: Block<T, V>)
      requires Sound() && HoldsBlocks(db, chain) && WellFormed(chain + [b])
      ensures HoldsBlocks(WithBlock(db, b, indexing), chain + [b])
    {
      var more := chain + [b];
      forall i | 0 <= i < |more|
        ensures Get(WithBlock(db, b, indexing), BLOCKS, HashOf(more[i])) == Serialized(scheme, more[i])
      {
        assert more[|chain|] == b && StorableAt(more, |chain|) && StorableAt(more, i);
        BlockGet(db, b, indexing, BLOCKS, HashOf(more[i]));
        assert i < |chain| ==> Apart(more, i, |chain|);
      }
    }

    lemma GrowsIndex(db: Db, indexing: bool, chain: seq<Block<T, V>>, b: Block<T, V>)
      requires HoldsIndex(db, indexing, chain)
      ensures HoldsIndex(WithBlock(db, b, indexing), indexing, chain + [b])
    {
      forall h: Bytes
        ensures Get(WithBlock(db, b, indexing), TXS, h) == if indexing then EntryFor(chain + [b], h) else []
      {
        BlockGet(db, b, indexing, TXS, h);
        assert (chain + [b])[..|chain|] == chain;
      }
    }

    lemma GrowsHeights(db: Db, indexing: bool, chain: seq<Block<T, V>>, b: Block<T, V>)
      requires Sound() && OrderedDb.HoldsHeights(db, HEIGHTS, Hashes(chain)) && WellFormed(chain + [b])
      ensures OrderedDb.HoldsHeights(WithBlock(db, b, indexing), HEIGHTS, Hashes(chain + [b]))
    {
      var r, more := WithBlock(db, b, indexing), chain + [b];
      assert more[|chain|] == b && StorableAt(more, |chain|);
      forall k | k in r && HEIGHTS <= k
        ensures exists h :: 0 <= h < |more| && k == OrderedDb.HeightKey(HEIGHTS, h)
      {
        BlockKeys(db, b, indexing, k);
        if k !in db {
          assert k == OrderedDb.HeightKey(HEIGHTS, |chain|);
        }
      }
      forall h | 0 <= h < |more|
        ensures var k := OrderedDb.HeightKey(HEIGHTS, h); k in r && r[k] == HashOf(more[h])
      {
        BlockGet(db, b, indexing, HEIGHTS, BigEndian.Encode(h, 8));
        HeightStored(db, b, indexing, h);
        if h < |chain| {
          assert more[h] == chain[h] && OrderedDb.HeightKey(HEIGHTS, h) in db;
          DifferentHeights(h, |chain|);
        }
      }
    }

    lemma HeightStored(db: Db, b: Block<T, V>, indexing: bool, h: nat)
      requires h == b.height || OrderedDb.HeightKey(HEIGHTS, h) in db
      ensures OrderedDb.HeightKey(HEIGHTS, h) in WithBlock(db, b, indexing)
    {
      var k := OrderedDb.HeightKey(HEIGHTS, h);
      assert k[1] == 2 && k[..2] != TXS;
      var second := Put(Put(db, BLOCKS, HashOf(b), Serialized(scheme, b)),
                        HEIGHTS, BigEndian.Encode(b.height, 8), HashOf(b));
      assert k in second;
      EntriesKeys(second, b, |b.txs|, k);
    }

    /** Storing the next block makes the store hold the longer chain. */
    lemma Grows(db: Db, indexing: bool, chain: seq<Block<T, V>>, b: Block<T, V>)
      requires Sound() && Holds(db, indexing, chain) && WellFormed(chain + [b])
      ensures Holds(WithBlock(db, b, indexing), indexing, chain + [b])
    {
      GrowsBlocks(db, indexing, chain, b);
      GrowsIndex(db, indexing, chain, b);
      GrowsHeights(db, indexing, chain, b);
      KeysAfter(db, indexing, chain, b);
    }

    lemma StoredHash(db: Db, indexing: bool, chain: seq<Block<T, V>>, height: nat)
      requires Sound() && Holds(db, indexing, chain) && height < TWO_TO_64
      ensures Get(db, HEIGHTS, BigEndian.Encode(height, 8)) == if height < |chain| then HashOf(chain[height]) else []
      ensures height < |chain| ==> |HashOf(chain[height])| == 32
    {
      var k := OrderedDb.HeightKey(HEIGHTS, height);
      if height < |chain| {
        assert k in db && db[k] == Hashes(chain)[height];
      } else if k in db {
        assert HEIGHTS <= k;
        var h :| 0 <= h < |chain| && k == OrderedDb.HeightKey(HEIGHTS, h);
        KeysApart(HEIGHTS, BigEndian.Encode(height, 8), HEIGHTS, BigEndian.Encode(h, 8));
        DifferentHeights(h, height);
      }
    }

    lemma StoredBlock(db: Db, indexing: bool, chain: seq<Block<T, V>>, i: nat)
      requires Holds(db, indexing, chain) && WellFormed(chain) && i < |chain|
      ensures Parse(scheme, Get(db, BLOCKS, HashOf(chain[i]))) == Some(chain[i])
    {
      assert StorableAt(chain, i);
      RoundTrip(scheme, chain[i]);
    }

    /** The store holds a validated chain that ends in the latest block. */
    ghost predicate Keeps(db: Db, indexing: bool, chain: seq<Block<T, V>>, latest: Block<T, V>) {
      && Sound() && chain != [] && WellFormed(chain)
      && latest == chain[|chain| - 1]
      && Holds(db, indexing, chain)
    }

    lemma NextKeeps(db: Db, indexing: bool, chain: seq<Block<T, V>>, latest: Block<T, V>, b: Block<T, V>)
      requires Keeps(db, indexing, chain, latest) && WellFormed(chain + [b])
      ensures WellSized(b) && Keeps(WithBlock(db, b, indexing), indexing, chain + [b], b)
    {
      assert (chain + [b])[|chain|] == b && StorableAt(chain + [b], |chain|);
      Grows(db, indexing, chain, b);
    }

    // ---------- Blocks that do not belong there ----------

    /** A block that can be written and read: its transactions can, and it fits. */
    ghost predicate Writable(b: Block<T, V>) {
      && WellSized(b) && |Serialized(scheme, b)| < BigEndian.Power256(8)
      && Faithful(scheme.txCodec, b.txs) && Faithful(scheme.validatorCodec, b.validatorTxs)
    }

    /** What a caller of the store has to see to. */
    ghost predicate Belongs(chain: seq<Block<T, V>>, b: Block<T, V>) {
      b.height == |chain| && Consistent(scheme, b) && NewHash(chain, b)
    }

    ghost predicate NewHash(chain: seq<Block<T, V>>, b: Block<T, V>) {
      forall i :: 0 <= i < |chain| ==> HashOf(chain[i]) != HashOf(b)
    }

    /** A block with another height than the next leaves the next height without a key. */
    lemma MisplacedHeights(db: Db, indexing: bool, chain: seq<Block<T, V>>, b: Block<T, V>)
      requires Sound() && OrderedDb.HoldsHeights(db, HEIGHTS, Hashes(chain)) && |chain| < TWO_TO_64
      requires WellSized(b) && b.height != |chain|
      ensures OrderedDb.HeightKey(HEIGHTS, |chain|) !in WithBlock(db, b, indexing)
    {
      var n := |chain|;
      var k := OrderedDb.HeightKey(HEIGHTS, n);
      OrderedDb.EightBytes();
      if k in WithBlock(db, b, indexing) {
        BlockKeys(db, b, indexing, k);
        if k in db {
          var h :| 0 <= h < n && k == OrderedDb.HeightKey(HEIGHTS, h);
          HeightKeysApart(h, n);
        } else {
          HeightKeysApart(b.height, n);
        }
      }
    }

    /** A new storable block makes the store hold the longer chain if and only if its height is the next. */
    lemma HoldsIff(db: Db, indexing: bool, chain: seq<Block<T, V>>, b: Block<T, V>)
      requires Sound() && Holds(db, indexing, chain) && WellFormed(chain) && |chain| < TWO_TO_64
      requires Storable(b) && NewHash(chain, b)
      ensures Holds(WithBlock(db, b, indexing), indexing, chain + [b]) <==> b.height == |chain|
    {
      if b.height == |chain| {
        LongerWellFormed(chain, b);
        Grows(db, indexing, chain, b);
      } else {
        MisplacedHeights(db, indexing, chain, b);
        var more := chain + [b];
        assert |Hashes(more)| == |chain| + 1;
      }
    }

    lemma LongerWellFormed(chain: seq<Block<T, V>>, b: Block<T, V>)
      requires WellFormed(chain) && Storable(b) && NewHash(chain, b) && b.height == |chain| < TWO_TO_64
      ensures WellFormed(chain + [b])
    {
      var more := chain + [b];
      forall i | 0 <= i < |more|
        ensures StorableAt(more, i)
      {
        assert i < |chain| ==> StorableAt(chain, i);
      }
      forall i, j | 0 <= i < j < |more|
        ensures Apart(more, i, j)
      {
        assert j < |chain| ==> Apart(chain, i, j);
      }
    }

    // ---------- What a reader gets ----------

    /** The block that is read for a height. */
    function Lookup(db: Db, height: nat): Option<Block<T, V>> {
      var hash := Get(db, HEIGHTS, BigEndian.Encode(height, 8));
      if hash == [] then None else Parse(scheme, Get(db, BLOCKS, hash))
    }

    /** Every height yields the block at that place of the chain, and no other height yields one. */
    ghost predicate Answers(db: Db, chain: seq<Block<T, V>>) {
      forall h: nat :: h < TWO_TO_64 ==> Lookup(db, h) == if h < |chain| then Some(chain[h]) else None
    }

    lemma LookupHeld(db: Db, indexing: bool, chain: seq<Block<T, V>>, h: nat)
      requires Sound() && Holds(db, indexing, chain) && WellFormed(chain) && h < TWO_TO_64
      ensures Lookup(db, h) == if h < |chain| then Some(chain[h]) else None
    {
      StoredHash(db, indexing, chain, h);
      if h < |chain| {
        StoredBlock(db, indexing, chain, h);
      }
    }

    /** After a block was written, its own height and every height with its hash yield it. */
    lemma LookupAfter(db: Db, indexing: bool, chain: seq<Block<T, V>>, b: Block<T, V>, h: nat)
      requires Sound() && Holds(db, indexing, chain) && WellFormed(chain) && h < TWO_TO_64 && WellSized(b)
      ensures Lookup(WithBlock(db, b, indexing), h) ==
        if h == b.height || (h < |chain| && HashOf(chain[h]) == HashOf(b)) then Parse(scheme, Serialized(scheme, b))
        else if h < |chain| then Some(chain[h]) else None
    {
      OrderedDb.EightBytes();
      LookupHeld(db, indexing, chain, h);
      StoredHash(db, indexing, chain, h);
      BlockGet(db, b, indexing, HEIGHTS, BigEndian.Encode(h, 8));
      if h != b.height {
        DifferentHeights(h, b.height);
      }
      assert |HashOf(b)| == 32;
      BlockGet(db, b, indexing, BLOCKS, if h == b.height || h >= |chain| then HashOf(b) else HashOf(chain[h]));
    }

    /** Whatever writable block is pushed, readers get the longer chain if and only if the block has the
        next height and its derived fields belong to it, and no block had its hash. */
    lemma AnswersIff(db: Db, indexing: bool, chain: seq<Block<T, V>>, b: Block<T, V>)
      requires Sound() && Holds(db, indexing, chain) && WellFormed(chain) && |chain| < TWO_TO_64 && Writable(b)
      ensures Answers(WithBlock(db, b, indexing), chain + [b]) <==> Belongs(chain, b)
    {
      RoundTrip(scheme, b);
      if Belongs(chain, b) {
        forall h: nat | h < TWO_TO_64
          ensures Lookup(WithBlock(db, b, indexing), h) == if h < |chain + [b]| then Some((chain + [b])[h]) else None
        {
          LookupAfter(db, indexing, chain, b, h);
        }
      } else {
        var h := Misread(db, indexing, chain, b);
      }
    }

    lemma Misread(db: Db, indexing: bool, chain: seq<Block<T, V>>, b: Block<T, V>) returns (h: nat)
      requires Sound() && Holds(db, indexing, chain) && WellFormed(chain) && |chain| < TWO_TO_64 && Writable(b)
      requires !Belongs(chain, b)
      ensures h <= |chain| && Lookup(WithBlock(db, b, indexing), h) != Some((chain + [b])[h])
    {
      RoundTrip(scheme, b);
      h := |chain|;
      LookupAfter(db, indexing, chain, b, h);
      if b.height == |chain| && Consistent(scheme, b) {
        h :| 0 <= h < |chain| && HashOf(chain[h]) == HashOf(b);
        LookupAfter(db, indexing, chain, b, h);
        assert StorableAt(chain, h);
      }
    }

    // ---------- The tip ----------

    lemma EndsAfter(db: Db, indexing: bool, chain: seq<Block<T, V>>, b: Block<T, V>) returns (tip: nat)
      requires Sound() && OrderedDb.HoldsHeights(db, HEIGHTS, Hashes(chain)) && 0 < |chain| <= TWO_TO_64 && WellSized(b)
      ensures tip == if b.height + 1 >= |chain| then b.height else |chain| - 1
      ensures OrderedDb.EndsAt(WithBlock(db, b, indexing), HEIGHTS, tip)
    {
      var r := WithBlock(db, b, indexing);
      OrderedDb.EightBytes();
      tip := if b.height + 1 >= |chain| then b.height else |chain| - 1;
      HeightStored(db, b, indexing, tip);
      forall k | k in r && HEIGHTS <= k
        ensures exists h :: 0 <= h <= tip && k == OrderedDb.HeightKey(HEIGHTS, h)
      {
        BlockKeys(db, b, indexing, k);
        if k in db {
          var h :| 0 <= h < |chain| && k == OrderedDb.HeightKey(HEIGHTS, h);
        }
      }
    }

    /** After a block was written, the last height belongs to it if and only if no stored height is greater. */
    lemma TipAfter(db: Db, indexing: bool, chain: seq<Block<T, V>>, b: Block<T, V>, hash: Bytes)
      requires Sound() && Holds(db, indexing, chain) && 0 < |chain| <= TWO_TO_64 && WellSized(b)
      requires OrderedDb.IsLastByPrefix(WithBlock(db, b, indexing), HEIGHTS, hash)
      ensures hash == if b.height + 1 >= |chain| then HashOf(b) else HashOf(chain[|chain| - 1])
    {
      var tip := EndsAfter(db, indexing, chain, b);
      OrderedDb.EightBytes();
      OrderedDb.GreatestFound(WithBlock(db, b, indexing), HEIGHTS, tip, hash);
      BlockGet(db, b, indexing, HEIGHTS, BigEndian.Encode(tip, 8));
      if tip != b.height {
        DifferentHeights(b.height, tip);
        StoredHash(db, indexing, chain, tip);
      }
    }

    lemma KeysAfter(db: Db, indexing: bool, chain: seq<Block<T, V>>, b: Block<T, V>)
      requires Sound() && Holds(db, indexing, chain)
      ensures LongKeys(WithBlock(db, b, indexing))
    {
      forall k | k in WithBlock(db, b, indexing)
        ensures |k| > 2
      {
        BlockKeys(db, b, indexing, k);
      }
    }

    /** The new block and the one before it can both be read. */
    lemma BlocksAfter(db: Db, indexing: bool, chain: seq<Block<T, V>>, b: Block<T, V>)
      requires Holds(db, indexing, chain) && WellFormed(chain) && chain != [] && Storable(b) && NewHash(chain, b)
      ensures var r, last := WithBlock(db, b, indexing), chain[|chain| - 1];
        Parse(scheme, Get(r, BLOCKS, HashOf(b))) == Some(b) && Parse(scheme, Get(r, BLOCKS, HashOf(last))) == Some(last)
    {
      RoundTrip(scheme, b);
      StoredBlock(db, indexing, chain, |chain| - 1);
      BlockGet(db, b, indexing, BLOCKS, HashOf(b));
      BlockGet(db, b, indexing, BLOCKS, HashOf(chain[|chain| - 1]));
    }

    /** The last height belongs to the latest block. */
    lemma LatestFound(db: Db, indexing: bool, chain: seq<Block<T, V>>, latest: Block<T, V>, hash: Bytes)
      requires Keeps(db, indexing, chain, latest) && OrderedDb.IsLastByPrefix(db, HEIGHTS, hash)
      ensures Parse(scheme, Get(db, BLOCKS, hash)) == Some(latest)
    {
      LatestTip(db, indexing, chain, latest, hash);
      LatestStored(db, indexing, chain, latest);
    }

    lemma LatestStored(db: Db, indexing: bool, chain: seq<Block<T, V>>, latest: Block<T, V>)
      requires Keeps(db, indexing, chain, latest)
      ensures Parse(scheme, Get(db, BLOCKS, HashOf(latest))) == Some(latest)
    {
      var i := |chain| - 1;
      StoredBlock(db, indexing, chain, i);
    }

    lemma LatestTip(db: Db, indexing: bool, chain: seq<Block<T, V>>, latest: Block<T, V>, hash: Bytes)
      requires Keeps(db, indexing, chain, latest) && OrderedDb.IsLastByPrefix(db, HEIGHTS, hash)
      ensures hash == HashOf(latest)
    {
      TipHash(db, chain, hash);
    }

    lemma TipHash(db: Db, chain: seq<Block<T, V>>, hash: Bytes)
      requires OrderedDb.HoldsHeights(db, HEIGHTS, Hashes(chain)) && 0 < |chain| <= TWO_TO_64
      requires OrderedDb.IsLastByPrefix(db, HEIGHTS, hash)
      ensures hash == HashOf(chain[|chain| - 1])
    {
      OrderedDb.TipFound(db, HEIGHTS, Hashes(chain), hash);
    }

    /** After a storable block was written, the last height belongs to it or to the block before it. */
    lemma RestartFinds(
      db: Db, indexing: bool, chain: seq<Block<T, V>>, latest: Block<T, V>, b: Block<T, V>, hash: Bytes)
      requires Keeps(db, indexing, chain, latest) && Storable(b) && NewHash(chain, b)
      requires OrderedDb.IsLastByPrefix(WithBlock(db, b, indexing), HEIGHTS, hash)
      ensures Parse(scheme, Get(WithBlock(db, b, indexing), BLOCKS, hash))
           == Some(if b.height + 1 >= |chain| then b else latest)
    {
      TipAfter(db, indexing, chain, b, hash);
      BlocksAfter(db, indexing, chain, b);
    }

    lemma KeepsLongKeys(db: Db, indexing: bool, chain: seq<Block<T, V>>, latest: Block<T, V>, b: Block<T, V>)
      requires Keeps(db, indexing, chain, latest)
      ensures LongKeys(db) && LongKeys(WithBlock(db, b, indexing))
    {
      KeysAfter(db, indexing, chain, b);
    }

    /** Loads what the last height belongs to. */
    method LoadTip(db: Db) returns (r: Option<Block<T, V>>, ghost hash: Bytes)
      requires LongKeys(db)
      ensures OrderedDb.IsLastByPrefix(db, HEIGHTS, hash) && r == Parse(scheme, Get(db, BLOCKS, hash))
    {
      NoGapBehindHeights(db);
      var found := OrderedDb.GetLastByPrefix(db, HEIGHTS);
      hash := found;
      r := FromBytes(scheme, Get(db, BLOCKS, found), 1);
    }

    /** A storable block with a hash of its own and the next height continues the chain. */
    lemma NextStored(db: Db, indexing: bool, chain: seq<Block<T, V>>, latest: Block<T, V>, b: Block<T, V>)
      requires Keeps(db, indexing, chain, latest) && b.height == latest.height + 1 && Storable(b) && NewHash(chain, b)
      ensures Keeps(WithBlock(db, b, indexing), indexing, chain + [b], b)
    {
      assert StorableAt(chain, |chain| - 1);
      OrderedDb.EightBytes();
      LongerWellFormed(chain, b);
      NextKeeps(db, indexing, chain, latest, b);
    }

    lemma FirstKeeps(indexing: bool, genesis: Block<T, V>)
      requires Sound() && WellFormed([genesis])
      ensures WellSized(genesis) && Keeps(WithBlock(map[], genesis, indexing), indexing, [genesis], genesis)
    {
      assert [] + [genesis] == [genesis] && StorableAt([genesis], 0);
      assert Holds(map[], indexing, []);
      Grows(map[], indexing, [], genesis);
    }
  }

  lemma DifferentHeights(a: nat, b: nat)
    requires a != b && a < TWO_TO_64 && b < TWO_TO_64
    ensures BigEndian.Encode(a, 8) != BigEndian.Encode(b, 8)
  {
    OrderedDb.EightBytes();
    BigEndian.DecodeEncode(a, 8);
    BigEndian.DecodeEncode(b, 8);
  }

  lemma HeightKeysApart(a: nat, b: nat)
    requires a != b && a < TWO_TO_64 && b < TWO_TO_64
    ensures OrderedDb.HeightKey(HEIGHTS, a) != OrderedDb.HeightKey(HEIGHTS, b)
  {
    DifferentHeights(a, b);
    KeysApart(HEIGHTS, BigEndian.Encode(a, 8), HEIGHTS, BigEndian.Encode(b, 8));
  }

  lemma NoGapBehindHeights(db: Db)
    requires LongKeys(db)
    ensures OrderedDb.NoGapKeys(db, HEIGHTS)
  {
    forall k | k in db
      ensures !OrderedDb.InGap(HEIGHTS, k)
    {
      GapOfHeights(k);
    }
  }

  // ---------- The class ----------

  class BlockStore<T(!new), V(!new)> {
    const c: Chain<T, V>
    const indexing: bool
    var db: Db
    var latest: Block<T, V>
    ghost var chain: seq<Block<T, V>>

    ghost predicate Valid()
      reads this
    {
      c.Keeps(db, indexing, chain, latest)
    }

    /** A store without blocks is given the genesis block. */
    constructor (c: Chain<T, V>, indexing: bool, genesis: Block<T, V>)
      requires c.Sound() && c.WellFormed([genesis])
      ensures Valid() && chain == [genesis] && this.c == c && this.indexing == indexing
    {
      c.FirstKeeps(indexing, genesis);
      var stored := c.StoreBlock(map[], genesis, indexing);
      this.c, this.indexing, this.db, this.latest, this.chain := c, indexing, stored, genesis, [genesis];
    }

    /**
     * A block that does not name the latest block as its predecessor is refused. Nothing else is
     * checked: the store answers with the longer chain if and only if the block has the next height,
     * carries the fields that belong to it, and has a hash of its own.
     */
    method PushBlock(b: Block<T, V>) returns (ok: bool)
      requires Valid() && WellSized(b)
      modifies this
      ensures ok == (b.prevBlockHash == c.HashOf(old(latest)))
      ensures if ok then latest == b && db == c.WithBlock(old(db), b, indexing) && chain == old(chain) + [b]
        else latest == old(latest) && db == old(db) && chain == old(chain)
      ensures ok && c.Writable(b) && |chain| <= TWO_TO_64 ==>
        (c.Answers(db, chain) <==> c.Belongs(old(chain), b))
      ensures ok && c.Storable(b) && c.NewHash(old(chain), b) && |chain| <= TWO_TO_64 ==>
        (c.Holds(db, indexing, chain) <==> b.height == |old(chain)|)
      ensures Valid() <==> !ok || c.WellFormed(chain)
    {
      AfterPush(b);
      ok := Append(b);
    }

    /** The push itself. */
    method Append(b: Block<T, V>) returns (ok: bool)
      requires WellSized(b)
      modifies this
      ensures ok == (b.prevBlockHash == c.HashOf(old(latest)))
      ensures if ok then latest == b && db == c.WithBlock(old(db), b, indexing) && chain == old(chain) + [b]
        else latest == old(latest) && db == old(db) && chain == old(chain)
    {
      if c.HashOf(latest) != b.prevBlockHash {
        return false;
      }
      var stored := c.StoreBlock(db, b, indexing);
      latest, db, chain := b, stored, chain + [b];
      ok := true;
    }

    /** Pushing a block that names the latest one and has the next height. */
    method AppendNext(b: Block<T, V>)
      requires Valid() && WellSized(b) && b.prevBlockHash == c.HashOf(latest) && b.height == latest.height + 1
      modifies this
      ensures latest == b && chain == old(chain) + [b]
      ensures c.Storable(b) && c.NewHash(old(chain), b) ==> Valid()
    {
      if c.Storable(b) && c.NewHash(chain, b) {
        c.NextStored(db, indexing, chain, latest, b);
      }
      var _ := Append(b);
    }

    lemma AfterPush(b: Block<T, V>)
      requires Valid()
      ensures c.Keeps(c.WithBlock(db, b, indexing), indexing, chain + [b], b) <==> c.WellFormed(chain + [b])
      ensures c.Writable(b) && |chain| < TWO_TO_64 ==>
        (c.Answers(c.WithBlock(db, b, indexing), chain + [b]) <==> c.Belongs(chain, b))
      ensures c.Storable(b) && c.NewHash(chain, b) && |chain| < TWO_TO_64 ==>
        (c.Holds(c.WithBlock(db, b, indexing), indexing, chain + [b]) <==> b.height == |chain|)
    {
      if c.WellFormed(chain + [b]) {
        c.NextKeeps(db, indexing, chain, latest, b);
      }
      if c.Writable(b) && |chain| < TWO_TO_64 {
        c.AnswersIff(db, indexing, chain, b);
      }
      if c.Storable(b) && c.NewHash(chain, b) && |chain| < TWO_TO_64 {
        c.HoldsIff(db, indexing, chain, b);
      }
    }

    /** After a storable block was accepted, a restarted node has it as its latest if and only if no
        stored block has a greater height; otherwise it has the block before it. */
    method PushThenRestart(b: Block<T, V>) returns (ok: bool, tip: Option<Block<T, V>>)
      requires Valid() && c.Storable(b) && c.NewHash(chain, b)
      modifies this
      ensures ok == (b.prevBlockHash == c.HashOf(old(latest)))
      ensures if ok then latest == b && db == c.WithBlock(old(db), b, indexing) else latest == old(latest) && db == old(db)
      ensures tip == Some(if ok && b.height + 1 >= |old(chain)| then b else old(latest))
    {
      ghost var before, blocks, last := db, chain, latest;
      c.KeepsLongKeys(before, indexing, blocks, last, b);
      ok := Append(b);
      ghost var hash;
      tip, hash := c.LoadTip(db);
      if ok {
        c.RestartFinds(before, indexing, blocks, last, b, hash);
      } else {
        c.LatestFound(before, indexing, blocks, last, hash);
      }
    }

    /** The block with a height is the one at that place of the chain. */
    method GetBlock(height: nat) returns (r: Option<Block<T, V>>)
      requires Valid() && height < TWO_TO_64
      ensures r == if height < |chain| then Some(chain[height]) else None
    {
      var hash := Get(db, HEIGHTS, BigEndian.Encode(height, 8));
      c.StoredHash(db, indexing, chain, height);
      if hash == [] {
        return None;
      }
      c.StoredBlock(db, indexing, chain, height);
      r := FromBytes(c.scheme, Get(db, BLOCKS, hash), 1);
    }

    /** Looking a transaction up in the index finds what scanning the chain backwards meets first. */
    method GetTx(h: Bytes) returns (r: Option<(T, Bytes, nat, nat)>)
      requires Valid()
      ensures r == if !indexing then None else Scanned(h)
    {
      var entry := Get(db, TXS, h);
      if entry == [] {
        EntriesNotEmpty(h);
        return None;
      }
      EntriesNotEmpty(h);
      var hash, index, height := entry[..32], BigEndian.Decode(entry[32..36]), BigEndian.Decode(entry[36..44]);
      ghost var (b, i) := c.Find(chain, h).value;
      assert c.StorableAt(chain, b);
      EntryFields(chain[b], i);
      var tx := TxFromBlock(c.scheme, Get(db, BLOCKS, hash), index);
      ShortPrefix(c.scheme.txCodec, chain[b].txs, i);
      TxOfBlock(c.scheme, chain[b], i);
      r := Some((tx.value, hash, index, height));
    }

    ghost function Scanned(h: Bytes): Option<(T, Bytes, nat, nat)>
      reads this
    {
      var r := c.Find(chain, h);
      if r.None? then None
      else
        var (b, i) := r.value;
        Some((chain[b].txs[i], c.HashOf(chain[b]), i, b))
    }

    lemma EntriesNotEmpty(h: Bytes)
      requires Valid()
      ensures var entry := Get(db, TXS, h);
        if indexing && c.Find(chain, h).Some? then |entry| == 44 && entry == c.EntryFor(chain, h) else entry == []
    {
      var entry := Get(db, TXS, h);
      assert entry == if indexing then c.EntryFor(chain, h) else [];
    }

    lemma EntryFields(b: Block<T, V>, i: nat)
      requires c.Sound() && WellSized(b) && i < TWO_TO_32
      ensures var entry := c.Entry(b, i);
        && |entry| == 44 && entry[..32] == c.HashOf(b)
        && BigEndian.Decode(entry[32..36]) == i && BigEndian.Decode(entry[36..44]) == b.height
    {
      var entry := c.Entry(b, i);
      assert entry[..32] == c.HashOf(b) && entry[32..36] == BigEndian.Encode(i, 4);
      assert entry[36..44] == BigEndian.Encode(b.height, 8);
      assert BigEndian.Power256(4) == TWO_TO_32;
      BigEndian.DecodeEncode(i, 4);
      BigEndian.DecodeEncode(b.height, 8);
    }

    /** What a restarted node loads as its latest block is the block it had. */
    method LoadLatest() returns (r: Option<Block<T, V>>)
      requires Valid()
      ensures r == Some(latest)
    {
      c.KeepsLongKeys(db, indexing, chain, latest, latest);
      ghost var hash;
      r, hash := c.LoadTip(db);
      c.LatestFound(db, indexing, chain, latest, hash);
    }
  }

  /** The only key in the gap behind the heights is the bare prefix of the next category. */
  lemma GapOfHeights(k: Bytes)
    ensures OrderedDb.InGap(HEIGHTS, k) ==> |k| <= 2
  {
    assert HEIGHTS[1..] == [0x02] && HEIGHTS[1..][1..] == [];
    assert OrderedDb.Increment([]) == ([], true);
    assert OrderedDb.Increment([0x02]) == ([0x03] + [], false);
    if OrderedDb.InGap(HEIGHTS, k) {
      assert OrderedDb.InGap([0x02], k[1..]);
    }
  }

  lemma {:induction false} ShortPrefix<X>(codec: Codec<X>, xs: seq<X>, n: nat)
    requires n <= |xs| && ShortFrames(codec, xs, |xs|)
    ensures ShortFrames(codec, xs, n)
  {
    if n > 0 {
      ShortPrefix(codec, xs[1..], n - 1);
    }
  }
}
