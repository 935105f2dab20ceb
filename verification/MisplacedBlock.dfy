/** A block that the store accepts and that a restarted node does not find. */
module MisplacedBlock {
  import opened Base
  import opened BlockCodec
  import opened Storage
  import OrderedDb
  import BigEndian

  function Nulls(n: nat): (s: Bytes)
    ensures |s| == n
  {
    seq(n, _ => 0)
  }

  /** Stands for a hash: the end of the header, where timestamp and height are. */
  function Tag(header: Bytes): (h: Bytes)
    ensures |h| == 32
  {
    if |header| < 32 then Nulls(32) else header[|header| - 32..]
  }

  const CODEC: Codec<bool> := Codec((_: bool) => [], (_: Bytes) => None)

  const CHAIN: Chain<bool, bool> := Chain(
    Scheme(CODEC, CODEC, (_: seq<bool>) => Nulls(32), (_: seq<bool>) => Nulls(32), (_: seq<bool>) => Nulls(32), (_: bool) => 0),
    Tag, (_: bool) => Nulls(32))

  /** A block without transactions. */
  function Empty(prevBlockHash: Bytes, timestamp: nat, height: nat): Block<bool, bool> {
    Block(Nulls(65), prevBlockHash, Nulls(32), Nulls(32), Nulls(32), timestamp, height, [], [])
  }

  const GENESIS := Empty(Nulls(32), 0, 0)
  const SECOND := Empty(CHAIN.HashOf(GENESIS), 1, 1)
  const MISPLACED := Empty(CHAIN.HashOf(SECOND), 2, 0)

  lemma EmptyStorable(prevBlockHash: Bytes, timestamp: nat, height: nat)
    requires |prevBlockHash| == 32 && timestamp < TWO_TO_64 && height < TWO_TO_64
    ensures CHAIN.Storable(Empty(prevBlockHash, timestamp, height))
  {
    OrderedDb.EightBytes();
    BlockSize(CHAIN.scheme, Empty(prevBlockHash, timestamp, height));
  }

  /** Blocks made at different times have different hashes. */
  lemma TimesApart(p: Bytes, a: nat, m: nat, q: Bytes, b: nat, n: nat)
    requires |p| == |q| == 32 && a != b && a < TWO_TO_64 && b < TWO_TO_64
    ensures CHAIN.HashOf(Empty(p, a, m)) != CHAIN.HashOf(Empty(q, b, n))
  {
    TimeInHash(p, a, m);
    TimeInHash(q, b, n);
    DifferentHeights(a, b);
  }

  lemma TimeInHash(p: Bytes, time: nat, height: nat)
    requires |p| == 32
    ensures CHAIN.HashOf(Empty(p, time, height))[16..24] == BigEndian.Encode(time, 8)
  {
    var header := Header(Empty(p, time, height));
    assert header == (p + Nulls(32) + Nulls(32) + Nulls(32)) + BigEndian.Encode(time, 8) + BigEndian.Encode(height, 8);
    assert header[112..][16..24] == header[128..136] == BigEndian.Encode(time, 8);
  }

  lemma HashesApart()
    ensures CHAIN.HashOf(GENESIS) != CHAIN.HashOf(SECOND)
    ensures CHAIN.HashOf(GENESIS) != CHAIN.HashOf(MISPLACED) && CHAIN.HashOf(SECOND) != CHAIN.HashOf(MISPLACED)
  {
    TimesApart(Nulls(32), 0, 0, CHAIN.HashOf(GENESIS), 1, 1);
    TimesApart(Nulls(32), 0, 0, CHAIN.HashOf(SECOND), 2, 0);
    TimesApart(CHAIN.HashOf(GENESIS), 1, 1, CHAIN.HashOf(SECOND), 2, 0);
  }

  lemma Chained<T(!new), V(!new)>(c: Chain<T, V>, a: Block<T, V>, b: Block<T, V>, other: Block<T, V>)
    requires c.Storable(a) && c.Storable(b) && a.height == 0 && b.height == 1 && c.HashOf(a) != c.HashOf(b)
    requires c.HashOf(a) != c.HashOf(other) && c.HashOf(b) != c.HashOf(other)
    ensures c.WellFormed([a]) && c.WellFormed([a, b]) && c.NewHash([a, b], other)
  {
    assert c.WellFormed([]);
    c.LongerWellFormed([], a);
    assert [] + [a] == [a] && [a] + [b] == [a, b];
    c.LongerWellFormed([a], b);
  }

  lemma TwoBlocks()
    ensures CHAIN.Sound() && CHAIN.WellFormed([GENESIS]) && CHAIN.WellFormed([GENESIS, SECOND])
    ensures CHAIN.Storable(MISPLACED) && CHAIN.NewHash([GENESIS, SECOND], MISPLACED)
  {
    EmptyStorable(Nulls(32), 0, 0);
    EmptyStorable(CHAIN.HashOf(GENESIS), 1, 1);
    EmptyStorable(CHAIN.HashOf(SECOND), 2, 0);
    HashesApart();
    Chained(CHAIN, GENESIS, SECOND, MISPLACED);
  }

  /** The store takes the block as its latest. Restarted, the node has the block before it, and the
      genesis block is gone. */
  method LoseTip() returns (store: BlockStore<bool, bool>, ok: bool, tip: Option<Block<bool, bool>>)
    ensures fresh(store) && ok && store.latest == MISPLACED && tip == Some(SECOND)
    ensures store.c.Lookup(store.db, 0) == Some(MISPLACED)
  {
    TwoBlocks();
    store := StoreTwo(CHAIN, GENESIS, SECOND);
    MisplacedRead(store);
    ok, tip := store.PushThenRestart(MISPLACED);
  }

  method StoreTwo<T(!new), V(!new)>(c: Chain<T, V>, a: Block<T, V>, b: Block<T, V>) returns (store: BlockStore<T, V>)
    requires c.Sound() && c.WellFormed([a]) && c.WellFormed([a, b]) && WellSized(b) && b.prevBlockHash == c.HashOf(a)
    ensures fresh(store) && store.c == c && store.indexing
    ensures store.Valid() && store.chain == [a, b] && store.latest == b
  {
    store := new BlockStore(c, true, a);
    assert [a] + [b] == [a, b];
    var _ := store.PushBlock(b);
  }

  lemma MisplacedRead(store: BlockStore<bool, bool>)
    requires store.c == CHAIN && store.Valid() && CHAIN.Storable(MISPLACED)
    ensures CHAIN.Lookup(CHAIN.WithBlock(store.db, MISPLACED, store.indexing), 0) == Some(MISPLACED)
  {
    OrderedDb.EightBytes();
    RoundTrip(CHAIN.scheme, MISPLACED);
    CHAIN.LookupAfter(store.db, store.indexing, store.chain, MISPLACED, 0);
  }
}
