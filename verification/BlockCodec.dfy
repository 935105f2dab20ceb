/** Blocks as bytes: a fixed header, then block transactions and validator transactions, each behind
    its length. How one transaction is encoded is a parameter, and so are the Merkle roots and the
    randomness that a block is checked against. */
module BlockCodec {
  import opened Base
  import BigEndian

  const HEADER_END: nat := 217

  datatype Block<T, V> = Block(
    signature: Bytes, prevBlockHash: Bytes, randomness: Bytes, validatorRoot: Bytes, txRoot: Bytes,
    timestamp: nat, height: nat, txs: seq<T>, validatorTxs: seq<V>)

  datatype Codec<!X> = Codec(encode: X -> Bytes, decode: Bytes -> Option<X>)

  /** What a block is made with: codecs, derived fields, and the height a validator transaction is for. */
  datatype Scheme<!T, !V> = Scheme(
    txCodec: Codec<T>, validatorCodec: Codec<V>,
    txRoot: seq<T> -> Bytes, validatorRoot: seq<V> -> Bytes, randomness: seq<V> -> Bytes, heightOf: V -> nat)

  /** Decoding undoes the encoding of a value, and its length fits in 4 bytes. */
  ghost predicate FaithfulTo<X>(c: Codec<X>, x: X) {
    c.decode(c.encode(x)) == Some(x) && |c.encode(x)| < BigEndian.Power256(4)
  }

  ghost predicate Faithful<X>(c: Codec<X>, xs: seq<X>) {
    xs == [] || (FaithfulTo(c, xs[0]) && Faithful(c, xs[1..]))
  }

  // ---------- Writing ----------

  function Frame(payload: Bytes): (f: Bytes)
    ensures |f| == 4 + |payload|
  {
    BigEndian.Encode(|payload|, 4) + payload
  }

  function Frames<X>(c: Codec<X>, xs: seq<X>): Bytes {
    if xs == [] then [] else Frame(c.encode(xs[0])) + Frames(c, xs[1..])
  }

  function Header<T, V>(b: Block<T, V>): Bytes {
    b.prevBlockHash + b.randomness + b.validatorRoot + b.txRoot
    + BigEndian.Encode(b.timestamp, 8) + BigEndian.Encode(b.height, 8)
  }

  function Prelude<T, V>(b: Block<T, V>, validatorStart: nat): Bytes {
    b.signature + Header(b) + BigEndian.Encode(validatorStart, 8)
  }

  function Serialized<T, V>(s: Scheme<T, V>, b: Block<T, V>): Bytes {
    var frames := Frames(s.txCodec, b.txs);
    Prelude(b, HEADER_END + |frames|) + frames + Frames(s.validatorCodec, b.validatorTxs)
  }

  /** Fixed-size fields have their size, and numbers fit. */
  predicate WellSized<T, V>(b: Block<T, V>) {
    && |b.signature| == 65
    && |b.prevBlockHash| == |b.randomness| == |b.validatorRoot| == |b.txRoot| == 32
    && b.timestamp < BigEndian.Power256(8) && b.height < BigEndian.Power256(8)
  }

  /** The derived fields belong to the transactions. */
  predicate Consistent<T, V>(s: Scheme<T, V>, b: Block<T, V>) {
    && b.txRoot == s.txRoot(b.txs)
    && b.validatorRoot == s.validatorRoot(b.validatorTxs)
    && b.randomness == s.randomness(b.validatorTxs)
    && forall i :: 0 <= i < |b.validatorTxs| ==> s.heightOf(b.validatorTxs[i]) == b.height
  }

  lemma {:induction false} FramesConcat<X>(c: Codec<X>, xs: seq<X>, ys: seq<X>)
    ensures Frames(c, xs + ys) == Frames(c, xs) + Frames(c, ys)
  {
    if xs == [] {
      assert xs + ys == ys;
    } else {
      assert (xs + ys)[0] == xs[0] && (xs + ys)[1..] == xs[1..] + ys;
      FramesConcat(c, xs[1..], ys);
      Regroup(Frame(c.encode(xs[0])), Frames(c, xs[1..]), Frames(c, ys));
    }
  }

  lemma FramesOne<X>(c: Codec<X>, x: X)
    ensures Frames(c, [x]) == Frame(c.encode(x))
  {
    assert [x][1..] == [];
    assert Frame(c.encode(x)) + [] == Frame(c.encode(x));
  }

  method AppendFrames<X>(c: Codec<X>, start: Bytes, xs: seq<X>) returns (ret: Bytes)
    ensures ret == start + Frames(c, xs)
  {
    ret := start;
    assert start + [] == start;
    for i := 0 to |xs|
      invariant ret == start + Frames(c, xs[..i])
    {
      assert xs[..i + 1] == xs[..i] + [xs[i]];
      FramesConcat(c, xs[..i], [xs[i]]);
      FramesOne(c, xs[i]);
      var payload := c.encode(xs[i]);
      Regroup(start, Frames(c, xs[..i]), Frame(payload));
      ret := ret + (BigEndian.Encode(|payload|, 4) + payload);
    }
    assert xs[..|xs|] == xs;
  }

  /** Writes a block in one pass: the place for the start of the validator transactions is kept free
      and filled in once their position is known. */
  method SerializeBlock<T, V>(s: Scheme<T, V>, b: Block<T, V>) returns (ret: Bytes)
    requires WellSized(b)
    ensures ret == Serialized(s, b)
  {
    ghost var frames := Frames(s.txCodec, b.txs);
    var front := b.signature + Header(b);
    ret := front + [0, 0, 0, 0, 0, 0, 0, 0];
    ret := AppendFrames(s.txCodec, ret, b.txs);
    var validatorStart := BigEndian.Encode(|ret|, 8);
    ret := ret[..|front|] + validatorStart + ret[|front| + 8..];
    assert ret == Prelude(b, HEADER_END + |frames|) + frames;
    ret := AppendFrames(s.validatorCodec, ret, b.validatorTxs);
  }

  /** The size of a block can be computed without writing it. */
  function FramesSize<X>(c: Codec<X>, xs: seq<X>): nat {
    if xs == [] then 0 else |c.encode(xs[0])| + 4 + FramesSize(c, xs[1..])
  }

  lemma {:induction false} FramesSizeExact<X>(c: Codec<X>, xs: seq<X>)
    ensures |Frames(c, xs)| == FramesSize(c, xs)
  {
    if xs != [] {
      FramesSizeExact(c, xs[1..]);
    }
  }

  lemma BlockSize<T, V>(s: Scheme<T, V>, b: Block<T, V>)
    requires WellSized(b)
    ensures |Serialized(s, b)| == HEADER_END + FramesSize(s.txCodec, b.txs) + FramesSize(s.validatorCodec, b.validatorTxs)
  {
    FramesSizeExact(s.txCodec, b.txs);
    FramesSizeExact(s.validatorCodec, b.validatorTxs);
  }

  // ---------- Reading ----------

  /** The length at an index, unless it lies past the end. */
  function ReadLength(bytes: Bytes, index: nat): Option<nat> {
    if index + 4 > |bytes| then None else Some(BigEndian.Decode(bytes[index..index + 4]))
  }

  /** The index behind `n` frames. */
  function Skip(bytes: Bytes, index: nat, n: nat): Option<nat>
    decreases n
  {
    if n == 0 then Some(index)
    else
      var length := ReadLength(bytes, index);
      if length.None? then None else Skip(bytes, index + 4 + length.value, n - 1)
  }

  /** How many frames start before `stop`. */
  function Count(bytes: Bytes, index: nat, stop: nat): Option<nat>
    decreases stop - index
  {
    if index >= stop then Some(0)
    else
      var length := ReadLength(bytes, index);
      if length.None? then None
      else
        var rest := Count(bytes, index + 4 + length.value, stop);
        if rest.None? then None else Some(1 + rest.value)
  }

  function ReadFrame<X>(c: Codec<X>, bytes: Bytes, index: nat): Option<X> {
    var length := ReadLength(bytes, index);
    if length.None? || index + 4 + length.value > |bytes| then None
    else c.decode(bytes[index + 4..index + 4 + length.value])
  }

  /** The values of `n` frames in a row. */
  function Take<X>(c: Codec<X>, bytes: Bytes, index: nat, n: nat): Option<seq<X>>
    decreases n
  {
    if n == 0 then Some([])
    else
      var x := ReadFrame(c, bytes, index);
      if x.None? then None
      else
        var rest := Take(c, bytes, index + 4 + ReadLength(bytes, index).value, n - 1);
        if rest.None? then None else Some([x.value] + rest.value)
  }

  /** Reads a block, or nothing where the source throws or reads past the end. */
  function Parse<T, V>(s: Scheme<T, V>, bytes: Bytes): Option<Block<T, V>> {
    if |bytes| < HEADER_END then None
    else
      var start := BigEndian.Decode(bytes[209..217]);
      var txCount, validatorCount := Count(bytes, HEADER_END, start), Count(bytes, start, |bytes|);
      if txCount.None? || validatorCount.None? then None
      else
        var txs := Take(s.txCodec, bytes, HEADER_END, txCount.value);
        var validatorTxs := Take(s.validatorCodec, bytes, start, validatorCount.value);
        if txs.None? || validatorTxs.None? then None
        else
          var b := WithHeader(bytes, txs.value, validatorTxs.value);
          if Consistent(s, b) then Some(b) else None
  }

  function WithHeader<T, V>(bytes: Bytes, txs: seq<T>, validatorTxs: seq<V>): Block<T, V>
    requires |bytes| >= HEADER_END
  {
    Block(bytes[0..65], bytes[65..97], bytes[97..129], bytes[129..161], bytes[161..193],
          BigEndian.Decode(bytes[193..201]), BigEndian.Decode(bytes[201..209]), txs, validatorTxs)
  }

  // ---------- Reading in parallel ----------

  function Join<X>(a: Option<seq<X>>, b: Option<seq<X>>): Option<seq<X>> {
    if a.None? || b.None? then None else Some(a.value + b.value)
  }

  /** Reading in a row is reading the first part, and then the rest from where skipping leads. */
  lemma {:induction false} TakeSplits<X>(c: Codec<X>, bytes: Bytes, index: nat, m: nat, n: nat)
    ensures Take(c, bytes, index, m + n) ==
      (if Skip(bytes, index, m).None? then None
       else Join(Take(c, bytes, index, m), Take(c, bytes, Skip(bytes, index, m).value, n)))
    decreases m
  {
    if m == 0 {
      var rest := Take(c, bytes, index, n);
      assert rest.Some? ==> [] + rest.value == rest.value;
    } else if ReadFrame(c, bytes, index).Some? {
      var x, next := ReadFrame(c, bytes, index).value, index + 4 + ReadLength(bytes, index).value;
      TakeSplits(c, bytes, next, m - 1, n);
      if Skip(bytes, index, m).Some? {
        var first, rest := Take(c, bytes, next, m - 1), Take(c, bytes, Skip(bytes, index, m).value, n);
        if first.Some? && rest.Some? {
          Regroup([x], first.value, rest.value);
        }
      }
    }
  }

  lemma TakeStep<X>(c: Codec<X>, bytes: Bytes, index: nat, n: nat, xs: seq<X>)
    requires n > 0
    ensures var x := ReadFrame(c, bytes, index);
      Join(Some(xs), Take(c, bytes, index, n)) ==
      if x.None? then None
      else Join(Some(xs + [x.value]), Take(c, bytes, index + 4 + ReadLength(bytes, index).value, n - 1))
  {
    var x := ReadFrame(c, bytes, index);
    if x.Some? {
      var rest := Take(c, bytes, index + 4 + ReadLength(bytes, index).value, n - 1);
      if rest.Some? {
        Regroup(xs, [x.value], rest.value);
      }
    }
  }

  method TakeInRow<X>(c: Codec<X>, bytes: Bytes, index: nat, n: nat) returns (r: Option<seq<X>>)
    ensures r == Take(c, bytes, index, n)
  {
    var xs: seq<X>, idx: nat := [], index;
    ghost var whole := Take(c, bytes, index, n);
    JoinNothing(whole);
    for i := 0 to n
      invariant Join(Some(xs), Take(c, bytes, idx, n - i)) == whole
    {
      TakeStep(c, bytes, idx, n - i, xs);
      var x := ReadFrame(c, bytes, idx);
      if x.None? {
        return None;
      }
      xs := xs + [x.value];
      idx := idx + 4 + ReadLength(bytes, idx).value;
    }
    JoinNothing(Some(xs));
    r := Some(xs);
  }

  method SkipFrames(bytes: Bytes, index: nat, n: nat) returns (r: Option<nat>)
    ensures r == Skip(bytes, index, n)
  {
    var idx := index;
    for i := 0 to n
      invariant Skip(bytes, idx, n - i) == Skip(bytes, index, n)
    {
      var length := ReadLength(bytes, idx);
      if length.None? {
        return None;
      }
      idx := idx + 4 + length.value;
    }
    r := Some(idx);
  }

  method CountFrames(bytes: Bytes, index: nat, stop: nat) returns (r: Option<nat>)
    ensures r == Count(bytes, index, stop)
  {
    var n, idx := 0, index;
    ghost var whole := Count(bytes, index, stop);
    while idx < stop
      invariant whole == (if Count(bytes, idx, stop).None? then None else Some(n + Count(bytes, idx, stop).value))
    {
      var length := ReadLength(bytes, idx);
      if length.None? {
        return None;
      }
      n := n + 1;
      idx := idx + 4 + length.value;
    }
    r := Some(n);
  }

  /** The work is divided evenly; the last thread also takes the remainder. */
  function Share(n: nat, threads: nat, i: nat): nat
    requires 0 < threads && i < threads
  {
    if i == threads - 1 then n / threads + n % threads else n / threads
  }

  lemma ShareFits(n: nat, threads: nat, i: nat, done: nat)
    requires i < threads && done == i * (n / threads)
    ensures done + Share(n, threads, i) == (if i == threads - 1 then n else (i + 1) * (n / threads)) <= n
  {
    var q := n / threads;
    assert n == threads * q + n % threads;
    assert (i + 1) * q == i * q + q;
    if i + 1 < threads {
      Multiples(i + 1, threads, q);
    }
  }

  /** The shares read so far, put together; nothing if one of them failed. */
  function Gathered<X>(results: seq<Option<seq<X>>>): Option<seq<X>> {
    if results == [] then Some([])
    else Join(Gathered(results[..|results| - 1]), results[|results| - 1])
  }

  method Gather<X>(results: seq<Option<seq<X>>>) returns (r: Option<seq<X>>)
    ensures r == Gathered(results)
  {
    var xs: seq<X> := [];
    for i := 0 to |results|
      invariant Gathered(results[..i]) == Some(xs)
    {
      assert results[..i + 1][..i] == results[..i];
      if results[i].None? {
        FailedShare(results, i);
        return None;
      }
      xs := xs + results[i].value;
    }
    assert results[..|results|] == results;
    r := Some(xs);
  }

  lemma {:induction false} FailedShare<X>(results: seq<Option<seq<X>>>, i: nat)
    requires i < |results| && results[i].None?
    ensures Gathered(results).None?
  {
    if i < |results| - 1 {
      FailedShare(results[..|results| - 1], i);
    }
  }

  lemma GatherOne<X>(results: seq<Option<seq<X>>>, part: Option<seq<X>>)
    ensures Gathered(results + [part]) == Join(Gathered(results), part)
  {
    assert (results + [part])[..|results|] == results;
  }

  lemma JoinAssociates<X>(a: Option<seq<X>>, b: Option<seq<X>>, c: Option<seq<X>>)
    ensures Join(a, Join(b, c)) == Join(Join(a, b), c)
  {
    if a.Some? && b.Some? && c.Some? {
      Regroup(a.value, b.value, c.value);
    }
  }

  lemma JoinNothing<X>(a: Option<seq<X>>)
    ensures Join(a, Some([])) == a && Join(Some([]), a) == a
  {
    if a.Some? {
      assert a.value + [] == a.value && [] + a.value == a.value;
    }
  }

  /** Threads read their shares from offsets found by skipping, and the shares are put together in
      order: for every number of threads this reads what one thread reads. */
  method TakeParallel<X>(c: Codec<X>, bytes: Bytes, index: nat, n: nat, threads: nat) returns (r: Option<seq<X>>)
    requires threads > 0
    ensures r == Take(c, bytes, index, n)
  {
    var results: seq<Option<seq<X>>> := [];
    var offset := index;
    ghost var done, whole := 0, Take(c, bytes, index, n);
    JoinNothing(whole);
    for i := 0 to threads
      invariant |results| == i && done == (if i == threads then n else i * (n / threads)) <= n
      invariant Join(Gathered(results), Take(c, bytes, offset, n - done)) == whole
    {
      ShareFits(n, threads, i, done);
      var share := Share(n, threads, i);
      var part := TakeInRow(c, bytes, offset, share);
      GatherOne(results, part);
      TakeSplits(c, bytes, offset, share, n - done - share);
      if i < threads - 1 {
        var next := SkipFrames(bytes, offset, share);
        if next.None? {
          return None;
        }
        offset := next.value;
        JoinAssociates(Gathered(results), part, Take(c, bytes, offset, n - done - share));
      }
      results := results + [part];
      done := done + share;
      JoinNothing(Gathered(results));
    }
    JoinNothing(Gathered(results));
    r := Gather(results);
  }

  /** Above this number of transactions a block is read by several threads. */
  const PARALLEL_ABOVE: nat := 2000

  /** Reads a block; the number of threads of the machine makes no difference. */
  method FromBytes<T, V>(s: Scheme<T, V>, bytes: Bytes, threads: nat) returns (r: Option<Block<T, V>>)
    ensures r == Parse(s, bytes)
    ensures r.Some? ==>
      && |bytes| >= 217
      && bytes[97..129] == s.randomness(r.value.validatorTxs)
      && bytes[129..161] == s.validatorRoot(r.value.validatorTxs)
      && bytes[161..193] == s.txRoot(r.value.txs)
      && forall i :: 0 <= i < |r.value.validatorTxs| ==>
           s.heightOf(r.value.validatorTxs[i]) == BigEndian.Decode(bytes[201..209])
  {
    if |bytes| < HEADER_END {
      return None;
    }
    var start := BigEndian.Decode(bytes[209..217]);
    var txCount := CountFrames(bytes, HEADER_END, start);
    var validatorCount := CountFrames(bytes, start, |bytes|);
    if txCount.None? || validatorCount.None? {
      return None;
    }
    var txs, validatorTxs;
    if threads <= 1 || txCount.value <= PARALLEL_ABOVE {
      txs := TakeInRow(s.txCodec, bytes, HEADER_END, txCount.value);
    } else {
      txs := TakeParallel(s.txCodec, bytes, HEADER_END, txCount.value, threads);
    }
    validatorTxs := TakeInRow(s.validatorCodec, bytes, start, validatorCount.value);
    if txs.None? || validatorTxs.None? {
      return None;
    }
    var b := WithHeader(bytes, txs.value, validatorTxs.value);
    return if Consistent(s, b) then Some(b) else None;
  }

  // ---------- Round trip ----------

  predicate HasAt(bytes: Bytes, index: nat, part: Bytes) {
    index + |part| <= |bytes| && bytes[index..index + |part|] == part
  }

  lemma HasParts(bytes: Bytes, index: nat, a: Bytes, b: Bytes)
    requires HasAt(bytes, index, a + b)
    ensures HasAt(bytes, index, a) && HasAt(bytes, index + |a|, b)
  {
    var part := bytes[index..index + |a + b|];
    assert part[..|a|] == a && part[|a|..] == b;
  }

  lemma FrameAt<X>(c: Codec<X>, bytes: Bytes, index: nat, x: X)
    requires FaithfulTo(c, x) && HasAt(bytes, index, Frame(c.encode(x)))
    ensures ReadLength(bytes, index) == Some(|c.encode(x)|) && ReadFrame(c, bytes, index) == Some(x)
  {
    var payload := c.encode(x);
    assert c.decode(payload) == Some(x);
    HasParts(bytes, index, BigEndian.Encode(|payload|, 4), payload);
    BigEndian.DecodeEncode(|payload|, 4);
  }

  lemma {:induction false} FramesAt<X>(c: Codec<X>, bytes: Bytes, index: nat, xs: seq<X>)
    requires Faithful(c, xs) && HasAt(bytes, index, Frames(c, xs))
    ensures Take(c, bytes, index, |xs|) == Some(xs)
    decreases |xs|
  {
    if xs != [] {
      var frame := Frame(c.encode(xs[0]));
      HasParts(bytes, index, frame, Frames(c, xs[1..]));
      FrameAt(c, bytes, index, xs[0]);
      FramesAt(c, bytes, index + |frame|, xs[1..]);
      assert [xs[0]] + xs[1..] == xs;
    }
  }

  lemma {:induction false} FramesCounted<X>(c: Codec<X>, bytes: Bytes, index: nat, xs: seq<X>, stop: nat)
    requires Faithful(c, xs) && HasAt(bytes, index, Frames(c, xs)) && stop == index + |Frames(c, xs)|
    ensures Count(bytes, index, stop) == Some(|xs|)
    decreases |xs|
  {
    if xs != [] {
      var frame := Frame(c.encode(xs[0]));
      HasParts(bytes, index, frame, Frames(c, xs[1..]));
      FrameAt(c, bytes, index, xs[0]);
      FramesCounted(c, bytes, index + |frame|, xs[1..], stop);
    }
  }

  lemma SerializedParts<T, V>(s: Scheme<T, V>, b: Block<T, V>)
    requires WellSized(b)
    ensures var bytes, txFrames := Serialized(s, b), Frames(s.txCodec, b.txs);
      && |bytes| == HEADER_END + |txFrames| + |Frames(s.validatorCodec, b.validatorTxs)|
      && bytes[0..HEADER_END] == Prelude(b, HEADER_END + |txFrames|)
      && HasAt(bytes, HEADER_END, txFrames)
      && HasAt(bytes, HEADER_END + |txFrames|, Frames(s.validatorCodec, b.validatorTxs))
  {
  }

  lemma HeaderFields<T, V>(b: Block<T, V>, bytes: Bytes, start: nat)
    requires WellSized(b) && |bytes| >= HEADER_END && bytes[0..HEADER_END] == Prelude(b, start)
    requires start < BigEndian.Power256(8)
    ensures WithHeader(bytes, b.txs, b.validatorTxs) == b && BigEndian.Decode(bytes[209..217]) == start
  {
    var p := Prelude(b, start);
    assert p[0..65] == b.signature && p[65..209] == Header(b) && p[209..217] == BigEndian.Encode(start, 8);
    SliceOfSlice(bytes, 0, HEADER_END, 0, 65);
    SliceOfSlice(bytes, 0, HEADER_END, 65, 209);
    SliceOfSlice(bytes, 0, HEADER_END, 209, 217);
    HeaderSlices(b, bytes);
    BigEndian.DecodeEncode(start, 8);
    BigEndian.DecodeEncode(b.timestamp, 8);
    BigEndian.DecodeEncode(b.height, 8);
  }

  lemma HeaderSlices<T, V>(b: Block<T, V>, bytes: Bytes)
    requires WellSized(b) && |bytes| >= HEADER_END && bytes[65..209] == Header(b)
    ensures bytes[65..97] == b.prevBlockHash && bytes[97..129] == b.randomness
    ensures bytes[129..161] == b.validatorRoot && bytes[161..193] == b.txRoot
    ensures bytes[193..201] == BigEndian.Encode(b.timestamp, 8) && bytes[201..209] == BigEndian.Encode(b.height, 8)
  {
    var h := Header(b);
    assert h[0..32] == b.prevBlockHash && h[32..64] == b.randomness && h[64..96] == b.validatorRoot;
    assert h[96..128] == b.txRoot && h[128..136] == BigEndian.Encode(b.timestamp, 8);
    assert h[136..144] == BigEndian.Encode(b.height, 8);
    SliceOfSlice(bytes, 65, 209, 0, 32);
    SliceOfSlice(bytes, 65, 209, 32, 64);
    SliceOfSlice(bytes, 65, 209, 64, 96);
    SliceOfSlice(bytes, 65, 209, 96, 128);
    SliceOfSlice(bytes, 65, 209, 128, 136);
    SliceOfSlice(bytes, 65, 209, 136, 144);
  }

  lemma SliceOfSlice(s: Bytes, from: nat, end: nat, low: nat, high: nat)
    requires low <= high <= end - from && end <= |s|
    ensures s[from..end][low..high] == s[from + low..from + high]
  {
    var inner, outer := s[from..end][low..high], s[from + low..from + high];
    assert |inner| == |outer|;
    forall i | 0 <= i < |inner|
      ensures inner[i] == outer[i]
    {
      assert inner[i] == s[from..end][low + i] == s[from + low + i];
    }
  }

  lemma ParseFrom<T, V>(s: Scheme<T, V>, bytes: Bytes, start: nat, txs: seq<T>, validatorTxs: seq<V>)
    requires |bytes| >= HEADER_END && BigEndian.Decode(bytes[209..217]) == start
    requires Count(bytes, HEADER_END, start) == Some(|txs|) && Count(bytes, start, |bytes|) == Some(|validatorTxs|)
    requires Take(s.txCodec, bytes, HEADER_END, |txs|) == Some(txs)
    requires Take(s.validatorCodec, bytes, start, |validatorTxs|) == Some(validatorTxs)
    ensures var b := WithHeader(bytes, txs, validatorTxs); Parse(s, bytes) == if Consistent(s, b) then Some(b) else None
  {
  }

  /** A written block is read back unchanged, provided its derived fields belong to it. */
  lemma RoundTrip<T, V>(s: Scheme<T, V>, b: Block<T, V>)
    requires Faithful(s.txCodec, b.txs) && Faithful(s.validatorCodec, b.validatorTxs) && WellSized(b)
    requires |Serialized(s, b)| < BigEndian.Power256(8)
    ensures Parse(s, Serialized(s, b)) == if Consistent(s, b) then Some(b) else None
    ensures Parse(s, Serialized(s, b)) == Some(b) <==>
      && b.txRoot == s.txRoot(b.txs) && b.validatorRoot == s.validatorRoot(b.validatorTxs)
      && b.randomness == s.randomness(b.validatorTxs)
      && forall i :: 0 <= i < |b.validatorTxs| ==> s.heightOf(b.validatorTxs[i]) == b.height
  {
    var bytes, start := Serialized(s, b), HEADER_END + |Frames(s.txCodec, b.txs)|;
    SerializedParts(s, b);
    HeaderFields(b, bytes, start);
    FramesAt(s.txCodec, bytes, HEADER_END, b.txs);
    FramesCounted(s.txCodec, bytes, HEADER_END, b.txs, start);
    FramesAt(s.validatorCodec, bytes, start, b.validatorTxs);
    FramesCounted(s.validatorCodec, bytes, start, b.validatorTxs, |bytes|);
    ParseFrom(s, bytes, start, b.txs, b.validatorTxs);
  }

  lemma Adjacent(s: Bytes, i: nat, j: nat, k: nat)
    requires i <= j <= k <= |s|
    ensures s[i..j] + s[j..k] == s[i..k]
  {
  }

  /** The bytes that are hashed when a block is read are the header of the block that was read, for
      every input that is accepted. */
  lemma HashedWindow<T, V>(s: Scheme<T, V>, bytes: Bytes)
    requires Parse(s, bytes).Some?
    ensures bytes[65..209] == Header(Parse(s, bytes).value)
  {
    var b := Parse(s, bytes).value;
    BigEndian.EncodeDecode(bytes[193..201]);
    BigEndian.EncodeDecode(bytes[201..209]);
    Adjacent(bytes, 65, 97, 129);
    Adjacent(bytes, 65, 129, 161);
    Adjacent(bytes, 65, 161, 193);
    Adjacent(bytes, 65, 193, 201);
    Adjacent(bytes, 65, 201, 209);
  }

  // ---------- One transaction of a stored block ----------

  /** The index behind `n` frames, each step being computed in 32 bits. */
  function SkipNarrow(bytes: Bytes, index: nat, n: nat): Option<nat>
    decreases n
  {
    if n == 0 then Some(index)
    else
      var length := ReadLength(bytes, index);
      if length.None? then None else SkipNarrow(bytes, index + Wrap32(length.value + 4), n - 1)
  }

  function TxAt<T, V>(s: Scheme<T, V>, bytes: Bytes, txIndex: nat): Option<T> {
    var index := SkipNarrow(bytes, HEADER_END, txIndex);
    if index.None? then None else ReadFrame(s.txCodec, bytes, index.value)
  }

  method TxFromBlock<T, V>(s: Scheme<T, V>, bytes: Bytes, txIndex: nat) returns (r: Option<T>)
    ensures r == TxAt(s, bytes, txIndex)
  {
    var index: nat, currentTx := HEADER_END, 0;
    while currentTx < txIndex
      invariant currentTx <= txIndex
      invariant SkipNarrow(bytes, index, txIndex - currentTx) == SkipNarrow(bytes, HEADER_END, txIndex)
    {
      var length := ReadLength(bytes, index);
      if length.None? {
        return None;
      }
      index := index + Wrap32(length.value + 4);
      currentTx := currentTx + 1;
    }
    r := ReadFrame(s.txCodec, bytes, index);
  }

  /** None of the first `n` transactions is so long that its length plus 4 leaves 32 bits. */
  predicate ShortFrames<X>(c: Codec<X>, xs: seq<X>, n: nat)
    requires n <= |xs|
    decreases n
  {
    n == 0 || (|c.encode(xs[0])| + 4 < TWO_TO_32 && ShortFrames(c, xs[1..], n - 1))
  }

  lemma {:induction false} SkipTo<X>(c: Codec<X>, bytes: Bytes, index: nat, xs: seq<X>, i: nat)
    requires Faithful(c, xs) && i < |xs| && HasAt(bytes, index, Frames(c, xs)) && ShortFrames(c, xs, i)
    ensures var at := SkipNarrow(bytes, index, i); at.Some? && ReadFrame(c, bytes, at.value) == Some(xs[i])
    decreases i
  {
    var frame := Frame(c.encode(xs[0]));
    HasParts(bytes, index, frame, Frames(c, xs[1..]));
    FrameAt(c, bytes, index, xs[0]);
    if i > 0 {
      SkipTo(c, bytes, index + |frame|, xs[1..], i - 1);
    }
  }

  /** Skipping to a transaction finds the one that reading the whole block has at that place. */
  lemma TxOfBlock<T, V>(s: Scheme<T, V>, b: Block<T, V>, i: nat)
    requires Faithful(s.txCodec, b.txs) && WellSized(b) && i < |b.txs| && ShortFrames(s.txCodec, b.txs, i)
    ensures TxAt(s, Serialized(s, b), i) == Some(b.txs[i])
  {
    SerializedParts(s, b);
    SkipTo(s.txCodec, Serialized(s, b), HEADER_END, b.txs, i);
  }
}
