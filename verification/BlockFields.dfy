/** Blocks byte by byte: where each field of a block stands, and which bytes are a block. */
module BlockFields {
  import opened Base
  import opened BlockCodec
  import BigEndian

  // ---------- Transactions in a row ----------

  /** Frame `i` of a row: four bytes of length, and then that many bytes which decode to `x`. */
  predicate IsFrame<X(==)>(c: Codec<X>, bytes: Bytes, from: nat, end: nat, x: X) {
    && from + 4 <= end <= |bytes|
    && end == from + 4 + BigEndian.Decode(bytes[from..from + 4])
    && c.decode(bytes[from + 4..end]) == Some(x)
  }

  /** Frames that start at the positions `at`, each where the one before it ends, as long as that is before
      `stop`. The last position is where the row ends. */
  predicate Row<X(==)>(c: Codec<X>, bytes: Bytes, index: nat, stop: nat, xs: seq<X>, at: seq<nat>) {
    && |at| == |xs| + 1 && at[0] == index && at[|xs|] >= stop
    && forall i :: 0 <= i < |xs| ==> at[i] < stop && IsFrame(c, bytes, at[i], at[i + 1], xs[i])
  }

  lemma RowTail<X>(c: Codec<X>, bytes: Bytes, index: nat, stop: nat, xs: seq<X>, at: seq<nat>)
    requires Row(c, bytes, index, stop, xs, at) && xs != []
    ensures Row(c, bytes, at[1], stop, xs[1..], at[1..])
    ensures index < stop && IsFrame(c, bytes, index, at[1], xs[0])
  {
    forall i | 0 <= i < |xs[1..]|
      ensures at[1..][i] < stop && IsFrame(c, bytes, at[1..][i], at[1..][i + 1], xs[1..][i])
    {
      assert IsFrame(c, bytes, at[i + 1], at[i + 2], xs[i + 1]);
    }
  }

  lemma RowHead<X>(c: Codec<X>, bytes: Bytes, index: nat, next: nat, stop: nat, x: X, xs: seq<X>, at: seq<nat>)
    requires Row(c, bytes, next, stop, xs, at) && index < stop && IsFrame(c, bytes, index, next, x)
    ensures Row(c, bytes, index, stop, [x] + xs, [index] + at)
  {
    var more, longer := [x] + xs, [index] + at;
    forall i | 0 <= i < |more|
      ensures longer[i] < stop && IsFrame(c, bytes, longer[i], longer[i + 1], more[i])
    {
      if i > 0 {
        assert IsFrame(c, bytes, at[i - 1], at[i], xs[i - 1]);
      }
    }
  }

  lemma FrameRead<X>(c: Codec<X>, bytes: Bytes, index: nat, next: nat, x: X)
    requires IsFrame(c, bytes, index, next, x)
    ensures ReadLength(bytes, index) == Some(next - index - 4) && ReadFrame(c, bytes, index) == Some(x)
  {
  }

  /** A row of frames is counted and read as its transactions. */
  lemma {:induction false} RowRead<X>(c: Codec<X>, bytes: Bytes, index: nat, stop: nat, xs: seq<X>, at: seq<nat>)
    requires Row(c, bytes, index, stop, xs, at)
    ensures Count(bytes, index, stop) == Some(|xs|) && Take(c, bytes, index, |xs|) == Some(xs)
    decreases |xs|
  {
    if xs != [] {
      RowTail(c, bytes, index, stop, xs, at);
      FrameRead(c, bytes, index, at[1], xs[0]);
      RowRead(c, bytes, at[1], stop, xs[1..], at[1..]);
      assert [xs[0]] + xs[1..] == xs;
    }
  }

  /** What is counted and read is such a row. */
  lemma {:induction false} ReadRow<X>(c: Codec<X>, bytes: Bytes, index: nat, stop: nat, xs: seq<X>) returns (at: seq<nat>)
    requires Count(bytes, index, stop) == Some(|xs|) && Take(c, bytes, index, |xs|) == Some(xs)
    ensures Row(c, bytes, index, stop, xs, at)
    decreases |xs|
  {
    if xs == [] {
      at := [index];
    } else {
      var x, next := ReadFrame(c, bytes, index).value, index + 4 + ReadLength(bytes, index).value;
      var rest := Take(c, bytes, next, |xs| - 1).value;
      assert xs == [x] + rest;
      at := ReadRow(c, bytes, next, stop, rest);
      RowHead(c, bytes, index, next, stop, x, rest, at);
      at := [index] + at;
    }
  }

  // ---------- What is a block ----------

  /** The fixed fields of a block stand in the first 217 bytes. */
  predicate HasFields<T, V>(bytes: Bytes, b: Block<T, V>) {
    && |bytes| >= 217
    && b.signature == bytes[0..65] && b.prevBlockHash == bytes[65..97] && b.randomness == bytes[97..129]
    && b.validatorRoot == bytes[129..161] && b.txRoot == bytes[161..193]
    && b.timestamp == BigEndian.Decode(bytes[193..201]) && b.height == BigEndian.Decode(bytes[201..209])
  }

  /** The checked fields belong to the transactions. */
  predicate Checked<T, V>(s: Scheme<T, V>, bytes: Bytes, txs: seq<T>, validatorTxs: seq<V>)
    requires |bytes| >= 217
  {
    && bytes[97..129] == s.randomness(validatorTxs)
    && bytes[129..161] == s.validatorRoot(validatorTxs)
    && bytes[161..193] == s.txRoot(txs)
    && forall i :: 0 <= i < |validatorTxs| ==> s.heightOf(validatorTxs[i]) == BigEndian.Decode(bytes[201..209])
  }

  ghost predicate HasTxs<T(!new), V(!new)>(s: Scheme<T, V>, bytes: Bytes, txs: seq<T>, validatorTxs: seq<V>)
    requires |bytes| >= 217
  {
    var start := BigEndian.Decode(bytes[209..217]);
    && (exists at :: Row(s.txCodec, bytes, 217, start, txs, at))
    && (exists at :: Row(s.validatorCodec, bytes, start, |bytes|, validatorTxs, at))
  }

  lemma HasTxsIff<T(!new), V(!new)>(s: Scheme<T, V>, bytes: Bytes, txs: seq<T>, validatorTxs: seq<V>)
    requires |bytes| >= 217
    ensures var start := BigEndian.Decode(bytes[209..217]);
      HasTxs(s, bytes, txs, validatorTxs) <==>
        && Count(bytes, 217, start) == Some(|txs|) && Take(s.txCodec, bytes, 217, |txs|) == Some(txs)
        && Count(bytes, start, |bytes|) == Some(|validatorTxs|)
        && Take(s.validatorCodec, bytes, start, |validatorTxs|) == Some(validatorTxs)
  {
    var start := BigEndian.Decode(bytes[209..217]);
    RowsIff(s.txCodec, bytes, 217, start, txs);
    RowsIff(s.validatorCodec, bytes, start, |bytes|, validatorTxs);
  }

  lemma RowsIff<X(!new)>(c: Codec<X>, bytes: Bytes, index: nat, stop: nat, xs: seq<X>)
    ensures (exists at :: Row(c, bytes, index, stop, xs, at)) <==>
      Count(bytes, index, stop) == Some(|xs|) && Take(c, bytes, index, |xs|) == Some(xs)
  {
    if at :| Row(c, bytes, index, stop, xs, at) {
      RowRead(c, bytes, index, stop, xs, at);
    }
    if Count(bytes, index, stop) == Some(|xs|) && Take(c, bytes, index, |xs|) == Some(xs) {
      var at := ReadRow(c, bytes, index, stop, xs);
    }
  }

  /** For all bytes and all blocks: the bytes are read as the block exactly if its fields and its transactions
      stand in them, and the roots, the randomness and the heights belong to those transactions. */
  lemma ReadIff<T(!new), V(!new)>(s: Scheme<T, V>, bytes: Bytes, b: Block<T, V>)
    ensures Parse(s, bytes) == Some(b) <==>
      HasFields(bytes, b) && HasTxs(s, bytes, b.txs, b.validatorTxs) && Checked(s, bytes, b.txs, b.validatorTxs)
  {
    if |bytes| >= 217 {
      HasTxsIff(s, bytes, b.txs, b.validatorTxs);
      var start := BigEndian.Decode(bytes[209..217]);
      if HasFields(bytes, b) && HasTxs(s, bytes, b.txs, b.validatorTxs) {
        ParseFrom(s, bytes, start, b.txs, b.validatorTxs);
      }
      if Parse(s, bytes) == Some(b) {
        ParsedParts(s, bytes, b);
      }
    }
  }

  lemma {:induction false} TakeLength<X>(c: Codec<X>, bytes: Bytes, index: nat, n: nat)
    ensures var r := Take(c, bytes, index, n); r.Some? ==> |r.value| == n
    decreases n
  {
    if n > 0 && ReadFrame(c, bytes, index).Some? {
      TakeLength(c, bytes, index + 4 + ReadLength(bytes, index).value, n - 1);
    }
  }

  lemma ParsedParts<T, V>(s: Scheme<T, V>, bytes: Bytes, b: Block<T, V>)
    requires |bytes| >= 217 && Parse(s, bytes) == Some(b)
    ensures var start := BigEndian.Decode(bytes[209..217]);
      && Count(bytes, 217, start) == Some(|b.txs|) && Take(s.txCodec, bytes, 217, |b.txs|) == Some(b.txs)
      && Count(bytes, start, |bytes|) == Some(|b.validatorTxs|)
      && Take(s.validatorCodec, bytes, start, |b.validatorTxs|) == Some(b.validatorTxs)
      && b == WithHeader(bytes, b.txs, b.validatorTxs) && Consistent(s, b)
  {
    var start := BigEndian.Decode(bytes[209..217]);
    TakeLength(s.txCodec, bytes, 217, Count(bytes, 217, start).value);
    TakeLength(s.validatorCodec, bytes, start, Count(bytes, start, |bytes|).value);
  }

  // ---------- Changed bytes ----------

  /** From `index` on the bytes are the same. */
  predicate SameFrom(a: Bytes, b: Bytes, index: nat) {
    |a| == |b| && forall i :: index <= i < |a| ==> a[i] == b[i]
  }

  lemma SameSlice(a: Bytes, b: Bytes, index: nat, low: nat, high: nat)
    requires SameFrom(a, b, index) && index <= low <= high <= |a|
    ensures a[low..high] == b[low..high]
  {
  }

  lemma SameFrame<X>(c: Codec<X>, a: Bytes, b: Bytes, index: nat)
    requires SameFrom(a, b, index)
    ensures ReadLength(a, index) == ReadLength(b, index) && ReadFrame(c, a, index) == ReadFrame(c, b, index)
  {
    if index + 4 <= |a| {
      SameSlice(a, b, index, index, index + 4);
      var end := index + 4 + BigEndian.Decode(a[index..index + 4]);
      if end <= |a| {
        SameSlice(a, b, index, index + 4, end);
      }
    }
  }

  lemma {:induction false} SameCount<X>(c: Codec<X>, a: Bytes, b: Bytes, index: nat, stop: nat)
    requires SameFrom(a, b, index)
    ensures Count(a, index, stop) == Count(b, index, stop)
    decreases stop - index
  {
    if index < stop {
      SameFrame(c, a, b, index);
      if ReadLength(a, index).Some? {
        SameCount(c, a, b, index + 4 + ReadLength(a, index).value, stop);
      }
    }
  }

  lemma {:induction false} SameTake<X>(c: Codec<X>, a: Bytes, b: Bytes, index: nat, n: nat)
    requires SameFrom(a, b, index)
    ensures Take(c, a, index, n) == Take(c, b, index, n)
    decreases n
  {
    if n > 0 {
      SameFrame(c, a, b, index);
      if ReadFrame(c, a, index).Some? {
        SameTake(c, a, b, index + 4 + ReadLength(a, index).value, n - 1);
      }
    }
  }

  /** Changing header bytes of a block leaves its transactions. */
  lemma SameTxs<T, V>(s: Scheme<T, V>, bytes: Bytes, other: Bytes, b: Block<T, V>)
    requires |bytes| >= 217 && Parse(s, bytes) == Some(b) && SameFrom(bytes, other, 209)
    requires BigEndian.Decode(bytes[209..217]) >= 217
    ensures var c := WithHeader(other, b.txs, b.validatorTxs);
      Parse(s, other) == if Consistent(s, c) then Some(c) else None
  {
    var start := BigEndian.Decode(bytes[209..217]);
    ParsedParts(s, bytes, b);
    SameSlice(bytes, other, 209, 209, 217);
    SameCount(s.txCodec, bytes, other, 217, start);
    SameTake(s.txCodec, bytes, other, 217, |b.txs|);
    SameCount(s.validatorCodec, bytes, other, start, |bytes|);
    SameTake(s.validatorCodec, bytes, other, start, |b.validatorTxs|);
    ParseFrom(s, other, start, b.txs, b.validatorTxs);
  }

  lemma SameNumber(a: Bytes, b: Bytes)
    requires |a| == |b|
    ensures BigEndian.Decode(a) == BigEndian.Decode(b) <==> a == b
  {
    BigEndian.EncodeDecode(a);
    BigEndian.EncodeDecode(b);
  }

  /** The fields that are derived from the transactions are the same. */
  predicate SameDerived(bytes: Bytes, other: Bytes, withHeight: bool)
    requires |bytes| >= 217 && |other| >= 217
  {
    && other[97..129] == bytes[97..129] && other[129..161] == bytes[129..161] && other[161..193] == bytes[161..193]
    && (withHeight ==> other[201..209] == bytes[201..209])
  }

  /** Whatever is done to the 209 header bytes of a block that was read, it is read again exactly if its
      randomness and both roots are untouched, and its height too unless it has no validator transactions. */
  lemma ChangedIff<T, V>(s: Scheme<T, V>, bytes: Bytes, other: Bytes)
    requires var b := Parse(s, bytes); b.Some? && SameFrom(bytes, other, 209)
    requires |bytes| >= 217 && BigEndian.Decode(bytes[209..217]) >= 217
    ensures Parse(s, other).Some? <==> SameDerived(bytes, other, Parse(s, bytes).value.validatorTxs != [])
  {
    var b := Parse(s, bytes).value;
    ParsedParts(s, bytes, b);
    SameTxs(s, bytes, other, b);
    SameNumber(bytes[201..209], other[201..209]);
    var c := WithHeader(other, b.txs, b.validatorTxs);
    if b.validatorTxs != [] {
      assert s.heightOf(b.validatorTxs[0]) == b.height;
    }
    assert c.txRoot == other[161..193] && c.validatorRoot == other[129..161] && c.randomness == other[97..129];
  }

  // ---------- What is written ----------

  /** Frame `i` holds the encoding of transaction `i`. */
  predicate Spelled<X(==)>(c: Codec<X>, bytes: Bytes, xs: seq<X>, at: seq<nat>) {
    |at| == |xs| + 1 && forall i :: 0 <= i < |xs| ==> HasAt(bytes, at[i] + 4, c.encode(xs[i]))
  }

  /** The transactions stand in a row from byte 217 to `start`, the validator transactions from there to the end. */
  predicate Layout<T(==), V(==)>(
    s: Scheme<T, V>, b: Block<T, V>, bytes: Bytes, start: nat, at: seq<nat>, more: seq<nat>)
  {
    && Row(s.txCodec, bytes, 217, start, b.txs, at) && at[|b.txs|] == start
    && Row(s.validatorCodec, bytes, start, |bytes|, b.validatorTxs, more) && more[|b.validatorTxs|] == |bytes|
    && Spelled(s.txCodec, bytes, b.txs, at) && Spelled(s.validatorCodec, bytes, b.validatorTxs, more)
  }

  /** A block that is written has every field in its place, and its last header field says where the validator
      transactions start. */
  lemma WrittenFields<T, V>(s: Scheme<T, V>, b: Block<T, V>) returns (at: seq<nat>, more: seq<nat>)
    requires Faithful(s.txCodec, b.txs) && Faithful(s.validatorCodec, b.validatorTxs) && WellSized(b)
    requires |Serialized(s, b)| < BigEndian.Power256(8)
    ensures var bytes := Serialized(s, b);
      HasFields(bytes, b) && Layout(s, b, bytes, BigEndian.Decode(bytes[209..217]), at, more)
  {
    var bytes, start := Serialized(s, b), HEADER_END + |Frames(s.txCodec, b.txs)|;
    SerializedParts(s, b);
    WrittenHeader(s, b);
    at := WrittenRow(s.txCodec, bytes, HEADER_END, b.txs);
    more := WrittenRow(s.validatorCodec, bytes, start, b.validatorTxs);
  }

  lemma WrittenHeader<T, V>(s: Scheme<T, V>, b: Block<T, V>)
    requires WellSized(b) && |Serialized(s, b)| < BigEndian.Power256(8)
    ensures var bytes := Serialized(s, b);
      HasFields(bytes, b) && BigEndian.Decode(bytes[209..217]) == HEADER_END + |Frames(s.txCodec, b.txs)|
  {
    SerializedParts(s, b);
    HeaderFields(b, Serialized(s, b), HEADER_END + |Frames(s.txCodec, b.txs)|);
  }

  lemma {:induction false} WrittenRow<X>(c: Codec<X>, bytes: Bytes, index: nat, xs: seq<X>) returns (at: seq<nat>)
    requires Faithful(c, xs) && HasAt(bytes, index, Frames(c, xs))
    ensures Row(c, bytes, index, index + |Frames(c, xs)|, xs, at) && at[|xs|] == index + |Frames(c, xs)|
    ensures Spelled(c, bytes, xs, at)
    decreases |xs|
  {
    if xs == [] {
      at := [index];
    } else {
      var frame, payload := Frame(c.encode(xs[0])), c.encode(xs[0]);
      HasParts(bytes, index, frame, Frames(c, xs[1..]));
      HasParts(bytes, index, BigEndian.Encode(|payload|, 4), payload);
      FrameAt(c, bytes, index, xs[0]);
      var rest := WrittenRow(c, bytes, index + |frame|, xs[1..]);
      RowHead(c, bytes, index, index + |frame|, index + |Frames(c, xs)|, xs[0], xs[1..], rest);
      SpelledHead(c, bytes, index, xs[0], xs[1..], rest);
      assert [xs[0]] + xs[1..] == xs;
      at := [index] + rest;
    }
  }

  lemma SpelledHead<X>(c: Codec<X>, bytes: Bytes, index: nat, x: X, xs: seq<X>, at: seq<nat>)
    requires Spelled(c, bytes, xs, at) && HasAt(bytes, index + 4, c.encode(x))
    ensures Spelled(c, bytes, [x] + xs, [index] + at)
  {
    var more, longer := [x] + xs, [index] + at;
    forall i | 0 <= i < |more|
      ensures HasAt(bytes, longer[i] + 4, c.encode(more[i]))
    {
      if i > 0 {
        assert HasAt(bytes, at[i - 1] + 4, c.encode(xs[i - 1]));
      }
    }
  }

  /** A consistent block that is written, and then changed in its header, is read as a block exactly if the
      derived fields are untouched. */
  lemma WrittenAndChanged<T, V>(s: Scheme<T, V>, b: Block<T, V>, other: Bytes)
    requires Faithful(s.txCodec, b.txs) && Faithful(s.validatorCodec, b.validatorTxs) && WellSized(b)
    requires |Serialized(s, b)| < BigEndian.Power256(8) && Consistent(s, b)
    requires |other| >= 217 && SameFrom(Serialized(s, b), other, 209)
    ensures Parse(s, other).Some? <==> SameDerived(Serialized(s, b), other, b.validatorTxs != [])
  {
    RoundTrip(s, b);
    var at, more := WrittenFields(s, b);
    ChangedIff(s, Serialized(s, b), other);
  }
}
