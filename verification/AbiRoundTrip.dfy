/** Decoding what was encoded gives the values back. */
module AbiRoundTrip {
  import opened Base
  import opened AbiTypes
  import opened AbiCodec
  import BigEndian

  /** `s` stands in `data` from position `p` on. */
  predicate At(data: Bytes, p: nat, s: Bytes) {
    p + |s| <= |data| && data[p..p + |s|] == s
  }

  lemma AtSplit(data: Bytes, p: nat, s: Bytes, t: Bytes)
    requires At(data, p, s + t)
    ensures At(data, p, s) && At(data, p + |s|, t)
  {
    var whole := data[p..p + |s + t|];
    assert data[p..p + |s|] == whole[..|s|];
    assert data[p + |s|..p + |s| + |t|] == whole[|s|..];
  }

  /** What stands behind position `q` stands in the view that starts there. */
  lemma AtView(data: Bytes, q: nat, k: nat, s: Bytes)
    requires At(data, q + k, s)
    ensures At(data[q..], k, s)
  {
    assert data[q..][k..k + |s|] == data[q + k..q + k + |s|];
  }

  lemma PowerOfEight()
    ensures BigEndian.Power256(8) == TWO_TO_64
  {
  }

  lemma {:induction false} PowerMonotone(m: nat, n: nat)
    requires m <= n
    ensures BigEndian.Power256(m) <= BigEndian.Power256(n)
    decreases n
  {
    if m < n {
      PowerMonotone(m, n - 1);
    }
  }

  lemma ReadWord(data: Bytes, p: nat, x: nat)
    requires At(data, p, Word(x)) && x < TWO_TO_64
    ensures Read64(data, p) == x
  {
    PowerOfEight();
    DecodeWide(x, 8, 32);
  }

  // ---------- Sizes ----------

  /** A static value takes exactly its head size. */
  lemma {:induction false} StaticSize(t: Type, v: Value)
    requires HasType(v, t) && !IsDynamic(t)
    ensures |EncodeValue(t, v)| == HeadSize(t)
    decreases v, 1
  {
    if t.Tuple? {
      HeadsSize(t.fields, v.items, TotalOffset(t.fields));
      NoTails(t.fields, v.items);
    }
  }

  lemma {:induction false} HeadsSize(ts: seq<Type>, vs: seq<Value>, offset: nat)
    requires HaveTypes(vs, ts)
    ensures |Heads(ts, vs, offset)| == HeadSizes(ts)
    decreases vs, 0
  {
    if ts != [] {
      if IsDynamic(ts[0]) {
        HeadsSize(ts[1..], vs[1..], offset + |EncodeValue(ts[0], vs[0])|);
      } else {
        StaticSize(ts[0], vs[0]);
        HeadsSize(ts[1..], vs[1..], offset);
      }
    }
  }

  lemma {:induction false} NoTails(ts: seq<Type>, vs: seq<Value>)
    requires HaveTypes(vs, ts) && !AnyDynamic(ts)
    ensures Tails(ts, vs) == []
    decreases vs
  {
    if ts != [] {
      NoTails(ts[1..], vs[1..]);
    }
  }

  // ---------- Round trip ----------

  /** A static value is decoded from where it was written. */
  lemma {:induction false} DecodeStatic(t: Type, v: Value, data: Bytes, p: nat)
    requires WellFormed(t) && HasType(v, t) && !IsDynamic(t) && FlatType(t)
    requires At(data, p, EncodeValue(t, v)) && |data| < TWO_TO_64
    ensures DecodeValue(t, data, p) == Got(v, p + HeadSize(t))
    decreases v, 1
  {
    if t.Tuple? {
      DecodeStaticTuple(t.fields, v.items, data, p);
    } else {
      StaticSize(t, v);
      DecodeElementary(t, v, data, p);
    }
  }

  lemma DecodeElementary(t: Type, v: Value, data: Bytes, p: nat)
    requires WellFormed(t) && HasType(v, t) && !IsDynamic(t) && !t.Tuple?
    requires At(data, p, EncodeValue(t, v)) && |EncodeValue(t, v)| == 32
    ensures DecodeValue(t, data, p) == Got(v, p + 32)
  {
    match t
    case UInt(width) =>
      DecodeNumber(v.n, width);
    case Bool =>
      assert data[p + 31] == data[p..p + 32][31];
      LastByte(if v.b then 1 else 0);
    case AddressType =>
      AtSplit(data, p, Zeros(12), v.bytes);
    case Hash32 =>
  }

  lemma DecodeNumber(n: nat, width: nat)
    requires n < BigEndian.Power256(width) && width <= 32
    ensures BigEndian.Decode(Word(n)) % BigEndian.Power256(width) == n
  {
    DecodeWide(n, width, 32);
  }

  lemma DecodeWide(n: nat, width: nat, wide: nat)
    requires n < BigEndian.Power256(width) && width <= wide
    ensures BigEndian.Decode(BigEndian.Encode(n, wide)) % BigEndian.Power256(width) == n
  {
    PowerMonotone(width, wide);
    BigEndian.DecodeEncode(n, wide);
    SmallRemainder(n, BigEndian.Power256(width));
  }

  lemma SmallRemainder(x: nat, m: nat)
    requires x < m
    ensures x % m == x
  {
  }

  lemma LastByte(x: nat)
    requires x < 256
    ensures Word(x)[31] == x
  {
  }

  lemma {:induction false} DecodeStaticTuple(ts: seq<Type>, vs: seq<Value>, data: Bytes, p: nat)
    requires HaveTypes(vs, ts) && !AnyDynamic(ts)
    requires ts != [] && AllWellFormed(ts) && AllFlatTypes(ts)
    requires At(data, p, EncodeList(ts, vs)) && |data| < TWO_TO_64
    ensures DecodeValue(Tuple(ts), data, p) == Got(Items(vs), p + HeadSizes(ts))
    decreases vs, 1
  {
    var offset := TotalOffset(ts);
    NoTails(ts, vs);
    AtSplit(data, p, Heads(ts, vs, offset), []);
    HeadsSize(ts, vs, offset);
    HeadSizesAtLeast(ts);
    HeadsOfStatic(ts, vs, offset, 0);
    DecodeHeads(ts, vs, Depths(ts), data, p, 0);
  }

  lemma {:induction false} HeadsOfStatic(ts: seq<Type>, vs: seq<Value>, offset: nat, other: nat)
    requires HaveTypes(vs, ts) && !AnyDynamic(ts)
    ensures Heads(ts, vs, offset) == Heads(ts, vs, other)
    decreases vs
  {
    if ts != [] {
      HeadsOfStatic(ts[1..], vs[1..], offset, other);
    }
  }

  /** A dynamic value is decoded from the offset in its head. */
  lemma {:induction false} DecodeDynamic(t: Type, v: Value, data: Bytes, p: nat, q: nat)
    requires WellFormed(t) && HasType(v, t) && IsDynamic(t) && FlatType(t)
    requires At(data, p, Word(q)) && At(data, q, EncodeValue(t, v)) && |data| < TWO_TO_64
    ensures DecodeValue(t, data, p) == Got(v, p + HeadSize(t))
    decreases v, 1
  {
    ReadWord(data, p, q);
    match t
    case DynamicBytes => DecodeEncodedBytes(v.bytes, data, q, p + 32);
    case String => DecodeEncodedBytes(v.bytes, data, q, p + 32);
    case Vector(e) => DecodeEncodedArray(e, None, v.items, data, q, p + 32);
    case FixedArray(e, n) => DecodeEncodedArray(e, Some(n), v.items, data, q, p + 32);
    case Tuple(ts) =>
      AtView(data, q, 0, EncodeValue(t, v));
      DecodeEncoded(ts, v.items, Depths(ts), data[q..]);
  }

  lemma DecodeEncodedBytes(s: Bytes, data: Bytes, q: nat, next: nat)
    requires At(data, q, EncodeBytes(s)) && |data| < TWO_TO_64
    ensures DecodeBytes(data, q, next) == Got(Raw(s), next)
  {
    var padding := Zeros(PaddedSize(|s|) - |s|);
    assert EncodeBytes(s) == Word(|s|) + (s + padding);
    AtSplit(data, q, Word(|s|), s + padding);
    AtSplit(data, q + 32, s, padding);
    ReadWord(data, q, |s|);
  }

  lemma {:induction false} DecodeEncodedArray(e: Type, size: Option<nat>, vs: seq<Value>, data: Bytes, q: nat, next: nat)
    requires WellFormed(e) && (vs == [] || FlatType(e)) && HaveTypes(vs, Repeat(e, |vs|))
    requires size.Some? ==> size.value == |vs|
    requires At(data, q, Word(|vs|) + EncodeList(Repeat(e, |vs|), vs)) && |data| < TWO_TO_64
    ensures DecodeArray(e, size, data, q, next) == Got(Items(vs), next)
    decreases vs, 3
  {
    var ts := Repeat(e, |vs|);
    AtSplit(data, q, Word(|vs|), EncodeList(ts, vs));
    AtView(data, q + 32, 0, EncodeList(ts, vs));
    ArraySize(e, vs);
    ReadWord(data, q, |vs|);
    RepeatSupported(e, |vs|);
    RepeatDepth(e, |vs|);
    DecodeEncoded(ts, vs, Depth(e), data[q + 32..]);
  }

  /** An array has no more elements than its encoding has bytes. */
  lemma ArraySize(e: Type, vs: seq<Value>)
    requires WellFormed(e) && HaveTypes(vs, Repeat(e, |vs|))
    ensures |vs| <= |EncodeList(Repeat(e, |vs|), vs)|
  {
    var ts := Repeat(e, |vs|);
    RepeatWellFormed(e, |vs|);
    HeadsSize(ts, vs, TotalOffset(ts));
    HeadSizesAtLeast(ts);
  }

  /** A list of components is decoded from its heads and tails. */
  lemma {:induction false} DecodeEncoded(ts: seq<Type>, vs: seq<Value>, depth: nat, data: Bytes)
    requires HaveTypes(vs, ts) && FlatTypes(ts)
    requires AllWellFormed(ts) && Depths(ts) <= depth
    requires At(data, 0, EncodeList(ts, vs)) && |data| < TWO_TO_64
    ensures DecodeList(ts, depth, data, 0) == Got(vs, HeadSizes(ts))
    decreases vs, 2
  {
    var offset := TotalOffset(ts);
    AtSplit(data, 0, Heads(ts, vs, offset), Tails(ts, vs));
    HeadsSize(ts, vs, offset);
    if AnyDynamic(ts) {
      TotalOffsetExact(ts);
      DecodeHeads(ts, vs, depth, data, 0, offset);
    } else {
      NoTails(ts, vs);
      HeadsOfStatic(ts, vs, offset, 0);
      DecodeHeads(ts, vs, depth, data, 0, 0);
    }
  }

  predicate Supported(ts: seq<Type>, depth: nat) {
    AllWellFormed(ts) && AllFlatTypes(ts) && Depths(ts) <= depth
  }

  /** Heads stand at `p` and tails at `q`, where the offsets point. */
  predicate Standing(ts: seq<Type>, vs: seq<Value>, data: Bytes, p: nat, q: nat)
    requires HaveTypes(vs, ts)
  {
    At(data, p, Heads(ts, vs, q)) && At(data, q, Tails(ts, vs)) && |data| < TWO_TO_64
  }

  /** Each head decodes to its component, when the tails stand where the offsets point. */
  lemma {:induction false} DecodeHeads(ts: seq<Type>, vs: seq<Value>, depth: nat, data: Bytes, p: nat, q: nat)
    requires HaveTypes(vs, ts) && Supported(ts, depth) && Standing(ts, vs, data, p, q)
    ensures DecodeList(ts, depth, data, p) == Got(vs, p + HeadSizes(ts))
    decreases vs, 0
  {
    if ts == [] {
      assert vs == [];
    } else {
      DecodeFirst(ts, vs, depth, data, p, q);
      DecodeRest(ts, vs, depth, data, p, q);
      DecodeCons(ts, depth, data, p, vs[0], p + HeadSize(ts[0]), vs[1..], p + HeadSizes(ts));
      assert vs == [vs[0]] + vs[1..];
    }
  }

  lemma {:induction false} DecodeFirst(ts: seq<Type>, vs: seq<Value>, depth: nat, data: Bytes, p: nat, q: nat)
    requires ts != [] && HaveTypes(vs, ts) && Supported(ts, depth) && Standing(ts, vs, data, p, q)
    ensures DecodeValue(ts[0], data, p) == Got(vs[0], p + HeadSize(ts[0]))
    decreases vs[0], 2
  {
    if IsDynamic(ts[0]) {
      SplitDynamic(ts, vs, data, p, q);
      DecodeDynamic(ts[0], vs[0], data, p, q);
    } else {
      SplitStatic(ts, vs, data, p, q);
      DecodeStatic(ts[0], vs[0], data, p);
    }
  }

  lemma {:induction false} DecodeRest(ts: seq<Type>, vs: seq<Value>, depth: nat, data: Bytes, p: nat, q: nat)
    requires ts != [] && HaveTypes(vs, ts) && Supported(ts, depth) && Standing(ts, vs, data, p, q)
    ensures DecodeList(ts[1..], depth, data, p + HeadSize(ts[0])) == Got(vs[1..], p + HeadSizes(ts))
    decreases vs[1..], 1
  {
    var mid := p + HeadSize(ts[0]);
    if IsDynamic(ts[0]) {
      RestStanding(ts, vs, data, p, q);
      DecodeHeads(ts[1..], vs[1..], depth, data, mid, q + |EncodeValue(ts[0], vs[0])|);
    } else {
      SplitStatic(ts, vs, data, p, q);
      DecodeHeads(ts[1..], vs[1..], depth, data, mid, q);
    }
  }

  lemma SplitStatic(ts: seq<Type>, vs: seq<Value>, data: Bytes, p: nat, q: nat)
    requires ts != [] && HaveTypes(vs, ts) && !IsDynamic(ts[0]) && Standing(ts, vs, data, p, q)
    ensures At(data, p, EncodeValue(ts[0], vs[0])) && Standing(ts[1..], vs[1..], data, p + HeadSize(ts[0]), q)
  {
    AtSplit(data, p, EncodeValue(ts[0], vs[0]), Heads(ts[1..], vs[1..], q));
    StaticSize(ts[0], vs[0]);
  }

  lemma SplitDynamic(ts: seq<Type>, vs: seq<Value>, data: Bytes, p: nat, q: nat)
    requires ts != [] && HaveTypes(vs, ts) && IsDynamic(ts[0]) && Standing(ts, vs, data, p, q)
    ensures At(data, p, Word(q)) && At(data, q, EncodeValue(ts[0], vs[0]))
  {
    var code := EncodeValue(ts[0], vs[0]);
    AtSplit(data, p, Word(q), Heads(ts[1..], vs[1..], q + |code|));
    AtSplit(data, q, code, Tails(ts[1..], vs[1..]));
  }

  lemma RestStanding(ts: seq<Type>, vs: seq<Value>, data: Bytes, p: nat, q: nat)
    requires ts != [] && HaveTypes(vs, ts) && IsDynamic(ts[0]) && Standing(ts, vs, data, p, q)
    ensures Standing(ts[1..], vs[1..], data, p + 32, q + |EncodeValue(ts[0], vs[0])|)
  {
    RestHeads(ts, vs, data, p, q);
    RestTails(ts, vs, data, q);
  }

  lemma RestHeads(ts: seq<Type>, vs: seq<Value>, data: Bytes, p: nat, q: nat)
    requires ts != [] && HaveTypes(vs, ts) && IsDynamic(ts[0]) && At(data, p, Heads(ts, vs, q))
    ensures At(data, p + 32, Heads(ts[1..], vs[1..], q + |EncodeValue(ts[0], vs[0])|))
  {
    AtSplit(data, p, Word(q), Heads(ts[1..], vs[1..], q + |EncodeValue(ts[0], vs[0])|));
  }

  lemma RestTails(ts: seq<Type>, vs: seq<Value>, data: Bytes, q: nat)
    requires ts != [] && HaveTypes(vs, ts) && IsDynamic(ts[0]) && At(data, q, Tails(ts, vs))
    ensures At(data, q + |EncodeValue(ts[0], vs[0])|, Tails(ts[1..], vs[1..]))
  {
    AtSplit(data, q, EncodeValue(ts[0], vs[0]), Tails(ts[1..], vs[1..]));
  }

  lemma DecodeCons(
    ts: seq<Type>, depth: nat, data: Bytes, p: nat, v: Value, mid: nat, vs: seq<Value>, last: nat)
    requires ts != [] && Depths(ts) <= depth
    requires DecodeValue(ts[0], data, p) == Got(v, mid)
    requires DecodeList(ts[1..], depth, data, mid) == Got(vs, last)
    ensures DecodeList(ts, depth, data, p) == Got([v] + vs, last)
  {
  }

  /** For every list of types whose heads the encoder sizes right, and every value of them that fits
      in memory, decoding the encoding gives the value back. */
  lemma RoundTrip(ts: seq<Type>, vs: seq<Value>)
    requires HaveTypes(vs, ts) && FlatTypes(ts) && AllWellFormed(ts)
    requires |EncodeData(ts, vs)| < TWO_TO_64
    ensures DecodeData(ts, EncodeData(ts, vs)) == Some(vs)
  {
    var data := EncodeData(ts, vs);
    assert data[..|data|] == data;
    DecodeEncoded(ts, vs, Depths(ts), data);
  }

  // ---------- Where the encoder goes wrong ----------

  lemma {:induction false} TakeHasTypes(vs: seq<Value>, ts: seq<Type>, i: nat)
    requires HaveTypes(vs, ts) && i <= |ts|
    ensures HaveTypes(vs[..i], ts[..i])
    decreases i
  {
    if i > 0 {
      TakeHasTypes(vs[1..], ts[1..], i - 1);
      assert ts[..i][1..] == ts[1..][..i - 1] && vs[..i][1..] == vs[1..][..i - 1];
    }
  }

  /** How far behind the heads the tail of component `i` stands. */
  function TailsBefore(ts: seq<Type>, vs: seq<Value>, i: nat): nat
    requires HaveTypes(vs, ts) && i <= |ts|
  {
    TakeHasTypes(vs, ts, i);
    |Tails(ts[..i], vs[..i])|
  }

  /** Where the tail of component `i` stands in the encoding of a list. */
  function TailPosition(ts: seq<Type>, vs: seq<Value>, i: nat): nat
    requires HaveTypes(vs, ts) && i <= |ts|
  {
    |Heads(ts, vs, TotalOffset(ts))| + TailsBefore(ts, vs, i)
  }

  /** The offset written for component `i`. */
  function WrittenOffset(ts: seq<Type>, vs: seq<Value>, i: nat): nat
    requires HaveTypes(vs, ts) && i <= |ts|
  {
    TotalOffset(ts) + TailsBefore(ts, vs, i)
  }

  /** The written offset is the one that stands in the head of a dynamic component. */
  lemma OffsetInHead(ts: seq<Type>, vs: seq<Value>, i: nat, offset: nat)
    requires HaveTypes(vs, ts) && i < |ts| && IsDynamic(ts[i])
    ensures At(Heads(ts, vs, offset), HeadSizes(ts[..i]), Word(offset + TailsBefore(ts, vs, i)))
  {
    OffsetAt(ts, vs, i, offset, HeadSizes(ts[..i]), offset + TailsBefore(ts, vs, i));
  }

  lemma {:induction false} OffsetAt(ts: seq<Type>, vs: seq<Value>, i: nat, offset: nat, k: nat, w: nat)
    requires HaveTypes(vs, ts) && i < |ts| && IsDynamic(ts[i])
    requires k == HeadSizes(ts[..i]) && w == offset + TailsBefore(ts, vs, i)
    ensures At(Heads(ts, vs, offset), k, Word(w))
    decreases i
  {
    if i == 0 {
      var head, next := HeadsBehind(ts, vs, offset);
      AtFront(head, Heads(ts[1..], vs[1..], next), 0, head);
    } else {
      var next := offset + if IsDynamic(ts[0]) then |EncodeValue(ts[0], vs[0])| else 0;
      TailsBeforeNext(ts, vs, i);
      OffsetAt(ts[1..], vs[1..], i - 1, next, k - HeadSize(ts[0]), w);
      InHeadsBehind(ts, vs, offset, k - HeadSize(ts[0]), Word(w));
    }
  }

  lemma InHeadsBehind(ts: seq<Type>, vs: seq<Value>, offset: nat, k: nat, s: Bytes)
    requires ts != [] && HaveTypes(vs, ts)
    requires var next := offset + if IsDynamic(ts[0]) then |EncodeValue(ts[0], vs[0])| else 0;
      At(Heads(ts[1..], vs[1..], next), k, s)
    ensures At(Heads(ts, vs, offset), HeadSize(ts[0]) + k, s)
  {
    var head, next := HeadsBehind(ts, vs, offset);
    AtBehind(head, Heads(ts[1..], vs[1..], next), k, s);
  }

  /** Behind the first head stand the heads of the rest, with the offset moved by the first tail. */
  lemma HeadsBehind(ts: seq<Type>, vs: seq<Value>, offset: nat) returns (head: Bytes, next: nat)
    requires ts != [] && HaveTypes(vs, ts)
    ensures next == offset + if IsDynamic(ts[0]) then |EncodeValue(ts[0], vs[0])| else 0
    ensures head == if IsDynamic(ts[0]) then Word(offset) else EncodeValue(ts[0], vs[0])
    ensures |head| == HeadSize(ts[0]) && Heads(ts, vs, offset) == head + Heads(ts[1..], vs[1..], next)
  {
    var code := EncodeValue(ts[0], vs[0]);
    if IsDynamic(ts[0]) {
      head, next := Word(offset), offset + |code|;
    } else {
      StaticSize(ts[0], vs[0]);
      head, next := code, offset;
    }
  }

  lemma TailsBeforeNext(ts: seq<Type>, vs: seq<Value>, i: nat)
    requires HaveTypes(vs, ts) && 0 < i <= |ts|
    ensures TailsBefore(ts, vs, i)
         == (if IsDynamic(ts[0]) then |EncodeValue(ts[0], vs[0])| else 0) + TailsBefore(ts[1..], vs[1..], i - 1)
    ensures HeadSizes(ts[..i]) == HeadSize(ts[0]) + HeadSizes(ts[1..][..i - 1])
  {
    TakeHasTypes(vs, ts, i);
    assert ts[..i][1..] == ts[1..][..i - 1] && vs[..i][1..] == vs[1..][..i - 1];
  }

  lemma AtFront(front: Bytes, back: Bytes, p: nat, s: Bytes)
    requires At(front, p, s)
    ensures At(front + back, p, s)
  {
    assert (front + back)[p..p + |s|] == front[p..p + |s|];
  }

  lemma AtBehind(front: Bytes, back: Bytes, p: nat, s: Bytes)
    requires At(back, p, s)
    ensures At(front + back, |front| + p, s)
  {
    assert (front + back)[|front| + p..|front| + p + |s|] == back[p..p + |s|];
  }

  /** Every offset points at its own tail if and only if the static tuples next to it hold
      one-word fields; otherwise it falls short and points into the heads. */
  lemma OffsetsPointAtTails(ts: seq<Type>, vs: seq<Value>, i: nat)
    requires HaveTypes(vs, ts) && i < |ts| && AllWellFormed(ts)
    ensures WrittenOffset(ts, vs, i) == TailPosition(ts, vs, i) <==> Flat(ts)
    ensures !Flat(ts) ==> WrittenOffset(ts, vs, i) < TailPosition(ts, vs, i)
  {
    HeadsSize(ts, vs, TotalOffset(ts));
    TotalOffsetExact(ts);
  }
}
