/** The encoder and decoder as they run: buffers that grow, a running offset, an index that moves. */
module AbiCoder {
  import opened Base
  import opened AbiTypes
  import opened AbiCodec
  import opened AbiRoundTrip
  import opened AbiLoss
  import opened AbiWire
  import BigEndian

  lemma TypesFrom(vs: seq<Value>, ts: seq<Type>, i: nat)
    requires i < |ts| == |vs| && HaveTypes(vs[i..], ts[i..])
    ensures HasType(vs[i], ts[i]) && HaveTypes(vs[i + 1..], ts[i + 1..])
    ensures ts[i..][1..] == ts[i + 1..] && vs[i..][1..] == vs[i + 1..]
  {
  }

  /** The static part as it will be once the rest of a list has been encoded. */
  function AllHeads(heads: Bytes, ts: seq<Type>, vs: seq<Value>, offset: nat): Bytes
    requires HaveTypes(vs, ts)
  {
    heads + Heads(ts, vs, offset)
  }

  function AllTails(tails: Bytes, ts: seq<Type>, vs: seq<Value>): Bytes
    requires HaveTypes(vs, ts)
  {
    tails + Tails(ts, vs)
  }

  /** Encoding the first component of the rest changes neither part. */
  lemma MoveDynamicHead(heads: Bytes, ts: seq<Type>, vs: seq<Value>, offset: nat, size: nat)
    requires ts != [] && HaveTypes(vs, ts) && IsDynamic(ts[0]) && size == |EncodeValue(ts[0], vs[0])|
    ensures AllHeads(heads, ts, vs, offset) == AllHeads(heads + Word(offset), ts[1..], vs[1..], offset + size)
  {
    Regroup(heads, Word(offset), Heads(ts[1..], vs[1..], offset + size));
  }

  lemma MoveStaticHead(heads: Bytes, ts: seq<Type>, vs: seq<Value>, offset: nat, code: Bytes)
    requires ts != [] && HaveTypes(vs, ts) && !IsDynamic(ts[0]) && code == EncodeValue(ts[0], vs[0])
    ensures AllHeads(heads, ts, vs, offset) == AllHeads(heads + code, ts[1..], vs[1..], offset)
  {
    Regroup(heads, code, Heads(ts[1..], vs[1..], offset));
  }

  lemma MoveTail(tails: Bytes, ts: seq<Type>, vs: seq<Value>)
    requires ts != [] && HaveTypes(vs, ts)
    ensures AllTails(tails, ts, vs) ==
      AllTails(if IsDynamic(ts[0]) then tails + EncodeValue(ts[0], vs[0]) else tails, ts[1..], vs[1..])
  {
    if IsDynamic(ts[0]) {
      Regroup(tails, EncodeValue(ts[0], vs[0]), Tails(ts[1..], vs[1..]));
    }
  }

  lemma StartParts(ts: seq<Type>, vs: seq<Value>, offset: nat)
    requires HaveTypes(vs, ts)
    ensures AllHeads([], ts, vs, offset) == Heads(ts, vs, offset) && AllTails([], ts, vs) == Tails(ts, vs)
  {
  }

  lemma FinishParts(heads: Bytes, tails: Bytes, offset: nat)
    ensures AllHeads(heads, [], [], offset) == heads && AllTails(tails, [], []) == tails
  {
  }

  method PadSize(n: nat) returns (pad: nat)
    ensures pad == PaddedSize(n)
    ensures pad % 32 == 0 && pad >= n && pad >= 32 && (pad == 32 || pad - 32 < n)
  {
    pad := 32;
    while pad < n
      invariant pad % 32 == 0 && 32 <= pad <= PaddedSize(n)
    {
      pad := pad + 32;
    }
  }

  method EncodeByteString(s: Bytes) returns (code: Bytes)
    ensures code == EncodeBytes(s)
    ensures IsByteString(s, code)
  {
    var pad := PadSize(|s|);
    code := Word(|s|) + s + Zeros(pad - |s|);
    ByteStringIff(s, code);
  }

  method EncodeType(t: Type, v: Value) returns (code: Bytes)
    requires HasType(v, t) && WellFormed(t)
    ensures code == EncodeValue(t, v)
    decreases v, 0
  {
    match t
    case UInt(_) => code := Word(v.n);
    case Bool => code := Word(if v.b then 1 else 0);
    case AddressType => code := Zeros(12) + v.bytes;
    case Hash32 => code := v.bytes;
    case DynamicBytes => code := EncodeByteString(v.bytes);
    case String => code := EncodeByteString(v.bytes);
    case Vector(e) => code := EncodeArray(e, v.items);
    case FixedArray(e, _) => code := EncodeArray(e, v.items);
    case Tuple(ts) => code := EncodeItems(ts, v.items);
  }

  /** The encoding of a list stands at component `i`. */
  ghost predicate AtItem(ts: seq<Type>, vs: seq<Value>, i: nat, offset: nat, heads: Bytes, tails: Bytes) {
    && i <= |ts| == |vs|
    && HaveTypes(vs, ts)
    && Remaining(ts[i..], vs[i..], offset, heads, tails, Heads(ts, vs, TotalOffset(ts)), Tails(ts, vs))
  }

  /** With what remains to be encoded, the two parts will be these. */
  ghost predicate Remaining(
    ts: seq<Type>, vs: seq<Value>, offset: nat, heads: Bytes, tails: Bytes, allHeads: Bytes, allTails: Bytes)
  {
    && HaveTypes(vs, ts) && AllWellFormed(ts)
    && AllHeads(heads, ts, vs, offset) == allHeads && AllTails(tails, ts, vs) == allTails
  }

  lemma DynamicStep(
    ts: seq<Type>, vs: seq<Value>, offset: nat, heads: Bytes, tails: Bytes, allHeads: Bytes, allTails: Bytes)
    requires ts != [] && Remaining(ts, vs, offset, heads, tails, allHeads, allTails) && IsDynamic(ts[0])
    ensures var code := EncodeValue(ts[0], vs[0]);
      Remaining(ts[1..], vs[1..], offset + |code|, heads + Word(offset), tails + code, allHeads, allTails)
  {
    var code := EncodeValue(ts[0], vs[0]);
    assert AllHeads(heads + Word(offset), ts[1..], vs[1..], offset + |code|) == allHeads by {
      MoveDynamicHead(heads, ts, vs, offset, |code|);
    }
    assert AllTails(tails + code, ts[1..], vs[1..]) == allTails by {
      MoveTail(tails, ts, vs);
    }
  }

  lemma StaticStep(
    ts: seq<Type>, vs: seq<Value>, offset: nat, heads: Bytes, tails: Bytes, allHeads: Bytes, allTails: Bytes)
    requires ts != [] && Remaining(ts, vs, offset, heads, tails, allHeads, allTails) && !IsDynamic(ts[0])
    ensures Remaining(ts[1..], vs[1..], offset, heads + EncodeValue(ts[0], vs[0]), tails, allHeads, allTails)
  {
    MoveTail(tails, ts, vs);
    MoveStaticHead(heads, ts, vs, offset, EncodeValue(ts[0], vs[0]));
  }

  lemma FirstItem(ts: seq<Type>, vs: seq<Value>)
    requires HaveTypes(vs, ts) && AllWellFormed(ts)
    ensures AtItem(ts, vs, 0, TotalOffset(ts), [], [])
  {
    assert ts[0..] == ts && vs[0..] == vs;
    StartParts(ts, vs, TotalOffset(ts));
  }

  lemma DynamicItem(ts: seq<Type>, vs: seq<Value>, i: nat, offset: nat, heads: Bytes, tails: Bytes, code: Bytes)
    requires i < |ts| && AtItem(ts, vs, i, offset, heads, tails) && IsDynamic(ts[i])
    requires HasType(vs[i], ts[i]) && code == EncodeValue(ts[i], vs[i])
    ensures AtItem(ts, vs, i + 1, offset + |code|, heads + Word(offset), tails + code)
  {
    TypesFrom(vs, ts, i);
    DynamicStep(ts[i..], vs[i..], offset, heads, tails, Heads(ts, vs, TotalOffset(ts)), Tails(ts, vs));
  }

  lemma StaticItem(ts: seq<Type>, vs: seq<Value>, i: nat, offset: nat, heads: Bytes, tails: Bytes, code: Bytes)
    requires i < |ts| && AtItem(ts, vs, i, offset, heads, tails) && !IsDynamic(ts[i])
    requires HasType(vs[i], ts[i]) && code == EncodeValue(ts[i], vs[i])
    ensures AtItem(ts, vs, i + 1, offset, heads + code, tails)
  {
    TypesFrom(vs, ts, i);
    StaticStep(ts[i..], vs[i..], offset, heads, tails, Heads(ts, vs, TotalOffset(ts)), Tails(ts, vs));
  }

  lemma ItemTypes(ts: seq<Type>, vs: seq<Value>, i: nat, offset: nat, heads: Bytes, tails: Bytes)
    requires i < |ts| && AtItem(ts, vs, i, offset, heads, tails)
    ensures HasType(vs[i], ts[i]) && WellFormed(ts[i])
  {
    TypesFrom(vs, ts, i);
  }

  /** Encodes the arguments of a call, or the fields of a tuple, in one pass. */
  method EncodeItems(ts: seq<Type>, vs: seq<Value>) returns (result: Bytes)
    requires HaveTypes(vs, ts) && AllWellFormed(ts)
    ensures result == EncodeList(ts, vs)
    ensures IsListCode(ts, vs, result)
    decreases vs, 1
  {
    result := [];
    var dynamicBytes: Bytes, nextOffset: nat := [], TotalOffset(ts);
    FirstItem(ts, vs);
    for i := 0 to |ts|
      invariant AtItem(ts, vs, i, nextOffset, result, dynamicBytes)
    {
      ItemTypes(ts, vs, i, nextOffset, result, dynamicBytes);
      var packed := EncodeType(ts[i], vs[i]);
      if IsDynamic(ts[i]) {
        DynamicItem(ts, vs, i, nextOffset, result, dynamicBytes, packed);
        result := result + Word(nextOffset);
        nextOffset := nextOffset + |packed|;
        dynamicBytes := dynamicBytes + packed;
      } else {
        StaticItem(ts, vs, i, nextOffset, result, dynamicBytes, packed);
        result := result + packed;
      }
    }
    FinishParts(result, dynamicBytes, nextOffset);
    result := result + dynamicBytes;
    ListIff(ts, vs, result);
  }

  lemma {:induction false} RepeatOffset(e: Type, n: nat)
    requires IsDynamic(e)
    ensures TotalOffset(Repeat(e, n)) == 32 * n
  {
    if n > 0 {
      RepeatTail(e, n);
      RepeatOffset(e, n - 1);
    }
  }

  lemma {:induction false} RepeatDynamic(e: Type, n: nat)
    requires WellFormed(e)
    ensures AllWellFormed(Repeat(e, n)) && (AnyDynamic(Repeat(e, n)) <==> n > 0 && IsDynamic(e))
  {
    if n > 0 {
      RepeatTail(e, n);
      RepeatDynamic(e, n - 1);
    }
  }

  /** Encodes the elements of an array behind their number. */
  method EncodeArray(e: Type, vs: seq<Value>) returns (result: Bytes)
    requires HaveTypes(vs, Repeat(e, |vs|)) && WellFormed(e)
    ensures result == Word(|vs|) + EncodeList(Repeat(e, |vs|), vs)
    decreases vs, 1
  {
    RepeatDynamic(e, |vs|);
    if IsDynamic(e) {
      var offsets, data := EncodeDynamicElements(e, vs);
      result := Word(|vs|) + offsets + data;
      assert result == Word(|vs|) + (offsets + data);
    } else {
      var elements := EncodeStaticElements(e, vs);
      NoTails(Repeat(e, |vs|), vs);
      result := Word(|vs|) + elements;
    }
  }

  /** The encoding of dynamic elements stands at element `i`. */
  ghost predicate Underway(e: Type, vs: seq<Value>, i: nat, offset: nat, offsets: Bytes, data: Bytes) {
    && i <= |vs|
    && HaveTypes(vs, Repeat(e, |vs|))
    && HaveTypes(vs[i..], Repeat(e, |vs| - i))
    && AllHeads(offsets, Repeat(e, |vs| - i), vs[i..], offset) == Heads(Repeat(e, |vs|), vs, 32 * |vs|)
    && AllTails(data, Repeat(e, |vs| - i), vs[i..]) == Tails(Repeat(e, |vs|), vs)
  }

  lemma NextElement(e: Type, vs: seq<Value>, i: nat, offset: nat, offsets: Bytes, data: Bytes)
    requires i < |vs| && Underway(e, vs, i, offset, offsets, data) && IsDynamic(e)
    ensures HasType(vs[i], e)
    ensures var code := EncodeValue(e, vs[i]);
      Underway(e, vs, i + 1, offset + |code|, offsets + Word(offset), data + code)
  {
    var ts, rest := Repeat(e, |vs| - i), vs[i..];
    RepeatTail(e, |vs| - i);
    assert ts[0] == e && rest[0] == vs[i] && rest[1..] == vs[i + 1..];
    MoveDynamicHead(offsets, ts, rest, offset, |EncodeValue(e, vs[i])|);
    MoveTail(data, ts, rest);
  }

  method EncodeDynamicElements(e: Type, vs: seq<Value>) returns (dynamicOffsets: Bytes, dynamicData: Bytes)
    requires HaveTypes(vs, Repeat(e, |vs|)) && WellFormed(e) && IsDynamic(e)
    ensures dynamicOffsets == Heads(Repeat(e, |vs|), vs, TotalOffset(Repeat(e, |vs|)))
    ensures dynamicData == Tails(Repeat(e, |vs|), vs)
    decreases vs, 0
  {
    dynamicOffsets, dynamicData := [], [];
    var nextOffset: nat := 32 * |vs|;
    RepeatOffset(e, |vs|);
    assert vs[0..] == vs;
    StartParts(Repeat(e, |vs|), vs, nextOffset);
    for i := 0 to |vs|
      invariant Underway(e, vs, i, nextOffset, dynamicOffsets, dynamicData)
    {
      NextElement(e, vs, i, nextOffset, dynamicOffsets, dynamicData);
      var dynamicBytes := EncodeType(e, vs[i]);
      dynamicOffsets := dynamicOffsets + Word(nextOffset);
      nextOffset := nextOffset + |dynamicBytes|;
      dynamicData := dynamicData + dynamicBytes;
    }
    FinishParts(dynamicOffsets, dynamicData, nextOffset);
  }

  method EncodeStaticElements(e: Type, vs: seq<Value>) returns (elements: Bytes)
    requires HaveTypes(vs, Repeat(e, |vs|)) && WellFormed(e) && !IsDynamic(e)
    ensures elements == Heads(Repeat(e, |vs|), vs, TotalOffset(Repeat(e, |vs|)))
    decreases vs, 0
  {
    ghost var n, ts, offset := |vs|, Repeat(e, |vs|), TotalOffset(Repeat(e, |vs|));
    elements := [];
    assert vs[0..] == vs;
    StartParts(ts, vs, offset);
    for i := 0 to |vs|
      invariant HaveTypes(vs[i..], Repeat(e, n - i))
      invariant AllHeads(elements, Repeat(e, n - i), vs[i..], offset) == Heads(ts, vs, offset)
    {
      RepeatTail(e, n - i);
      assert vs[i..][1..] == vs[i + 1..];
      var code := EncodeType(e, vs[i]);
      MoveStaticHead(elements, Repeat(e, n - i), vs[i..], offset, code);
      elements := elements + code;
    }
    FinishParts(elements, [], offset);
  }

  // ---------- Decoding ----------

  function Prepend(vs: seq<Value>, d: Decoded<seq<Value>>): Decoded<seq<Value>> {
    if d.Short? then Short else Got(vs + d.value, d.index)
  }

  method DecodeType(t: Type, data: Bytes, index: nat) returns (r: Decoded<Value>)
    ensures r == DecodeValue(t, data, index)
    decreases Depth(t), 1
  {
    if t.Tuple? && !IsDynamic(t) {
      if index + 32 * |t.fields| > |data| {
        return Short;
      }
      var vs := DecodeFields(t.fields, Depths(t.fields), data, index);
      return if vs.Short? then Short else Got(Items(vs.value), vs.index);
    }
    if index + 32 > |data| {
      return Short;
    }
    match t
    case UInt(width) =>
      r := Got(Number(BigEndian.Decode(data[index..index + 32]) % BigEndian.Power256(width)), index + 32);
    case Bool => r := Got(Flag(data[index + 31] == 1), index + 32);
    case AddressType => r := Got(Raw(data[index + 12..index + 32]), index + 32);
    case Hash32 => r := Got(Raw(data[index..index + 32]), index + 32);
    case DynamicBytes => r := DecodeBytes(data, Read64(data, index), index + 32);
    case String => r := DecodeBytes(data, Read64(data, index), index + 32);
    case Vector(e) => r := DecodeElements(e, None, data, Read64(data, index), index + 32);
    case FixedArray(e, n) => r := DecodeElements(e, Some(n), data, Read64(data, index), index + 32);
    case Tuple(ts) =>
      var start := Read64(data, index);
      if start > |data| {
        return Short;
      }
      var vs := DecodeFields(ts, Depths(ts), data[start..], 0);
      r := if vs.Short? then Short else Got(Items(vs.value), index + 32);
  }

  method DecodeElements(e: Type, size: Option<nat>, data: Bytes, start: nat, next: nat) returns (r: Decoded<Value>)
    ensures r == DecodeArray(e, size, data, start, next)
    decreases Depth(e) + 1, 0
  {
    if start + 32 > |data| {
      return Short;
    }
    var length := Read64(data, start);
    if size.Some? && length != size.value {
      return Short;
    }
    var vs := DecodeRepeated(e, length, data[start + 32..]);
    RepeatDepth(e, length);
    ghost var whole := DecodeList(Repeat(e, length), Depth(e), data[start + 32..], 0);
    assert whole.Got? ==> [] + whole.value == whole.value;
    return if vs.Short? then Short else Got(Items(vs.value), next);
  }

  /** The outcome of decoding `k` more elements behind those already decoded. */
  function DecodeMore(e: Type, k: nat, view: Bytes, index: nat, values: seq<Value>): Decoded<seq<Value>> {
    RepeatDepth(e, k);
    Prepend(values, DecodeList(Repeat(e, k), Depth(e), view, index))
  }

  lemma DecodeMoreStep(e: Type, k: nat, view: Bytes, index: nat, values: seq<Value>)
    requires k > 0
    ensures var v := DecodeValue(e, view, index);
      DecodeMore(e, k, view, index, values)
      == if v.Short? then Short else DecodeMore(e, k - 1, view, v.index, values + [v.value])
  {
    var v := DecodeValue(e, view, index);
    RepeatTail(e, k);
    RepeatDepth(e, k);
    RepeatDepth(e, k - 1);
    if v.Got? {
      var rest := DecodeList(Repeat(e, k - 1), Depth(e), view, v.index);
      assert rest.Got? ==> values + ([v.value] + rest.value) == (values + [v.value]) + rest.value;
    }
  }

  lemma DecodeMoreNone(e: Type, view: Bytes, index: nat, values: seq<Value>)
    ensures DecodeMore(e, 0, view, index, values) == Got(values, index)
  {
    assert values + [] == values;
  }

  method DecodeRepeated(e: Type, length: nat, view: Bytes) returns (r: Decoded<seq<Value>>)
    ensures r == DecodeMore(e, length, view, 0, [])
    decreases Depth(e), 2
  {
    var values: seq<Value>, newIndex: nat := [], 0;
    for i := 0 to length
      invariant DecodeMore(e, length - i, view, newIndex, values) == DecodeMore(e, length, view, 0, [])
    {
      DecodeMoreStep(e, length - i, view, newIndex, values);
      var v := DecodeType(e, view, newIndex);
      if v.Short? {
        return Short;
      }
      values := values + [v.value];
      newIndex := v.index;
    }
    DecodeMoreNone(e, view, newIndex, values);
    r := Got(values, newIndex);
  }

  /** Decodes field after field, by recursion on the fields as the templates do. */
  method DecodeFields(ts: seq<Type>, ghost depth: nat, data: Bytes, index: nat) returns (r: Decoded<seq<Value>>)
    requires Depths(ts) <= depth
    ensures r == DecodeList(ts, depth, data, index)
    decreases depth, 2 + |ts|
  {
    if ts == [] {
      return Got([], index);
    }
    var v := DecodeType(ts[0], data, index);
    if v.Short? {
      return Short;
    }
    var vs := DecodeFields(ts[1..], depth, data, v.index);
    return if vs.Short? then Short else Got([v.value] + vs.value, vs.index);
  }

  /** What a caller of the codec relies on: arguments encoded by one side reach the other unchanged, if
      static tuples next to dynamic components hold one-word fields. Otherwise some arguments do not. */
  method Transmit(ts: seq<Type>, vs: seq<Value>) returns (received: Decoded<seq<Value>>)
    requires HaveTypes(vs, ts) && AllWellFormed(ts) && |EncodeData(ts, vs)| < TWO_TO_64
    ensures FlatTypes(ts) ==> Reads(received, vs)
    ensures !FlatTypes(ts) && Exposed(ts) && vs == LossList(ts) ==> !Reads(received, vs)
  {
    var data := EncodeItems(ts, vs);
    received := DecodeFields(ts, Depths(ts), data, 0);
    if FlatTypes(ts) {
      RoundTrip(ts, vs);
    } else if Exposed(ts) && vs == LossList(ts) {
      ValuesLost(ts);
    }
  }
}
