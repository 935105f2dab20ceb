/** The ABI encoding as heads followed by tails, and the decoder that follows the offsets. */
module AbiCodec {
  import opened Base
  import opened AbiTypes
  import BigEndian

  // ---------- Encoding ----------

  function Word(x: nat): (w: Bytes)
    ensures |w| == 32
  {
    BigEndian.Encode(x, 32)
  }

  function Zeros(n: nat): (s: Bytes)
    ensures |s| == n
  {
    seq(n, _ => 0)
  }

  /** Bytes are padded to whole words, and the empty string to one word. */
  function PaddedSize(n: nat): (p: nat)
    ensures n <= p && 32 <= p
  {
    if n == 0 then 32 else (n + 31) / 32 * 32
  }

  function EncodeBytes(s: Bytes): Bytes {
    Word(|s|) + s + Zeros(PaddedSize(|s|) - |s|)
  }

  function EncodeValue(t: Type, v: Value): Bytes
    requires HasType(v, t)
    decreases v, 0
  {
    match t
    case UInt(_) => Word(v.n)
    case Bool => Word(if v.b then 1 else 0)
    case AddressType => Zeros(12) + v.bytes
    case Hash32 => v.bytes
    case DynamicBytes => EncodeBytes(v.bytes)
    case String => EncodeBytes(v.bytes)
    case Vector(e) => Word(|v.items|) + EncodeList(Repeat(e, |v.items|), v.items)
    case FixedArray(e, _) => Word(|v.items|) + EncodeList(Repeat(e, |v.items|), v.items)
    case Tuple(ts) => EncodeList(ts, v.items)
  }

  /** All heads, then all tails. A dynamic component's head is the offset of its tail. */
  function EncodeList(ts: seq<Type>, vs: seq<Value>): Bytes
    requires HaveTypes(vs, ts)
    decreases vs, 1
  {
    Heads(ts, vs, TotalOffset(ts)) + Tails(ts, vs)
  }

  function Heads(ts: seq<Type>, vs: seq<Value>, offset: nat): Bytes
    requires HaveTypes(vs, ts)
    decreases vs, 0
  {
    if ts == [] then []
    else if IsDynamic(ts[0]) then
      Word(offset) + Heads(ts[1..], vs[1..], offset + |EncodeValue(ts[0], vs[0])|)
    else
      EncodeValue(ts[0], vs[0]) + Heads(ts[1..], vs[1..], offset)
  }

  function Tails(ts: seq<Type>, vs: seq<Value>): Bytes
    requires HaveTypes(vs, ts)
    decreases vs, 0
  {
    if ts == [] then []
    else if IsDynamic(ts[0]) then EncodeValue(ts[0], vs[0]) + Tails(ts[1..], vs[1..])
    else Tails(ts[1..], vs[1..])
  }

  // ---------- Decoding ----------

  /** A 32-byte word read into a 64-bit number. */
  function Read64(data: Bytes, index: nat): nat
    requires index + 32 <= |data|
  {
    BigEndian.Decode(data[index..index + 32]) % TWO_TO_64
  }

  datatype Decoded<+T> = Short | Got(value: T, index: nat)

  function Depth(t: Type): nat {
    match t
    case Vector(e) => 1 + Depth(e)
    case FixedArray(e, _) => 1 + Depth(e)
    case Tuple(ts) => 1 + Depths(ts)
    case _ => 0
  }

  function Depths(ts: seq<Type>): nat {
    if ts == [] then 0
    else
      var rest := Depths(ts[1..]);
      if Depth(ts[0]) < rest then rest else Depth(ts[0])
  }

  lemma {:induction false} RepeatDepth(e: Type, n: nat)
    ensures Depths(Repeat(e, n)) <= Depth(e)
  {
    if n > 0 {
      RepeatTail(e, n);
      RepeatDepth(e, n - 1);
    }
  }

  /** Decodes the component whose head is at `index` and moves past the head. `Short` is the
      decoder's exception for data that ends too early. */
  function DecodeValue(t: Type, data: Bytes, index: nat): Decoded<Value>
    decreases Depth(t), 1
  {
    if t.Tuple? && !IsDynamic(t) then
      if index + 32 * |t.fields| > |data| then Short
      else
        match DecodeList(t.fields, Depths(t.fields), data, index)
        case Short => Short
        case Got(vs, next) => Got(Items(vs), next)
    else if index + 32 > |data| then Short
    else
      match t
      case UInt(width) => Got(Number(BigEndian.Decode(data[index..index + 32]) % BigEndian.Power256(width)), index + 32)
      case Bool => Got(Flag(data[index + 31] == 1), index + 32)
      case AddressType => Got(Raw(data[index + 12..index + 32]), index + 32)
      case Hash32 => Got(Raw(data[index..index + 32]), index + 32)
      case DynamicBytes => DecodeBytes(data, Read64(data, index), index + 32)
      case String => DecodeBytes(data, Read64(data, index), index + 32)
      case Vector(e) => DecodeArray(e, None, data, Read64(data, index), index + 32)
      case FixedArray(e, n) => DecodeArray(e, Some(n), data, Read64(data, index), index + 32)
      case Tuple(ts) =>
        var start := Read64(data, index);
        if start > |data| then Short
        else
          match DecodeList(ts, Depths(ts), data[start..], 0)
          case Short => Short
          case Got(vs, _) => Got(Items(vs), index + 32)
  }

  function DecodeBytes(data: Bytes, start: nat, next: nat): Decoded<Value> {
    if start + 32 > |data| then Short
    else
      var length := Read64(data, start);
      if start + 32 + length > |data| then Short
      else Got(Raw(data[start + 32..start + 32 + length]), next)
  }

  /** Elements of an array are decoded from the data behind its length. */
  function DecodeArray(e: Type, size: Option<nat>, data: Bytes, start: nat, next: nat): Decoded<Value>
    decreases Depth(e) + 1, 0
  {
    if start + 32 > |data| then Short
    else
      var length := Read64(data, start);
      if size.Some? && length != size.value then Short
      else
        RepeatDepth(e, length);
        match DecodeList(Repeat(e, length), Depth(e), data[start + 32..], 0)
        case Short => Short
        case Got(vs, _) => Got(Items(vs), next)
  }

  function DecodeList(ts: seq<Type>, depth: nat, data: Bytes, index: nat): Decoded<seq<Value>>
    requires Depths(ts) <= depth
    decreases depth, 2 + |ts|
  {
    if ts == [] then Got([], index)
    else
      match DecodeValue(ts[0], data, index)
      case Short => Short
      case Got(v, next) =>
        match DecodeList(ts[1..], depth, data, next)
        case Short => Short
        case Got(vs, last) => Got([v] + vs, last)
  }

  function EncodeData(ts: seq<Type>, vs: seq<Value>): Bytes
    requires HaveTypes(vs, ts)
  {
    EncodeList(ts, vs)
  }

  function DecodeData(ts: seq<Type>, data: Bytes): Option<seq<Value>> {
    match DecodeList(ts, Depths(ts), data, 0)
    case Short => None
    case Got(vs, _) => Some(vs)
  }
}
