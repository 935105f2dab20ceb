/** Types and values of the contract ABI. */
module AbiTypes {
  import opened Base
  import BigEndian

  datatype Type =
    | UInt(width: nat)  // in bytes; enums are one byte wide
    | Bool
    | AddressType
    | Hash32
    | DynamicBytes
    | String
    | Vector(element: Type)
    | FixedArray(element: Type, size: nat)
    | Tuple(fields: seq<Type>)

  datatype Value = Number(n: nat) | Flag(b: bool) | Raw(bytes: Bytes) | Items(items: seq<Value>)

  /** Types that the encoder can be instantiated with: it has no case for the empty tuple. */
  predicate WellFormed(t: Type) {
    match t
    case UInt(width) => 1 <= width <= 32
    case Vector(e) => WellFormed(e)
    case FixedArray(e, _) => WellFormed(e)
    case Tuple(ts) => ts != [] && AllWellFormed(ts)
    case _ => true
  }

  predicate AllWellFormed(ts: seq<Type>) {
    ts == [] || (WellFormed(ts[0]) && AllWellFormed(ts[1..]))
  }

  function Repeat(t: Type, n: nat): (ts: seq<Type>)
    ensures |ts| == n
  {
    if n == 0 then [] else [t] + Repeat(t, n - 1)
  }

  lemma RepeatTail(t: Type, n: nat)
    requires n > 0
    ensures Repeat(t, n)[0] == t && Repeat(t, n)[1..] == Repeat(t, n - 1)
  {
  }

  predicate HasType(v: Value, t: Type)
    decreases v, 0
  {
    match t
    case UInt(width) => v.Number? && v.n < BigEndian.Power256(width)
    case Bool => v.Flag?
    case AddressType => v.Raw? && |v.bytes| == 20
    case Hash32 => v.Raw? && |v.bytes| == 32
    case DynamicBytes => v.Raw?
    case String => v.Raw?
    case Vector(e) => v.Items? && HaveTypes(v.items, Repeat(e, |v.items|))
    case FixedArray(e, n) => v.Items? && |v.items| == n && HaveTypes(v.items, Repeat(e, n))
    case Tuple(ts) => v.Items? && HaveTypes(v.items, ts)
  }

  predicate HaveTypes(vs: seq<Value>, ts: seq<Type>)
    decreases vs, 1
  {
    |vs| == |ts| && (ts == [] || (HasType(vs[0], ts[0]) && HaveTypes(vs[1..], ts[1..])))
  }

  predicate IsDynamic(t: Type) {
    match t
    case DynamicBytes => true
    case String => true
    case Vector(_) => true
    case FixedArray(_, _) => true
    case Tuple(ts) => AnyDynamic(ts)
    case _ => false
  }

  predicate AnyDynamic(ts: seq<Type>) {
    ts != [] && (IsDynamic(ts[0]) || AnyDynamic(ts[1..]))
  }

  /** The head space that the encoder reserves for a type: it counts the fields of a static tuple,
      not the words they take. */
  function OffsetForType(t: Type): nat {
    if IsDynamic(t) then 32 else if t.Tuple? then 32 * |t.fields| else 32
  }

  function TotalOffset(ts: seq<Type>): nat {
    if ts == [] then 0 else OffsetForType(ts[0]) + TotalOffset(ts[1..])
  }

  /** The head space that a type takes. */
  function HeadSize(t: Type): nat {
    if IsDynamic(t) then 32 else if t.Tuple? then HeadSizes(t.fields) else 32
  }

  function HeadSizes(ts: seq<Type>): nat {
    if ts == [] then 0 else HeadSize(ts[0]) + HeadSizes(ts[1..])
  }

  predicate AllOneWord(ts: seq<Type>) {
    ts == [] || (HeadSize(ts[0]) == 32 && AllOneWord(ts[1..]))
  }

  /** If the type is a static tuple, it takes one word for each of its fields. */
  predicate OneWordFields(t: Type) {
    !IsDynamic(t) && t.Tuple? ==> AllOneWord(t.fields)
  }

  predicate Flat(ts: seq<Type>) {
    ts == [] || (OneWordFields(ts[0]) && Flat(ts[1..]))
  }

  /** Wherever dynamic and static components share a head, static tuples hold one-word fields only. */
  predicate FlatType(t: Type) {
    match t
    case Vector(e) => FlatType(e)
    case FixedArray(e, n) => n == 0 || FlatType(e)
    case Tuple(ts) => (AnyDynamic(ts) ==> Flat(ts)) && AllFlatTypes(ts)
    case _ => true
  }

  predicate AllFlatTypes(ts: seq<Type>) {
    ts == [] || (FlatType(ts[0]) && AllFlatTypes(ts[1..]))
  }

  predicate FlatTypes(ts: seq<Type>) {
    (AnyDynamic(ts) ==> Flat(ts)) && AllFlatTypes(ts)
  }

  // ---------- Head sizes ----------

  lemma {:induction false} HeadSizesAtLeast(ts: seq<Type>)
    requires AllWellFormed(ts)
    ensures HeadSizes(ts) >= 32 * |ts|
    ensures HeadSizes(ts) == 32 * |ts| <==> AllOneWord(ts)
    decreases ts, 1
  {
    if ts != [] {
      HeadSizeAtLeast(ts[0]);
      HeadSizesAtLeast(ts[1..]);
    }
  }

  lemma {:induction false} HeadSizeAtLeast(t: Type)
    requires WellFormed(t)
    ensures HeadSize(t) >= 32
    ensures HeadSize(t) >= OffsetForType(t)
    ensures HeadSize(t) == OffsetForType(t) <==> OneWordFields(t)
    decreases t, 0
  {
    if t.Tuple? && !IsDynamic(t) {
      HeadSizesAtLeast(t.fields);
    }
  }

  /** The head the encoder reserves is the head it writes if and only if every static tuple in it
      holds one-word fields; otherwise it is too small. */
  lemma {:induction false} TotalOffsetExact(ts: seq<Type>)
    requires AllWellFormed(ts)
    ensures TotalOffset(ts) <= HeadSizes(ts)
    ensures TotalOffset(ts) == HeadSizes(ts) <==> Flat(ts)
  {
    if ts != [] {
      HeadSizeAtLeast(ts[0]);
      TotalOffsetExact(ts[1..]);
    }
  }

  lemma {:induction false} RepeatWellFormed(e: Type, n: nat)
    requires WellFormed(e)
    ensures AllWellFormed(Repeat(e, n))
  {
    if n > 0 {
      RepeatTail(e, n);
      RepeatWellFormed(e, n - 1);
    }
  }

  lemma {:induction false} RepeatSupported(e: Type, n: nat)
    requires WellFormed(e) && (n == 0 || FlatType(e))
    ensures AllWellFormed(Repeat(e, n)) && AllFlatTypes(Repeat(e, n))
    ensures IsDynamic(e) ==> Flat(Repeat(e, n))
    ensures !IsDynamic(e) ==> !AnyDynamic(Repeat(e, n))
  {
    if n > 0 {
      RepeatTail(e, n);
      RepeatSupported(e, n - 1);
    }
  }
}
