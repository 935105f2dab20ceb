/** Which values the encoding loses, and exactly when it loses some. */
module AbiLoss {
  import opened Base
  import opened AbiTypes
  import opened AbiCodec
  import opened AbiRoundTrip
  import BigEndian

  predicate Reads<T(==)>(r: Decoded<T>, v: T) {
    r.Got? && r.value == v
  }

  // ---------- Values whose words are all the same ----------

  /** A value of every type: static words are all 0, or all 1, and vectors are empty. */
  function Fill(t: Type, x: nat): (v: Value)
    requires x <= 1
    ensures WellFormed(t) ==> HasType(v, t)
    decreases t, 0
  {
    match t
    case UInt(width) => OneFits(width); Number(x)
    case Bool => Flag(x == 1)
    case AddressType => Raw(BigEndian.Encode(x, 20))
    case Hash32 => Raw(Word(x))
    case DynamicBytes => Raw([])
    case String => Raw([])
    case Vector(_) => Items([])
    case FixedArray(e, n) => Items(if WellFormed(e) then Copies(e, Fill(e, x), n) else [])
    case Tuple(ts) => Items(FillList(ts, x))
  }

  function FillList(ts: seq<Type>, x: nat): (vs: seq<Value>)
    requires x <= 1
    ensures AllWellFormed(ts) ==> HaveTypes(vs, ts)
    decreases ts, 1
  {
    if ts == [] then [] else [Fill(ts[0], x)] + FillList(ts[1..], x)
  }

  function Copies(e: Type, v: Value, n: nat): (vs: seq<Value>)
    requires HasType(v, e)
    ensures |vs| == n && HaveTypes(vs, Repeat(e, n))
  {
    if n == 0 then [] else [v] + Copies(e, v, n - 1)
  }

  lemma OneFits(width: nat)
    ensures width >= 1 ==> 1 < BigEndian.Power256(width)
  {
    if width >= 1 {
      PowerMonotone(1, width);
      assert BigEndian.Power256(1) == 256;
    }
  }

  function Words(x: nat, n: nat): (s: Bytes)
    ensures |s| == 32 * n
  {
    if n == 0 then [] else Word(x) + Words(x, n - 1)
  }

  lemma {:induction false} WordsConcat(x: nat, m: nat, n: nat)
    ensures Words(x, m) + Words(x, n) == Words(x, m + n)
  {
    if m == 0 {
      assert Words(x, m) + Words(x, n) == Words(x, n);
    } else {
      WordsConcat(x, m - 1, n);
      Regroup(Word(x), Words(x, m - 1), Words(x, n));
    }
  }

  lemma {:induction false} WordsAt(x: nat, n: nat, k: nat)
    requires k < n
    ensures At(Words(x, n), 32 * k, Word(x))
    decreases n
  {
    if k == 0 {
      AtFront(Word(x), Words(x, n - 1), 0, Word(x));
    } else {
      WordsAt(x, n - 1, k - 1);
      AtBehind(Word(x), Words(x, n - 1), 32 * (k - 1), Word(x));
    }
  }

  lemma {:induction false} ZeroEncoded(width: nat)
    ensures BigEndian.Encode(0, width) == Zeros(width)
  {
    if width > 0 {
      ZeroEncoded(width - 1);
    }
  }

  lemma BitEncoded(x: nat, width: nat)
    requires x <= 1 && width > 0
    ensures BigEndian.Encode(x, width) == Zeros(width - 1) + [x]
  {
    ZeroEncoded(width - 1);
  }

  /** A static value that is filled takes whole words that are all the same. */
  lemma {:induction false} FillEncodes(t: Type, x: nat) returns (n: nat)
    requires WellFormed(t) && !IsDynamic(t) && x <= 1
    ensures EncodeValue(t, Fill(t, x)) == Words(x, n) && HeadSize(t) == 32 * n && FlatType(t)
    decreases t, 0
  {
    assert Words(x, 1) == Word(x) + [] == Word(x);
    n := 1;
    match t
    case AddressType =>
      BitEncoded(x, 20);
      BitEncoded(x, 32);
      assert Zeros(12) + (Zeros(19) + [x]) == Zeros(31) + [x];
    case Tuple(ts) =>
      n := FillsEncode(ts, x, TotalOffset(ts));
      NoTails(ts, FillList(ts, x));
    case _ =>
  }

  lemma {:induction false} FillsEncode(ts: seq<Type>, x: nat, offset: nat) returns (n: nat)
    requires !AnyDynamic(ts) && AllWellFormed(ts) && x <= 1
    ensures Heads(ts, FillList(ts, x), offset) == Words(x, n) && HeadSizes(ts) == 32 * n && AllFlatTypes(ts)
    decreases ts, 1
  {
    n := 0;
    if ts != [] {
      var first := FillEncodes(ts[0], x);
      var rest := FillsEncode(ts[1..], x, offset);
      FilledHeads(ts, x, offset);
      WordsConcat(x, first, rest);
      n := first + rest;
    }
  }

  lemma FilledHeads(ts: seq<Type>, x: nat, offset: nat)
    requires ts != [] && !IsDynamic(ts[0]) && AllWellFormed(ts) && x <= 1
    ensures Heads(ts, FillList(ts, x), offset)
         == EncodeValue(ts[0], Fill(ts[0], x)) + Heads(ts[1..], FillList(ts[1..], x), offset)
  {
    var vs := FillList(ts, x);
    assert vs[0] == Fill(ts[0], x) && vs[1..] == FillList(ts[1..], x);
  }

  lemma StaticFlat(t: Type)
    requires WellFormed(t) && !IsDynamic(t)
    ensures FlatType(t)
  {
    var n := FillEncodes(t, 0);
  }

  // ---------- Head sizes are whole words ----------

  lemma SumOfWords(m: nat, n: nat)
    requires m % 32 == 0 && n % 32 == 0
    ensures (m + n) % 32 == 0 && (m >= n ==> (m - n) % 32 == 0)
  {
  }

  lemma {:induction false} HeadSizeWords(t: Type)
    ensures HeadSize(t) % 32 == 0 && OffsetForType(t) % 32 == 0
    decreases t, 1
  {
    if t.Tuple? && !IsDynamic(t) {
      HeadSizesWords(t.fields);
    }
  }

  lemma {:induction false} HeadSizesWords(ts: seq<Type>)
    ensures HeadSizes(ts) % 32 == 0
    decreases ts, 0
  {
    if ts != [] {
      HeadSizeWords(ts[0]);
      HeadSizesWords(ts[1..]);
      SumOfWords(HeadSize(ts[0]), HeadSizes(ts[1..]));
    }
  }

  lemma {:induction false} TotalOffsetWords(ts: seq<Type>)
    requires AllWellFormed(ts)
    ensures TotalOffset(ts) % 32 == 0 && (ts != [] ==> TotalOffset(ts) >= 32)
  {
    if ts != [] {
      HeadSizeWords(ts[0]);
      TotalOffsetWords(ts[1..]);
      SumOfWords(OffsetForType(ts[0]), TotalOffset(ts[1..]));
    }
  }

  // ---------- What stands in the heads ----------

  /** The static components are filled. */
  predicate Filled(ts: seq<Type>, vs: seq<Value>, x: nat)
    requires x <= 1
  {
    |vs| == |ts| && forall i :: 0 <= i < |ts| && !IsDynamic(ts[i]) ==> vs[i] == Fill(ts[i], x)
  }

  lemma RestFilled(ts: seq<Type>, vs: seq<Value>, x: nat)
    requires x <= 1 && ts != [] && Filled(ts, vs, x)
    ensures Filled(ts[1..], vs[1..], x)
  {
  }

  lemma TailsBehind(ts: seq<Type>, vs: seq<Value>)
    requires ts != [] && HaveTypes(vs, ts)
    ensures |Tails(ts, vs)| == |Tails(ts[1..], vs[1..])| + if IsDynamic(ts[0]) then |EncodeValue(ts[0], vs[0])| else 0
  {
  }

  /** A word in the head of one component is a filled word or the offset. */
  lemma FirstWord(t: Type, v: Value, x: nat, head: Bytes, offset: nat, k: nat) returns (w: nat)
    requires WellFormed(t) && x <= 1 && HasType(v, t) && (!IsDynamic(t) ==> v == Fill(t, x))
    requires head == if IsDynamic(t) then Word(offset) else EncodeValue(t, v)
    requires k % 32 == 0 && k < |head|
    ensures At(head, k, Word(w)) && w == if IsDynamic(t) then offset else x
  {
    if IsDynamic(t) {
      w := offset;
      assert head[0..32] == head;
    } else {
      w := x;
      var n := FillEncodes(t, x);
      WordsAt(x, n, k / 32);
    }
  }

  /** The heads hold filled words and offsets, and nothing else. */
  lemma {:induction false} HeadWord(ts: seq<Type>, vs: seq<Value>, x: nat, offset: nat, k: nat) returns (w: nat)
    requires x <= 1 && HaveTypes(vs, ts) && AllWellFormed(ts) && Filled(ts, vs, x) && k % 32 == 0 && k < HeadSizes(ts)
    ensures At(Heads(ts, vs, offset), k, Word(w))
    ensures w == x || offset <= w <= offset + |Tails(ts, vs)|
    decreases |ts|
  {
    TailsBehind(ts, vs);
    if k < HeadSize(ts[0]) {
      w := WordInFirst(ts, vs, x, offset, k);
    } else {
      w := HeadWordBehind(ts, vs, x, offset, k);
    }
  }

  lemma {:induction false} HeadWordBehind(ts: seq<Type>, vs: seq<Value>, x: nat, offset: nat, k: nat) returns (w: nat)
    requires x <= 1 && HaveTypes(vs, ts) && AllWellFormed(ts) && Filled(ts, vs, x) && k % 32 == 0
    requires ts != [] && HeadSize(ts[0]) <= k < HeadSizes(ts)
    ensures At(Heads(ts, vs, offset), k, Word(w))
    ensures var next := offset + if IsDynamic(ts[0]) then |EncodeValue(ts[0], vs[0])| else 0;
      w == x || next <= w <= next + |Tails(ts[1..], vs[1..])|
    decreases |ts|, 0
  {
    var next := offset + if IsDynamic(ts[0]) then |EncodeValue(ts[0], vs[0])| else 0;
    var j := BehindHead(ts, vs, x, k);
    w := HeadWord(ts[1..], vs[1..], x, next, j);
    InHeadsBehind(ts, vs, offset, j, Word(w));
  }

  /** A position behind the first head is one in the heads of the rest. */
  lemma BehindHead(ts: seq<Type>, vs: seq<Value>, x: nat, k: nat) returns (j: nat)
    requires x <= 1 && ts != [] && Filled(ts, vs, x) && k % 32 == 0 && HeadSize(ts[0]) <= k < HeadSizes(ts)
    ensures Filled(ts[1..], vs[1..], x) && HeadSize(ts[0]) + j == k && j % 32 == 0 && j < HeadSizes(ts[1..])
  {
    HeadSizeWords(ts[0]);
    SumOfWords(k, HeadSize(ts[0]));
    RestFilled(ts, vs, x);
    j := k - HeadSize(ts[0]);
  }

  function FirstDynamic(ts: seq<Type>): (i: nat)
    requires AnyDynamic(ts)
    ensures i < |ts| && IsDynamic(ts[i])
  {
    if IsDynamic(ts[0]) then 0 else 1 + FirstDynamic(ts[1..])
  }

  /** An offset in the heads is the first one or lies behind the first tail. */
  lemma {:induction false} LeadWord(ts: seq<Type>, vs: seq<Value>, x: nat, offset: nat, k: nat) returns (w: nat)
    requires x <= 1 && HaveTypes(vs, ts) && AllWellFormed(ts) && Filled(ts, vs, x) && k % 32 == 0 && k < HeadSizes(ts)
    requires AnyDynamic(ts) && HasType(vs[FirstDynamic(ts)], ts[FirstDynamic(ts)])
    ensures At(Heads(ts, vs, offset), k, Word(w)) && (w == x || w <= offset + |Tails(ts, vs)|)
    ensures var i := FirstDynamic(ts); w == x || w == offset || w >= offset + |EncodeValue(ts[i], vs[i])|
    decreases |ts|
  {
    if k < HeadSize(ts[0]) {
      w := WordInFirst(ts, vs, x, offset, k);
    } else if IsDynamic(ts[0]) {
      TailsBehind(ts, vs);
      w := HeadWordBehind(ts, vs, x, offset, k);
    } else {
      var j := BehindHead(ts, vs, x, k);
      w := LeadWord(ts[1..], vs[1..], x, offset, j);
      StaticBehind(ts, vs, offset, j, Word(w));
    }
  }

  lemma WordInFirst(ts: seq<Type>, vs: seq<Value>, x: nat, offset: nat, k: nat) returns (w: nat)
    requires x <= 1 && ts != [] && HaveTypes(vs, ts) && AllWellFormed(ts) && Filled(ts, vs, x)
    requires k % 32 == 0 && k < HeadSize(ts[0])
    ensures At(Heads(ts, vs, offset), k, Word(w)) && w == if IsDynamic(ts[0]) then offset else x
  {
    var head, next := HeadsBehind(ts, vs, offset);
    w := FirstWord(ts[0], vs[0], x, head, offset, k);
    AtFront(head, Heads(ts[1..], vs[1..], next), k, Word(w));
  }

  lemma StaticBehind(ts: seq<Type>, vs: seq<Value>, offset: nat, j: nat, s: Bytes)
    requires ts != [] && HaveTypes(vs, ts) && !IsDynamic(ts[0]) && At(Heads(ts[1..], vs[1..], offset), j, s)
    ensures At(Heads(ts, vs, offset), HeadSize(ts[0]) + j, s) && |Tails(ts, vs)| == |Tails(ts[1..], vs[1..])|
  {
    TailsBehind(ts, vs);
    InHeadsBehind(ts, vs, offset, j, s);
  }

  // ---------- A sample that is lost ----------

  /** The first dynamic component is encoded behind its length, and its length is never taken for the
      first offset. */
  predicate Telling(ts: seq<Type>) {
    AnyDynamic(ts) &&
    var t := ts[FirstDynamic(ts)];
    t.DynamicBytes? || t.String? || t.Vector? || (t.FixedArray? && t.size != TotalOffset(ts))
  }

  function Tell(t: Type): (v: Value)
    requires WellFormed(t)
    ensures HasType(v, t)
  {
    match t
    case DynamicBytes => Raw([1])
    case String => Raw([1])
    case Vector(e) => Items(Copies(e, Fill(e, 0), 1))
    case _ => Fill(t, 0)
  }

  function Length(t: Type): nat {
    if t.FixedArray? then t.size else 1
  }

  /** What static components are filled with: something else than the length of the first dynamic one. */
  function Filling(ts: seq<Type>): (x: nat)
    ensures x <= 1
  {
    if AnyDynamic(ts) && Length(ts[FirstDynamic(ts)]) == 0 then 1 else 0
  }

  function Around(ts: seq<Type>, x: nat, lead: Value): (vs: seq<Value>)
    requires x <= 1 && AllWellFormed(ts) && AnyDynamic(ts) && HasType(lead, ts[FirstDynamic(ts)])
    ensures HaveTypes(vs, ts) && vs[FirstDynamic(ts)] == lead
  {
    if IsDynamic(ts[0]) then [lead] + FillList(ts[1..], x) else [Fill(ts[0], x)] + Around(ts[1..], x, lead)
  }

  /** Static components filled, and a first dynamic component that is not empty if it need not be. */
  function Sample(ts: seq<Type>): (vs: seq<Value>)
    requires AllWellFormed(ts) && AnyDynamic(ts)
    ensures HaveTypes(vs, ts)
  {
    WellFormedAt(ts, FirstDynamic(ts));
    Around(ts, Filling(ts), Tell(ts[FirstDynamic(ts)]))
  }

  lemma {:induction false} WellFormedAt(ts: seq<Type>, i: nat)
    requires AllWellFormed(ts) && i < |ts|
    ensures WellFormed(ts[i])
    decreases i
  {
    if i > 0 {
      WellFormedAt(ts[1..], i - 1);
    }
  }

  lemma {:induction false} FillListFilled(ts: seq<Type>, x: nat)
    requires x <= 1
    ensures Filled(ts, FillList(ts, x), x)
  {
    if ts != [] {
      FillListFilled(ts[1..], x);
    }
  }

  lemma {:induction false} AroundFilled(ts: seq<Type>, x: nat, lead: Value)
    requires x <= 1 && AllWellFormed(ts) && AnyDynamic(ts) && HasType(lead, ts[FirstDynamic(ts)])
    ensures Filled(ts, Around(ts, x, lead), x)
  {
    if IsDynamic(ts[0]) {
      FillListFilled(ts[1..], x);
    } else {
      AroundFilled(ts[1..], x, lead);
    }
  }

  lemma ReadsParts(ts: seq<Type>, vs: seq<Value>, depth: nat, data: Bytes, p: nat)
    requires ts != [] && |vs| == |ts| && Depths(ts) <= depth && Reads(DecodeList(ts, depth, data, p), vs)
    ensures var first := DecodeValue(ts[0], data, p);
      Reads(first, vs[0]) && Reads(DecodeList(ts[1..], depth, data, first.index), vs[1..])
  {
  }

  /** The list is read back only if the first dynamic component is, from the first offset. */
  lemma {:induction false} LeadRead(ts: seq<Type>, vs: seq<Value>, depth: nat, data: Bytes, p: nat, offset: nat)
    returns (q: nat)
    requires HaveTypes(vs, ts) && AllWellFormed(ts) && Depths(ts) <= depth && AnyDynamic(ts)
    requires At(data, p, Heads(ts, vs, offset)) && |data| < TWO_TO_64
    ensures At(data, q, Word(offset))
    ensures var i := FirstDynamic(ts);
      Reads(DecodeList(ts, depth, data, p), vs) ==> Reads(DecodeValue(ts[i], data, q), vs[i])
    decreases |ts|
  {
    if IsDynamic(ts[0]) {
      q := p;
      AtSplit(data, p, Word(offset), Heads(ts[1..], vs[1..], offset + |EncodeValue(ts[0], vs[0])|));
    } else {
      PastStatic(ts, vs, data, p, offset);
      q := LeadRead(ts[1..], vs[1..], depth, data, p + HeadSize(ts[0]), offset);
    }
    if Reads(DecodeList(ts, depth, data, p), vs) {
      ReadsParts(ts, vs, depth, data, p);
    }
  }

  lemma PastStatic(ts: seq<Type>, vs: seq<Value>, data: Bytes, p: nat, offset: nat)
    requires ts != [] && HaveTypes(vs, ts) && AllWellFormed(ts) && !IsDynamic(ts[0])
    requires At(data, p, Heads(ts, vs, offset)) && |data| < TWO_TO_64
    ensures DecodeValue(ts[0], data, p) == Got(vs[0], p + HeadSize(ts[0]))
    ensures At(data, p + HeadSize(ts[0]), Heads(ts[1..], vs[1..], offset))
  {
    AtSplit(data, p, EncodeValue(ts[0], vs[0]), Heads(ts[1..], vs[1..], offset));
    StaticSize(ts[0], vs[0]);
    StaticFlat(ts[0]);
    DecodeStatic(ts[0], vs[0], data, p);
  }

  lemma {:induction false} DecodeCount(ts: seq<Type>, depth: nat, data: Bytes, p: nat)
    requires Depths(ts) <= depth
    ensures var r := DecodeList(ts, depth, data, p); r.Got? ==> |r.value| == |ts|
    decreases |ts|
  {
    if ts != [] {
      var first := DecodeValue(ts[0], data, p);
      if first.Got? {
        DecodeCount(ts[1..], depth, data, first.index);
      }
    }
  }

  /** A value that is read with another length is another value. */
  lemma LeadLost(t: Type, data: Bytes, q: nat, start: nat, w: nat)
    requires WellFormed(t) && IsDynamic(t) && !t.Tuple?
    requires start < TWO_TO_64 && At(data, q, Word(start)) && At(data, start, Word(w))
    requires w != Length(t) && w < TWO_TO_64
    ensures !Reads(DecodeValue(t, data, q), Tell(t))
  {
    ReadWord(data, q, start);
    ReadWord(data, start, w);
    if t.Vector? {
      RepeatDepth(t.element, w);
      DecodeCount(Repeat(t.element, w), Depth(t.element), data[start + 32..], 0);
    }
  }

  /** The encoding of a first dynamic component is longer than it has elements. */
  lemma TellSize(t: Type)
    requires WellFormed(t) && IsDynamic(t) && !t.Tuple?
    ensures Length(t) < |EncodeValue(t, Tell(t))|
  {
    if t.FixedArray? {
      ArraySize(t.element, Tell(t).items);
    }
  }

  lemma AtPart(data: Bytes, p: nat, s: Bytes, k: nat, part: Bytes)
    requires At(data, p, s) && At(s, k, part)
    ensures At(data, p + k, part)
  {
    var whole := data[p..p + |s|];
    forall i | 0 <= i < |part|
      ensures data[p + k + i] == part[i]
    {
      assert whole[k + i] == data[p + k + i] && s[k..k + |part|][i] == s[k + i];
    }
    assert data[p + k..p + k + |part|] == part;
  }

  /** The word that the first offset points at is not the length of the first dynamic component. */
  lemma WrongLength(ts: seq<Type>) returns (w: nat)
    requires AllWellFormed(ts) && !Flat(ts) && Telling(ts)
    ensures var vs, offset := Sample(ts), TotalOffset(ts);
      && At(Heads(ts, vs, offset), offset, Word(w)) && w != Length(ts[FirstDynamic(ts)])
      && w <= |EncodeList(ts, vs)| && offset < |EncodeList(ts, vs)|
  {
    var vs, offset, x, i := Sample(ts), TotalOffset(ts), Filling(ts), FirstDynamic(ts);
    WellFormedAt(ts, i);
    AroundFilled(ts, x, Tell(ts[i]));
    HeadsSize(ts, vs, offset);
    TotalOffsetExact(ts);
    TotalOffsetWords(ts);
    w := LeadWord(ts, vs, x, offset, offset);
    TellSize(ts[i]);
  }

  /** If a static tuple in a list does not hold one-word fields, the sample is lost wherever it stands. */
  lemma SampleLost(ts: seq<Type>, depth: nat, data: Bytes)
    requires AllWellFormed(ts) && !Flat(ts) && Telling(ts) && Depths(ts) <= depth
    requires At(data, 0, EncodeList(ts, Sample(ts))) && |data| < TWO_TO_64
    ensures !Reads(DecodeList(ts, depth, data, 0), Sample(ts))
  {
    var vs, offset, i := Sample(ts), TotalOffset(ts), FirstDynamic(ts);
    var w := WrongLength(ts);
    AtSplit(data, 0, Heads(ts, vs, offset), Tails(ts, vs));
    AtPart(data, 0, Heads(ts, vs, offset), offset, Word(w));
    WellFormedAt(ts, i);
    var q := LeadRead(ts, vs, depth, data, 0, offset);
    LeadLost(ts[i], data, q, offset, w);
  }

  // ---------- Components that are encoded wrong inside ----------

  /** Wherever the offsets of a list are wrong, its first dynamic component tells. */
  predicate ExposedType(t: Type)
    decreases t, 0
  {
    match t
    case Vector(e) => ExposedType(e)
    case FixedArray(e, n) => n == 0 || ExposedType(e)
    case Tuple(ts) => Exposed(ts)
    case _ => true
  }

  predicate Exposed(ts: seq<Type>)
    decreases ts, 2
  {
    if AnyDynamic(ts) && !Flat(ts) then Telling(ts) else AllExposed(ts)
  }

  predicate AllExposed(ts: seq<Type>)
    decreases ts, 1
  {
    ts == [] || (ExposedType(ts[0]) && AllExposed(ts[1..]))
  }

  /** A value that the encoding of a type loses. */
  function Loss(t: Type): (v: Value)
    requires WellFormed(t) && !FlatType(t) && ExposedType(t)
    ensures HasType(v, t)
    decreases t, 0
  {
    match t
    case Vector(e) => Items([Loss(e)] + Copies(e, Fill(e, 0), 0))
    case FixedArray(e, n) => Items([Loss(e)] + Copies(e, Fill(e, 0), n - 1))
    case Tuple(ts) => Items(LossList(ts))
  }

  function LossList(ts: seq<Type>): (vs: seq<Value>)
    requires AllWellFormed(ts) && !FlatTypes(ts) && Exposed(ts)
    ensures HaveTypes(vs, ts)
    decreases ts, 2
  {
    if AnyDynamic(ts) && !Flat(ts) then Sample(ts) else LossWithin(ts)
  }

  /** The first component that is encoded wrong gets a value that is lost. */
  function LossWithin(ts: seq<Type>): (vs: seq<Value>)
    requires AllWellFormed(ts) && !AllFlatTypes(ts) && AllExposed(ts)
    ensures HaveTypes(vs, ts)
    ensures var i := FirstWrong(ts); vs[i] == Loss(ts[i])
    decreases ts, 1
  {
    if !FlatType(ts[0]) then [Loss(ts[0])] + FillList(ts[1..], 0) else [Fill(ts[0], 0)] + LossWithin(ts[1..])
  }

  function FirstWrong(ts: seq<Type>): (i: nat)
    requires AllWellFormed(ts) && !AllFlatTypes(ts) && AllExposed(ts)
    ensures i < |ts| && WellFormed(ts[i]) && !FlatType(ts[i]) && ExposedType(ts[i])
  {
    if !FlatType(ts[0]) then 0 else 1 + FirstWrong(ts[1..])
  }

  lemma {:induction false} DepthAt(ts: seq<Type>, i: nat)
    requires i < |ts|
    ensures Depth(ts[i]) <= Depths(ts)
    decreases i
  {
    if i > 0 {
      DepthAt(ts[1..], i - 1);
    }
  }

  /** Wherever it stands, such a value is not read back. */
  lemma {:induction false} LossLost(t: Type, data: Bytes, p: nat, q: nat)
    requires WellFormed(t) && !FlatType(t) && ExposedType(t)
    requires At(data, p, Word(q)) && At(data, q, EncodeValue(t, Loss(t))) && |data| < TWO_TO_64
    ensures !Reads(DecodeValue(t, data, p), Loss(t))
    decreases Depth(t), 0
  {
    ReadWord(data, p, q);
    match t
    case Vector(e) => ElementsLost(e, None, Loss(t).items, data, q, p + 32);
    case FixedArray(e, n) => ElementsLost(e, Some(n), Loss(t).items, data, q, p + 32);
    case Tuple(ts) =>
      DynamicTuple(ts);
      AtView(data, q, 0, EncodeValue(t, Loss(t)));
      ListLost(ts, Depths(ts), data[q..]);
  }

  lemma DynamicTuple(ts: seq<Type>)
    requires AllWellFormed(ts) && ts != [] && !FlatTypes(ts)
    ensures AnyDynamic(ts)
  {
    if !AnyDynamic(ts) {
      StaticFlat(Tuple(ts));
    }
  }

  lemma {:induction false} ElementsLost(e: Type, size: Option<nat>, vs: seq<Value>, data: Bytes, q: nat, next: nat)
    requires WellFormed(e) && !FlatType(e) && ExposedType(e) && vs != [] && vs[0] == Loss(e)
    requires HaveTypes(vs, Repeat(e, |vs|)) && (size.Some? ==> size.value == |vs|)
    requires At(data, q, Word(|vs|) + EncodeList(Repeat(e, |vs|), vs)) && |data| < TWO_TO_64
    ensures !Reads(DecodeArray(e, size, data, q, next), Items(vs))
    decreases Depth(e), 2 + |vs|
  {
    var ts := Repeat(e, |vs|);
    AtSplit(data, q, Word(|vs|), EncodeList(ts, vs));
    AtView(data, q + 32, 0, EncodeList(ts, vs));
    ArraySize(e, vs);
    ReadWord(data, q, |vs|);
    RepeatWellFormed(e, |vs|);
    RepeatDepth(e, |vs|);
    if !IsDynamic(e) {
      StaticFlat(e);
    }
    RepeatFlat(e, |vs|);
    RepeatTail(e, |vs|);
    FlatStanding(ts, vs, data[q + 32..]);
    WithinLost(ts, vs, Depth(e), data[q + 32..], 0, TotalOffset(ts), 0);
  }

  /** Where the offsets are right, the tails stand where they point. */
  lemma FlatStanding(ts: seq<Type>, vs: seq<Value>, data: Bytes)
    requires HaveTypes(vs, ts) && AllWellFormed(ts) && Flat(ts)
    requires At(data, 0, EncodeList(ts, vs)) && |data| < TWO_TO_64
    ensures Standing(ts, vs, data, 0, TotalOffset(ts))
  {
    TotalOffsetExact(ts);
    HeadsSize(ts, vs, TotalOffset(ts));
    AtSplit(data, 0, Heads(ts, vs, TotalOffset(ts)), Tails(ts, vs));
  }

  lemma {:induction false} RepeatFlat(e: Type, n: nat)
    requires IsDynamic(e)
    ensures Flat(Repeat(e, n))
  {
    if n > 0 {
      RepeatTail(e, n);
      RepeatFlat(e, n - 1);
    }
  }

  /** A list whose offsets are right is lost with any of its components. */
  lemma {:induction false} WithinLost(
    ts: seq<Type>, vs: seq<Value>, depth: nat, data: Bytes, p: nat, q: nat, i: nat)
    requires HaveTypes(vs, ts) && AllWellFormed(ts) && Depths(ts) <= depth && Standing(ts, vs, data, p, q)
    requires i < |ts| && WellFormed(ts[i]) && !FlatType(ts[i]) && ExposedType(ts[i]) && vs[i] == Loss(ts[i])
    ensures !Reads(DecodeList(ts, depth, data, p), vs)
    decreases Depth(ts[i]), 1 + |ts|
  {
    if Reads(DecodeList(ts, depth, data, p), vs) {
      ReadsParts(ts, vs, depth, data, p);
      if i == 0 {
        if !IsDynamic(ts[0]) {
          StaticFlat(ts[0]);
        }
        SplitDynamic(ts, vs, data, p, q);
        LossLost(ts[0], data, p, q);
      } else {
        var r := BehindFirst(ts, vs, data, p, q);
        WithinLost(ts[1..], vs[1..], depth, data, p + HeadSize(ts[0]), r, i - 1);
      }
    }
  }

  /** Behind the first component stand the others, and the decoder has moved there. */
  lemma BehindFirst(ts: seq<Type>, vs: seq<Value>, data: Bytes, p: nat, q: nat) returns (r: nat)
    requires ts != [] && HaveTypes(vs, ts) && AllWellFormed(ts) && Standing(ts, vs, data, p, q)
    ensures Standing(ts[1..], vs[1..], data, p + HeadSize(ts[0]), r)
    ensures var first := DecodeValue(ts[0], data, p); first.Got? ==> first.index == p + HeadSize(ts[0])
  {
    if IsDynamic(ts[0]) {
      r := q + |EncodeValue(ts[0], vs[0])|;
      RestStanding(ts, vs, data, p, q);
    } else {
      r := q;
      SplitStatic(ts, vs, data, p, q);
      StaticFlat(ts[0]);
      DecodeStatic(ts[0], vs[0], data, p);
    }
  }

  /** Wherever it stands, a list that is encoded wrong, at the top or inside, has values that are not read back. */
  lemma {:induction false} ListLost(ts: seq<Type>, depth: nat, data: Bytes)
    requires AllWellFormed(ts) && !FlatTypes(ts) && Exposed(ts) && Depths(ts) <= depth
    requires At(data, 0, EncodeList(ts, LossList(ts))) && |data| < TWO_TO_64
    ensures !Reads(DecodeList(ts, depth, data, 0), LossList(ts))
    decreases Depths(ts), 2 + |ts|
  {
    if AnyDynamic(ts) && !Flat(ts) {
      SampleLost(ts, depth, data);
    } else {
      var vs, i := LossList(ts), FirstWrong(ts);
      DynamicTuple(ts);
      FlatStanding(ts, vs, data);
      DepthAt(ts, i);
      WithinLost(ts, vs, depth, data, 0, TotalOffset(ts), i);
    }
  }

  // ---------- Exactly when all values survive ----------

  /** All values of a list of types survive, if they fit in memory. */
  ghost predicate Survives(ts: seq<Type>) {
    forall vs :: HaveTypes(vs, ts) && |EncodeData(ts, vs)| < TWO_TO_64 ==>
      DecodeData(ts, EncodeData(ts, vs)) == Some(vs)
  }

  /** If a static tuple next to a dynamic component does not hold one-word fields, at the top or anywhere
      inside, these values are lost. */
  lemma ValuesLost(ts: seq<Type>)
    requires AllWellFormed(ts) && !FlatTypes(ts) && Exposed(ts) && |EncodeData(ts, LossList(ts))| < TWO_TO_64
    ensures DecodeData(ts, EncodeData(ts, LossList(ts))) != Some(LossList(ts))
  {
    var data := EncodeData(ts, LossList(ts));
    assert data[0..|data|] == data;
    ListLost(ts, Depths(ts), data);
  }

  /** A list survives if and only if, at the top and everywhere inside, the static tuples next to a dynamic
      component hold one-word fields only. */
  lemma SurvivesIff(ts: seq<Type>)
    requires AllWellFormed(ts) && Exposed(ts)
    requires FlatTypes(ts) || |EncodeData(ts, LossList(ts))| < TWO_TO_64
    ensures Survives(ts) <==> FlatTypes(ts)
  {
    if FlatTypes(ts) {
      forall vs | HaveTypes(vs, ts) && |EncodeData(ts, vs)| < TWO_TO_64
        ensures DecodeData(ts, EncodeData(ts, vs)) == Some(vs)
      {
        RoundTrip(ts, vs);
      }
    } else {
      ValuesLost(ts);
    }
  }

  // ---------- Why the first dynamic component must tell ----------

  /** Next to a tuple the wrong offset can lead to the right place: it points at itself, and followed once
      more it points at the data. Here all values survive although the offset is wrong. */
  lemma LuckyTuple(t: Type)
    requires WellFormed(t) && !IsDynamic(t) && OffsetForType(t) == 32 && HeadSize(t) == 64
    ensures var ts := [t, Tuple([DynamicBytes])]; Survives(ts) && !Flat(ts) && !Exposed(ts)
  {
    var ts := [t, Tuple([DynamicBytes])];
    LuckyHidden(t);
    forall vs: seq<Value> | HaveTypes(vs, ts) && |EncodeData(ts, vs)| < TWO_TO_64
      ensures DecodeData(ts, EncodeData(ts, vs)) == Some(vs)
    {
      var s := LuckyValues(t, vs);
      LuckyEncoding(t, vs[0], s);
      LuckyDecoding(t, vs[0], s, EncodeData(ts, vs));
    }
  }

  lemma LuckyHidden(t: Type)
    requires WellFormed(t) && !IsDynamic(t) && OffsetForType(t) == 32 && HeadSize(t) == 64
    ensures var ts := [t, Tuple([DynamicBytes])]; !Flat(ts) && !Exposed(ts)
  {
    var u := Tuple([DynamicBytes]);
    var ts := [t, u];
    HeadSizeAtLeast(t);
    assert ts[1..] == [u] && AnyDynamic([DynamicBytes]) && IsDynamic(u);
    SecondDynamic(ts);
    assert ts[1] == u && !Telling(ts);
  }

  lemma SecondDynamic(ts: seq<Type>)
    requires |ts| == 2 && !IsDynamic(ts[0]) && IsDynamic(ts[1])
    ensures AnyDynamic(ts) && FirstDynamic(ts) == 1
  {
    assert ts[1..][0] == ts[1] && AnyDynamic(ts[1..]) && FirstDynamic(ts[1..]) == 0;
  }

  lemma LuckyValues(t: Type, vs: seq<Value>) returns (s: Bytes)
    requires HaveTypes(vs, [t, Tuple([DynamicBytes])])
    ensures vs == [vs[0], Items([Raw(s)])] && HasType(vs[0], t)
  {
    var u := Tuple([DynamicBytes]);
    assert [t, u][1..] == [u] && HaveTypes(vs[1..], [u]) && HasType(vs[1..][0], u);
    var items := vs[1].items;
    assert HaveTypes(items, [DynamicBytes]) && HasType(items[0], DynamicBytes);
    s := items[0].bytes;
    assert items == [Raw(s)];
  }

  lemma LuckyEncoding(t: Type, v: Value, s: Bytes)
    requires WellFormed(t) && !IsDynamic(t) && OffsetForType(t) == 32 && HasType(v, t)
    ensures var ts, vs := [t, Tuple([DynamicBytes])], [v, Items([Raw(s)])];
      HaveTypes(vs, ts) && EncodeData(ts, vs) == EncodeValue(t, v) + (Word(64) + (Word(32) + EncodeBytes(s)))
  {
    var u, b := Tuple([DynamicBytes]), Items([Raw(s)]);
    var ts, vs := [t, u], [v, b];
    assert ts[1..] == [u] && vs[1..] == [b] && [u][1..] == [] && [b][1..] == [];
    OneBytes(s);
    assert HaveTypes([], []) && HaveTypes([b], [u]) && HaveTypes(vs, ts);
    assert TotalOffset([u]) == 32 && TotalOffset(ts) == 64;
    assert Heads([u], [b], 64) == Word(64) + [] == Word(64);
    assert Heads(ts, vs, 64) == EncodeValue(t, v) + Word(64);
    assert Tails([u], [b]) == EncodeValue(u, b) + [] == EncodeValue(u, b);
    assert Tails(ts, vs) == EncodeValue(u, b);
    Regroup(EncodeValue(t, v), Word(64), Word(32) + EncodeBytes(s));
  }

  lemma OneBytes(s: Bytes)
    ensures var u, b := Tuple([DynamicBytes]), Items([Raw(s)]);
      HasType(b, u) && IsDynamic(u) && EncodeValue(u, b) == Word(32) + EncodeBytes(s)
  {
    var ts, vs := [DynamicBytes], [Raw(s)];
    assert ts[1..] == [] && vs[1..] == [] && HaveTypes([], []) && HasType(Raw(s), DynamicBytes) && HaveTypes(vs, ts);
    assert TotalOffset(ts) == 32 && AnyDynamic(ts);
    assert Heads(ts, vs, 32) == Word(32) + [] == Word(32);
    assert Tails(ts, vs) == EncodeBytes(s) + [] == EncodeBytes(s);
  }

  lemma LuckyDecoding(t: Type, v: Value, s: Bytes, data: Bytes)
    requires WellFormed(t) && !IsDynamic(t) && HeadSize(t) == 64 && HasType(v, t) && |data| < TWO_TO_64
    requires data == EncodeValue(t, v) + (Word(64) + (Word(32) + EncodeBytes(s)))
    ensures DecodeData([t, Tuple([DynamicBytes])], data) == Some([v, Items([Raw(s)])])
  {
    var u, code := Tuple([DynamicBytes]), EncodeValue(t, v);
    StaticSize(t, v);
    StaticFlat(t);
    assert data[0..|data|] == data;
    AtSplit(data, 0, code, Word(64) + (Word(32) + EncodeBytes(s)));
    DecodeStatic(t, v, data, 0);
    AtSplit(data, 64, Word(64), Word(32) + EncodeBytes(s));
    AtSplit(data, 96, Word(32), EncodeBytes(s));
    AtView(data, 64, 0, Word(64));
    AtView(data, 64, 64, EncodeBytes(s));
    TwoOffsets(data, 64, 64, 64, s);
    var ts, depth := [t, u], Depths([t, u]);
    assert ts[1..] == [u] && [u][1..] == [];
    DecodeCons([u], depth, data, 64, Items([Raw(s)]), 96, [], 96);
    assert [Items([Raw(s)])] + [] == [Items([Raw(s)])];
    DecodeCons(ts, depth, data, 0, v, 64, [Items([Raw(s)])], 96);
    assert [v] + [Items([Raw(s)])] == [v, Items([Raw(s)])];
  }

  /** A tuple of one byte string is read by following two offsets, wherever they lead. */
  lemma TwoOffsets(data: Bytes, p: nat, q: nat, r: nat, s: Bytes)
    requires At(data, p, Word(q)) && q <= |data| < TWO_TO_64
    requires At(data[q..], 0, Word(r)) && At(data[q..], r, EncodeBytes(s))
    ensures DecodeValue(Tuple([DynamicBytes]), data, p) == Got(Items([Raw(s)]), p + 32)
  {
    var view, ds := data[q..], [DynamicBytes];
    ReadWord(data, p, q);
    ReadWord(view, 0, r);
    DecodeEncodedBytes(s, view, r, 32);
    assert ds[1..] == [] && AnyDynamic(ds);
    DecodeCons(ds, Depths(ds), view, 0, Raw(s), 32, [], 32);
    assert [Raw(s)] + [] == [Raw(s)];
  }
}
