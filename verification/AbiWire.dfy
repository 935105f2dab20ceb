/** The ABI format told by the positions of bytes, apart from how the encoder arrives at it, and what the decoder
    returns for any bytes. */
module AbiWire {
  import opened Base
  import opened AbiTypes
  import opened AbiCodec
  import opened AbiRoundTrip
  import BigEndian

  // ---------- The format ----------

  /** A 32-byte word that reads as a number, modulo 2^256. */
  predicate IsWord(code: Bytes, x: nat) {
    |code| == 32 && BigEndian.Decode(code) == x % BigEndian.Power256(32)
  }

  predicate AllZero(s: Bytes) {
    forall i :: 0 <= i < |s| ==> s[i] == 0
  }

  /** The least multiple of 32 that is at least `n`, and at least 32. */
  predicate IsPadded(n: nat, p: int) {
    p % 32 == 0 && p >= 32 && p >= n && (p == 32 || p - 32 < n)
  }

  /** A byte string: its length, its bytes, and zeros up to the first whole word, at least one. */
  predicate IsByteString(s: Bytes, code: Bytes) {
    && IsPadded(|s|, |code| - 32)
    && IsWord(code[..32], |s|)
    && code[32..32 + |s|] == s
    && AllZero(code[32 + |s|..])
  }

  /** A dynamic component stands in its tail, and the position of the tail in its head; `shift` is how far the
      written position is off. */
  predicate DynamicAt(part: Bytes, code: Bytes, shift: int, head: nat, nextHead: nat, tail: nat, nextTail: nat) {
    && nextHead == head + 32 <= |code| && nextTail == tail + |part| <= |code|
    && tail + shift >= 0 && IsWord(code[head..nextHead], tail + shift) && code[tail..nextTail] == part
  }

  /** A static component stands in its head and has no tail. */
  predicate StaticAt(part: Bytes, code: Bytes, head: nat, nextHead: nat, tail: nat, nextTail: nat) {
    nextHead == head + |part| <= |code| && nextTail == tail <= |code| && code[head..nextHead] == part
  }

  predicate PartAt(t: Type, part: Bytes, code: Bytes, shift: int, head: nat, nextHead: nat, tail: nat, nextTail: nat) {
    if IsDynamic(t) then DynamicAt(part, code, shift, head, nextHead, tail, nextTail)
    else StaticAt(part, code, head, nextHead, tail, nextTail)
  }

  /** Heads in a row from `heads[0]` on, and tails in a row from `tails[0]` on. */
  predicate Laid(ts: seq<Type>, parts: seq<Bytes>, code: Bytes, shift: int, heads: seq<nat>, tails: seq<nat>) {
    && |parts| == |ts| && |heads| == |tails| == |ts| + 1
    && forall i :: 0 <= i < |ts| ==> PartAt(ts[i], parts[i], code, shift, heads[i], heads[i + 1], tails[i], tails[i + 1])
  }

  /** The heads fill the front of a list's code and the tails the rest. Written positions are off by the
      difference between the reserved and the taken head space. */
  predicate IsLayout(ts: seq<Type>, parts: seq<Bytes>, code: Bytes, heads: seq<nat>, tails: seq<nat>) {
    && |heads| == |tails| == |ts| + 1
    && heads[0] == 0 && heads[|ts|] == tails[0] <= tails[|ts|] == |code|
    && Laid(ts, parts, code, TotalOffset(ts) - tails[0], heads, tails)
  }

  /** `code` is how a value of a type is written. */
  ghost predicate IsCode(t: Type, v: Value, code: Bytes)
    decreases v, 0
  {
    match t
    case UInt(_) => v.Number? && IsWord(code, v.n)
    case Bool => v.Flag? && |code| == 32 && AllZero(code[..31]) && code[31] == (if v.b then 1 else 0)
    case AddressType => v.Raw? && |code| == 32 && AllZero(code[..12]) && code[12..] == v.bytes
    case Hash32 => v.Raw? && code == v.bytes
    case DynamicBytes => v.Raw? && IsByteString(v.bytes, code)
    case String => v.Raw? && IsByteString(v.bytes, code)
    case Vector(e) => v.Items? && IsArrayCode(e, v.items, code)
    case FixedArray(e, _) => v.Items? && IsArrayCode(e, v.items, code)
    case Tuple(ts) => v.Items? && IsListCode(ts, v.items, code)
  }

  /** An array is the number of its elements and then their list. */
  ghost predicate IsArrayCode(e: Type, vs: seq<Value>, code: Bytes)
    decreases vs, 2
  {
    |code| >= 32 && IsWord(code[..32], |vs|) && IsListCode(Repeat(e, |vs|), vs, code[32..])
  }

  ghost predicate IsListCode(ts: seq<Type>, vs: seq<Value>, code: Bytes)
    decreases vs, 1
  {
    && |vs| == |ts|
    && exists parts, heads, tails :: IsLayout(ts, parts, code, heads, tails) && AreCodes(ts, vs, parts)
  }

  ghost predicate AreCodes(ts: seq<Type>, vs: seq<Value>, parts: seq<Bytes>)
    decreases vs, 0
  {
    |vs| == |ts| == |parts| && forall i :: 0 <= i < |ts| ==> IsCode(ts[i], vs[i], parts[i])
  }

  // ---------- The encoder writes that and nothing else ----------

  lemma WordIff(code: Bytes, x: nat)
    ensures code == Word(x) <==> IsWord(code, x)
  {
    BigEndian.EncodedIff(code, x);
  }

  lemma {:induction false} ZeroBytes(width: nat)
    ensures BigEndian.Encode(0, width) == Zeros(width)
  {
    if width > 0 {
      ZeroBytes(width - 1);
    }
  }

  lemma FlagIff(b: bool, code: Bytes)
    ensures code == Word(if b then 1 else 0) <==>
      |code| == 32 && AllZero(code[..31]) && code[31] == (if b then 1 else 0)
  {
    ZeroBytes(31);
    var x := if b then 1 else 0;
    assert Word(x) == Zeros(31) + [x];
    if |code| == 32 && AllZero(code[..31]) && code[31] == x {
      assert code == code[..31] + [code[31]];
      assert code[..31] == Zeros(31);
    }
  }

  lemma AddressIff(a: Bytes, code: Bytes)
    requires |a| == 20
    ensures code == Zeros(12) + a <==> |code| == 32 && AllZero(code[..12]) && code[12..] == a
  {
    if |code| == 32 && AllZero(code[..12]) && code[12..] == a {
      assert code[..12] == Zeros(12);
      assert code == code[..12] + code[12..];
    }
  }

  /** Padding goes there. */
  lemma PaddedIff(n: nat, p: int)
    ensures p == PaddedSize(n) <==> IsPadded(n, p)
  {
  }

  lemma ByteStringIff(s: Bytes, code: Bytes)
    ensures code == EncodeBytes(s) <==> IsByteString(s, code)
  {
    PaddedIff(|s|, |code| - 32);
    PaddedIff(|s|, PaddedSize(|s|));
    PiecesIff(s, PaddedSize(|s|), code);
  }

  lemma PiecesIff(s: Bytes, p: nat, code: Bytes)
    requires |s| <= p
    ensures code == Word(|s|) + s + Zeros(p - |s|) <==>
      && |code| == 32 + p && IsWord(code[..32], |s|) && code[32..32 + |s|] == s && AllZero(code[32 + |s|..])
  {
    var n, word, zeros := |s|, Word(|s|), Zeros(p - |s|);
    if code == word + s + zeros {
      assert code[..32] == word && code[32..32 + n] == s && code[32 + n..] == zeros;
      WordIff(code[..32], n);
    }
    if |code| == 32 + p && IsWord(code[..32], n) && code[32..32 + n] == s && AllZero(code[32 + n..]) {
      WordIff(code[..32], n);
      assert code[32 + n..] == zeros;
      assert code == code[..32] + code[32..32 + n] + code[32 + n..];
    }
  }

  // ---------- Lists ----------

  /** The parts are what the encoder makes of the components. */
  ghost predicate Encoded(ts: seq<Type>, vs: seq<Value>, parts: seq<Bytes>) {
    && |vs| == |ts| == |parts|
    && forall i :: 0 <= i < |ts| ==> HasType(vs[i], ts[i]) && parts[i] == EncodeValue(ts[i], vs[i])
  }

  lemma LaidHead(
    ts: seq<Type>, parts: seq<Bytes>, code: Bytes, shift: int, heads: seq<nat>, tails: seq<nat>,
    t: Type, part: Bytes, head: nat, tail: nat)
    requires Laid(ts, parts, code, shift, heads, tails)
    requires PartAt(t, part, code, shift, head, heads[0], tail, tails[0])
    ensures Laid([t] + ts, [part] + parts, code, shift, [head] + heads, [tail] + tails)
  {
    forall i | 0 <= i < |ts| + 1
      ensures PartAt(([t] + ts)[i], ([part] + parts)[i], code, shift, ([head] + heads)[i], ([head] + heads)[i + 1],
                     ([tail] + tails)[i], ([tail] + tails)[i + 1])
    {
      if i > 0 {
        assert PartAt(ts[i - 1], parts[i - 1], code, shift, heads[i - 1], heads[i], tails[i - 1], tails[i]);
      }
    }
  }

  lemma LaidTail(ts: seq<Type>, parts: seq<Bytes>, code: Bytes, shift: int, heads: seq<nat>, tails: seq<nat>)
    requires Laid(ts, parts, code, shift, heads, tails) && ts != []
    ensures Laid(ts[1..], parts[1..], code, shift, heads[1..], tails[1..])
    ensures PartAt(ts[0], parts[0], code, shift, heads[0], heads[1], tails[0], tails[1])
  {
    forall i | 0 <= i < |ts| - 1
      ensures PartAt(ts[1..][i], parts[1..][i], code, shift, heads[1..][i], heads[1..][i + 1],
                     tails[1..][i], tails[1..][i + 1])
    {
      assert PartAt(ts[i + 1], parts[i + 1], code, shift, heads[i + 1], heads[i + 2], tails[i + 1], tails[i + 2]);
    }
  }

  lemma PlaceDynamic(t: Type, part: Bytes, code: Bytes, offset: nat, head: nat, tail: nat, heads: Bytes, tails: Bytes)
    requires IsDynamic(t) && At(code, head, Word(offset) + heads) && At(code, tail, part + tails)
    ensures PartAt(t, part, code, offset - tail, head, head + 32, tail, tail + |part|)
    ensures At(code, head + 32, heads) && At(code, tail + |part|, tails)
  {
    AtSplit(code, head, Word(offset), heads);
    AtSplit(code, tail, part, tails);
    WordIff(code[head..head + 32], offset);
  }

  lemma PlaceStatic(t: Type, part: Bytes, code: Bytes, shift: int, head: nat, tail: nat, heads: Bytes)
    requires !IsDynamic(t) && At(code, head, part + heads) && tail <= |code|
    ensures PartAt(t, part, code, shift, head, head + |part|, tail, tail) && At(code, head + |part|, heads)
  {
    AtSplit(code, head, part, heads);
  }

  lemma TakeDynamic(
    t: Type, part: Bytes, code: Bytes, shift: int, head: nat, nextHead: nat, tail: nat, nextTail: nat,
    heads: Bytes, tails: Bytes)
    requires IsDynamic(t) && PartAt(t, part, code, shift, head, nextHead, tail, nextTail)
    requires At(code, nextHead, heads) && At(code, nextTail, tails)
    ensures At(code, head, Word(tail + shift) + heads) && At(code, tail, part + tails)
  {
    WordIff(code[head..nextHead], tail + shift);
    AtJoin(code, head, Word(tail + shift), heads);
    AtJoin(code, tail, part, tails);
  }

  lemma TakeStatic(
    t: Type, part: Bytes, code: Bytes, shift: int, head: nat, nextHead: nat, tail: nat, nextTail: nat, heads: Bytes)
    requires !IsDynamic(t) && PartAt(t, part, code, shift, head, nextHead, tail, nextTail) && At(code, nextHead, heads)
    ensures At(code, head, part + heads)
  {
    AtJoin(code, head, part, heads);
  }

  /** Heads and tails of components that are encoded already. */
  function HeadsOf(ts: seq<Type>, parts: seq<Bytes>, offset: nat): Bytes
    requires |parts| == |ts|
  {
    if ts == [] then []
    else if IsDynamic(ts[0]) then Word(offset) + HeadsOf(ts[1..], parts[1..], offset + |parts[0]|)
    else parts[0] + HeadsOf(ts[1..], parts[1..], offset)
  }

  function TailsOf(ts: seq<Type>, parts: seq<Bytes>): Bytes
    requires |parts| == |ts|
  {
    if ts == [] then []
    else if IsDynamic(ts[0]) then parts[0] + TailsOf(ts[1..], parts[1..])
    else TailsOf(ts[1..], parts[1..])
  }

  lemma {:induction false} SameParts(ts: seq<Type>, vs: seq<Value>, parts: seq<Bytes>, offset: nat)
    requires HaveTypes(vs, ts) && Encoded(ts, vs, parts)
    ensures Heads(ts, vs, offset) == HeadsOf(ts, parts, offset) && Tails(ts, vs) == TailsOf(ts, parts)
    decreases |ts|
  {
    if ts != [] {
      assert parts[0] == EncodeValue(ts[0], vs[0]);
      SameParts(ts[1..], vs[1..], parts[1..], if IsDynamic(ts[0]) then offset + |parts[0]| else offset);
    }
  }

  lemma {:induction false} EncodeParts(ts: seq<Type>, vs: seq<Value>) returns (parts: seq<Bytes>)
    requires HaveTypes(vs, ts)
    ensures Encoded(ts, vs, parts)
    decreases |ts|
  {
    if ts == [] {
      parts := [];
    } else {
      var rest := EncodeParts(ts[1..], vs[1..]);
      parts := [EncodeValue(ts[0], vs[0])] + rest;
      forall i | 0 < i < |ts|
        ensures HasType(vs[i], ts[i]) && parts[i] == EncodeValue(ts[i], vs[i])
      {
        assert ts[1..][i - 1] == ts[i] && vs[1..][i - 1] == vs[i] && parts[i] == rest[i - 1];
      }
    }
  }

  /** Where the first and the last head, and the first and the last tail stand. */
  predicate Ends(n: nat, heads: seq<nat>, tails: seq<nat>, head: nat, headEnd: nat, tail: nat, tailEnd: nat) {
    |heads| == |tails| == n + 1 && heads[0] == head && heads[n] == headEnd && tails[0] == tail && tails[n] == tailEnd
  }

  lemma EndsHead(n: nat, heads: seq<nat>, tails: seq<nat>, head: nat, headEnd: nat, tail: nat, tailEnd: nat, x: nat, y: nat)
    requires Ends(n, heads, tails, head, headEnd, tail, tailEnd)
    ensures Ends(n + 1, [x] + heads, [y] + tails, x, headEnd, y, tailEnd)
  {
  }

  lemma EndsTail(n: nat, heads: seq<nat>, tails: seq<nat>, head: nat, headEnd: nat, tail: nat, tailEnd: nat)
    requires Ends(n + 1, heads, tails, head, headEnd, tail, tailEnd)
    ensures Ends(n, heads[1..], tails[1..], heads[1], headEnd, tails[1], tailEnd)
  {
  }

  /** Without the first component. */
  lemma StandsTail(
    ts: seq<Type>, parts: seq<Bytes>, code: Bytes, shift: int, head: nat, headEnd: nat, tail: nat, tailEnd: nat,
    heads: seq<nat>, tails: seq<nat>)
    returns (nextHead: nat, nextTail: nat)
    requires ts != [] && Laid(ts, parts, code, shift, heads, tails)
    requires Ends(|ts|, heads, tails, head, headEnd, tail, tailEnd)
    ensures PartAt(ts[0], parts[0], code, shift, head, nextHead, tail, nextTail)
    ensures Laid(ts[1..], parts[1..], code, shift, heads[1..], tails[1..])
    ensures Ends(|ts| - 1, heads[1..], tails[1..], nextHead, headEnd, nextTail, tailEnd)
  {
    nextHead, nextTail := heads[1], tails[1];
    LaidTail(ts, parts, code, shift, heads, tails);
    EndsTail(|ts| - 1, heads, tails, head, headEnd, tail, tailEnd);
  }

  /** One more component in front. */
  lemma StandsHead(
    ts: seq<Type>, parts: seq<Bytes>, code: Bytes, shift: int, head: nat, nextHead: nat, headEnd: nat,
    tail: nat, nextTail: nat, tailEnd: nat, heads: seq<nat>, tails: seq<nat>)
    requires ts != [] && |parts| == |ts| && PartAt(ts[0], parts[0], code, shift, head, nextHead, tail, nextTail)
    requires Laid(ts[1..], parts[1..], code, shift, heads, tails)
    requires Ends(|ts| - 1, heads, tails, nextHead, headEnd, nextTail, tailEnd)
    ensures Laid(ts, parts, code, shift, [head] + heads, [tail] + tails)
    ensures Ends(|ts|, [head] + heads, [tail] + tails, head, headEnd, tail, tailEnd)
  {
    LaidHead(ts[1..], parts[1..], code, shift, heads, tails, ts[0], parts[0], head, tail);
    EndsHead(|ts| - 1, heads, tails, nextHead, headEnd, nextTail, tailEnd, head, tail);
    assert [ts[0]] + ts[1..] == ts && [parts[0]] + parts[1..] == parts;
  }

  /** The rest of the heads and of the tails stand behind the first ones. */
  ghost predicate RestAt(
    ts: seq<Type>, parts: seq<Bytes>, code: Bytes, offset: nat, head: nat, headEnd: nat, tail: nat, tailEnd: nat)
  {
    && |parts| == |ts| && At(code, head, HeadsOf(ts, parts, offset)) && At(code, tail, TailsOf(ts, parts))
    && headEnd == head + |HeadsOf(ts, parts, offset)| && tailEnd == tail + |TailsOf(ts, parts)|
  }

  lemma FirstDynamic(
    ts: seq<Type>, parts: seq<Bytes>, code: Bytes, offset: nat, head: nat, headEnd: nat, tail: nat, tailEnd: nat)
    requires ts != [] && IsDynamic(ts[0]) && RestAt(ts, parts, code, offset, head, headEnd, tail, tailEnd)
    ensures PartAt(ts[0], parts[0], code, offset - tail, head, head + 32, tail, tail + |parts[0]|)
    ensures RestAt(ts[1..], parts[1..], code, offset + |parts[0]|, head + 32, headEnd, tail + |parts[0]|, tailEnd)
  {
    var heads, tails := HeadsOf(ts[1..], parts[1..], offset + |parts[0]|), TailsOf(ts[1..], parts[1..]);
    PlaceDynamic(ts[0], parts[0], code, offset, head, tail, heads, tails);
  }

  lemma FirstStatic(
    ts: seq<Type>, parts: seq<Bytes>, code: Bytes, offset: nat, head: nat, headEnd: nat, tail: nat, tailEnd: nat)
    requires ts != [] && !IsDynamic(ts[0]) && RestAt(ts, parts, code, offset, head, headEnd, tail, tailEnd)
    ensures PartAt(ts[0], parts[0], code, offset - tail, head, head + |parts[0]|, tail, tail)
    ensures RestAt(ts[1..], parts[1..], code, offset, head + |parts[0]|, headEnd, tail, tailEnd)
  {
    PlaceStatic(ts[0], parts[0], code, offset - tail, head, tail, HeadsOf(ts[1..], parts[1..], offset));
  }

  lemma FirstPlaced(
    ts: seq<Type>, parts: seq<Bytes>, code: Bytes, offset: nat, head: nat, headEnd: nat, tail: nat, tailEnd: nat)
    returns (next: nat, nextHead: nat, nextTail: nat)
    requires ts != [] && RestAt(ts, parts, code, offset, head, headEnd, tail, tailEnd)
    ensures PartAt(ts[0], parts[0], code, offset - tail, head, nextHead, tail, nextTail)
    ensures RestAt(ts[1..], parts[1..], code, next, nextHead, headEnd, nextTail, tailEnd)
    ensures offset - tail == next - nextTail
  {
    if IsDynamic(ts[0]) {
      FirstDynamic(ts, parts, code, offset, head, headEnd, tail, tailEnd);
      next, nextHead, nextTail := offset + |parts[0]|, head + 32, tail + |parts[0]|;
    } else {
      FirstStatic(ts, parts, code, offset, head, headEnd, tail, tailEnd);
      next, nextHead, nextTail := offset, head + |parts[0]|, tail;
    }
  }

  /** Heads and tails, wherever they stand, are laid out. */
  lemma {:induction false} Writes(
    ts: seq<Type>, parts: seq<Bytes>, code: Bytes, offset: nat, head: nat, headEnd: nat, tail: nat, tailEnd: nat)
    returns (heads: seq<nat>, tails: seq<nat>)
    requires RestAt(ts, parts, code, offset, head, headEnd, tail, tailEnd)
    ensures Laid(ts, parts, code, offset - tail, heads, tails)
    ensures Ends(|ts|, heads, tails, head, headEnd, tail, tailEnd)
    decreases |ts|
  {
    if ts == [] {
      heads, tails := [head], [tail];
    } else {
      var next, nextHead, nextTail := FirstPlaced(ts, parts, code, offset, head, headEnd, tail, tailEnd);
      var starts, ends := Writes(ts[1..], parts[1..], code, next, nextHead, headEnd, nextTail, tailEnd);
      StandsHead(ts, parts, code, offset - tail, head, nextHead, headEnd, tail, nextTail, tailEnd, starts, ends);
      heads, tails := [head] + starts, [tail] + ends;
    }
  }

  lemma TakenDynamic(
    ts: seq<Type>, parts: seq<Bytes>, code: Bytes, offset: nat, head: nat, nextHead: nat, headEnd: nat,
    tail: nat, nextTail: nat, tailEnd: nat)
    requires ts != [] && |parts| == |ts| && IsDynamic(ts[0])
    requires PartAt(ts[0], parts[0], code, offset - tail, head, nextHead, tail, nextTail)
    requires RestAt(ts[1..], parts[1..], code, offset + |parts[0]|, nextHead, headEnd, nextTail, tailEnd)
    ensures RestAt(ts, parts, code, offset, head, headEnd, tail, tailEnd)
  {
    var heads, tails := HeadsOf(ts[1..], parts[1..], offset + |parts[0]|), TailsOf(ts[1..], parts[1..]);
    TakeDynamic(ts[0], parts[0], code, offset - tail, head, nextHead, tail, nextTail, heads, tails);
  }

  lemma TakenStatic(
    ts: seq<Type>, parts: seq<Bytes>, code: Bytes, offset: nat, head: nat, nextHead: nat, headEnd: nat,
    tail: nat, nextTail: nat, tailEnd: nat)
    requires ts != [] && |parts| == |ts| && !IsDynamic(ts[0])
    requires PartAt(ts[0], parts[0], code, offset - tail, head, nextHead, tail, nextTail)
    requires RestAt(ts[1..], parts[1..], code, offset, nextHead, headEnd, nextTail, tailEnd)
    ensures RestAt(ts, parts, code, offset, head, headEnd, tail, tailEnd)
  {
    var heads := HeadsOf(ts[1..], parts[1..], offset);
    TakeStatic(ts[0], parts[0], code, offset - tail, head, nextHead, tail, nextTail, heads);
  }

  lemma NextOffset(t: Type, part: Bytes, code: Bytes, offset: nat, head: nat, nextHead: nat, tail: nat, nextTail: nat)
    returns (next: nat)
    requires PartAt(t, part, code, offset - tail, head, nextHead, tail, nextTail)
    ensures next == (if IsDynamic(t) then offset + |part| else offset) && offset - tail == next - nextTail
    ensures nextHead <= |code| && nextTail <= |code|
  {
    next := if IsDynamic(t) then offset + |part| else offset;
  }

  lemma Taken(
    ts: seq<Type>, parts: seq<Bytes>, code: Bytes, offset: nat, next: nat, head: nat, nextHead: nat, headEnd: nat,
    tail: nat, nextTail: nat, tailEnd: nat)
    requires ts != [] && |parts| == |ts| && next == (if IsDynamic(ts[0]) then offset + |parts[0]| else offset)
    requires PartAt(ts[0], parts[0], code, offset - tail, head, nextHead, tail, nextTail)
    requires RestAt(ts[1..], parts[1..], code, next, nextHead, headEnd, nextTail, tailEnd)
    ensures RestAt(ts, parts, code, offset, head, headEnd, tail, tailEnd)
  {
    if IsDynamic(ts[0]) {
      TakenDynamic(ts, parts, code, offset, head, nextHead, headEnd, tail, nextTail, tailEnd);
    } else {
      TakenStatic(ts, parts, code, offset, head, nextHead, headEnd, tail, nextTail, tailEnd);
    }
  }

  /** What is laid out is heads and tails. */
  lemma {:induction false} IsWritten(
    ts: seq<Type>, parts: seq<Bytes>, code: Bytes, offset: nat, head: nat, headEnd: nat, tail: nat, tailEnd: nat,
    heads: seq<nat>, tails: seq<nat>)
    requires Laid(ts, parts, code, offset - tail, heads, tails)
    requires Ends(|ts|, heads, tails, head, headEnd, tail, tailEnd)
    requires head <= |code| && tail <= |code|
    ensures RestAt(ts, parts, code, offset, head, headEnd, tail, tailEnd)
    decreases |ts|
  {
    if ts == [] {
      NothingAt(code, offset, head, tail);
    } else {
      var nextHead, nextTail := StandsTail(ts, parts, code, offset - tail, head, headEnd, tail, tailEnd, heads, tails);
      var next := NextOffset(ts[0], parts[0], code, offset, head, nextHead, tail, nextTail);
      IsWritten(ts[1..], parts[1..], code, next, nextHead, headEnd, nextTail, tailEnd, heads[1..], tails[1..]);
      Taken(ts, parts, code, offset, next, head, nextHead, headEnd, tail, nextTail, tailEnd);
    }
  }

  lemma NothingAt(code: Bytes, offset: nat, head: nat, tail: nat)
    requires head <= |code| && tail <= |code|
    ensures RestAt([], [], code, offset, head, head, tail, tail)
  {
  }

  lemma AtJoin(data: Bytes, p: nat, s: Bytes, t: Bytes)
    requires At(data, p, s) && At(data, p + |s|, t)
    ensures At(data, p, s + t)
  {
  }

  /** For every type and every value: bytes are in the format exactly if they are what the encoder writes. */
  lemma {:induction false} CodeIff(t: Type, v: Value, code: Bytes)
    requires HasType(v, t)
    ensures IsCode(t, v, code) <==> code == EncodeValue(t, v)
    decreases v, 0
  {
    match t
    case UInt(_) => WordIff(code, v.n);
    case Bool => FlagIff(v.b, code);
    case AddressType => AddressIff(v.bytes, code);
    case Hash32 =>
    case DynamicBytes => ByteStringIff(v.bytes, code);
    case String => ByteStringIff(v.bytes, code);
    case Vector(e) => ArrayIff(e, v.items, code);
    case FixedArray(e, n) => ArrayIff(e, v.items, code);
    case Tuple(ts) => ListIff(ts, v.items, code);
  }

  lemma {:induction false} ArrayIff(e: Type, vs: seq<Value>, code: Bytes)
    requires HaveTypes(vs, Repeat(e, |vs|))
    ensures IsArrayCode(e, vs, code) <==> code == Word(|vs|) + EncodeList(Repeat(e, |vs|), vs)
    decreases vs, 2
  {
    var list := EncodeList(Repeat(e, |vs|), vs);
    if |code| >= 32 {
      WordIff(code[..32], |vs|);
      ListIff(Repeat(e, |vs|), vs, code[32..]);
      assert code == code[..32] + code[32..];
      if code == Word(|vs|) + list {
        assert code[..32] == Word(|vs|) && code[32..] == list;
      }
    }
  }

  /** The same for a list of arguments. */
  lemma {:induction false} ListIff(ts: seq<Type>, vs: seq<Value>, code: Bytes)
    requires HaveTypes(vs, ts)
    ensures IsListCode(ts, vs, code) <==> code == EncodeList(ts, vs)
    decreases vs, 1
  {
    if parts, heads, tails :| IsLayout(ts, parts, code, heads, tails) && AreCodes(ts, vs, parts) {
      CodesEncoded(ts, vs, parts);
      LayoutWritten(ts, vs, parts, code, heads, tails);
    }
    if code == EncodeList(ts, vs) {
      var parts, heads, tails := WrittenLayout(ts, vs);
      EncodedCodes(ts, vs, parts);
    }
  }

  lemma LayoutWritten(ts: seq<Type>, vs: seq<Value>, parts: seq<Bytes>, code: Bytes, heads: seq<nat>, tails: seq<nat>)
    requires HaveTypes(vs, ts) && Encoded(ts, vs, parts) && IsLayout(ts, parts, code, heads, tails)
    ensures code == EncodeList(ts, vs)
  {
    SameParts(ts, vs, parts, TotalOffset(ts));
    LayoutJoined(ts, parts, code, TotalOffset(ts), heads, tails);
  }

  lemma LayoutJoined(ts: seq<Type>, parts: seq<Bytes>, code: Bytes, offset: nat, heads: seq<nat>, tails: seq<nat>)
    requires |parts| == |ts| && offset == TotalOffset(ts) && IsLayout(ts, parts, code, heads, tails)
    ensures code == HeadsOf(ts, parts, offset) + TailsOf(ts, parts)
  {
    IsWritten(ts, parts, code, offset, 0, tails[0], tails[0], |code|, heads, tails);
    TwoParts(code, HeadsOf(ts, parts, offset), TailsOf(ts, parts));
  }

  lemma TwoParts(code: Bytes, front: Bytes, back: Bytes)
    requires At(code, 0, front) && At(code, |front|, back) && |code| == |front| + |back|
    ensures code == front + back
  {
    assert code == code[..|front|] + code[|front|..];
  }

  lemma WrittenLayout(ts: seq<Type>, vs: seq<Value>) returns (parts: seq<Bytes>, heads: seq<nat>, tails: seq<nat>)
    requires HaveTypes(vs, ts)
    ensures Encoded(ts, vs, parts) && IsLayout(ts, parts, EncodeList(ts, vs), heads, tails)
  {
    parts := EncodeParts(ts, vs);
    SameParts(ts, vs, parts, TotalOffset(ts));
    heads, tails := Layout(ts, parts, HeadsOf(ts, parts, TotalOffset(ts)), TailsOf(ts, parts));
  }

  lemma Layout(ts: seq<Type>, parts: seq<Bytes>, front: Bytes, back: Bytes) returns (heads: seq<nat>, tails: seq<nat>)
    requires |parts| == |ts| && front == HeadsOf(ts, parts, TotalOffset(ts)) && back == TailsOf(ts, parts)
    ensures IsLayout(ts, parts, front + back, heads, tails)
  {
    var code := front + back;
    assert At(code, 0, front) && At(code, |front|, back);
    heads, tails := Writes(ts, parts, code, TotalOffset(ts), 0, |front|, |front|, |code|);
  }

  lemma {:induction false} CodesEncoded(ts: seq<Type>, vs: seq<Value>, parts: seq<Bytes>)
    requires HaveTypes(vs, ts) && AreCodes(ts, vs, parts)
    ensures Encoded(ts, vs, parts)
    decreases vs, 0
  {
    forall i | 0 <= i < |ts|
      ensures HasType(vs[i], ts[i]) && parts[i] == EncodeValue(ts[i], vs[i])
    {
      TypeAt(vs, ts, i);
      CodeIff(ts[i], vs[i], parts[i]);
    }
  }

  lemma {:induction false} EncodedCodes(ts: seq<Type>, vs: seq<Value>, parts: seq<Bytes>)
    requires Encoded(ts, vs, parts)
    ensures AreCodes(ts, vs, parts)
    decreases vs, 0
  {
    forall i | 0 <= i < |ts|
      ensures IsCode(ts[i], vs[i], parts[i])
    {
      CodeIff(ts[i], vs[i], parts[i]);
    }
  }

  lemma {:induction false} TypeAt(vs: seq<Value>, ts: seq<Type>, i: nat)
    requires HaveTypes(vs, ts) && i < |ts|
    ensures HasType(vs[i], ts[i])
    decreases |ts|
  {
    if i > 0 {
      TypeAt(vs[1..], ts[1..], i - 1);
    }
  }

  // ---------- What the decoder returns ----------

  /** Whatever the bytes: a value that is decoded has its type, and the index moves by the head size of the type,
      inside the data. */
  lemma {:induction false} DecodedTyped(t: Type, data: Bytes, index: nat)
    ensures var r := DecodeValue(t, data, index);
      r.Got? ==> HasType(r.value, t) && r.index == index + HeadSize(t) <= |data|
    decreases Depth(t), 1
  {
    match t
    case Vector(e) =>
      if index + 32 <= |data| {
        DecodedArrayTyped(e, None, data, Read64(data, index), index + 32);
      }
    case FixedArray(e, n) =>
      if index + 32 <= |data| {
        DecodedArrayTyped(e, Some(n), data, Read64(data, index), index + 32);
      }
    case Tuple(ts) =>
      if IsDynamic(t) {
        if index + 32 <= |data| && Read64(data, index) <= |data| {
          DecodedListTyped(ts, Depths(ts), data[Read64(data, index)..], 0);
        }
      } else {
        DecodedListTyped(ts, Depths(ts), data, index);
      }
    case _ =>
  }

  lemma {:induction false} DecodedArrayTyped(e: Type, size: Option<nat>, data: Bytes, start: nat, next: nat)
    ensures var r := DecodeArray(e, size, data, start, next);
      r.Got? ==>
        && r.index == next && r.value.Items? && HaveTypes(r.value.items, Repeat(e, |r.value.items|))
        && (size.Some? ==> |r.value.items| == size.value)
    decreases Depth(e) + 1, 0
  {
    if start + 32 <= |data| {
      var length := Read64(data, start);
      RepeatDepth(e, length);
      DecodedListTyped(Repeat(e, length), Depth(e), data[start + 32..], 0);
    }
  }

  lemma {:induction false} DecodedListTyped(ts: seq<Type>, depth: nat, data: Bytes, index: nat)
    requires Depths(ts) <= depth
    ensures var r := DecodeList(ts, depth, data, index);
      r.Got? ==> HaveTypes(r.value, ts) && r.index == index + HeadSizes(ts) && (ts != [] ==> r.index <= |data|)
    decreases depth, 2 + |ts|
  {
    if ts != [] {
      DecodedTyped(ts[0], data, index);
      var v := DecodeValue(ts[0], data, index);
      if v.Got? {
        DecodedListTyped(ts[1..], depth, data, v.index);
      }
    }
  }

  /** Whatever the bytes: decoded arguments have their types, and data shorter than the heads is refused. */
  lemma ArgumentsTyped(ts: seq<Type>, data: Bytes)
    ensures var r := DecodeData(ts, data); r.Some? ==> HaveTypes(r.value, ts) && HeadSizes(ts) <= |data|
  {
    DecodedListTyped(ts, Depths(ts), data, 0);
  }

  lemma OneArgument(t: Type, data: Bytes)
    ensures var r := DecodeValue(t, data, 0);
      DecodeData([t], data) == if r.Short? then None else Some([r.value])
  {
    var r, ts := DecodeValue(t, data, 0), [t];
    assert ts[0] == t && ts[1..] == [];
    if r.Got? {
      assert DecodeList(ts[1..], Depths(ts), data, r.index) == Got([], r.index);
      assert DecodeList(ts, Depths(ts), data, 0) == Got([r.value] + [], r.index);
      assert [r.value] + [] == [r.value];
    } else {
      assert DecodeList(ts, Depths(ts), data, 0).Short?;
    }
  }

  /** One-word arguments by the bytes they are read from; upper bytes that do not belong are not looked at. */
  lemma WordsRead(data: Bytes, width: nat)
    ensures |data| < 32 ==>
      && DecodeData([Bool], data) == DecodeData([AddressType], data) == DecodeData([Hash32], data) == None
      && DecodeData([UInt(width)], data) == None
    ensures |data| >= 32 ==>
      && DecodeData([Bool], data) == Some([Flag(data[31] == 1)])
      && DecodeData([AddressType], data) == Some([Raw(data[12..32])])
      && DecodeData([Hash32], data) == Some([Raw(data[0..32])])
      && DecodeData([UInt(width)], data) == Some([Number(BigEndian.Decode(data[0..32]) % BigEndian.Power256(width))])
  {
    OneArgument(Bool, data);
    OneArgument(AddressType, data);
    OneArgument(Hash32, data);
    OneArgument(UInt(width), data);
  }

  /** `s` stands in the data as a byte string from `start` on: its length, and behind it the bytes. */
  predicate StringAt(data: Bytes, start: nat, s: Bytes) {
    && start + 32 <= |data| && |s| == BigEndian.Decode(data[start..start + 32]) % TWO_TO_64
    && At(data, start + 32, s)
  }

  /** A byte string is read exactly where the first word points; positions and lengths are 64-bit numbers. */
  lemma StringReadIff(data: Bytes, s: Bytes)
    ensures DecodeData([DynamicBytes], data) == Some([Raw(s)]) <==>
      |data| >= 32 && StringAt(data, BigEndian.Decode(data[0..32]) % TWO_TO_64, s)
    ensures DecodeData([String], data) == DecodeData([DynamicBytes], data)
  {
    OneArgument(DynamicBytes, data);
    OneArgument(String, data);
  }
}
