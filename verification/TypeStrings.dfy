/** Type names of the contract ABI, and the parser that takes them apart for the JSON interface. */
module TypeStrings {
  import opened Base

  datatype Type = Elementary(name: string) | ArrayOf(element: Type) | TupleOf(fields: seq<Type>)

  // ---------- Printing ----------

  /** Arrays print as "[]" whether or not their size is fixed. */
  function Name(t: Type): string
    decreases t, 0
  {
    match t
    case Elementary(name) => name
    case ArrayOf(e) => Name(e) + "[]"
    case TupleOf(ts) => "(" + Joined(ts) + ")"
  }

  /** Names with commas between them. */
  function Joined(ts: seq<Type>): string
    decreases ts, 1
  {
    if ts == [] then ""
    else if |ts| == 1 then Name(ts[0])
    else Name(ts[0]) + "," + Joined(ts[1..])
  }

  function Names(ts: seq<Type>): seq<string> {
    if ts == [] then [] else [Name(ts[0])] + Names(ts[1..])
  }

  predicate Special(c: char) {
    c == '(' || c == ')' || c == '[' || c == ']' || c == ',' || c == ' '
  }

  /** Elementary names have two characters at least and none with a meaning to the parser. */
  predicate PlainName(name: string) {
    |name| >= 2 && forall i :: 0 <= i < |name| ==> !Special(name[i])
  }

  predicate WellNamed(t: Type)
    decreases t, 0
  {
    match t
    case Elementary(name) => PlainName(name)
    case ArrayOf(e) => WellNamed(e)
    case TupleOf(ts) => AllWellNamed(ts)
  }

  predicate AllWellNamed(ts: seq<Type>)
    decreases ts, 1
  {
    ts == [] || (WellNamed(ts[0]) && AllWellNamed(ts[1..]))
  }

  // ---------- Taking a tuple apart ----------

  const COUNTERS: nat := 0x1_0000

  /** The 16-bit count of open parentheses after a character. */
  function Nesting(counter: nat, c: char): nat {
    if c == '(' then (if counter == COUNTERS - 1 then 0 else counter + 1)
    else if c == ')' then (if counter == 0 then COUNTERS - 1 else counter - 1)
    else counter
  }

  /** The pieces of a string between the commas outside parentheses, without spaces. */
  function Pieces(s: string, counter: nat, tmp: string): (r: seq<string>)
    ensures r != []
    decreases |s|
  {
    if s == "" then [tmp]
    else
      var c, n := s[0], Nesting(counter, s[0]);
      if c == ',' && n == 0 then [tmp] + Pieces(s[1..], n, "")
      else Pieces(s[1..], n, if c == ' ' then tmp else tmp + [c])
  }

  predicate IsArray(s: string)
    requires |s| >= 2
  {
    s[|s| - 2] == '[' && s[|s| - 1] == ']'
  }

  /** How many "[]" a string ends in. */
  function Dimensions(s: string): (n: nat)
    ensures 2 * n <= |s|
    ensures s != "" && s[0] == '(' ==> 2 * n < |s|
    decreases |s|
  {
    if |s| >= 2 && IsArray(s) then 1 + Dimensions(s[..|s| - 2]) else 0
  }

  predicate IsTuple(s: string)
    requires |s| >= 2
  {
    && s[0] == '('
    && if IsArray(s) then s[|s| - 2 * Dimensions(s) - 1] == ')' else s[|s| - 1] == ')'
  }

  function TupleTypes(s: string): (r: seq<string>)
    requires |s| >= 2 && IsTuple(s)
    ensures Weight(r) < |s| + 1
  {
    var end := if IsArray(s) then |s| - 2 * Dimensions(s) else |s|;
    PiecesWeight(s[1..end - 1], 0, "");
    Pieces(s[1..end - 1], 0, "")
  }

  function Weight(ss: seq<string>): nat {
    if ss == [] then 0 else |ss[0]| + 1 + Weight(ss[1..])
  }

  lemma {:induction false} PiecesWeight(s: string, counter: nat, tmp: string)
    ensures Weight(Pieces(s, counter, tmp)) <= |tmp| + |s| + 1
    decreases |s|
  {
    if s != "" {
      var c, n := s[0], Nesting(counter, s[0]);
      PiecesWeight(s[1..], n, if c == ',' && n == 0 then "" else if c == ' ' then tmp else tmp + [c]);
      var rest := Pieces(s[1..], n, "");
      assert ([tmp] + rest)[1..] == rest;
    }
  }

  // ---------- The description ----------

  datatype Json = Json(components: Option<seq<Json>>, kind: string)

  function Brackets(n: nat): string {
    if n == 0 then "" else Brackets(n - 1) + "[]"
  }

  /** What is written for one type name; nothing where the source reads before the start of the string. */
  function Handle(s: string): Option<Json>
    decreases |s| + 1, 0
  {
    if |s| < 2 then None
    else if !IsTuple(s) then Some(Json(None, s))
    else
      var components := HandleAll(TupleTypes(s));
      if components.None? then None
      else Some(Json(components, "tuple" + Brackets(if IsArray(s) then Dimensions(s) else 0)))
  }

  function HandleAll(ss: seq<string>): Option<seq<Json>>
    decreases Weight(ss), 1
  {
    if ss == [] then Some([])
    else
      var first := Handle(ss[0]);
      var rest := HandleAll(ss[1..]);
      if first.None? || rest.None? then None else Some([first.value] + rest.value)
  }

  /** What ought to be written for a type. */
  function Describe(t: Type): Json
    decreases t, 0
  {
    match Inside(t)
    case TupleOf(ts) => Json(Some(DescribeAll(ts)), "tuple" + Brackets(Depth(t)))
    case _ => Json(None, Name(t))
  }

  function DescribeAll(ts: seq<Type>): (r: seq<Json>)
    ensures |r| == |ts|
    decreases ts, 1
  {
    if ts == [] then [] else [Describe(ts[0])] + DescribeAll(ts[1..])
  }

  /** A description: an elementary type has its name, a tuple is called "tuple" and lists its fields, and every
      array adds a pair of brackets. */
  lemma DescribeKinds(t: Type, ts: seq<Type>, name: string)
    ensures Describe(Elementary(name)) == Json(None, name)
    ensures Describe(TupleOf(ts)) == Json(Some(DescribeAll(ts)), "tuple")
    ensures Describe(ArrayOf(t)) == Describe(t).(kind := Describe(t).kind + "[]")
  {
    assert Depth(TupleOf(ts)) == 0 && "tuple" + Brackets(0) == "tuple";
    DescribeArray(t);
  }

  lemma DescribeArray(t: Type)
    ensures Describe(ArrayOf(t)) == Describe(t).(kind := Describe(t).kind + "[]")
  {
    assert Inside(ArrayOf(t)) == Inside(t) && Depth(ArrayOf(t)) == 1 + Depth(t);
    if Inside(t).TupleOf? {
      assert Brackets(Depth(ArrayOf(t))) == Brackets(Depth(t)) + "[]";
      Regroup("tuple", Brackets(Depth(t)), "[]");
    }
  }

  lemma {:induction false} DescribeFields(ts: seq<Type>, i: nat)
    requires i < |ts|
    ensures DescribeAll(ts)[i] == Describe(ts[i])
    decreases |ts|
  {
    if i > 0 {
      DescribeFields(ts[1..], i - 1);
    }
  }

  /** The type inside all arrays, and how many they are. */
  function Inside(t: Type): (b: Type)
    ensures !b.ArrayOf? && (b == t || b < t)
  {
    if t.ArrayOf? then Inside(t.element) else t
  }

  function Depth(t: Type): nat {
    if t.ArrayOf? then 1 + Depth(t.element) else 0
  }

  // ---------- Where the parser cuts ----------

  /** How many commas of a type's name the parser takes for separators when it enters the name with
      the given count: those at a depth at which the count is 0 again. */
  function Cuts(t: Type, counter: nat): nat
    decreases t, 0
  {
    match t
    case Elementary(_) => 0
    case ArrayOf(e) => Cuts(e, counter)
    case TupleOf(ts) =>
      var inner := Nesting(counter, '(');
      (if inner == 0 && |ts| > 1 then |ts| - 1 else 0) + AllCuts(ts, inner)
  }

  function AllCuts(ts: seq<Type>, counter: nat): nat
    decreases ts, 1
  {
    if ts == [] then 0 else Cuts(ts[0], counter) + AllCuts(ts[1..], counter)
  }

  /** No tuple is empty, and none has fields whose names the parser would cut. */
  predicate Clean(t: Type)
    decreases t, 0
  {
    match t
    case Elementary(_) => true
    case ArrayOf(e) => Clean(e)
    case TupleOf(ts) => ts != [] && AllCuts(ts, 0) == 0 && AllClean(ts)
  }

  predicate AllClean(ts: seq<Type>)
    decreases ts, 1
  {
    ts == [] || (Clean(ts[0]) && AllClean(ts[1..]))
  }

  lemma PiecesStep(c: char, rest: string, counter: nat, tmp: string)
    ensures var n := Nesting(counter, c);
      Pieces([c] + rest, counter, tmp) ==
      if c == ',' && n == 0 then [tmp] + Pieces(rest, n, "")
      else Pieces(rest, n, if c == ' ' then tmp else tmp + [c])
  {
    assert ([c] + rest)[1..] == rest;
  }

  lemma {:induction false} PlainPieces(name: string, rest: string, counter: nat, tmp: string)
    requires forall i :: 0 <= i < |name| ==> !Special(name[i])
    ensures Pieces(name + rest, counter, tmp) == Pieces(rest, counter, tmp + name)
    decreases |name|
  {
    if name == "" {
      assert name + rest == rest && tmp + name == tmp;
    } else {
      assert name + rest == [name[0]] + (name[1..] + rest);
      PiecesStep(name[0], name[1..] + rest, counter, tmp);
      PlainPieces(name[1..], rest, counter, tmp + [name[0]]);
      assert (tmp + [name[0]]) + name[1..] == tmp + name;
    }
  }

  lemma BracketPieces(rest: string, counter: nat, tmp: string)
    ensures Pieces("[]" + rest, counter, tmp) == Pieces(rest, counter, tmp + "[]")
  {
    assert "[]" + rest == ['['] + ([']'] + rest);
    PiecesStep('[', [']'] + rest, counter, tmp);
    PiecesStep(']', rest, counter, tmp + ['[']);
    assert tmp + ['['] + [']'] == tmp + "[]";
  }

  lemma TupleName(ts: seq<Type>, rest: string)
    ensures Name(TupleOf(ts)) + rest == ['('] + (Joined(ts) + ([')'] + rest))
  {
  }

  /** A name without cuts goes into one piece as a whole. */
  lemma {:induction false} NamePieces(t: Type, rest: string, counter: nat, tmp: string)
    requires WellNamed(t) && counter < COUNTERS && Cuts(t, counter) == 0
    ensures Pieces(Name(t) + rest, counter, tmp) == Pieces(rest, counter, tmp + Name(t))
    decreases t, 0
  {
    match t
    case Elementary(name) => PlainPieces(name, rest, counter, tmp);
    case ArrayOf(e) =>
      Regroup(Name(e), "[]", rest);
      NamePieces(e, "[]" + rest, counter, tmp);
      BracketPieces(rest, counter, tmp + Name(e));
      Regroup(tmp, Name(e), "[]");
    case TupleOf(ts) =>
      var inner := Nesting(counter, '(');
      TupleName(ts, rest);
      PiecesStep('(', Joined(ts) + ([')'] + rest), counter, tmp);
      JoinedPieces(ts, [')'] + rest, inner, tmp + ['(']);
      PiecesStep(')', rest, inner, tmp + ['('] + Joined(ts));
      assert tmp + ['('] + Joined(ts) + [')'] == tmp + Name(t);
  }

  lemma {:induction false} JoinedPieces(ts: seq<Type>, rest: string, counter: nat, tmp: string)
    requires AllWellNamed(ts) && counter < COUNTERS && AllCuts(ts, counter) == 0 && (counter == 0 ==> |ts| <= 1)
    ensures Pieces(Joined(ts) + rest, counter, tmp) == Pieces(rest, counter, tmp + Joined(ts))
    decreases ts, 1
  {
    if ts == [] {
      assert Joined(ts) + rest == rest && tmp + Joined(ts) == tmp;
    } else if |ts| == 1 {
      NamePieces(ts[0], rest, counter, tmp);
    } else {
      var first, others := Name(ts[0]), Joined(ts[1..]);
      assert Joined(ts) + rest == first + ([','] + (others + rest));
      NamePieces(ts[0], [','] + (others + rest), counter, tmp);
      PiecesStep(',', others + rest, counter, tmp + first);
      JoinedPieces(ts[1..], rest, counter, tmp + first + [',']);
      assert tmp + first + [','] + others == tmp + Joined(ts);
    }
  }

  /** At the top of a tuple the pieces are the names of the fields. */
  lemma {:induction false} FieldPieces(ts: seq<Type>)
    requires ts != [] && AllWellNamed(ts) && AllCuts(ts, 0) == 0
    ensures Pieces(Joined(ts), 0, "") == Names(ts)
    decreases |ts|
  {
    if |ts| == 1 {
      LastField(ts[0]);
    } else {
      FirstField(ts[0], Joined(ts[1..]));
      FieldPieces(ts[1..]);
      Regroup(Name(ts[0]), [','], Joined(ts[1..]));
    }
  }

  lemma LastField(t: Type)
    requires WellNamed(t) && Cuts(t, 0) == 0
    ensures Pieces(Name(t), 0, "") == [Name(t)]
  {
    NamePieces(t, "", 0, "");
    assert Name(t) + "" == Name(t) && "" + Name(t) == Name(t);
  }

  lemma FirstField(t: Type, others: string)
    requires WellNamed(t) && Cuts(t, 0) == 0
    ensures Pieces(Name(t) + ([','] + others), 0, "") == [Name(t)] + Pieces(others, 0, "")
  {
    NamePieces(t, [','] + others, 0, "");
    assert "" + Name(t) == Name(t);
    PiecesStep(',', others, 0, Name(t));
  }

  // ---------- How many pieces there are ----------

  /** How many commas of a string are separators. */
  function Separators(s: string, counter: nat): nat
    decreases |s|
  {
    if s == "" then 0
    else
      var n := Nesting(counter, s[0]);
      (if s[0] == ',' && n == 0 then 1 else 0) + Separators(s[1..], n)
  }

  lemma {:induction false} PiecesCount(s: string, counter: nat, tmp: string)
    ensures |Pieces(s, counter, tmp)| == 1 + Separators(s, counter)
    decreases |s|
  {
    if s != "" {
      var c, n := s[0], Nesting(counter, s[0]);
      PiecesCount(s[1..], n, if c == ',' && n == 0 then "" else if c == ' ' then tmp else tmp + [c]);
    }
  }

  lemma SeparatorsStep(c: char, rest: string, counter: nat)
    ensures var n := Nesting(counter, c);
      Separators([c] + rest, counter) == (if c == ',' && n == 0 then 1 else 0) + Separators(rest, n)
  {
    assert ([c] + rest)[1..] == rest;
  }

  lemma {:induction false} PlainSeparators(name: string, rest: string, counter: nat)
    requires forall i :: 0 <= i < |name| ==> !Special(name[i])
    ensures Separators(name + rest, counter) == Separators(rest, counter)
    decreases |name|
  {
    if name == "" {
      assert name + rest == rest;
    } else {
      assert name + rest == [name[0]] + (name[1..] + rest);
      SeparatorsStep(name[0], name[1..] + rest, counter);
      PlainSeparators(name[1..], rest, counter);
    }
  }

  /** The separators inside a name are its cuts. */
  lemma {:induction false} NameSeparators(t: Type, rest: string, counter: nat)
    requires WellNamed(t) && counter < COUNTERS
    ensures Separators(Name(t) + rest, counter) == Cuts(t, counter) + Separators(rest, counter)
    decreases t, 0
  {
    match t
    case Elementary(name) => PlainSeparators(name, rest, counter);
    case ArrayOf(e) =>
      Regroup(Name(e), "[]", rest);
      NameSeparators(e, "[]" + rest, counter);
      assert "[]" + rest == ['['] + ([']'] + rest);
      SeparatorsStep('[', [']'] + rest, counter);
      SeparatorsStep(']', rest, counter);
    case TupleOf(ts) =>
      var inner := Nesting(counter, '(');
      TupleName(ts, rest);
      SeparatorsStep('(', Joined(ts) + ([')'] + rest), counter);
      JoinedSeparators(ts, [')'] + rest, inner);
      SeparatorsStep(')', rest, inner);
  }

  lemma {:induction false} JoinedSeparators(ts: seq<Type>, rest: string, counter: nat)
    requires AllWellNamed(ts) && counter < COUNTERS
    ensures Separators(Joined(ts) + rest, counter) ==
      (if counter == 0 && |ts| > 1 then |ts| - 1 else 0) + AllCuts(ts, counter) + Separators(rest, counter)
    decreases ts, 1
  {
    if ts == [] {
      assert Joined(ts) + rest == rest;
    } else if |ts| == 1 {
      NameSeparators(ts[0], rest, counter);
    } else {
      var first, others := Name(ts[0]), Joined(ts[1..]);
      assert Joined(ts) + rest == first + ([','] + (others + rest));
      NameSeparators(ts[0], [','] + (others + rest), counter);
      SeparatorsStep(',', others + rest, counter);
      JoinedSeparators(ts[1..], rest, counter);
    }
  }

  lemma {:induction false} NamesCount(ts: seq<Type>)
    ensures |Names(ts)| == |ts|
  {
    if ts != [] {
      NamesCount(ts[1..]);
    }
  }

  /** Taking the fields of a tuple apart gives their names if and only if there is a field and no
      name is cut. */
  lemma FieldsIff(ts: seq<Type>)
    requires AllWellNamed(ts)
    ensures |Pieces(Joined(ts), 0, "")| == (if ts == [] then 1 else |ts| + AllCuts(ts, 0))
    ensures Pieces(Joined(ts), 0, "") == Names(ts) <==> ts != [] && AllCuts(ts, 0) == 0
  {
    assert Joined(ts) + "" == Joined(ts);
    JoinedSeparators(ts, "", 0);
    PiecesCount(Joined(ts), 0, "");
    NamesCount(ts);
    if ts != [] && AllCuts(ts, 0) == 0 {
      FieldPieces(ts);
    }
  }

  // ---------- The shape of a name ----------

  lemma ArrayName(s: string)
    ensures IsArray(s + "[]") && Dimensions(s + "[]") == 1 + Dimensions(s)
  {
    var r := s + "[]";
    assert r[..|r| - 2] == s;
  }

  lemma {:induction false} Shape(t: Type)
    requires WellNamed(t)
    ensures var s, inside := Name(t), Name(Inside(t));
      && |s| == |inside| + 2 * Depth(t) && |inside| >= 2 && s[..|inside|] == inside
      && Dimensions(s) == Depth(t) && (IsArray(s) <==> Depth(t) > 0)
  {
    match t
    case Elementary(name) => PlainShape(name);
    case ArrayOf(e) =>
      Shape(e);
      ArrayName(Name(e));
      TakeOfConcat(Name(e), "[]", |Name(Inside(e))|);
    case TupleOf(ts) => TupleShape(ts);
  }

  lemma TakeOfConcat(a: string, b: string, n: nat)
    requires n <= |a|
    ensures (a + b)[..n] == a[..n]
  {
  }

  lemma PlainShape(name: string)
    requires PlainName(name)
    ensures !IsArray(name) && Dimensions(name) == 0 && name[..|name|] == name
  {
    assert !Special(name[|name| - 1]);
  }

  lemma TupleShape(ts: seq<Type>)
    ensures var s := Name(TupleOf(ts)); |s| >= 2 && !IsArray(s) && Dimensions(s) == 0 && s[..|s|] == s
  {
    var s := Name(TupleOf(ts));
    assert s[|s| - 1] == ')';
  }

  /** The name of a tuple, or of an array of them, is taken for one, and for no other. */
  lemma NameIsTuple(t: Type)
    requires WellNamed(t)
    ensures |Name(t)| >= 2 && (IsTuple(Name(t)) <==> Inside(t).TupleOf?)
    ensures IsArray(Name(t)) <==> Depth(t) > 0
    ensures Dimensions(Name(t)) == Depth(t)
  {
    Shape(t);
    InsideNamed(t);
    var s, inside := Name(t), Name(Inside(t));
    assert s[0] == s[..|inside|][0] == inside[0];
    assert s[|inside| - 1] == s[..|inside|][|inside| - 1] == inside[|inside| - 1];
    if Inside(t).Elementary? {
      assert !Special(inside[0]);
    } else {
      assert inside[0] == '(' && inside[|inside| - 1] == ')';
    }
  }

  lemma {:induction false} InsideNamed(t: Type)
    requires WellNamed(t)
    ensures WellNamed(Inside(t)) && (Clean(t) <==> Clean(Inside(t)))
  {
    if t.ArrayOf? {
      InsideNamed(t.element);
    }
  }

  lemma TuplePieces(t: Type)
    requires WellNamed(t) && Inside(t).TupleOf?
    ensures |Name(t)| >= 2 && IsTuple(Name(t))
    ensures TupleTypes(Name(t)) == Pieces(Joined(Inside(t).fields), 0, "")
  {
    NameIsTuple(t);
    Shape(t);
    Stripped(Name(t), Name(Inside(t)), Joined(Inside(t).fields));
  }

  lemma Stripped(s: string, inside: string, fields: string)
    requires |inside| <= |s| && s[..|inside|] == inside && inside == "(" + fields + ")"
    ensures |inside| >= 2 && s[1..|inside| - 1] == fields
  {
    assert s[1..|inside| - 1] == s[..|inside|][1..|inside| - 1] == inside[1..|inside| - 1];
  }

  // ---------- The parser undoes the printer ----------

  /** The description read from a type's name is that of the type if and only if the type is clean. */
  lemma {:induction false} DescribedIff(t: Type)
    requires WellNamed(t)
    ensures Handle(Name(t)) == Some(Describe(t)) <==> Clean(t)
    decreases t, 0
  {
    NameIsTuple(t);
    InsideNamed(t);
    if Inside(t).TupleOf? {
      var ts := Inside(t).fields;
      TuplePieces(t);
      FieldsIff(ts);
      HandleCount(TupleTypes(Name(t)));
      if ts != [] && AllCuts(ts, 0) == 0 {
        AllDescribedIff(ts);
      }
    }
  }

  lemma {:induction false} AllDescribedIff(ts: seq<Type>)
    requires AllWellNamed(ts)
    ensures HandleAll(Names(ts)) == Some(DescribeAll(ts)) <==> AllClean(ts)
    decreases ts, 1
  {
    if ts != [] {
      DescribedIff(ts[0]);
      AllDescribedIff(ts[1..]);
      assert Names(ts)[1..] == Names(ts[1..]);
      var expected := DescribeAll(ts);
      assert expected[0] == Describe(ts[0]) && expected[1..] == DescribeAll(ts[1..]);
      var got := HandleAll(Names(ts));
      if got.Some? {
        assert got.value[1..] == HandleAll(Names(ts[1..])).value;
      }
    }
  }

  // ---------- Which types are clean ----------

  predicate NoEmptyTuple(t: Type)
    decreases t, 0
  {
    match t
    case Elementary(_) => true
    case ArrayOf(e) => NoEmptyTuple(e)
    case TupleOf(ts) => ts != [] && NoEmptyTuples(ts)
  }

  predicate NoEmptyTuples(ts: seq<Type>)
    decreases ts, 1
  {
    ts == [] || (NoEmptyTuple(ts[0]) && NoEmptyTuples(ts[1..]))
  }

  /** How deep tuples are nested in each other. */
  function Nested(t: Type): nat
    decreases t, 0
  {
    match t
    case Elementary(_) => 0
    case ArrayOf(e) => Nested(e)
    case TupleOf(ts) => 1 + MostNested(ts)
  }

  function MostNested(ts: seq<Type>): nat
    decreases ts, 1
  {
    if ts == [] then 0
    else
      var rest := MostNested(ts[1..]);
      if Nested(ts[0]) > rest then Nested(ts[0]) else rest
  }

  lemma {:induction false} ShallowUncut(t: Type, counter: nat)
    requires counter + Nested(t) < COUNTERS
    ensures Cuts(t, counter) == 0
    decreases t, 0
  {
    match t
    case Elementary(_) =>
    case ArrayOf(e) => ShallowUncut(e, counter);
    case TupleOf(ts) => AllShallowUncut(ts, counter + 1);
  }

  lemma {:induction false} AllShallowUncut(ts: seq<Type>, counter: nat)
    requires counter + MostNested(ts) < COUNTERS
    ensures AllCuts(ts, counter) == 0
    decreases ts, 1
  {
    if ts != [] {
      ShallowUncut(ts[0], counter);
      AllShallowUncut(ts[1..], counter);
    }
  }

  /** A type without empty tuples, nested at most 65536 deep, is clean. */
  lemma {:induction false} ShallowClean(t: Type)
    requires NoEmptyTuple(t) && Nested(t) <= COUNTERS
    ensures Clean(t)
    decreases t, 0
  {
    match t
    case Elementary(_) =>
    case ArrayOf(e) => ShallowClean(e);
    case TupleOf(ts) =>
      AllShallowUncut(ts, 0);
      AllShallowClean(ts);
  }

  lemma {:induction false} AllShallowClean(ts: seq<Type>)
    requires NoEmptyTuples(ts) && MostNested(ts) <= COUNTERS
    ensures AllClean(ts)
    decreases ts, 1
  {
    if ts != [] {
      ShallowClean(ts[0]);
      AllShallowClean(ts[1..]);
    }
  }

  /** A pair inside `n` tuples of one field. */
  function Tower(n: nat): Type {
    if n == 0 then TupleOf([Elementary("bool"), Elementary("bool")]) else TupleOf([Tower(n - 1)])
  }

  lemma OneField(t: Type, counter: nat)
    ensures AllCuts([t], counter) == Cuts(t, counter) && MostNested([t]) == Nested(t)
  {
    assert [t][1..] == [];
  }

  lemma {:induction false} TowerCut(n: nat, counter: nat)
    requires counter + n + 1 == COUNTERS
    ensures Cuts(Tower(n), counter) == 1 && Nested(Tower(n)) == n + 1
  {
    if n == 0 {
      var ts := [Elementary("bool"), Elementary("bool")];
      assert ts[1..] == [Elementary("bool")] && ts[1..][1..] == [];
    } else {
      TowerCut(n - 1, counter + 1);
      OneField(Tower(n - 1), counter + 1);
    }
  }

  /** One level deeper the count of open parentheses wraps around and the parser goes wrong. */
  lemma TooDeep()
    ensures var t := TupleOf([Tower(COUNTERS - 1)]); Nested(t) == COUNTERS + 1 && !Clean(t)
  {
    TowerCut(COUNTERS - 1, 0);
    OneField(Tower(COUNTERS - 1), 0);
  }

  lemma {:induction false} HandleCount(ss: seq<string>)
    ensures HandleAll(ss).Some? ==> |HandleAll(ss).value| == |ss|
    decreases |ss|
  {
    if ss != [] {
      HandleCount(ss[1..]);
    }
  }

  // ---------- The loops ----------

  method CountTupleArrays(s: string) returns (count: nat)
    requires s != "" && s[0] == '('
    ensures count == Dimensions(s)
  {
    count := 0;
    var i := |s| - 1;
    assert s[..i + 1] == s;
    while i >= 0
      invariant i == |s| - 1 - 2 * count
      invariant i >= 0 && count + Dimensions(s[..i + 1]) == Dimensions(s)
      decreases i
    {
      var rest := s[..i + 1];
      assert rest[0] == '(';
      if s[i] != ']' || s[i - 1] != '[' {
        break;
      }
      assert rest[..|rest| - 2] == s[..i - 1];
      count := count + 1;
      i := i - 2;
    }
  }

  method GetTupleTypes(s: string) returns (types: seq<string>)
    requires |s| >= 2 && IsTuple(s)
    ensures types == TupleTypes(s)
  {
    var tupleString := s[1..];
    if IsArray(s) {
      var count := CountTupleArrays(s);
      tupleString := tupleString[..|tupleString| - 2 * count];
    }
    tupleString := tupleString[..|tupleString| - 1];
    ghost var end := if IsArray(s) then |s| - 2 * Dimensions(s) else |s|;
    assert tupleString == s[1..end - 1];
    types := SplitAtCommas(tupleString);
  }

  method SplitAtCommas(s: string) returns (types: seq<string>)
    ensures types == Pieces(s, 0, "")
  {
    types := [];
    var tmp, tupleCounter: nat := "", 0;
    for i := 0 to |s|
      invariant types + Pieces(s[i..], tupleCounter, tmp) == Pieces(s, 0, "")
    {
      var c := s[i];
      assert s[i..] == [c] + s[i + 1..];
      PiecesStep(c, s[i + 1..], tupleCounter, tmp);
      tupleCounter := Nesting(tupleCounter, c);
      if c == ',' && tupleCounter == 0 {
        Regroup(types, [tmp], Pieces(s[i + 1..], tupleCounter, ""));
        types := types + [tmp];
        tmp := "";
      } else if c != ' ' {
        tmp := tmp + [c];
      }
    }
    types := types + [tmp];
  }

  method HandleTupleComponents(types: seq<string>) returns (r: Option<seq<Json>>)
    ensures r == HandleAll(types)
    decreases Weight(types)
  {
    var obj: seq<Json> := [];
    ghost var whole := HandleAll(types);
    assert types[0..] == types;
    assert whole.Some? ==> [] + whole.value == whole.value;
    for i := 0 to |types|
      invariant Weight(types[i..]) <= Weight(types)
      invariant whole == Prefixed(obj, HandleAll(types[i..]))
    {
      var s := types[i];
      assert types[i..][0] == s && types[i..][1..] == types[i + 1..];
      PrefixedStep(obj, types[i..]);
      if |s| < 2 {
        return None;
      }
      if !IsTuple(s) {
        obj := obj + [Json(None, s)];
      } else {
        var tupleTypes := GetTupleTypes(s);
        var components := HandleTupleComponents(tupleTypes);
        if components.None? {
          return None;
        }
        var count := 0;
        if IsArray(s) {
          count := CountTupleArrays(s);
        }
        var arrayType := "tuple";
        for k := 0 to count
          invariant arrayType == "tuple" + Brackets(k)
        {
          arrayType := arrayType + "[]";
        }
        obj := obj + [Json(components, arrayType)];
      }
    }
    assert obj + [] == obj;
    r := Some(obj);
  }

  function Prefixed(obj: seq<Json>, rest: Option<seq<Json>>): Option<seq<Json>> {
    if rest.None? then None else Some(obj + rest.value)
  }

  lemma PrefixedStep(obj: seq<Json>, types: seq<string>)
    requires types != []
    ensures var first := Handle(types[0]);
      Prefixed(obj, HandleAll(types)) ==
      if first.None? then None else Prefixed(obj + [first.value], HandleAll(types[1..]))
  {
    var first, rest := Handle(types[0]), HandleAll(types[1..]);
    if first.Some? && rest.Some? {
      Regroup(obj, [first.value], rest.value);
    }
  }
}
