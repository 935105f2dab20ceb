/**
 * The names that the encoder gives to its types. A signature determines the types in it, except that
 * arrays of a fixed size are named like vectors.
 */
module TypeNames {
  import opened Base
  import Abi = AbiTypes
  import opened TypeStrings

  function Digit(n: nat): char
    requires n < 10
  {
    ('0' as int + n) as char
  }

  function Decimal(n: nat): (s: string)
    ensures s != "" && forall i :: 0 <= i < |s| ==> '0' <= s[i] <= '9'
  {
    if n < 10 then [Digit(n)] else Decimal(n / 10) + [Digit(n % 10)]
  }

  lemma {:induction false} DecimalApart(m: nat, n: nat)
    requires Decimal(m) == Decimal(n)
    ensures m == n
  {
    var s := Decimal(m);
    assert s[|s| - 1] == Digit(m % 10) && s[|s| - 1] == Digit(n % 10);
    if m >= 10 && n >= 10 {
      assert Decimal(m / 10) == s[..|s| - 1] && Decimal(n / 10) == s[..|s| - 1];
      DecimalApart(m / 10, n / 10);
    }
  }

  /** The printed form of a type; the size of an array is not printed. */
  function Printed(t: Abi.Type): Type
    decreases t, 0
  {
    match t
    case UInt(width) => Elementary("uint" + Decimal(8 * width))
    case Bool => Elementary("bool")
    case AddressType => Elementary("address")
    case Hash32 => Elementary("bytes32")
    case DynamicBytes => Elementary("bytes")
    case String => Elementary("string")
    case Vector(e) => ArrayOf(Printed(e))
    case FixedArray(e, _) => ArrayOf(Printed(e))
    case Tuple(ts) => TupleOf(PrintedAll(ts))
  }

  function PrintedAll(ts: seq<Abi.Type>): (ps: seq<Type>)
    ensures |ps| == |ts|
    decreases ts, 1
  {
    if ts == [] then [] else [Printed(ts[0])] + PrintedAll(ts[1..])
  }

  predicate AllDigits(s: string) {
    forall i :: 0 <= i < |s| ==> '0' <= s[i] <= '9'
  }

  /** The number that decimal digits stand for. */
  function NumberOf(digits: string): nat
    requires AllDigits(digits)
  {
    if digits == "" then 0 else NumberOf(digits[..|digits| - 1]) * 10 + (digits[|digits| - 1] as int - '0' as int)
  }

  /** A decimal stands for its number and has no leading zero. */
  lemma {:induction false} DecimalReads(n: nat)
    ensures NumberOf(Decimal(n)) == n && (n > 0 ==> Decimal(n)[0] != '0')
  {
    var s := Decimal(n);
    if n >= 10 {
      DecimalReads(n / 10);
      assert s[..|s| - 1] == Decimal(n / 10) && s[|s| - 1] == Digit(n % 10);
    } else {
      assert s[..|s| - 1] == "";
    }
  }

  /** The names of the types, as they go into a signature. */
  lemma Spelling(t: Abi.Type, u: Abi.Type, n: nat)
    ensures Name(Printed(Abi.Bool)) == "bool" && Name(Printed(Abi.AddressType)) == "address"
    ensures Name(Printed(Abi.Hash32)) == "bytes32" && Name(Printed(Abi.DynamicBytes)) == "bytes"
    ensures Name(Printed(Abi.String)) == "string"
    ensures Name(Printed(Abi.Vector(t))) == Name(Printed(Abi.FixedArray(t, n))) == Name(Printed(t)) + "[]"
    ensures Name(Printed(Abi.Tuple([t]))) == "(" + Name(Printed(t)) + ")"
    ensures Name(Printed(Abi.Tuple([t, u]))) == "(" + Name(Printed(t)) + "," + Name(Printed(u)) + ")"
    ensures Name(Printed(Abi.UInt(1))) == "uint8" && Name(Printed(Abi.UInt(8))) == "uint64"
    ensures Name(Printed(Abi.UInt(32))) == "uint256"
  {
    OneField(t);
    TwoFields(t, u);
    TwoDigits(64);
    TwoDigits(25);
    assert Decimal(256) == Decimal(25) + [Digit(6)];
    assert "uint" + "8" == "uint8" && "uint" + "64" == "uint64" && "uint" + "256" == "uint256";
  }

  lemma OneField(t: Abi.Type)
    ensures Name(Printed(Abi.Tuple([t]))) == "(" + Name(Printed(t)) + ")"
  {
    assert PrintedAll([t]) == [Printed(t)];
  }

  lemma TwoFields(t: Abi.Type, u: Abi.Type)
    ensures Name(Printed(Abi.Tuple([t, u]))) == "(" + Name(Printed(t)) + "," + Name(Printed(u)) + ")"
  {
    assert [t, u][1..] == [u] && PrintedAll([u]) == [Printed(u)];
    var ps := [Printed(t), Printed(u)];
    assert PrintedAll([t, u]) == ps && ps[1..] == [Printed(u)];
    assert Joined(ps) == Name(Printed(t)) + "," + Name(Printed(u));
    Regroup("(", Name(Printed(t)), "," + Name(Printed(u)));
  }

  lemma TwoDigits(n: nat)
    requires 10 <= n < 100
    ensures Decimal(n) == [Digit(n / 10), Digit(n % 10)]
  {
  }

  /** The name of an unsigned integer is "uint" and the number of its bits in decimal. */
  lemma UIntSpelling(width: nat, digits: string)
    requires digits != "" && AllDigits(digits) && width > 0
    ensures Name(Printed(Abi.UInt(width))) == "uint" + digits <==> NumberOf(digits) == 8 * width && digits[0] != '0'
  {
    DecimalReads(8 * width);
    if NumberOf(digits) == 8 * width && digits[0] != '0' {
      NumeralsApart(digits, Decimal(8 * width));
    }
    var name := "uint" + Decimal(8 * width);
    if name == "uint" + digits {
      assert name[4..] == Decimal(8 * width) && ("uint" + digits)[4..] == digits;
    }
  }

  lemma {:induction false} NumeralPositive(digits: string)
    requires digits != "" && digits[0] != '0' && AllDigits(digits)
    ensures NumberOf(digits) > 0
  {
    if |digits| > 1 {
      NumeralPositive(digits[..|digits| - 1]);
    }
  }

  /** What stands before the last digit, the digit, and how they make the number. */
  lemma LastDigit(s: string) returns (front: string, last: nat)
    requires s != "" && AllDigits(s)
    ensures AllDigits(front) && last < 10 && s == front + [Digit(last)] && NumberOf(s) == NumberOf(front) * 10 + last
    ensures front != "" ==> front[0] == s[0]
  {
    front, last := s[..|s| - 1], s[|s| - 1] as int - '0' as int;
    assert s == front + [s[|s| - 1]];
  }

  /** Without leading zeros a number has one numeral. */
  lemma {:induction false} NumeralsApart(s: string, t: string)
    requires s != "" && t != "" && AllDigits(s) && AllDigits(t)
    requires s[0] != '0' && t[0] != '0' && NumberOf(s) == NumberOf(t)
    ensures s == t
    decreases |s|
  {
    var a, x := LastDigit(s);
    var b, y := LastDigit(t);
    assert NumberOf(a) == NumberOf(b) && x == y;
    if a != "" {
      NumeralPositive(a);
    }
    if b != "" {
      NumeralPositive(b);
    }
    if a != "" && b != "" {
      NumeralsApart(a, b);
    }
  }

  /** Vectors in place of arrays of a fixed size. */
  function Unsized(t: Abi.Type): Abi.Type
    decreases t, 0
  {
    match t
    case Vector(e) => Abi.Vector(Unsized(e))
    case FixedArray(e, _) => Abi.Vector(Unsized(e))
    case Tuple(ts) => Abi.Tuple(UnsizedAll(ts))
    case _ => t
  }

  function UnsizedAll(ts: seq<Abi.Type>): (us: seq<Abi.Type>)
    ensures |us| == |ts|
    decreases ts, 1
  {
    if ts == [] then [] else [Unsized(ts[0])] + UnsizedAll(ts[1..])
  }

  lemma {:induction false} PrintedNamed(t: Abi.Type)
    ensures WellNamed(Printed(t))
    decreases t, 0
  {
    match t
    case Vector(e) => PrintedNamed(e);
    case FixedArray(e, _) => PrintedNamed(e);
    case Tuple(ts) => PrintedAllNamed(ts);
    case _ =>
  }

  lemma {:induction false} PrintedAllNamed(ts: seq<Abi.Type>)
    ensures AllWellNamed(PrintedAll(ts))
    decreases ts, 1
  {
    if ts != [] {
      PrintedNamed(ts[0]);
      PrintedAllNamed(ts[1..]);
      assert PrintedAll(ts)[1..] == PrintedAll(ts[1..]);
    }
  }

  lemma WidthsApart(m: nat, n: nat)
    ensures "uint" + Decimal(8 * m) == "uint" + Decimal(8 * n) <==> m == n
  {
    if "uint" + Decimal(8 * m) == "uint" + Decimal(8 * n) {
      assert ("uint" + Decimal(8 * m))[4..] == Decimal(8 * m) && ("uint" + Decimal(8 * n))[4..] == Decimal(8 * n);
      DecimalApart(8 * m, 8 * n);
    }
  }

  lemma {:induction false} PrintedIff(a: Abi.Type, b: Abi.Type)
    ensures Printed(a) == Printed(b) <==> Unsized(a) == Unsized(b)
    decreases a, 0
  {
    match (a, b)
    case (UInt(m), UInt(n)) => WidthsApart(m, n);
    case (Vector(d), Vector(e)) => PrintedIff(d, e);
    case (Vector(d), FixedArray(e, _)) => PrintedIff(d, e);
    case (FixedArray(d, _), Vector(e)) => PrintedIff(d, e);
    case (FixedArray(d, _), FixedArray(e, _)) => PrintedIff(d, e);
    case (Tuple(ts), Tuple(us)) => PrintedAllIff(ts, us);
    case _ =>
      if IsWord(a) && IsWord(b) {
        WordsApart(a, b);
      }
  }

  predicate IsWord(t: Abi.Type) {
    !t.Vector? && !t.FixedArray? && !t.Tuple?
  }

  lemma WordsApart(a: Abi.Type, b: Abi.Type)
    requires IsWord(a) && IsWord(b) && !(a.UInt? && b.UInt?)
    ensures Printed(a) == Printed(b) <==> a == b
  {
    assert a.UInt? ==> Printed(a).name[0] == 'u';
    assert b.UInt? ==> Printed(b).name[0] == 'u';
    assert "address"[0] == 'a' && "bytes32"[0] == 'b' && "bool"[0] == 'b' && "bytes"[0] == 'b' && "string"[0] == 's';
  }

  lemma {:induction false} PrintedAllIff(ts: seq<Abi.Type>, us: seq<Abi.Type>)
    ensures PrintedAll(ts) == PrintedAll(us) <==> UnsizedAll(ts) == UnsizedAll(us)
    decreases ts, 1
  {
    if ts != [] && us != [] {
      PrintedIff(ts[0], us[0]);
      PrintedAllIff(ts[1..], us[1..]);
      assert PrintedAll(ts)[1..] == PrintedAll(ts[1..]) && PrintedAll(us)[1..] == PrintedAll(us[1..]);
      assert UnsizedAll(ts)[1..] == UnsizedAll(ts[1..]) && UnsizedAll(us)[1..] == UnsizedAll(us[1..]);
    }
  }

  // ---------- A list of names can be read in one way only ----------

  /** What may follow a name in a list. */
  predicate Ends(x: string) {
    x == "" || x[0] == ',' || x[0] == ')'
  }

  predicate Closes(x: string) {
    x == "" || x[0] == ')'
  }

  lemma {:induction false} BracketsApart(m: nat, n: nat, x: string, y: string)
    requires Brackets(m) + x == Brackets(n) + y && Ends(x) && Ends(y)
    ensures m == n && x == y
  {
    BracketsFront(m);
    BracketsFront(n);
    assert m > 0 ==> (Brackets(m) + x)[0] == '[';
    assert n > 0 ==> (Brackets(n) + y)[0] == '[';
    assert m == 0 ==> Brackets(m) + x == x;
    assert n == 0 ==> Brackets(n) + y == y;
    if m > 0 && n > 0 {
      assert Brackets(m) + x == "[]" + (Brackets(m - 1) + x) && Brackets(n) + y == "[]" + (Brackets(n - 1) + y);
      assert (Brackets(m) + x)[2..] == Brackets(m - 1) + x && (Brackets(n) + y)[2..] == Brackets(n - 1) + y;
      BracketsApart(m - 1, n - 1, x, y);
    }
  }

  lemma {:induction false} BracketsFront(n: nat)
    ensures n > 0 ==> Brackets(n) == "[]" + Brackets(n - 1)
  {
    if n > 1 {
      BracketsFront(n - 1);
    }
  }

  lemma {:induction false} NameInside(t: Type)
    ensures Name(t) == Name(Inside(t)) + Brackets(Depth(t))
  {
    if t.ArrayOf? {
      NameInside(t.element);
    }
  }

  lemma PlainApart(a: string, b: string, x: string, y: string)
    requires PlainName(a) && PlainName(b) && a + x == b + y
    requires (x == "" || Special(x[0])) && (y == "" || Special(y[0]))
    ensures a == b && x == y
  {
    var s := a + x;
    assert |a| < |s| ==> s[|a|] == x[0];
    assert |b| < |s| ==> s[|b|] == y[0];
    assert forall i :: 0 <= i < |a| ==> s[i] == a[i];
    assert forall i :: 0 <= i < |b| ==> s[i] == b[i];
    assert s[..|a|] == a && s[..|b|] == b && s[|a|..] == x && s[|b|..] == y;
  }

  /** The first character of a name. */
  lemma {:induction false} NameStarts(t: Type)
    requires WellNamed(t)
    ensures Name(t) != "" && (Special(Name(t)[0]) ==> Name(t)[0] == '(')
    ensures !t.ArrayOf? ==> (Name(t)[0] == '(' <==> t.TupleOf?)
  {
    match t
    case Elementary(name) => assert !Special(name[0]);
    case ArrayOf(e) => NameStarts(e);
    case TupleOf(_) =>
  }

  lemma {:induction false} NamesApart(a: Type, b: Type, x: string, y: string)
    requires WellNamed(a) && WellNamed(b) && Name(a) + x == Name(b) + y && Ends(x) && Ends(y)
    ensures a == b && x == y
    decreases a, 1
  {
    var p := BehindCore(a, x);
    var q := BehindCore(b, y);
    CoresApart(Inside(a), Inside(b), p, q);
    BracketsApart(Depth(a), Depth(b), x, y);
    Rebuilt(a, b);
  }

  lemma BehindCore(t: Type, x: string) returns (rest: string)
    requires WellNamed(t) && Ends(x)
    ensures WellNamed(Inside(t)) && rest == Brackets(Depth(t)) + x && Name(t) + x == Name(Inside(t)) + rest
    ensures rest == "" || Special(rest[0])
  {
    InsideNamed(t);
    NameInside(t);
    BracketsFront(Depth(t));
    rest := Brackets(Depth(t)) + x;
  }

  lemma {:induction false} Rebuilt(a: Type, b: Type)
    requires Inside(a) == Inside(b) && Depth(a) == Depth(b)
    ensures a == b
  {
    if a.ArrayOf? {
      Rebuilt(a.element, b.element);
    }
  }

  lemma {:induction false} CoresApart(a: Type, b: Type, x: string, y: string)
    requires WellNamed(a) && WellNamed(b) && !a.ArrayOf? && !b.ArrayOf?
    requires Name(a) + x == Name(b) + y
    requires (x == "" || Special(x[0])) && (y == "" || Special(y[0]))
    ensures a == b && x == y
    decreases a, 0
  {
    NameStarts(a);
    NameStarts(b);
    assert (Name(a) + x)[0] == Name(a)[0] && (Name(b) + y)[0] == Name(b)[0];
    if a.Elementary? {
      PlainApart(a.name, b.name, x, y);
    } else {
      var (ts, us) := (a.fields, b.fields);
      var (p, q) := (")" + x, ")" + y);
      assert (Name(a) + x)[1..] == Joined(ts) + p && (Name(b) + y)[1..] == Joined(us) + q;
      ListsApart(ts, us, p, q);
      assert p[1..] == x && q[1..] == y;
    }
  }

  lemma {:induction false} ListsApart(ts: seq<Type>, us: seq<Type>, x: string, y: string)
    requires AllWellNamed(ts) && AllWellNamed(us) && Joined(ts) + x == Joined(us) + y && Closes(x) && Closes(y)
    ensures ts == us && x == y
    decreases ts, 2
  {
    if ts == [] || us == [] {
      EmptyApart(ts, x);
      EmptyApart(us, y);
    } else {
      var (p, q) := (After(ts, x), After(us, y));
      JoinedAfter(ts, x);
      JoinedAfter(us, y);
      NamesApart(ts[0], us[0], p, q);
      if |ts| > 1 && |us| > 1 {
        assert p[1..] == Joined(ts[1..]) + x && q[1..] == Joined(us[1..]) + y;
        ListsApart(ts[1..], us[1..], x, y);
      }
      assert ts == [ts[0]] + ts[1..] && us == [us[0]] + us[1..];
    }
  }

  /** What follows the first name of a list. */
  function After(ts: seq<Type>, x: string): string
    requires ts != []
  {
    if |ts| == 1 then x else "," + (Joined(ts[1..]) + x)
  }

  lemma JoinedAfter(ts: seq<Type>, x: string)
    requires ts != []
    ensures Joined(ts) + x == Name(ts[0]) + After(ts, x)
  {
    if |ts| > 1 {
      assert Joined(ts) + x == Name(ts[0]) + "," + Joined(ts[1..]) + x;
    }
  }

  /** Only the empty list prints nothing before what closes it. */
  lemma EmptyApart(ts: seq<Type>, x: string)
    requires AllWellNamed(ts) && Closes(x)
    ensures ts == [] <==> Closes(Joined(ts) + x)
    ensures ts == [] ==> Joined(ts) + x == x
  {
    if ts != [] {
      JoinedAfter(ts, x);
      NameStarts(ts[0]);
      assert (Joined(ts) + x)[0] == Name(ts[0])[0];
    }
  }

  // ---------- Signatures ----------

  /** The text whose hash selects a function, behind the function's name. */
  function Signature(ts: seq<Abi.Type>): string {
    "(" + Joined(PrintedAll(ts)) + ")"
  }

  /** Two argument lists have the same signature if and only if they differ at most in what is an array
      of a fixed size, and of which. */
  lemma SignaturesIff(ts: seq<Abi.Type>, us: seq<Abi.Type>)
    ensures Signature(ts) == Signature(us) <==> UnsizedAll(ts) == UnsizedAll(us)
  {
    var (ps, qs) := (PrintedAll(ts), PrintedAll(us));
    PrintedAllNamed(ts);
    PrintedAllNamed(us);
    PrintedAllIff(ts, us);
    if Signature(ts) == Signature(us) {
      assert Signature(ts)[1..] == Joined(ps) + ")" && Signature(us)[1..] == Joined(qs) + ")";
      ListsApart(ps, qs, ")", ")");
    }
  }

  /** A vector and an array of three, which are not encoded alike. */
  lemma SameSignature()
    ensures var (ts, us) := ([Abi.Vector(Abi.Bool)], [Abi.FixedArray(Abi.Bool, 3)]);
      ts != us && Signature(ts) == Signature(us)
  {
    var (ts, us) := ([Abi.Vector(Abi.Bool)], [Abi.FixedArray(Abi.Bool, 3)]);
    assert UnsizedAll(ts) == UnsizedAll(us);
    SignaturesIff(ts, us);
  }

  // ---------- The JSON interface ----------

  lemma {:induction false} PrintedFilled(t: Abi.Type)
    requires Abi.WellFormed(t)
    ensures NoEmptyTuple(Printed(t))
    decreases t, 0
  {
    match t
    case Vector(e) => PrintedFilled(e);
    case FixedArray(e, _) => PrintedFilled(e);
    case Tuple(ts) => PrintedAllFilled(ts);
    case _ =>
  }

  lemma {:induction false} PrintedAllFilled(ts: seq<Abi.Type>)
    requires Abi.AllWellFormed(ts)
    ensures NoEmptyTuples(PrintedAll(ts))
    decreases ts, 1
  {
    if ts != [] {
      PrintedFilled(ts[0]);
      PrintedAllFilled(ts[1..]);
      assert PrintedAll(ts)[1..] == PrintedAll(ts[1..]);
    }
  }

  /** The interface describes every type of the encoder that is nested at most 65536 deep. */
  lemma Described(t: Abi.Type)
    requires Abi.WellFormed(t) && Nested(Printed(t)) <= COUNTERS
    ensures Handle(Name(Printed(t))) == Some(Describe(Printed(t)))
  {
    PrintedNamed(t);
    PrintedFilled(t);
    ShallowClean(Printed(t));
    DescribedIff(Printed(t));
  }
}
