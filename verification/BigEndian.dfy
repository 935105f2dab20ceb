/** Fixed-width big-endian numbers. */
module BigEndian {
  import opened Base

  function Power256(n: nat): (p: nat)
    ensures p > 0
  {
    if n == 0 then 1 else 256 * Power256(n - 1)
  }

  function Decode(s: Bytes): nat {
    if s == [] then 0 else Decode(s[..|s| - 1]) * 256 + s[|s| - 1]
  }

  /** The `width` low bytes of a number, most significant first. */
  function Encode(x: nat, width: nat): (s: Bytes)
    ensures |s| == width
    decreases x, width
  {
    if width == 0 then [] else Encode(x / 256, width - 1) + [x % 256]
  }

  lemma {:induction false} DecodeEncode(x: nat, width: nat)
    requires x < Power256(width)
    ensures Decode(Encode(x, width)) == x
    decreases width
  {
    if width > 0 {
      DecodeEncode(x / 256, width - 1);
      var s := Encode(x, width);
      assert s[..|s| - 1] == Encode(x / 256, width - 1);
    }
  }

  lemma {:induction false} DecodeBound(s: Bytes)
    ensures Decode(s) < Power256(|s|)
  {
    if s != [] {
      DecodeBound(s[..|s| - 1]);
    }
  }

  lemma {:induction false} EncodeDecode(s: Bytes)
    ensures Encode(Decode(s), |s|) == s
  {
    if s != [] {
      var front := s[..|s| - 1];
      EncodeDecode(front);
      assert Decode(s) / 256 == Decode(front) && Decode(s) % 256 == s[|s| - 1];
      assert front + [s[|s| - 1]] == s;
    }
  }

  lemma Quotient(x: nat, m: nat, q: nat, r: nat)
    requires 0 < m && r < m && x == m * q + r
    ensures x % m == r
  {
    var d := x / m - q;
    assert m * d == r - x % m;
    assert d >= 1 ==> m * d >= m;
    assert d <= -1 ==> m * d <= 0 - m;
  }

  /** A word of some width holds a number modulo its range. */
  lemma {:induction false} DecodeModulo(x: nat, width: nat)
    ensures Decode(Encode(x, width)) == x % Power256(width)
    decreases width
  {
    if width > 0 {
      var s, p, y := Encode(x, width), Power256(width - 1), x / 256;
      assert s[..|s| - 1] == Encode(y, width - 1);
      DecodeModulo(y, width - 1);
      Regrouped(x, y, p);
    }
  }

  lemma Regrouped(x: nat, y: nat, p: nat)
    requires y == x / 256 && p > 0
    ensures y % p * 256 + x % 256 == x % (256 * p)
  {
    var q, r := y / p, y % p * 256 + x % 256;
    assert y == p * q + y % p;
    assert x == 256 * y + x % 256;
    assert x == (256 * p) * q + r;
    Quotient(x, 256 * p, q, r);
  }

  /** Bytes of some width are the word of a number exactly if they read as it modulo its range. */
  lemma EncodedIff(s: Bytes, x: nat)
    ensures s == Encode(x, |s|) <==> Decode(s) == x % Power256(|s|)
  {
    DecodeModulo(x, |s|);
    EncodeDecode(s);
    EncodeDecode(Encode(x, |s|));
  }

  /** The most significant byte comes first. */
  lemma {:induction false} MostSignificantFirst(first: byte, rest: Bytes)
    ensures Decode([first] + rest) == first * Power256(|rest|) + Decode(rest)
  {
    var s := [first] + rest;
    if rest == [] {
      assert s[..0] == [];
    } else {
      assert s[..|s| - 1] == [first] + rest[..|rest| - 1];
      MostSignificantFirst(first, rest[..|rest| - 1]);
      var p := Power256(|rest| - 1);
      assert first * (256 * p) == first * p * 256;
    }
  }

  /** The ranges of the machine integers are those of 4, 8 and 32 bytes. */
  lemma Ranges()
    ensures Power256(4) == TWO_TO_32 && Power256(8) == TWO_TO_64 && Power256(32) == TWO_TO_256
  {
    PowerDoubles(4);
    PowerDoubles(8);
    PowerDoubles(16);
    assert TWO_TO_32 * TWO_TO_32 == TWO_TO_64;
    assert TWO_TO_64 * TWO_TO_64 * (TWO_TO_64 * TWO_TO_64) == TWO_TO_256;
  }

  lemma {:induction false} PowerSum(m: nat, n: nat)
    ensures Power256(m + n) == Power256(m) * Power256(n)
  {
    if m > 0 {
      PowerSum(m - 1, n);
      var p, q := Power256(m - 1), Power256(n);
      assert 256 * (p * q) == (256 * p) * q;
    }
  }

  lemma PowerDoubles(n: nat)
    ensures Power256(2 * n) == Power256(n) * Power256(n)
  {
    PowerSum(n, n);
  }
}
