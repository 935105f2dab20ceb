/** Merkle trees. The two hash functions are parameters: one hashes a leaf, the other a pair of
    hashes in ascending order. */
module Merkle {
  import opened Base

  type PairHash = (Hash, Hash) -> Hash

  function Node(h: PairHash, a: Hash, b: Hash): Hash {
    if a <= b then h(a, b) else h(b, a)
  }

  function Parent(h: PairHash, layer: seq<Hash>, i: nat): Hash
    requires 2 * i < |layer|
  {
    if 2 * i + 1 < |layer| then Node(h, layer[2 * i], layer[2 * i + 1]) else layer[2 * i]
  }

  /** Hashes neighbours together; an odd one out moves up as it is. */
  function NextLayer(h: PairHash, layer: seq<Hash>): (next: seq<Hash>)
    ensures |layer| <= 2 * |next| <= |layer| + 1
    ensures forall i :: 0 <= i < |next| ==> next[i] == Parent(h, layer, i)
  {
    seq((|layer| + 1) / 2, i requires 0 <= i < (|layer| + 1) / 2 => Parent(h, layer, i))
  }

  /** The layers from the leaves up to the root. */
  function Layers(h: PairHash, layer: seq<Hash>): (layers: seq<seq<Hash>>)
    ensures layers != [] && layers[0] == layer && |layers[|layers| - 1]| == if layer == [] then 0 else 1
    decreases |layer|
  {
    if |layer| <= 1 then [layer] else [layer] + Layers(h, NextLayer(h, layer))
  }

  /** The siblings on the way from position `pos` up to the root. A position without a sibling is
      read past the end of its layer. */
  function ProofFrom(h: PairHash, layer: seq<Hash>, pos: nat): Option<seq<Hash>>
    decreases |layer|
  {
    if |layer| == 1 then Some([])
    else if Sibling(pos) >= |layer| then None
    else
      var rest := ProofFrom(h, NextLayer(h, layer), pos / 2);
      if rest.None? then None else Some([layer[Sibling(pos)]] + rest.value)
  }

  function Sibling(pos: nat): nat {
    if pos % 2 == 0 then pos + 1 else pos - 1
  }

  /** What verification computes from a proof and a starting hash. */
  function Climb(h: PairHash, proof: seq<Hash>, x: Hash): Hash {
    if proof == [] then x else Climb(h, proof[1..], Node(h, x, proof[0]))
  }

  // ---------- The tree a list of leaves stands for ----------

  datatype Tree = Leaf(hash: Hash) | Branch(left: Tree, right: Tree)

  /** The largest power of two below `n`. */
  function Split(n: nat): (k: nat)
    requires n >= 2
    ensures 1 <= k < n <= 2 * k
  {
    DoubleUpTo(n, 1)
  }

  function DoubleUpTo(n: nat, k: nat): (r: nat)
    requires 1 <= k < n
    ensures k <= r < n <= 2 * r
    decreases n - k
  {
    if 2 * k < n then DoubleUpTo(n, 2 * k) else k
  }

  function Size(t: Tree): nat {
    match t
    case Leaf(_) => 1
    case Branch(l, r) => Size(l) + Size(r)
  }

  /** The left part is as large a full tree as possible, the right part holds the remaining leaves. */
  function TreeOf(leaves: seq<Hash>): (t: Tree)
    requires leaves != []
    ensures Size(t) == |leaves|
    decreases |leaves|
  {
    if |leaves| == 1 then Leaf(leaves[0])
    else Branch(TreeOf(leaves[..Split(|leaves|)]), TreeOf(leaves[Split(|leaves|)..]))
  }

  function Digest(h: PairHash, t: Tree): Hash {
    match t
    case Leaf(x) => x
    case Branch(l, r) => Node(h, Digest(h, l), Digest(h, r))
  }

  function LeafAt(t: Tree, i: nat): Hash {
    match t
    case Leaf(x) => x
    case Branch(l, r) => if i < Size(l) then LeafAt(l, i) else LeafAt(r, i - Size(l))
  }

  /** The digests of the subtrees beside the way from leaf `i` to the root, bottom first. */
  function SiblingPath(h: PairHash, t: Tree, i: nat): seq<Hash> {
    match t
    case Leaf(_) => []
    case Branch(l, r) =>
      if i < Size(l) then SiblingPath(h, l, i) + [Digest(h, r)]
      else SiblingPath(h, r, i - Size(l)) + [Digest(h, l)]
  }

  // ---------- Layers and trees ----------

  lemma {:induction false} DoubleTwice(n: nat, above: nat, k: nat)
    requires 1 <= k < above && n <= 2 * above <= n + 1
    ensures 2 * k < n && DoubleUpTo(n, 2 * k) == 2 * DoubleUpTo(above, k)
    decreases above - k
  {
    if 2 * k < above {
      DoubleTwice(n, above, 2 * k);
    }
  }

  lemma SplitDouble(n: nat, above: nat)
    requires n > 2 && n <= 2 * above <= n + 1
    ensures Split(n) == 2 * Split(above)
  {
    DoubleTwice(n, above, 1);
  }

  /** Halving a layer commutes with moving up. */
  lemma NextLayerHalves(h: PairHash, layer: seq<Hash>, next: seq<Hash>, m: nat)
    requires |layer| > 2 && next == NextLayer(h, layer) && m == Split(|next|)
    ensures Split(|layer|) == 2 * m < |layer|
    ensures next[..m] == NextLayer(h, layer[..2 * m]) && next[m..] == NextLayer(h, layer[2 * m..])
  {
    SplitDouble(|layer|, |next|);
  }

  lemma TreeSplits(leaves: seq<Hash>, k: nat)
    requires |leaves| >= 2 && k == Split(|leaves|)
    ensures TreeOf(leaves) == Branch(TreeOf(leaves[..k]), TreeOf(leaves[k..]))
  {
  }

  /** One layer up stands for a tree with the same digest. */
  lemma {:induction false} LayerDigest(h: PairHash, layer: seq<Hash>, next: seq<Hash>)
    requires layer != [] && next == NextLayer(h, layer)
    ensures Digest(h, TreeOf(layer)) == Digest(h, TreeOf(next))
    decreases |layer|
  {
    if |layer| == 2 {
      assert layer[..1] == [layer[0]] && layer[1..] == [layer[1]];
    } else if |layer| > 2 {
      var m := Split(|next|);
      NextLayerHalves(h, layer, next, m);
      LayerDigest(h, layer[..2 * m], next[..m]);
      LayerDigest(h, layer[2 * m..], next[m..]);
      TreeSplits(layer, 2 * m);
      TreeSplits(next, m);
    }
  }

  /** The last layer holds the digest of the tree that the leaves stand for. */
  lemma {:induction false} RootIsDigest(h: PairHash, leaves: seq<Hash>)
    requires leaves != []
    ensures var layers := Layers(h, leaves); layers[|layers| - 1][0] == Digest(h, TreeOf(leaves))
    decreases |leaves|
  {
    if |leaves| > 1 {
      LayerDigest(h, leaves, NextLayer(h, leaves));
      RootIsDigest(h, NextLayer(h, leaves));
    }
  }

  predicate HasSibling(n: nat, i: nat) {
    i % 2 == 1 || i + 1 < n
  }

  function Below(layer: seq<Hash>, i: nat): seq<Hash>
    requires i < |layer|
  {
    if HasSibling(|layer|, i) then [layer[Sibling(i)]] else []
  }

  lemma BelowLeft(layer: seq<Hash>, i: nat, m: nat)
    requires i < 2 * m <= |layer|
    ensures Below(layer, i) == Below(layer[..2 * m], i)
  {
    assert HasSibling(2 * m, i) && HasSibling(|layer|, i) && Sibling(i) < 2 * m;
  }

  lemma BelowRight(layer: seq<Hash>, i: nat, m: nat)
    requires 2 * m <= i < |layer|
    ensures Below(layer, i) == Below(layer[2 * m..], i - 2 * m)
  {
    assert (i - 2 * m) % 2 == i % 2;
    assert Sibling(i) == 2 * m + Sibling(i - 2 * m);
  }

  lemma PathOfPair(h: PairHash, layer: seq<Hash>, i: nat)
    requires i < |layer| == 2
    ensures SiblingPath(h, TreeOf(layer), i) == Below(layer, i)
  {
    assert layer[..1] == [layer[0]] && layer[1..] == [layer[1]];
    assert TreeOf(layer) == Branch(Leaf(layer[0]), Leaf(layer[1]));
  }

  ghost predicate PathContinues(h: PairHash, t: Tree, above: Tree, below: seq<Hash>, i: nat, j: nat) {
    SiblingPath(h, t, i) == below + SiblingPath(h, above, j)
  }

  lemma PathLeft(h: PairHash, l: Tree, r: Tree, l2: Tree, r2: Tree, below: seq<Hash>, i: nat, j: nat)
    requires PathContinues(h, l, l2, below, i, j) && Digest(h, r) == Digest(h, r2)
    requires i < Size(l) && j < Size(l2)
    ensures PathContinues(h, Branch(l, r), Branch(l2, r2), below, i, j)
  {
    Regroup(below, SiblingPath(h, l2, j), [Digest(h, r)]);
  }

  lemma PathRight(
    h: PairHash, l: Tree, r: Tree, l2: Tree, r2: Tree, below: seq<Hash>, i: nat, j: nat, i2: nat, j2: nat)
    requires i == Size(l) + i2 && j == Size(l2) + j2 && Digest(h, l) == Digest(h, l2)
    requires PathContinues(h, r, r2, below, i2, j2)
    ensures PathContinues(h, Branch(l, r), Branch(l2, r2), below, i, j)
  {
    Regroup(below, SiblingPath(h, r2, j2), [Digest(h, l)]);
  }

  /** One layer up the path is the same, but for the sibling on this layer if there is one. */
  lemma {:induction false} PathBelow(h: PairHash, layer: seq<Hash>, next: seq<Hash>, i: nat, j: nat)
    requires i < |layer| && 2 * j <= i <= 2 * j + 1 && next == NextLayer(h, layer)
    ensures PathContinues(h, TreeOf(layer), TreeOf(next), Below(layer, i), i, j)
    decreases |layer|
  {
    if |layer| == 1 {
      assert Below(layer, i) == [];
    } else if |layer| == 2 {
      PathOfPair(h, layer, i);
      assert SiblingPath(h, TreeOf(next), j) == [];
    } else {
      var m := Split(|next|);
      NextLayerHalves(h, layer, next, m);
      var left, right, left2, right2 := layer[..2 * m], layer[2 * m..], next[..m], next[m..];
      TreeSplits(layer, 2 * m);
      TreeSplits(next, m);
      if i < 2 * m {
        BelowLeft(layer, i, m);
        LayerDigest(h, right, right2);
        PathBelow(h, left, left2, i, j);
        PathLeft(h, TreeOf(left), TreeOf(right), TreeOf(left2), TreeOf(right2), Below(layer, i), i, j);
      } else {
        BelowRight(layer, i, m);
        LayerDigest(h, left, left2);
        var i2, j2 := i - 2 * m, j - m;
        PathBelow(h, right, right2, i2, j2);
        PathRight(h, TreeOf(left), TreeOf(right), TreeOf(left2), TreeOf(right2), Below(right, i2), i, j, i2, j2);
      }
    }
  }

  /** How many of `n` leaves, counted from the left, have a sibling on every layer. */
  function Provable(n: nat): (m: nat)
    ensures m <= n
  {
    if n <= 1 then n
    else
      var k := Split(n);
      if 2 * (n - k) <= k then k else k + Provable(n - k)
  }

  lemma ProvableSplits(n: nat, k: nat)
    requires n >= 2 && k == Split(n)
    ensures Provable(n) == if 2 * (n - k) <= k then k else k + Provable(n - k)
  {
  }

  /** The right part is too small for its level exactly if it is so one layer up. */
  lemma SmallAbove(r: nat, above: nat, m: nat)
    requires r >= 2 && r <= 2 * above <= r + 1 && r <= 2 * m && (m == 1 || m % 2 == 0)
    ensures r <= m <==> 2 * above <= m
  {
    if m != 1 {
      var q := m / 2;
      assert m == 2 * q;
    }
  }

  lemma SiblingOfRest(n: nat, i: nat, m: nat)
    requires 2 * m <= i < n
    ensures HasSibling(n, i) <==> HasSibling(n - 2 * m, i - 2 * m)
  {
  }

  lemma ProvableLeft(n: nat, above: nat, m: nat, i: nat, j: nat)
    requires n > 2 && n <= 2 * above <= n + 1 && 2 * j <= i <= 2 * j + 1
    requires m == Split(above) && 2 * m == Split(n) && i < 2 * m
    ensures i < Provable(n) && HasSibling(n, i) && j < Provable(above)
  {
    ProvableSplits(n, 2 * m);
    ProvableSplits(above, m);
  }

  lemma ProvableRight(n: nat, k: nat, i: nat)
    requires n >= 2 && k == Split(n) && k <= i < n
    ensures i < Provable(n) <==> 2 * (n - k) > k && i - k < Provable(n - k)
  {
    ProvableSplits(n, k);
  }

  /** A leaf is provable if it has a sibling and its parent is provable one layer up. */
  lemma {:induction false} ProvableBelow(n: nat, above: nat, i: nat, j: nat)
    requires i < n && n >= 2 && n <= 2 * above <= n + 1 && 2 * j <= i <= 2 * j + 1
    ensures i < Provable(n) <==> HasSibling(n, i) && j < Provable(above)
    decreases n
  {
    if n == 2 {
      assert Provable(2) == 2 && Provable(1) == 1 by { ProvableSplits(2, 1); }
    } else {
      var m := Split(above);
      SplitDouble(n, above);
      if i < 2 * m {
        ProvableLeft(n, above, m, i, j);
      } else {
        if n - 2 * m > 1 {
          ProvableBelow(n - 2 * m, above - m, i - 2 * m, j - m);
        }
        ProvableBelowRight(n, above, m, i, j);
      }
    }
  }

  lemma ProvableBelowRight(n: nat, above: nat, m: nat, i: nat, j: nat)
    requires n > 2 && n <= 2 * above <= n + 1 && 2 * j <= i <= 2 * j + 1
    requires m == Split(above) && 2 * m == Split(n) && 2 * m <= i < n
    requires n - 2 * m > 1 ==>
      (i - 2 * m < Provable(n - 2 * m) <==> HasSibling(n - 2 * m, i - 2 * m) && j - m < Provable(above - m))
    ensures i < Provable(n) <==> HasSibling(n, i) && j < Provable(above)
  {
    ProvableRight(n, 2 * m, i);
    ProvableRight(above, m, j);
    SiblingOfRest(n, i, m);
    if n - 2 * m > 1 {
      SplitEven(above);
      SmallAbove(n - 2 * m, above - m, m);
    }
  }

  lemma {:induction false} DoubleEven(n: nat, k: nat)
    requires 1 <= k < n && k % 2 == 0
    ensures DoubleUpTo(n, k) % 2 == 0
    decreases n - k
  {
    if 2 * k < n {
      TwiceEven(k);
      DoubleEven(n, 2 * k);
    }
  }

  lemma TwiceEven(k: nat)
    ensures (2 * k) % 2 == 0
  {
  }

  lemma SplitEven(n: nat)
    requires n >= 2
    ensures Split(n) == 1 || Split(n) % 2 == 0
  {
    if n > 2 {
      DoubleEven(n, 2);
    }
  }

  /** A proof is read from within the layers exactly for the provable leaves, and it is then the path
      of siblings in the tree. */
  lemma {:induction false} ProofIsSiblingPath(h: PairHash, leaves: seq<Hash>, i: nat)
    requires i < |leaves|
    ensures ProofFrom(h, leaves, i) == if i < Provable(|leaves|) then Some(SiblingPath(h, TreeOf(leaves), i)) else None
    decreases |leaves|
  {
    if |leaves| > 1 {
      PathBelow(h, leaves, NextLayer(h, leaves), i, i / 2);
      ProvableBelow(|leaves|, |NextLayer(h, leaves)|, i, i / 2);
      ProofIsSiblingPath(h, NextLayer(h, leaves), i / 2);
    }
  }

  function Power2(e: nat): (p: nat)
    ensures p >= 1
  {
    if e == 0 then 1 else 2 * Power2(e - 1)
  }

  ghost predicate PowerOfTwo(n: nat) {
    exists e: nat :: n == Power2(e)
  }

  lemma {:induction false} Power2Grows(d: nat, e: nat)
    requires d < e
    ensures 2 * Power2(d) <= Power2(e)
  {
    if d + 1 < e {
      Power2Grows(d, e - 1);
    }
  }

  lemma {:induction false} DoublePower(n: nat, e: nat) returns (f: nat)
    requires Power2(e) < n
    ensures DoubleUpTo(n, Power2(e)) == Power2(f)
    decreases n - Power2(e)
  {
    assert Power2(e + 1) == 2 * Power2(e);
    if Power2(e + 1) < n {
      f := DoublePower(n, e + 1);
    } else {
      f := e;
    }
  }

  /** Between a power of two and its double there is no other. */
  lemma OnePower(f: nat, n: nat)
    requires Power2(f) < 2 * n && n <= Power2(f)
    ensures PowerOfTwo(n) <==> n == Power2(f)
  {
    if PowerOfTwo(n) {
      var e: nat :| n == Power2(e);
      if e < f {
        Power2Grows(e, f);
      } else if f < e {
        Power2Grows(f, e);
      }
    }
  }

  /** Every leaf has a proof if and only if the number of leaves is a power of two. */
  lemma {:induction false} AllProvableIff(n: nat)
    requires n > 0
    ensures Provable(n) == n <==> PowerOfTwo(n)
  {
    if n == 1 {
      assert Power2(0) == 1;
    } else {
      var k := Split(n);
      var f := DoublePower(n, 0);
      assert k == Power2(f) && Power2(f + 1) == 2 * k;
      ProvableSplits(n, k);
      AllProvableIff(n - k);
      OnePower(f + 1, n);
      if 2 * (n - k) > k {
        OnePower(f, n - k);
      }
    }
  }

  // ---------- Completeness and soundness of verification ----------

  lemma {:induction false} ClimbAppend(h: PairHash, p: seq<Hash>, y: Hash, x: Hash)
    ensures Climb(h, p + [y], x) == Node(h, Climb(h, p, x), y)
  {
    if p == [] {
      assert [y][1..] == [];
    } else {
      assert (p + [y])[1..] == p[1..] + [y];
      ClimbAppend(h, p[1..], y, Node(h, x, p[0]));
    }
  }

  /** Completeness: the sibling path of a leaf leads to the digest of the tree. */
  lemma {:induction false} PathClimbs(h: PairHash, t: Tree, i: nat)
    ensures Climb(h, SiblingPath(h, t, i), LeafAt(t, i)) == Digest(h, t)
  {
    if t.Branch? {
      if i < Size(t.left) {
        PathClimbs(h, t.left, i);
        ClimbAppend(h, SiblingPath(h, t.left, i), Digest(h, t.right), LeafAt(t, i));
      } else {
        PathClimbs(h, t.right, i - Size(t.left));
        ClimbAppend(h, SiblingPath(h, t.right, i - Size(t.left)), Digest(h, t.left), LeafAt(t, i));
      }
    }
  }

  /** The leaves keep their order. */
  lemma {:induction false} LeafOfTree(leaves: seq<Hash>, i: nat)
    requires i < |leaves|
    ensures LeafAt(TreeOf(leaves), i) == leaves[i]
    decreases |leaves|
  {
    if |leaves| > 1 {
      var k := Split(|leaves|);
      if i < k {
        LeafOfTree(leaves[..k], i);
      } else {
        LeafOfTree(leaves[k..], i - k);
      }
    }
  }

  /** The pair hash has no collisions. */
  ghost predicate Injective(h: PairHash) {
    forall a, b, c, d :: a <= b && c <= d && h(a, b) == h(c, d) ==> a == c && b == d
  }

  /** No leaf is the hash of a pair. */
  ghost predicate Separated(h: PairHash, t: Tree) {
    match t
    case Leaf(x) => forall a, b :: a <= b ==> h(a, b) != x
    case Branch(l, r) => Separated(h, l) && Separated(h, r)
  }

  /** There is a subtree with digest `x` whose sibling subtrees, bottom first, have the digests `p`. */
  predicate Opens(h: PairHash, t: Tree, p: seq<Hash>, x: Hash)
    decreases t
  {
    if p == [] then Digest(h, t) == x
    else
      var last, rest := p[|p| - 1], p[..|p| - 1];
      && t.Branch?
      && (|| (Digest(h, t.right) == last && Opens(h, t.left, rest, x))
          || (Digest(h, t.left) == last && Opens(h, t.right, rest, x)))
  }

  /** Soundness: with hash functions that do not collide, a proof is accepted if and only if it is the
      sibling path of a subtree with the given digest. */
  lemma {:induction false} AcceptedIff(h: PairHash, t: Tree, p: seq<Hash>, x: Hash)
    requires Injective(h) && Separated(h, t)
    ensures Climb(h, p, x) == Digest(h, t) <==> Opens(h, t, p, x)
    decreases t
  {
    if p != [] {
      var last, rest := p[|p| - 1], p[..|p| - 1];
      assert p == rest + [last];
      ClimbAppend(h, rest, last, x);
      if t.Branch? {
        AcceptedIff(h, t.left, rest, x);
        AcceptedIff(h, t.right, rest, x);
      }
    }
  }

  function Extend(p: seq<Hash>, rest: Option<seq<Hash>>): Option<seq<Hash>> {
    if rest.None? then None else Some(p + rest.value)
  }

  lemma NodeInjective(h: PairHash, a: Hash, b: Hash, c: Hash, d: Hash)
    requires Injective(h) && Node(h, a, b) == Node(h, c, d)
    ensures (a == c && b == d) || (a == d && b == c)
  {
  }

  /** All leaves are at depth `e`. */
  predicate Full(t: Tree, e: nat) {
    if e == 0 then t.Leaf? else t.Branch? && Full(t.left, e - 1) && Full(t.right, e - 1)
  }

  lemma SplitOfPower(e: nat)
    requires e > 0
    ensures Power2(e) >= 2 && Split(Power2(e)) == Power2(e - 1)
  {
    var f := DoublePower(Power2(e), 0);
    if f < e - 1 {
      Power2Grows(f, e - 1);
    } else if e - 1 < f {
      Power2Grows(e - 1, f);
    }
  }

  lemma {:induction false} FullTree(leaves: seq<Hash>, e: nat)
    requires |leaves| == Power2(e)
    ensures Full(TreeOf(leaves), e)
    decreases e
  {
    if e > 0 {
      var k := Power2(e - 1);
      SplitOfPower(e);
      TreeSplits(leaves, k);
      FullTree(leaves[..k], e - 1);
      FullTree(leaves[k..], e - 1);
    }
  }

  /** Among 2^e leaves a proof of length e that is accepted belongs to a leaf, and is its sibling path:
      for this only the pair hash must not collide. */
  lemma {:induction false} FullProofSound(h: PairHash, t: Tree, e: nat, p: seq<Hash>, x: Hash) returns (i: nat)
    requires Injective(h) && Full(t, e) && |p| == e && Climb(h, p, x) == Digest(h, t)
    ensures i < Size(t) && LeafAt(t, i) == x && SiblingPath(h, t, i) == p
  {
    if e == 0 {
      i := 0;
    } else {
      var last, rest := p[e - 1], p[..e - 1];
      assert p == rest + [last];
      ClimbAppend(h, rest, last, x);
      NodeInjective(h, Climb(h, rest, x), last, Digest(h, t.left), Digest(h, t.right));
      if Climb(h, rest, x) == Digest(h, t.left) && last == Digest(h, t.right) {
        i := FullProofSound(h, t.left, e - 1, rest, x);
      } else {
        var j := FullProofSound(h, t.right, e - 1, rest, x);
        i := Size(t.left) + j;
      }
    }
  }

  lemma ProofStep(h: PairHash, layer: seq<Hash>, pos: nat, p: seq<Hash>)
    requires |layer| != 1
    ensures Sibling(pos) / 2 == pos / 2
    ensures Extend(p, ProofFrom(h, layer, pos)) ==
      if Sibling(pos) >= |layer| then None
      else Extend(p + [layer[Sibling(pos)]], ProofFrom(h, NextLayer(h, layer), pos / 2))
  {
    if Sibling(pos) < |layer| {
      var rest := ProofFrom(h, NextLayer(h, layer), pos / 2);
      if rest.Some? {
        Regroup(p, [layer[Sibling(pos)]], rest.value);
      }
    }
  }

  ghost predicate LayersFrom(h: PairHash, tree: seq<seq<Hash>>, i: nat)
    requires i < |tree|
  {
    tree[i..] == Layers(h, tree[i])
  }

  lemma LayersStep(h: PairHash, tree: seq<seq<Hash>>, i: nat)
    requires i < |tree| && LayersFrom(h, tree, i) && |tree[i]| > 1
    ensures i + 1 < |tree| && tree[i + 1] == NextLayer(h, tree[i]) && LayersFrom(h, tree, i + 1)
  {
    var above := Layers(h, NextLayer(h, tree[i]));
    assert tree[i..][1..] == above;
    assert tree[i + 1..] == above && tree[i + 1] == above[0];
  }

  // ---------- The class ----------

  class MerkleTree {
    const leafHash: Hash -> Hash
    const pairHash: PairHash
    var tree: seq<seq<Hash>>

    ghost predicate Valid()
      reads this
    {
      tree != [] && tree == Layers(pairHash, tree[0])
    }

    constructor (leafHash: Hash -> Hash, pairHash: PairHash, leaves: seq<Hash>)
      ensures Valid() && this.leafHash == leafHash && this.pairHash == pairHash
      ensures tree[0] == seq(|leaves|, i requires 0 <= i < |leaves| => leafHash(leaves[i]))
    {
      this.leafHash := leafHash;
      this.pairHash := pairHash;
      var base: seq<Hash> := [];
      for i := 0 to |leaves|
        invariant |base| == i && forall j :: 0 <= j < i ==> base[j] == leafHash(leaves[j])
      {
        base := base + [leafHash(leaves[i])];
      }
      var layers: seq<seq<Hash>> := [];
      var last := base;
      while |last| > 1
        invariant layers + Layers(pairHash, last) == Layers(pairHash, base)
        decreases |last|
      {
        assert layers + Layers(pairHash, last) == (layers + [last]) + Layers(pairHash, NextLayer(pairHash, last));
        layers := layers + [last];
        last := NewLayer(pairHash, last);
      }
      tree := layers + [last];
    }

    method GetRoot() returns (root: Hash)
      requires Valid()
      ensures root == if tree[0] == [] then 0 else Digest(pairHash, TreeOf(tree[0]))
    {
      if tree[|tree| - 1] == [] {
        return 0;
      }
      RootIsDigest(pairHash, tree[0]);
      root := tree[|tree| - 1][0];
    }

    /** An index past the leaves yields the empty proof; None stands for a read past the end of a layer. */
    method GetProof(leafIndex: nat) returns (proof: Option<seq<Hash>>)
      requires Valid() && leafIndex < TWO_TO_64 && |tree[0]| <= TWO_TO_64
      ensures proof ==
        if tree[0] == [] then None
        else if leafIndex >= |tree[0]| then Some([])
        else if leafIndex < Provable(|tree[0]|) then Some(SiblingPath(pairHash, TreeOf(tree[0]), leafIndex))
        else None
    {
      if leafIndex > Wrap64(|tree[0]| - 1) {
        return Some([]);
      }
      proof := WalkUp(pairHash, tree, leafIndex);
      if tree[0] != [] {
        ProofIsSiblingPath(pairHash, tree[0], leafIndex);
      }
    }
  }

  /** Collects siblings layer by layer and stops before the layer of the root. */
  method WalkUp(h: PairHash, tree: seq<seq<Hash>>, leafIndex: nat) returns (proof: Option<seq<Hash>>)
    requires tree != [] && tree == Layers(h, tree[0])
    ensures proof == ProofFrom(h, tree[0], leafIndex)
  {
    var ret: seq<Hash>, pos: nat, i := [], leafIndex, 0;
    ghost var goal := ProofFrom(h, tree[0], leafIndex);
    assert goal.Some? ==> ret + goal.value == goal.value;
    while i < |tree|
      invariant i < |tree| && LayersFrom(h, tree, i)
      invariant Extend(ret, ProofFrom(h, tree[i], pos)) == goal
    {
      var layer := tree[i];
      if |layer| == 1 {
        break;
      }
      ProofStep(h, layer, pos, ret);
      pos := Sibling(pos);
      if pos >= |layer| {
        return None;
      }
      LayersStep(h, tree, i);
      ret := ret + [layer[pos]];
      pos := pos / 2;
      i := i + 1;
    }
    assert ret + [] == ret;
    return Some(ret);
  }

  method NewLayer(h: PairHash, layer: seq<Hash>) returns (ret: seq<Hash>)
    ensures ret == NextLayer(h, layer)
    ensures |ret| == (|layer| + 1) / 2
    ensures forall i :: 0 <= i < |layer| / 2 ==>
      ret[i] == if layer[2 * i] <= layer[2 * i + 1] then h(layer[2 * i], layer[2 * i + 1])
                else h(layer[2 * i + 1], layer[2 * i])
    ensures |layer| % 2 == 1 ==> ret[|layer| / 2] == layer[|layer| - 1]
  {
    ret := [];
    var i := 0;
    while i < |layer|
      invariant i == 2 * |ret| <= |layer| + 1
      invariant forall j :: 0 <= j < |ret| ==> ret[j] == Parent(h, layer, j)
    {
      ret := ret + [if i + 1 < |layer| then Node(h, layer[i], layer[i + 1]) else layer[i]];
      i := i + 2;
    }
  }

  method Verify(h: PairHash, proof: seq<Hash>, leaf: Hash, root: Hash) returns (ok: bool)
    ensures ok <==> Climb(h, proof, leaf) == root
  {
    var computed := leaf;
    for i := 0 to |proof|
      invariant Climb(h, proof[i..], computed) == Climb(h, proof, leaf)
    {
      computed := Node(h, computed, proof[i]);
    }
    ok := computed == root;
  }

  /** A leaf whose proof can be read is accepted against the root of its tree. */
  method ProveAndVerify(t: MerkleTree, i: nat) returns (ok: bool)
    requires t.Valid() && i < Provable(|t.tree[0]|) && |t.tree[0]| <= TWO_TO_64
    ensures ok
  {
    var proof := t.GetProof(i);
    var root := t.GetRoot();
    PathClimbs(t.pairHash, TreeOf(t.tree[0]), i);
    LeafOfTree(t.tree[0], i);
    ok := Verify(t.pairHash, proof.value, t.tree[0][i], root);
  }
}
