/** The Merkle root a batch declares: leaves tagged with their index, pairs hashed in
    sorted order, an odd node paired with itself. */
module Merkle {
  import opened Machine

  const HASH_SIZE: nat := 32

  /** The hash, of which nothing is known but the length of its output. */
  type Hash = Bytes -> Digest

  type Digest = d: Bytes | |d| == HASH_SIZE witness seq(HASH_SIZE, i => 0)

  // ------------------------------------------------------------------ text

  function HexDigit(v: nat): byte
    requires v < 16
  {
    if v < 10 then 0x30 + v else 0x61 + v - 10
  }

  /** `hex.EncodeToString`. */
  function Hex(b: Bytes): (s: Bytes)
    ensures |s| == 2 * |b|
  {
    if b == [] then [] else [HexDigit(b[0] / 16), HexDigit(b[0] % 16)] + Hex(b[1..])
  }

  lemma {:induction false} HexInjective(a: Bytes, b: Bytes)
    requires Hex(a) == Hex(b)
    ensures a == b
  {
    assert |a| == |b|;
    if a != [] {
      var s, t := Hex(a), Hex(b);
      assert s[0] == t[0] && s[1] == t[1] && s[2..] == t[2..];
      assert s[2..] == Hex(a[1..]) && t[2..] == Hex(b[1..]);
      HexInjective(a[1..], b[1..]);
      assert a == [a[0]] + a[1..] && b == [b[0]] + b[1..];
    }
  }

  /** `strings.ToLower`, byte by byte. Letters outside ASCII never become hex digits. */
  function ToLower(s: Bytes): (t: Bytes)
    ensures |t| == |s|
  {
    seq(|s|, i requires 0 <= i < |s| => if 0x41 <= s[i] <= 0x5A then s[i] + 0x20 else s[i])
  }

  /** `strings.TrimPrefix(s, "0x")`. */
  function TrimHexPrefix(s: Bytes): Bytes {
    if |s| >= 2 && s[0] == 0x30 && s[1] == 0x78 then s[2..] else s
  }

  function Normalized(declared: Bytes): Bytes {
    TrimHexPrefix(ToLower(declared))
  }

  // ------------------------------------------------------------------ the tree

  /** `binary.BigEndian.PutUint64`. */
  function BigEndian(v: nat, size: nat): (s: Bytes)
    ensures |s| == size
  {
    if size == 0 then [] else BigEndian(v / 0x100, size - 1) + [v % 0x100]
  }

  function Leaf(index: nat, item: Bytes): Bytes {
    BigEndian(index, 8) + item
  }

  function Leaves(items: seq<Bytes>): (ls: seq<Bytes>)
    ensures |ls| == |items|
  {
    seq(|items|, i requires 0 <= i < |items| => Leaf(i, items[i]))
  }

  function Pair(a: Digest, b: Digest): (p: Bytes)
    ensures |p| == 2 * HASH_SIZE
  {
    if BytesLe(Hex(a), Hex(b)) then a + b else b + a
  }

  /** The node paired with the one at `2 * i`: itself at an odd end. */
  function Partner(xs: seq<Digest>, i: nat): Digest
    requires 2 * i < |xs|
  {
    if 2 * i + 1 < |xs| then xs[2 * i + 1] else xs[2 * i]
  }

  function PairAt(xs: seq<Digest>, i: nat): Bytes
    requires 2 * i < |xs|
  {
    Pair(xs[2 * i], Partner(xs, i))
  }

  /** What is hashed to get the nodes above `xs`. */
  function Pairs(xs: seq<Digest>): (ps: seq<Bytes>)
    ensures |ps| == (|xs| + 1) / 2
  {
    seq((|xs| + 1) / 2, i requires 0 <= i < (|xs| + 1) / 2 => PairAt(xs, i))
  }

  function HashAll(h: Hash, ps: seq<Bytes>): (xs: seq<Digest>)
    ensures |xs| == |ps|
  {
    Mapped<Bytes, Digest>(h, ps)
  }

  function Root(h: Hash, xs: seq<Digest>): Digest
    requires xs != []
    decreases |xs|
  {
    if |xs| == 1 then xs[0] else Root(h, HashAll(h, Pairs(xs)))
  }

  function Depth(n: nat): nat {
    if n <= 1 then 0 else 1 + Depth((n + 1) / 2)
  }

  function ItemsRoot(h: Hash, items: seq<Bytes>): Digest
    requires items != []
  {
    Root(h, HashAll(h, Leaves(items)))
  }

  function Members<T>(xs: seq<T>): set<T> {
    set x | x in xs
  }

  /** Everything hashed above the nodes `xs`. */
  function Hashed(xs: seq<Digest>, h: Hash): set<Bytes>
    decreases |xs|
  {
    if |xs| <= 1 then {} else Members(Pairs(xs)) + Hashed(HashAll(h, Pairs(xs)), h)
  }

  /** Everything hashed to get the root of `items`. */
  function Preimages(h: Hash, items: seq<Bytes>): set<Bytes> {
    Members(Leaves(items)) + Hashed(HashAll(h, Leaves(items)), h)
  }

  ghost predicate Collision(h: Hash, ps: set<Bytes>) {
    exists p, q :: p in ps && q in ps && p != q && h(p) == h(q)
  }

  lemma RootStep(h: Hash, xs: seq<Digest>)
    requires |xs| > 1
    ensures Root(h, xs) == Root(h, HashAll(h, Pairs(xs)))
  {
  }

  // ------------------------------------------------------------------ methods

  method HashPair(h: Hash, a: Digest, b: Digest) returns (r: Digest)
    ensures r == h(Pair(a, b))
  {
    if BytesLe(Hex(a), Hex(b)) {
      r := h(a + b);
    } else {
      r := h(b + a);
    }
  }

  method ComputeMerkleRoot(h: Hash, leaves: seq<Digest>) returns (root: Digest)
    requires leaves != []
    ensures root == Root(h, leaves)
    decreases |leaves|
  {
    if |leaves| == 1 {
      return leaves[0];
    }
    hide Pair, Root;
    var next: seq<Digest> := [];
    ghost var level := HashAll(h, Pairs(leaves));
    var i := 0;
    while i < |leaves|
      invariant i == 2 * |next| && |next| <= |level|
      invariant next == level[..|next|]
    {
      var node;
      if i + 1 < |leaves| {
        node := HashPair(h, leaves[i], leaves[i + 1]);
      } else {
        node := HashPair(h, leaves[i], leaves[i]);
      }
      assert node == h(PairAt(leaves, |next|)) == level[|next|];
      next := next + [node];
      i := i + 2;
    }
    assert next == level;
    root := ComputeMerkleRoot(h, next);
    RootStep(h, leaves);
  }

  /** Whether `verifyMerkleRoot` accepts. */
  predicate Accepts(h: Hash, items: seq<Bytes>, declared: Bytes) {
    items != [] && Hex(ItemsRoot(h, items)) == Normalized(declared)
  }

  method VerifyMerkleRoot(h: Hash, items: seq<Bytes>, declared: Bytes) returns (ok: bool)
    ensures ok == Accepts(h, items, declared)
  {
    if |items| == 0 {
      return false;
    }
    var leaves: seq<Digest> := [];
    for i := 0 to |items|
      invariant leaves == HashAll(h, Leaves(items))[..i]
    {
      leaves := leaves + [h(BigEndian(i, 8) + items[i])];
    }
    assert leaves == HashAll(h, Leaves(items));
    var root := ComputeMerkleRoot(h, leaves);
    ok := Hex(root) == Normalized(declared);
  }

  // ------------------------------------------------------------------ levels

  /** A pair determines its two nodes up to their order. */
  lemma PairHalves(a: Digest, b: Digest, c: Digest, d: Digest)
    requires Pair(a, b) == Pair(c, d)
    ensures {a, b} == {c, d}
  {
    var p, q := Pair(a, b), Pair(c, d);
    var n := |a|;
    assert p[..n] == (if BytesLe(Hex(a), Hex(b)) then a else b) && p[n..] == (if BytesLe(Hex(a), Hex(b)) then b else a);
    assert q[..n] == (if BytesLe(Hex(c), Hex(d)) then c else d) && q[n..] == (if BytesLe(Hex(c), Hex(d)) then d else c);
  }

  /** Preimages with the same hashes are the same when no two of them collide. */
  lemma SameImages(h: Hash, ps: seq<Bytes>, qs: seq<Bytes>, all: set<Bytes>)
    requires Members(HashAll(h, ps)) == Members(HashAll(h, qs))
    requires Members(ps) + Members(qs) <= all && !Collision(h, all)
    ensures Members(ps) == Members(qs)
  {
    SameImagesHalf(h, ps, qs, all);
    SameImagesHalf(h, qs, ps, all);
  }

  lemma SameImagesHalf(h: Hash, ps: seq<Bytes>, qs: seq<Bytes>, all: set<Bytes>)
    requires Members(HashAll(h, ps)) <= Members(HashAll(h, qs))
    requires Members(ps) + Members(qs) <= all && !Collision(h, all)
    ensures Members(ps) <= Members(qs)
  {
    forall p | p in ps
      ensures p in qs
    {
      var i :| 0 <= i < |ps| && ps[i] == p;
      assert HashAll(h, ps)[i] == h(p);
      assert h(p) in Members(HashAll(h, qs));
      var j :| 0 <= j < |qs| && HashAll(h, qs)[j] == h(p);
      assert h(qs[j]) == h(p) && qs[j] in all && p in all;
    }
  }

  /** Levels with the same pairs have the same nodes. */
  lemma SamePairs(xs: seq<Digest>, ys: seq<Digest>)
    requires Members(Pairs(xs)) <= Members(Pairs(ys))
    ensures Members(xs) <= Members(ys)
  {
    hide Pair;
    forall x | x in xs
      ensures x in ys
    {
      var k :| 0 <= k < |xs| && xs[k] == x;
      var i := k / 2;
      var p := Pairs(xs)[i];
      assert p == PairAt(xs, i) && p in Members(Pairs(ys));
      var j :| 0 <= j < |Pairs(ys)| && Pairs(ys)[j] == p;
      assert p == PairAt(ys, j);
      PairHalves(xs[2 * i], Partner(xs, i), ys[2 * j], Partner(ys, j));
      assert x in {xs[2 * i], Partner(xs, i)};
    }
  }

  /** One level down: equal sets of nodes come from equal sets of children. */
  lemma LevelDown(h: Hash, xs: seq<Digest>, ys: seq<Digest>, all: set<Bytes>)
    requires Members(HashAll(h, Pairs(xs))) == Members(HashAll(h, Pairs(ys)))
    requires Members(Pairs(xs)) + Members(Pairs(ys)) <= all && !Collision(h, all)
    ensures Members(xs) == Members(ys)
  {
    SameImages(h, Pairs(xs), Pairs(ys), all);
    SamePairs(xs, ys);
    SamePairs(ys, xs);
  }

  /** Trees of the same depth with the same root have the same set of nodes at the bottom. */
  lemma {:induction false} SameBottom(h: Hash, xs: seq<Digest>, ys: seq<Digest>, all: set<Bytes>)
    requires xs != [] && ys != []
    requires Depth(|xs|) == Depth(|ys|) && Root(h, xs) == Root(h, ys)
    requires Hashed(xs, h) + Hashed(ys, h) <= all && !Collision(h, all)
    ensures Members(xs) == Members(ys)
    decreases |xs|
  {
    hide Collision, Pairs, HashAll;
    if |xs| > 1 {
      var xs', ys' := HashAll(h, Pairs(xs)), HashAll(h, Pairs(ys));
      SameBottom(h, xs', ys', all);
      LevelDown(h, xs, ys, all);
    }
  }

  // ------------------------------------------------------------------ leaves

  lemma {:induction false} BigEndianInjective(a: nat, b: nat, size: nat)
    requires BigEndian(a, size) == BigEndian(b, size)
    requires a < Pow2(8 * size) && b < Pow2(8 * size)
    ensures a == b
  {
    if size > 0 {
      var s, t := BigEndian(a, size), BigEndian(b, size);
      assert s[size - 1] == t[size - 1] && s[..size - 1] == t[..size - 1];
      assert s[..size - 1] == BigEndian(a / 0x100, size - 1) && t[..size - 1] == BigEndian(b / 0x100, size - 1);
      Pow2Add(8, 8 * (size - 1));
      assert Pow2(8) == 0x100;
      BigEndianInjective(a / 0x100, b / 0x100, size - 1);
    } else {
      assert Pow2(0) == 1;
    }
  }

  lemma LeafInjective(i: nat, a: Bytes, j: nat, b: Bytes)
    requires i < TWO_63 && j < TWO_63 && Leaf(i, a) == Leaf(j, b)
    ensures i == j && a == b
  {
    assert Leaf(i, a)[..8] == BigEndian(i, 8) && Leaf(i, a)[8..] == a;
    assert Leaf(j, b)[..8] == BigEndian(j, 8) && Leaf(j, b)[8..] == b;
    Pow2Widths();
    BigEndianInjective(i, j, 8);
  }

  /** The index tags turn a set of leaves back into a sequence. */
  lemma LeafTaken(a: seq<Bytes>, b: seq<Bytes>, i: nat)
    requires |a| < TWO_63 && |b| < TWO_63 && Members(Leaves(a)) <= Members(Leaves(b)) && i < |a|
    ensures i < |b| && a[i] == b[i]
  {
    hide Leaf;
    assert Leaves(a)[i] in Members(Leaves(a));
    var j :| 0 <= j < |b| && Leaves(b)[j] == Leaves(a)[i];
    LeafInjective(i, a[i], j, b[j]);
  }

  lemma SameLeaves(a: seq<Bytes>, b: seq<Bytes>)
    requires |a| < TWO_63 && |b| < TWO_63 && Members(Leaves(a)) <= Members(Leaves(b))
    ensures |a| <= |b| && a == b[..|a|]
  {
    forall i | 0 <= i < |a|
      ensures i < |b| && a[i] == b[i]
    {
      LeafTaken(a, b, i);
    }
    if |a| > |b| {
      LeafTaken(a, b, |b|);
    }
  }

  // ------------------------------------------------------------------ binding

  /** Batches of equal depth: the same root means the same items in the same order, or two
      of the byte strings hashed collide. */
  lemma EqualDepthBinding(h: Hash, a: seq<Bytes>, b: seq<Bytes>)
    requires 0 < |a| < TWO_63 && 0 < |b| < TWO_63 && Depth(|a|) == Depth(|b|)
    requires ItemsRoot(h, a) == ItemsRoot(h, b)
    ensures a == b || Collision(h, Preimages(h, a) + Preimages(h, b))
  {
    hide Collision, Leaves, HashAll, Hashed, Root, Depth;
    var all := Preimages(h, a) + Preimages(h, b);
    if !Collision(h, all) {
      var xs, ys := HashAll(h, Leaves(a)), HashAll(h, Leaves(b));
      SameBottom(h, xs, ys, all);
      SameImages(h, Leaves(a), Leaves(b), all);
      SameLeaves(a, b);
      SameLeaves(b, a);
      assert |a| == |b| && b[..|a|] == b;
    }
  }

  /** Walking a deeper tree down to the level of the shallower one's leaves. */
  lemma {:induction false} ShallowBottom(h: Hash, xs: seq<Digest>, ys: seq<Digest>, all: set<Bytes>)
    requires xs != [] && ys != []
    requires Depth(|xs|) < Depth(|ys|) && Root(h, xs) == Root(h, ys)
    requires Hashed(xs, h) + Hashed(ys, h) <= all && !Collision(h, all)
    ensures exists qs :: Inner(qs, all) && Members(xs) == Members(HashAll(h, qs))
    decreases |ys|
  {
    hide Collision, HashAll;
    var qs := Pairs(ys);
    var up := HashAll(h, qs);
    PairsAreInner(ys, all);
    if Depth(|xs|) == Depth(|up|) {
      SameBottom(h, xs, up, all);
    } else {
      ShallowBottom(h, xs, up, all);
    }
  }

  lemma PairsAreInner(ys: seq<Digest>, all: set<Bytes>)
    requires Members(Pairs(ys)) <= all
    ensures Inner(Pairs(ys), all)
  {
    forall q | q in Pairs(ys)
      ensures |q| == 2 * HASH_SIZE
    {
      var j :| 0 <= j < |Pairs(ys)| && Pairs(ys)[j] == q;
      assert q == PairAt(ys, j);
    }
  }

  /** Preimages of inner nodes: two hashes each. */
  ghost predicate Inner(qs: seq<Bytes>, all: set<Bytes>) {
    Members(qs) <= all && forall q :: q in qs ==> |q| == 2 * HASH_SIZE
  }

  /** The number of bytes that, after an index tag, makes a leaf as long as a pair. */
  const TWIN_SIZE: nat := 56

  lemma LeafSizes(a: seq<Bytes>, qs: seq<Bytes>, all: set<Bytes>)
    requires Inner(qs, all) && Members(Leaves(a)) <= Members(qs)
    ensures forall i :: 0 <= i < |a| ==> |a[i]| == TWIN_SIZE
  {
    forall i | 0 <= i < |a|
      ensures |a[i]| == TWIN_SIZE
    {
      assert Leaves(a)[i] in Members(Leaves(a)) && |Leaves(a)[i]| == 8 + |a[i]|;
    }
  }

  /** Batches of different depths with the same root collide, unless every item of the
      shallower one has exactly 56 bytes. */
  lemma ShallowBinding(h: Hash, a: seq<Bytes>, b: seq<Bytes>)
    requires 0 < |a| < TWO_63 && 0 < |b| < TWO_63 && Depth(|a|) < Depth(|b|)
    requires ItemsRoot(h, a) == ItemsRoot(h, b)
    ensures (forall i :: 0 <= i < |a| ==> |a[i]| == TWIN_SIZE)
         || Collision(h, Preimages(h, a) + Preimages(h, b))
  {
    hide Collision, Leaves, HashAll, Hashed, Root, Depth;
    var all := Preimages(h, a) + Preimages(h, b);
    if !Collision(h, all) {
      var xs, ys := HashAll(h, Leaves(a)), HashAll(h, Leaves(b));
      ShallowBottom(h, xs, ys, all);
      var qs :| Inner(qs, all) && Members(xs) == Members(HashAll(h, qs));
      SameImages(h, Leaves(a), qs, all);
      LeafSizes(a, qs, all);
    }
  }

  /** Two batches accepted for the same declared root, whatever its letter case and prefix,
      are the same batch, or two byte strings hashed for them collide, or the shallower one
      consists of items of exactly 56 bytes. */
  lemma AcceptedBinding(h: Hash, a: seq<Bytes>, b: seq<Bytes>, declaredA: Bytes, declaredB: Bytes)
    requires |a| < TWO_63 && |b| < TWO_63
    requires Accepts(h, a, declaredA) && Accepts(h, b, declaredB)
    requires Normalized(declaredA) == Normalized(declaredB)
    ensures || a == b
            || Collision(h, Preimages(h, a) + Preimages(h, b))
            || (Depth(|a|) < Depth(|b|) && forall i :: 0 <= i < |a| ==> |a[i]| == TWIN_SIZE)
            || (Depth(|b|) < Depth(|a|) && forall i :: 0 <= i < |b| ==> |b[i]| == TWIN_SIZE)
  {
    HexInjective(ItemsRoot(h, a), ItemsRoot(h, b));
    if Depth(|a|) == Depth(|b|) {
      EqualDepthBinding(h, a, b);
    } else if Depth(|a|) < Depth(|b|) {
      ShallowBinding(h, a, b);
    } else {
      ShallowBinding(h, b, a);
      assert Preimages(h, a) + Preimages(h, b) == Preimages(h, b) + Preimages(h, a);
    }
  }

  /** The last pair hashed. */
  function Top(h: Hash, xs: seq<Digest>): Bytes
    requires |xs| >= 2
    decreases |xs|
  {
    if |xs| == 2 then PairAt(xs, 0) else Top(h, HashAll(h, Pairs(xs)))
  }

  lemma {:induction false} TopGivesRoot(h: Hash, xs: seq<Digest>)
    requires |xs| >= 2
    ensures h(Top(h, xs)) == Root(h, xs) && Top(h, xs) in Hashed(xs, h)
    decreases |xs|
  {
    var up := HashAll(h, Pairs(xs));
    if |xs| == 2 {
      assert Pairs(xs)[0] in Members(Pairs(xs));
    } else {
      TopGivesRoot(h, up);
    }
  }

  /** The exception is real, and for a batch of one item it is exactly this: without a
      collision, [x] has the root of a longer batch if and only if its only leaf is the
      last pair hashed for that batch. */
  lemma SingleTwin(h: Hash, b: seq<Bytes>, x: Bytes)
    requires |b| >= 2
    ensures (ItemsRoot(h, [x]) == ItemsRoot(h, b) && !Collision(h, Preimages(h, [x]) + Preimages(h, b)))
       <==> (Leaf(0, x) == Top(h, HashAll(h, Leaves(b))) && !Collision(h, Preimages(h, b)))
  {
    hide Leaf, Top, Root, Collision;
    var ys := HashAll(h, Leaves(b));
    var top, all := Top(h, ys), Preimages(h, [x]) + Preimages(h, b);
    TopGivesRoot(h, ys);
    assert Leaves([x]) == [Leaf(0, x)];
    SingleTree(h, x);
    if !Collision(h, all) {
      CollisionWithin(h, Preimages(h, b), all);
      if ItemsRoot(h, [x]) == ItemsRoot(h, b) {
        NoCollision(h, all, Leaf(0, x), top);
      }
    }
    if Leaf(0, x) == top {
      assert all == Preimages(h, b);
    }
  }

  lemma SingleTree(h: Hash, x: Bytes)
    ensures Preimages(h, [x]) == {Leaf(0, x)} && ItemsRoot(h, [x]) == h(Leaf(0, x))
  {
    assert Leaves([x]) == [Leaf(0, x)];
  }

  lemma CollisionWithin(h: Hash, some: set<Bytes>, all: set<Bytes>)
    requires some <= all && !Collision(h, all)
    ensures !Collision(h, some)
  {
  }

  lemma NoCollision(h: Hash, all: set<Bytes>, p: Bytes, q: Bytes)
    requires !Collision(h, all) && p in all && q in all && h(p) == h(q)
    ensures p == q
  {
  }
}
