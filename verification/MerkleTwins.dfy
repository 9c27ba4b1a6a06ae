/** Where a batch is not bound by its root: exactly when two batches share one, and exactly
    which single items admit a longer batch with their root. */
module MerkleTwins {
  import opened Machine
  import opened Merkle
  import Store

  // ------------------------------------------------------------------ trees

  datatype Tree = Tip(data: Bytes) | Fork(left: Tree, right: Tree)

  /** What is hashed at the top of a tree. */
  function Preimage(h: Hash, t: Tree): Bytes {
    match t
    case Tip(data) => data
    case Fork(a, b) => Pair(Value(h, a), Value(h, b))
  }

  function Value(h: Hash, t: Tree): Digest {
    match t
    case Tip(data) => h(data)
    case Fork(a, b) => h(Pair(Value(h, a), Value(h, b)))
  }

  /** Everything hashed in a tree. */
  function Inside(h: Hash, t: Tree): set<Bytes> {
    {Preimage(h, t)} +
    match t
    case Tip(_) => {}
    case Fork(a, b) => Inside(h, a) + Inside(h, b)
  }

  function PartnerTree(ts: seq<Tree>, i: nat): Tree
    requires 2 * i < |ts|
  {
    if 2 * i + 1 < |ts| then ts[2 * i + 1] else ts[2 * i]
  }

  function Forked(ts: seq<Tree>): (us: seq<Tree>)
    ensures |us| == (|ts| + 1) / 2
  {
    seq((|ts| + 1) / 2, i requires 0 <= i < (|ts| + 1) / 2 => Fork(ts[2 * i], PartnerTree(ts, i)))
  }

  function TreeOf(ts: seq<Tree>): Tree
    requires ts != []
    decreases |ts|
  {
    if |ts| == 1 then ts[0] else TreeOf(Forked(ts))
  }

  function Tips(items: seq<Bytes>): (ts: seq<Tree>)
    ensures |ts| == |items|
  {
    seq(|items|, i requires 0 <= i < |items| => Tip(Leaf(i, items[i])))
  }

  function BatchTree(items: seq<Bytes>): Tree
    requires items != []
  {
    TreeOf(Tips(items))
  }

  function ValuesOf(h: Hash, ts: seq<Tree>): (xs: seq<Digest>)
    ensures |xs| == |ts|
  {
    seq(|ts|, i requires 0 <= i < |ts| => Value(h, ts[i]))
  }

  lemma ForkedValues(h: Hash, ts: seq<Tree>)
    ensures HashAll(h, Pairs(ValuesOf(h, ts))) == ValuesOf(h, Forked(ts))
    ensures forall i :: 0 <= i < |Forked(ts)| ==> Pairs(ValuesOf(h, ts))[i] == Preimage(h, Forked(ts)[i])
  {
    hide Pair;
    var xs := ValuesOf(h, ts);
    forall i | 0 <= i < |Forked(ts)|
      ensures Pairs(xs)[i] == Preimage(h, Forked(ts)[i])
      ensures HashAll(h, Pairs(xs))[i] == ValuesOf(h, Forked(ts))[i]
    {
      assert Partner(xs, i) == Value(h, PartnerTree(ts, i));
      assert Pairs(xs)[i] == PairAt(xs, i);
    }
  }

  /** The levels of hashes compute the value of the tree, from the same preimages. */
  lemma {:induction false} RootIsValue(h: Hash, ts: seq<Tree>, all: set<Bytes>)
    requires ts != [] && Hashed(ValuesOf(h, ts), h) <= all
    requires forall i :: 0 <= i < |ts| ==> Inside(h, ts[i]) <= all
    ensures Root(h, ValuesOf(h, ts)) == Value(h, TreeOf(ts)) && Inside(h, TreeOf(ts)) <= all
    decreases |ts|
  {
    hide Pair, Pairs, HashAll, Value, Preimage;
    if |ts| > 1 {
      var xs, us := ValuesOf(h, ts), Forked(ts);
      ForkedValues(h, ts);
      forall i | 0 <= i < |us|
        ensures Inside(h, us[i]) <= all
      {
        assert Pairs(xs)[i] in Members(Pairs(xs));
        assert us[i] == Fork(ts[2 * i], PartnerTree(ts, i));
      }
      RootIsValue(h, us, all);
    }
  }

  lemma BatchRoot(h: Hash, items: seq<Bytes>)
    requires items != []
    ensures ItemsRoot(h, items) == Value(h, BatchTree(items))
    ensures Inside(h, BatchTree(items)) <= Preimages(h, items)
  {
    hide Leaf;
    var ts := Tips(items);
    assert ValuesOf(h, ts) == HashAll(h, Leaves(items));
    forall i | 0 <= i < |ts|
      ensures Inside(h, ts[i]) <= Preimages(h, items)
    {
      assert Leaves(items)[i] in Members(Leaves(items));
    }
    RootIsValue(h, ts, Preimages(h, items));
  }

  // ------------------------------------------------------------------ shared roots

  /** Trees that are equal up to swapping the two sides of forks, where a tip may stand for
      a fork if it spells the two hashes below it. */
  predicate Same(h: Hash, t: Tree, u: Tree)
    decreases t, u
  {
    match (t, u)
    case (Fork(a, b), Fork(c, d)) => (Same(h, a, c) && Same(h, b, d)) || (Same(h, a, d) && Same(h, b, c))
    case _ => Preimage(h, t) == Preimage(h, u)
  }

  lemma PairSwap(a: Digest, b: Digest)
    ensures Pair(a, b) == Pair(b, a)
  {
    Store.BytesLeTotal(Hex(a), Hex(b));
    if BytesLe(Hex(a), Hex(b)) && BytesLe(Hex(b), Hex(a)) {
      Store.BytesLeAntisymmetric(Hex(a), Hex(b));
      HexInjective(a, b);
    }
  }

  lemma ValueIsHash(h: Hash, t: Tree)
    ensures Value(h, t) == h(Preimage(h, t))
  {
  }

  lemma {:induction false} SameIsEqual(h: Hash, t: Tree, u: Tree)
    requires Same(h, t, u)
    ensures Preimage(h, t) == Preimage(h, u)
    decreases t, u
  {
    hide Pair;
    if t.Fork? && u.Fork? {
      var a, b, c, d := t.left, t.right, u.left, u.right;
      ValueIsHash(h, a);
      ValueIsHash(h, b);
      ValueIsHash(h, c);
      ValueIsHash(h, d);
      if Same(h, a, c) && Same(h, b, d) {
        SameIsEqual(h, a, c);
        SameIsEqual(h, b, d);
      } else {
        SameIsEqual(h, a, d);
        SameIsEqual(h, b, c);
        PairSwap(Value(h, a), Value(h, b));
      }
    }
  }

  lemma {:induction false} EqualIsSame(h: Hash, t: Tree, u: Tree, all: set<Bytes>)
    requires Value(h, t) == Value(h, u)
    requires Inside(h, t) + Inside(h, u) <= all && !Collision(h, all)
    ensures Same(h, t, u)
    decreases t, u
  {
    hide Pair, Collision, Value;
    ValueIsHash(h, t);
    ValueIsHash(h, u);
    NoCollision(h, all, Preimage(h, t), Preimage(h, u));
    if t.Fork? && u.Fork? {
      var a, b, c, d := Value(h, t.left), Value(h, t.right), Value(h, u.left), Value(h, u.right);
      PairHalves(a, b, c, d);
      assert a in {c, d} && b in {c, d} && c in {a, b} && d in {a, b};
      if a == c {
        EqualIsSame(h, t.left, u.left, all);
        EqualIsSame(h, t.right, u.right, all);
      } else {
        EqualIsSame(h, t.left, u.right, all);
        EqualIsSame(h, t.right, u.left, all);
      }
    }
  }

  /** Two batches of any lengths share a root, without a collision, if and only if their
      trees are the same in that sense. */
  lemma SharedRootIff(h: Hash, a: seq<Bytes>, b: seq<Bytes>)
    requires a != [] && b != []
    ensures Same(h, BatchTree(a), BatchTree(b)) ==> ItemsRoot(h, a) == ItemsRoot(h, b)
    ensures !Collision(h, Preimages(h, a) + Preimages(h, b)) ==>
              (ItemsRoot(h, a) == ItemsRoot(h, b) <==> Same(h, BatchTree(a), BatchTree(b)))
  {
    hide Same, ItemsRoot, BatchTree, Preimages, Collision, Inside, Value, Preimage;
    var t, u, all := BatchTree(a), BatchTree(b), Preimages(h, a) + Preimages(h, b);
    BatchRoot(h, a);
    BatchRoot(h, b);
    ValueIsHash(h, t);
    ValueIsHash(h, u);
    if Same(h, t, u) {
      SameIsEqual(h, t, u);
    }
    if !Collision(h, all) && ItemsRoot(h, a) == ItemsRoot(h, b) {
      EqualIsSame(h, t, u, all);
    }
  }

  // ------------------------------------------------------------------ twins of one item

  /** The leaf of a single item reads as two different hashes in the order pairs have. */
  predicate TwinItem(x: Bytes) {
    && |x| == TWIN_SIZE
    && var p := Leaf(0, x);
       p[..HASH_SIZE] != p[HASH_SIZE..] && BytesLe(Hex(p[..HASH_SIZE]), Hex(p[HASH_SIZE..]))
  }

  /** Without a collision different preimages have different hashes. */
  lemma DifferentHashes(h: Hash, ps: seq<Bytes>, all: set<Bytes>)
    requires Store.AllDifferent(ps) && Members(ps) <= all && !Collision(h, all)
    ensures Store.AllDifferent(HashAll(h, ps))
  {
    forall i, j | 0 <= i < j < |ps|
      ensures HashAll(h, ps)[i] != HashAll(h, ps)[j]
    {
      assert ps[i] in Members(ps) && ps[j] in Members(ps);
    }
  }

  lemma DifferentPairs(xs: seq<Digest>)
    requires Store.AllDifferent(xs)
    ensures Store.AllDifferent(Pairs(xs))
  {
    hide Pair;
    forall i, j | 0 <= i < j < |Pairs(xs)|
      ensures Pairs(xs)[i] != Pairs(xs)[j]
    {
      assert Pairs(xs)[i] == PairAt(xs, i) && Pairs(xs)[j] == PairAt(xs, j);
      if PairAt(xs, i) == PairAt(xs, j) {
        PairHalves(xs[2 * i], Partner(xs, i), xs[2 * j], Partner(xs, j));
        assert false;
      }
    }
  }

  lemma DifferentLeaves(b: seq<Bytes>)
    requires |b| < TWO_63
    ensures Store.AllDifferent(Leaves(b))
  {
    hide Leaf;
    forall i, j | 0 <= i < j < |b|
      ensures Leaves(b)[i] != Leaves(b)[j]
    {
      if Leaf(i, b[i]) == Leaf(j, b[j]) {
        LeafInjective(i, b[i], j, b[j]);
      }
    }
  }

  /** The last pair hashed is one of two different nodes. */
  lemma {:induction false} TopPair(h: Hash, xs: seq<Digest>, all: set<Bytes>) returns (c: Digest, d: Digest)
    requires |xs| >= 2 && Store.AllDifferent(xs) && Hashed(xs, h) <= all && !Collision(h, all)
    ensures c != d && Top(h, xs) == Pair(c, d)
    decreases |xs|
  {
    hide Pair, Pairs, HashAll, Collision;
    if |xs| == 2 {
      c, d := xs[0], xs[1];
      assert Top(h, xs) == PairAt(xs, 0);
    } else {
      DifferentPairs(xs);
      DifferentHashes(h, Pairs(xs), all);
      c, d := TopPair(h, HashAll(h, Pairs(xs)), all);
    }
  }

  lemma PairIsOrdered(c: Digest, d: Digest)
    requires c != d
    ensures var p := Pair(c, d);
            p[..HASH_SIZE] != p[HASH_SIZE..] && BytesLe(Hex(p[..HASH_SIZE]), Hex(p[HASH_SIZE..]))
  {
    hide Hex, BytesLe;
    Store.BytesLeTotal(Hex(c), Hex(d));
    assert (c + d)[..HASH_SIZE] == c && (c + d)[HASH_SIZE..] == d;
    assert (d + c)[..HASH_SIZE] == d && (d + c)[HASH_SIZE..] == c;
  }

  lemma TwinNeeds(h: Hash, b: seq<Bytes>, x: Bytes)
    requires 2 <= |b| < TWO_63 && ItemsRoot(h, [x]) == ItemsRoot(h, b)
    requires !Collision(h, Preimages(h, [x]) + Preimages(h, b))
    ensures TwinItem(x)
  {
    hide Leaf, Pair, Root, Collision, Leaves, Top, BytesLe, Hex;
    var ys, all := HashAll(h, Leaves(b)), Preimages(h, b);
    SingleTwin(h, b, x);
    DifferentLeaves(b);
    DifferentHashes(h, Leaves(b), all);
    var c, d := TopPair(h, ys, all);
    PairIsOrdered(c, d);
    assert |Leaf(0, x)| == 8 + |x| by { LeafSize(x); }
  }

  lemma LeafSize(x: Bytes)
    ensures |Leaf(0, x)| == 8 + |x|
  {
  }

  /** A digest different from two others. */
  function Third(l: Digest, r: Digest): (t: Digest)
    ensures t != l && t != r
  {
    var zeros, ones, twos := seq(HASH_SIZE, i => 0), seq(HASH_SIZE, i => 1), seq(HASH_SIZE, i => 2);
    assert zeros[0] == 0 && ones[0] == 1 && twos[0] == 2;
    if zeros != l && zeros != r then zeros else if ones != l && ones != r then ones else twos
  }

  /** The hash that gives the leaves of a batch of two the halves `l` and `r`. */
  function TwinHash(l: Digest, r: Digest): Hash {
    (y: Bytes) => if y == Leaf(0, [1]) then l else if y == Leaf(1, [2]) then r else Third(l, r)
  }

  lemma MembersOfTwo(p: Bytes, q: Bytes)
    ensures Members([p, q]) == {p, q}
  {
    assert p == [p, q][0] && q == [p, q][1];
  }

  lemma TwinLeaves()
    ensures var l0, l1 := Leaf(0, [1]), Leaf(1, [2]);
            |l0| == 9 && |l1| == 9 && l0 != l1
  {
    hide BigEndian;
    assert Leaf(0, [1])[8] == 1 && Leaf(1, [2])[8] == 2;
  }

  lemma TwinTree(l: Digest, r: Digest)
    requires l != r && BytesLe(Hex(l), Hex(r))
    ensures var h, b := TwinHash(l, r), [[1], [2]];
            Top(h, HashAll(h, Leaves(b))) == l + r
            && Preimages(h, b) == {Leaf(0, [1]), Leaf(1, [2]), l + r}
  {
    hide BytesLe, Hex, Leaf;
    var h := TwinHash(l, r);
    var b: seq<Bytes> := [[1], [2]];
    var l0, l1 := Leaf(0, [1]), Leaf(1, [2]);
    TwinLeaves();
    assert Leaves(b) == [l0, l1];
    var ys := HashAll(h, Leaves(b));
    assert ys == [l, r];
    assert Pairs(ys) == [l + r];
    assert Hashed(HashAll(h, Pairs(ys)), h) == {};
    MembersOfTwo(l0, l1);
    assert Members([l + r]) == {l + r};
  }

  lemma NoTwinCollision(l: Digest, r: Digest)
    requires l != r
    ensures !Collision(TwinHash(l, r), {Leaf(0, [1]), Leaf(1, [2]), l + r})
  {
    hide Leaf;
    TwinLeaves();
    assert |l + r| == 2 * HASH_SIZE;
  }

  lemma TwinExists(x: Bytes) returns (h: Hash, b: seq<Bytes>)
    requires TwinItem(x)
    ensures 2 <= |b| < TWO_63 && ItemsRoot(h, [x]) == ItemsRoot(h, b)
    ensures !Collision(h, Preimages(h, [x]) + Preimages(h, b))
  {
    hide Collision, Top, Hex, BytesLe, Leaves, HashAll, Pair, BigEndian, Root;
    var p := Leaf(0, x);
    var l: Digest, r: Digest := p[..HASH_SIZE], p[HASH_SIZE..];
    assert p == l + r;
    h, b := TwinHash(l, r), [[1], [2]];
    TwinTree(l, r);
    NoTwinCollision(l, r);
    SingleTwin(h, b, x);
  }

  /** The exception for one item is exactly this: there is a hash without a collision, and a
      longer batch with the same root, if and only if the item has 56 bytes and its leaf
      reads as two different hashes in order. */
  lemma TwinIff(x: Bytes)
    ensures (exists h: Hash, b: seq<Bytes> ::
               2 <= |b| < TWO_63 && ItemsRoot(h, [x]) == ItemsRoot(h, b)
               && !Collision(h, Preimages(h, [x]) + Preimages(h, b)))
       <==> TwinItem(x)
  {
    hide Collision, TwinItem, ItemsRoot, Preimages;
    if TwinItem(x) {
      var h, b := TwinExists(x);
    }
    forall h: Hash, b: seq<Bytes> | 2 <= |b| < TWO_63 && ItemsRoot(h, [x]) == ItemsRoot(h, b)
                                    && !Collision(h, Preimages(h, [x]) + Preimages(h, b))
      ensures TwinItem(x)
    {
      TwinNeeds(h, b, x);
    }
  }

  /** An item of that kind. */
  lemma TwinInstance() returns (x: Bytes)
    ensures TwinItem(x)
  {
    hide BigEndian;
    x := seq(24, i => 0) + [1] + seq(31, i => 0);
    var p := Leaf(0, x);
    Zeros();
    var l, r := p[..HASH_SIZE], p[HASH_SIZE..];
    assert l[0] == 0 && r[0] == 1;
    HexFront(l);
    HexFront(r);
    assert BytesLe(Hex(l)[1..], Hex(r)[1..]);
  }

  lemma HexFront(b: Bytes)
    requires b != []
    ensures Hex(b)[0] == HexDigit(b[0] / 16) && Hex(b)[1..][0] == HexDigit(b[0] % 16)
  {
  }

  lemma Zeros()
    ensures BigEndian(0, 8) == [0, 0, 0, 0, 0, 0, 0, 0]
  {
    assert BigEndian(0, 2) == [0, 0];
    assert BigEndian(0, 4) == [0, 0, 0, 0];
    assert BigEndian(0, 6) == [0, 0, 0, 0, 0, 0];
  }
}
