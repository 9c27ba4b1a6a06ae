/** What the Merkle root is, spelled out: the index tags, the order of pairs, the texts
    accepted, and the roots of the shortest batches. */
module MerkleLaws {
  import opened Machine
  import opened Merkle
  import Store
  import Varint

  // ------------------------------------------------------------------ leaves

  /** The number written in bytes, the most significant first. */
  function Number(s: Bytes): nat {
    if s == [] then 0 else 0x100 * Number(s[..|s| - 1]) + s[|s| - 1]
  }

  lemma {:induction false} BigEndianIs(v: nat, size: nat)
    ensures Number(BigEndian(v, size)) == v % Pow2(8 * size)
    decreases size
  {
    if size > 0 {
      var s := BigEndian(v, size);
      assert s[..size - 1] == BigEndian(v / 0x100, size - 1) && s[size - 1] == v % 0x100;
      BigEndianIs(v / 0x100, size - 1);
      Pow2Add(8, 8 * (size - 1));
      assert Pow2(8) == 0x100;
      ModSplit(v, Pow2(8 * (size - 1)));
    } else {
      assert Pow2(0) == 1;
    }
  }

  lemma ModSplit(v: nat, p: nat)
    requires p > 0
    ensures 0x100 * (v / 0x100 % p) + v % 0x100 == v % (0x100 * p)
  {
    var q, r := v / 0x100, v % 0x100;
    var d, e := q / p, q % p;
    assert q == d * p + e;
    assert v == 0x100 * (d * p + e) + r;
    assert 0x100 * (d * p) == d * (0x100 * p);
    Varint.DivModUnique(v, 0x100 * p, d, 0x100 * e + r);
  }

  /** Item `i` is hashed behind its index in eight bytes, the most significant first. */
  lemma LeafIs(items: seq<Bytes>, i: nat)
    requires i < |items| && i < 0x1_0000_0000_0000_0000
    ensures var leaf := Leaves(items)[i];
            |leaf| == 8 + |items[i]| && Number(leaf[..8]) == i && leaf[8..] == items[i]
  {
    BigEndianIs(i, 8);
    Pow2Widths();
    assert Leaf(i, items[i])[..8] == BigEndian(i, 8);
  }

  // ------------------------------------------------------------------ pairs and levels

  /** Two hashes, the lesser first. */
  ghost function Ordered(a: Digest, b: Digest): Bytes {
    if a == b || Store.Precedes(a, b) then a + b else b + a
  }

  lemma {:induction false} HexOrder(a: Bytes, b: Bytes)
    ensures BytesLe(Hex(a), Hex(b)) == BytesLe(a, b)
  {
    if a != [] && b != [] {
      var s, t := Hex(a), Hex(b);
      assert s[1..][1..] == Hex(a[1..]) && t[1..][1..] == Hex(b[1..]);
      if a[0] == b[0] {
        HexOrder(a[1..], b[1..]);
        assert BytesLe(s, t) == BytesLe(s[1..], t[1..]) == BytesLe(s[1..][1..], t[1..][1..]);
      } else if s[0] == t[0] {
        assert BytesLe(s, t) == BytesLe(s[1..], t[1..]);
      }
    }
  }

  /** Pairs are hashed in the order of the hashes themselves. */
  lemma PairIs(a: Digest, b: Digest)
    ensures Pair(a, b) == Ordered(a, b)
  {
    HexOrder(a, b);
    Store.BytesLeIff(a, b);
  }

  /** The root of two or more nodes is the root of the nodes above them, each the hash of
      two neighbours in order, the last node with itself when their number is odd. */
  lemma RootIs(h: Hash, xs: seq<Digest>, ys: seq<Digest>)
    requires |xs| >= 2 && |ys| == (|xs| + 1) / 2
    requires forall i :: 0 <= i < |ys| ==>
               ys[i] == h(Ordered(xs[2 * i], if 2 * i + 1 < |xs| then xs[2 * i + 1] else xs[2 * i]))
    ensures Root(h, xs) == Root(h, ys)
  {
    hide Pair, Ordered;
    var level := HashAll(h, Pairs(xs));
    forall i | 0 <= i < |ys|
      ensures level[i] == ys[i]
    {
      PairIs(xs[2 * i], if 2 * i + 1 < |xs| then xs[2 * i + 1] else xs[2 * i]);
      assert Pairs(xs)[i] == PairAt(xs, i);
    }
    assert level == ys;
  }

  lemma Tag(i: nat, x: Bytes)
    requires i < 0x100
    ensures Leaf(i, x) == [0, 0, 0, 0, 0, 0, 0, i] + x
  {
    assert BigEndian(0, 7) == [0, 0, 0, 0, 0, 0, 0] by {
      assert BigEndian(0, 3) == [0, 0, 0];
    }
  }

  function Tagged(h: Hash, i: byte, x: Bytes): Digest {
    h([0, 0, 0, 0, 0, 0, 0, i] + x)
  }

  /** The roots of the batches of one, two and three items. */
  lemma ShortRoots(h: Hash, a: Bytes, b: Bytes, c: Bytes)
    ensures ItemsRoot(h, [a]) == Tagged(h, 0, a)
    ensures ItemsRoot(h, [a, b]) == h(Ordered(Tagged(h, 0, a), Tagged(h, 1, b)))
    ensures ItemsRoot(h, [a, b, c])
         == h(Ordered(h(Ordered(Tagged(h, 0, a), Tagged(h, 1, b))), h(Tagged(h, 2, c) + Tagged(h, 2, c))))
  {
    hide Leaf, Ordered, Root;
    Tag(0, a);
    Tag(1, b);
    Tag(2, c);
    var x, y, z := Tagged(h, 0, a), Tagged(h, 1, b), Tagged(h, 2, c);
    assert HashAll(h, Leaves([a])) == [x];
    assert HashAll(h, Leaves([a, b])) == [x, y];
    assert HashAll(h, Leaves([a, b, c])) == [x, y, z];
    var p, q := h(Ordered(x, y)), h(Ordered(z, z));
    SingleRoot(h, x);
    SingleRoot(h, p);
    SingleRoot(h, h(Ordered(p, q)));
    RootIs(h, [x, y], [p]);
    RootIs(h, [x, y, z], [p, q]);
    RootIs(h, [p, q], [h(Ordered(p, q))]);
    SameOrdered(z);
  }

  lemma SameOrdered(z: Digest)
    ensures Ordered(z, z) == z + z
  {
  }

  lemma SingleRoot(h: Hash, x: Digest)
    ensures Root(h, [x]) == x
  {
  }

  // ------------------------------------------------------------------ acceptance

  /** The value of a hexadecimal digit of either case. */
  function Nibble(c: byte): Option<nat> {
    if 0x30 <= c <= 0x39 then Some(c - 0x30)
    else if 0x41 <= c <= 0x46 then Some(c - 0x41 + 10)
    else if 0x61 <= c <= 0x66 then Some(c - 0x61 + 10)
    else None
  }

  /** The text spells the bytes, two digits each. */
  ghost predicate Spells(text: Bytes, b: Bytes) {
    && |text| == 2 * |b|
    && forall i :: 0 <= i < |b| ==>
         && Nibble(text[2 * i]).Some? && Nibble(text[2 * i + 1]).Some?
         && b[i] == 16 * Nibble(text[2 * i]).value + Nibble(text[2 * i + 1]).value
  }

  lemma {:induction false} HexAt(b: Bytes, i: nat)
    requires i < |b|
    ensures Hex(b)[2 * i] == HexDigit(b[i] / 16) && Hex(b)[2 * i + 1] == HexDigit(b[i] % 16)
    decreases i
  {
    if i > 0 {
      HexAt(b[1..], i - 1);
      assert Hex(b)[2..] == Hex(b[1..]);
    }
  }

  /** Lower-case digits, and no others, are what the encoder writes. */
  lemma HexIs(b: Bytes)
    ensures Spells(Hex(b), b)
    ensures forall i :: 0 <= i < |Hex(b)| ==> 0x30 <= Hex(b)[i] <= 0x39 || 0x61 <= Hex(b)[i] <= 0x66
  {
    hide Hex;
    forall i | 0 <= i < |b|
      ensures Hex(b)[2 * i] == HexDigit(b[i] / 16) && Hex(b)[2 * i + 1] == HexDigit(b[i] % 16)
    {
      HexAt(b, i);
    }
    forall i | 0 <= i < |Hex(b)|
      ensures 0x30 <= Hex(b)[i] <= 0x39 || 0x61 <= Hex(b)[i] <= 0x66
    {
      assert i == 2 * (i / 2) || i == 2 * (i / 2) + 1;
      HexAt(b, i / 2);
    }
  }

  lemma DigitPair(c: byte, d: byte, v: byte)
    requires Nibble(c).Some? && Nibble(d).Some?
    ensures v == 16 * Nibble(c).value + Nibble(d).value <==> Lower(c) == HexDigit(v / 16) && Lower(d) == HexDigit(v % 16)
  {
  }

  function Lower(c: byte): byte {
    if 0x41 <= c <= 0x5A then c + 0x20 else c
  }

  lemma LowerDigit(c: byte, v: nat)
    requires v < 16
    ensures Lower(c) == HexDigit(v) ==> Nibble(c) == Some(v)
  {
  }

  /** A text in any case spells the bytes exactly when it is their encoding in lower case. */
  lemma SpellsIff(text: Bytes, b: Bytes)
    ensures Spells(text, b) <==> ToLower(text) == Hex(b)
  {
    hide Hex;
    var t := ToLower(text);
    if |text| == 2 * |b| {
      forall i | 0 <= i < |b|
        ensures Hex(b)[2 * i] == HexDigit(b[i] / 16) && Hex(b)[2 * i + 1] == HexDigit(b[i] % 16)
        ensures t[2 * i] == Lower(text[2 * i]) && t[2 * i + 1] == Lower(text[2 * i + 1])
      {
        HexAt(b, i);
      }
      if Spells(text, b) {
        forall k | 0 <= k < |t|
          ensures t[k] == Hex(b)[k]
        {
          var i := k / 2;
          assert k == 2 * i || k == 2 * i + 1;
          DigitPair(text[2 * i], text[2 * i + 1], b[i]);
        }
      }
      if t == Hex(b) {
        forall i | 0 <= i < |b|
          ensures Nibble(text[2 * i]) == Some(b[i] / 16) && Nibble(text[2 * i + 1]) == Some(b[i] % 16)
        {
          LowerDigit(text[2 * i], b[i] / 16);
          LowerDigit(text[2 * i + 1], b[i] % 16);
        }
      }
    }
  }

  /** A batch is accepted for a declared text if and only if it has items and the text, with
      or without a leading 0x or 0X, spells its root in hexadecimal digits of any case. */
  lemma AcceptsIff(h: Hash, items: seq<Bytes>, d: Bytes)
    ensures Accepts(h, items, d) <==>
            items != [] &&
            var root := ItemsRoot(h, items);
            Spells(d, root) || (|d| >= 2 && d[0] == 0x30 && (d[1] == 0x78 || d[1] == 0x58) && Spells(d[2..], root))
  {
    hide Hex, ItemsRoot;
    if items != [] {
      var root := ItemsRoot(h, items);
      SpellsIff(d, root);
      if |d| >= 2 && d[0] == 0x30 && (d[1] == 0x78 || d[1] == 0x58) {
        SpellsIff(d[2..], root);
        assert ToLower(d)[2..] == ToLower(d[2..]);
        assert Nibble(d[1]).None?;
        NotSpelled(d, root);
      }
    }
  }

  lemma NotSpelled(d: Bytes, root: Digest)
    requires |d| >= 2 && Nibble(d[1]).None?
    ensures !Spells(d, root)
  {
    assert d[1] == d[2 * 0 + 1];
  }

  /** So every batch with items is accepted for some root, in lower case, in upper case, and
      behind a prefix. */
  lemma RootAccepted(h: Hash, items: seq<Bytes>) returns (text: Bytes)
    requires items != []
    ensures |text| == 64 && forall i :: 0 <= i < |text| ==> 0x30 <= text[i] <= 0x39 || 0x61 <= text[i] <= 0x66
    ensures Accepts(h, items, text) && Accepts(h, items, [0x30, 0x78] + text)
    ensures Accepts(h, items, Upper(text)) && Accepts(h, items, [0x30, 0x58] + Upper(text))
  {
    hide Hex, ItemsRoot, Accepts;
    var root := ItemsRoot(h, items);
    text := Hex(root);
    HexIs(root);
    var up := Upper(text);
    assert Spells(up, root);
    AcceptsIff(h, items, text);
    AcceptsIff(h, items, up);
    assert ([0x30, 0x78] + text)[2..] == text && ([0x30, 0x58] + up)[2..] == up;
    AcceptsIff(h, items, [0x30, 0x78] + text);
    AcceptsIff(h, items, [0x30, 0x58] + up);
  }

  /** The text with its letters in upper case. */
  function Upper(s: Bytes): (t: Bytes)
    ensures |t| == |s|
  {
    seq(|s|, i requires 0 <= i < |s| => if 0x61 <= s[i] <= 0x7A then s[i] - 0x20 else s[i])
  }
}
