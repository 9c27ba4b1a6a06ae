/** Ordered collections: the order in which a walk visits the keys of a map or key set,
    and what a walk over a restricted range, or a store filled from one, amounts to. */
module Store {
  import opened Machine

  // ------------------------------------------------------------------ orders

  ghost predicate TotalOrder<K(!new)>(le: (K, K) -> bool) {
    && (forall a, b :: le(a, b) || le(b, a))
    && (forall a, b :: le(a, b) && le(b, a) ==> a == b)
    && (forall a, b, c :: le(a, b) && le(b, c) ==> le(a, c))
  }

  predicate Uint64Le(a: uint64, b: uint64) {
    a <= b
  }

  /** Pairs are ordered by their first part, then by their second. */
  predicate TextPairLe(a: (Bytes, Bytes), b: (Bytes, Bytes)) {
    if a.0 == b.0 then BytesLe(a.1, b.1) else BytesLe(a.0, b.0)
  }

  predicate TextNumLe(a: (Bytes, uint64), b: (Bytes, uint64)) {
    if a.0 == b.0 then a.1 <= b.1 else BytesLe(a.0, b.0)
  }

  predicate NumPairLe(a: (uint64, uint64), b: (uint64, uint64)) {
    if a.0 == b.0 then a.1 <= b.1 else a.0 < b.0
  }

  lemma {:induction false} BytesLeTotal(a: Bytes, b: Bytes)
    ensures BytesLe(a, b) || BytesLe(b, a)
  {
    if a != [] && b != [] && a[0] == b[0] {
      BytesLeTotal(a[1..], b[1..]);
    }
  }

  lemma {:induction false} BytesLeAntisymmetric(a: Bytes, b: Bytes)
    requires BytesLe(a, b) && BytesLe(b, a)
    ensures a == b
  {
    if a != [] && b != [] {
      BytesLeAntisymmetric(a[1..], b[1..]);
      assert a == [a[0]] + a[1..] && b == [b[0]] + b[1..];
    }
  }

  lemma {:induction false} BytesLeTransitive(a: Bytes, b: Bytes, c: Bytes)
    requires BytesLe(a, b) && BytesLe(b, c)
    ensures BytesLe(a, c)
  {
    if a != [] && b != [] && c != [] && a[0] == b[0] == c[0] {
      BytesLeTransitive(a[1..], b[1..], c[1..]);
    }
  }

  /** `a` comes before `b` in a dictionary: it is a proper beginning of `b`, or smaller at
      the first byte in which they differ. */
  ghost predicate Precedes(a: Bytes, b: Bytes) {
    exists n :: 0 <= n <= |a| && n < |b| && a[..n] == b[..n] && (n == |a| || a[n] < b[n])
  }

  lemma PrecedesTail(a: Bytes, b: Bytes)
    requires a != [] && b != [] && a[0] == b[0]
    ensures Precedes(a, b) <==> Precedes(a[1..], b[1..])
  {
    var x, y := a[1..], b[1..];
    if n :| 0 <= n <= |x| && n < |y| && x[..n] == y[..n] && (n == |x| || x[n] < y[n]) {
      assert a[..n + 1] == [a[0]] + x[..n] && b[..n + 1] == [b[0]] + y[..n];
      assert n + 1 == |a| || a[n + 1] < b[n + 1];
    }
    if n :| 0 <= n <= |a| && n < |b| && a[..n] == b[..n] && (n == |a| || a[n] < b[n]) {
      assert n > 0;
      assert x[..n - 1] == a[..n][1..] && y[..n - 1] == b[..n][1..];
      assert n - 1 == |x| || x[n - 1] < y[n - 1];
    }
  }

  lemma PrecedesHead(a: Bytes, b: Bytes)
    requires a != [] && b != [] && a[0] != b[0]
    ensures Precedes(a, b) <==> a[0] < b[0]
  {
    assert a[..0] == b[..0];
    forall n | 0 < n <= |a| && n < |b|
      ensures a[..n] != b[..n]
    {
      assert a[..n][0] != b[..n][0];
    }
  }

  lemma PrecedesEmpty(a: Bytes)
    ensures Precedes([], a) <==> a != []
    ensures !Precedes(a, [])
  {
    var none: Bytes := [];
    if a != [] {
      assert none[..0] == a[..0];
    }
  }

  lemma {:induction false} BytesLeIff(a: Bytes, b: Bytes)
    ensures BytesLe(a, b) <==> a == b || Precedes(a, b)
  {
    hide Precedes;
    if a == [] {
      PrecedesEmpty(b);
    } else if b == [] {
      PrecedesEmpty(a);
    } else if a[0] == b[0] {
      BytesLeIff(a[1..], b[1..]);
      PrecedesTail(a, b);
      assert a == [a[0]] + a[1..] && b == [b[0]] + b[1..];
    } else {
      PrecedesHead(a, b);
    }
  }

  lemma TextOrder()
    ensures TotalOrder(BytesLe)
  {
    hide BytesLe;
    forall a, b ensures BytesLe(a, b) || BytesLe(b, a) { BytesLeTotal(a, b); }
    forall a, b | BytesLe(a, b) && BytesLe(b, a) ensures a == b { BytesLeAntisymmetric(a, b); }
    forall a, b, c | BytesLe(a, b) && BytesLe(b, c) ensures BytesLe(a, c) { BytesLeTransitive(a, b, c); }
  }

  lemma TextPairOrder()
    ensures TotalOrder(TextPairLe)
  {
    hide BytesLe;
    TextOrder();
  }

  lemma TextNumOrder()
    ensures TotalOrder(TextNumLe)
  {
    hide BytesLe;
    TextOrder();
  }

  lemma NumPairOrder()
    ensures TotalOrder(NumPairLe)
  {
  }

  lemma Uint64Order()
    ensures TotalOrder(Uint64Le)
  {
  }

  // ------------------------------------------------------------------ walks

  ghost predicate IsWalk<K>(le: (K, K) -> bool, s: set<K>, ks: seq<K>) {
    && (forall i, j :: 0 <= i < j < |ks| ==> le(ks[i], ks[j]) && ks[i] != ks[j])
    && (forall i :: 0 <= i < |ks| ==> ks[i] in s)
    && (forall k :: k in s ==> k in ks)
  }

  lemma LeastOfTwo<K(!new)>(le: (K, K) -> bool, s: set<K>, x: K, y: K)
    requires TotalOrder(le) && x in s && y in s
    requires forall j :: j in s - {x} ==> le(y, j)
    ensures exists k :: k in s && forall j :: j in s ==> le(k, j)
  {
    var k := if le(x, y) then x else y;
    assert le(k, x) && le(k, y);
    forall j | j in s
      ensures le(k, j)
    {
      if j != x {
        assert le(y, j);
      }
    }
  }

  lemma {:induction false} LeastExists<K(!new)>(le: (K, K) -> bool, s: set<K>)
    requires TotalOrder(le) && s != {}
    ensures exists k :: k in s && forall j :: j in s ==> le(k, j)
    decreases |s|
  {
    hide TotalOrder;
    var x :| x in s;
    var rest := s - {x};
    if rest == {} {
      LeastOfTwo(le, s, x, x);
    } else {
      LeastExists(le, rest);
      var y :| y in rest && forall j :: j in rest ==> le(y, j);
      LeastOfTwo(le, s, x, y);
    }
  }

  /** The keys of `s` in the order a walk visits them. */
  function Walk<K(!new)>(le: (K, K) -> bool, s: set<K>): (ks: seq<K>)
    requires TotalOrder(le)
    ensures IsWalk(le, s, ks)
    decreases |s|
  {
    if s == {} then []
    else
      LeastExists(le, s);
      var k :| k in s && forall j :: j in s ==> le(k, j);
      var ks := Walk(le, s - {k});
      assert forall j :: j in s ==> j == k || j in s - {k};
      [k] + ks
  }

  /** There is only one order to visit the keys in. */
  lemma {:induction false} WalkUnique<K(!new)>(le: (K, K) -> bool, s: set<K>, ks: seq<K>, js: seq<K>)
    requires TotalOrder(le) && IsWalk(le, s, ks) && IsWalk(le, s, js)
    ensures ks == js
    decreases |s|
  {
    hide TotalOrder, IsWalk;
    WalkEmpty(le, s, ks);
    WalkEmpty(le, s, js);
    if s != {} {
      SameFirst(le, s, ks, js);
      TailIsWalk(le, s, ks);
      TailIsWalk(le, s, js);
      WalkUnique(le, s - {ks[0]}, ks[1..], js[1..]);
      assert ks == [ks[0]] + ks[1..] && js == [js[0]] + js[1..];
    }
  }

  lemma WalkEmpty<K>(le: (K, K) -> bool, s: set<K>, ks: seq<K>)
    requires IsWalk(le, s, ks)
    ensures s == {} <==> ks == []
    ensures ks != [] ==> ks[0] in s
  {
    if s != {} {
      var x :| x in s;
      assert x in ks;
    }
    if ks != [] {
      assert ks[0] in s;
    }
  }

  lemma SameFirst<K(!new)>(le: (K, K) -> bool, s: set<K>, ks: seq<K>, js: seq<K>)
    requires TotalOrder(le) && IsWalk(le, s, ks) && IsWalk(le, s, js) && ks != [] && js != []
    ensures ks[0] == js[0]
  {
    hide IsWalk;
    FirstIsLeast(le, s, ks);
    FirstIsLeast(le, s, js);
    assert le(ks[0], js[0]) && le(js[0], ks[0]);
  }

  lemma FirstIsLeast<K(!new)>(le: (K, K) -> bool, s: set<K>, ks: seq<K>)
    requires TotalOrder(le) && IsWalk(le, s, ks) && ks != []
    ensures ks[0] in s && forall k :: k in s ==> le(ks[0], k)
  {
    forall k | k in s
      ensures le(ks[0], k)
    {
      var i :| 0 <= i < |ks| && ks[i] == k;
    }
  }

  lemma TailIsWalk<K>(le: (K, K) -> bool, s: set<K>, ks: seq<K>)
    requires IsWalk(le, s, ks) && ks != []
    ensures IsWalk(le, s - {ks[0]}, ks[1..])
  {
    forall k | k in s - {ks[0]}
      ensures k in ks[1..]
    {
      var i :| 0 <= i < |ks| && ks[i] == k;
      assert ks[1..][i - 1] == k;
    }
  }

  /** Walking through a one-to-one, order-keeping renaming of the keys. */
  lemma WalkRenamed<K(!new), J(!new)>(le: (K, K) -> bool, s: set<K>, le': (J, J) -> bool, s': set<J>, f: K -> J)
    requires TotalOrder(le) && TotalOrder(le')
    requires forall k :: k in s ==> f(k) in s'
    requires forall j :: j in s' ==> exists k :: k in s && f(k) == j
    requires forall a, b :: a in s && b in s && le(a, b) && a != b ==> le'(f(a), f(b)) && f(a) != f(b)
    ensures Walk(le', s') == Mapped(f, Walk(le, s))
  {
    var ks := Walk(le, s);
    var js := Mapped(f, ks);
    forall j | j in s'
      ensures j in js
    {
      var k :| k in s && f(k) == j;
      var i :| 0 <= i < |ks| && ks[i] == k;
      assert js[i] == j;
    }
    WalkUnique(le', s', Walk(le', s'), js);
  }

  function Kept<K>(p: K -> bool, ks: seq<K>): seq<K> {
    if ks == [] then []
    else if p(ks[0]) then [ks[0]] + Kept(p, ks[1..])
    else Kept(p, ks[1..])
  }

  lemma {:induction false} KeptAppend<K>(p: K -> bool, a: seq<K>, b: seq<K>)
    ensures Kept(p, a + b) == Kept(p, a) + Kept(p, b)
  {
    if a == [] {
      assert a + b == b;
    } else {
      assert (a + b)[1..] == a[1..] + b;
      KeptAppend(p, a[1..], b);
    }
  }

  /** Filtering goes through a list element by element and keeps the order. */
  lemma KeptIs<K>(p: K -> bool, a: seq<K>, x: K)
    ensures Kept(p, []) == [] && Kept(p, a + [x]) == Kept(p, a) + if p(x) then [x] else []
  {
    assert [x][1..] == [];
    KeptAppend(p, a, [x]);
  }

  lemma {:induction false} KeptMembers<K>(p: K -> bool, ks: seq<K>, k: K)
    ensures k in Kept(p, ks) <==> k in ks && p(k)
  {
    if ks != [] {
      KeptMembers(p, ks[1..], k);
      assert k in ks <==> k == ks[0] || k in ks[1..];
    }
  }

  lemma {:induction false} KeptIsWalk<K(!new)>(le: (K, K) -> bool, s: set<K>, p: K -> bool, ks: seq<K>)
    requires IsWalk(le, s, ks)
    ensures IsWalk(le, (set k | k in s && p(k)), Kept(p, ks))
    decreases |ks|
  {
    hide IsWalk;
    var part := set k | k in s && p(k);
    WalkEmpty(le, s, ks);
    if ks == [] {
      NoWalk(le, part);
    } else {
      var k0 := ks[0];
      var rest := set k | k in s - {k0} && p(k);
      TailIsWalk(le, s, ks);
      KeptIsWalk(le, s - {k0}, p, ks[1..]);
      if p(k0) {
        HeadBelow(le, s, ks);
        PrependIsWalk(le, k0, rest, Kept(p, ks[1..]));
        assert part == {k0} + rest;
      } else {
        assert part == rest;
      }
    }
  }

  lemma NoWalk<K>(le: (K, K) -> bool, s: set<K>)
    requires s == {}
    ensures IsWalk(le, s, [])
  {
  }

  lemma HeadBelow<K>(le: (K, K) -> bool, s: set<K>, ks: seq<K>)
    requires IsWalk(le, s, ks) && ks != []
    ensures forall k :: k in s - {ks[0]} ==> le(ks[0], k)
  {
    forall k | k in s - {ks[0]}
      ensures le(ks[0], k)
    {
      var i :| 0 <= i < |ks| && ks[i] == k;
    }
  }

  lemma PrependIsWalk<K>(le: (K, K) -> bool, k0: K, s: set<K>, ks: seq<K>)
    requires IsWalk(le, s, ks) && k0 !in s && forall k :: k in s ==> le(k0, k)
    ensures IsWalk(le, {k0} + s, [k0] + ks)
  {
    var js := [k0] + ks;
    forall k | k in {k0} + s
      ensures k in js
    {
      if k != k0 {
        var i :| 0 <= i < |ks| && ks[i] == k;
        assert js[i + 1] == k;
      }
    }
  }

  /** The keys of a range. */
  function Range<K>(s: set<K>, p: K -> bool): set<K> {
    set k | k in s && p(k)
  }

  /** Walking a range is filtering the whole walk. */
  lemma WalkKept<K(!new)>(le: (K, K) -> bool, s: set<K>, p: K -> bool)
    requires TotalOrder(le)
    ensures Walk(le, Range(s, p)) == Kept(p, Walk(le, s))
  {
    hide TotalOrder, IsWalk, Kept;
    KeptIsWalk(le, s, p, Walk(le, s));
    WalkUnique(le, Range(s, p), Walk(le, Range(s, p)), Kept(p, Walk(le, s)));
  }

  lemma WalkMembers<K(!new)>(le: (K, K) -> bool, s: set<K>)
    requires TotalOrder(le)
    ensures var ks := Walk(le, s);
            (forall i :: 0 <= i < |ks| ==> ks[i] in s) && (forall k :: k in s ==> k in ks)
  {
  }

  lemma WalkLength<K(!new)>(le: (K, K) -> bool, s: set<K>, ks: seq<K>)
    requires IsWalk(le, s, ks)
    ensures |ks| == |s|
    decreases |ks|
  {
    if ks == [] {
      assert s == {};
    } else {
      TailIsWalk(le, s, ks);
      WalkLength(le, s - {ks[0]}, ks[1..]);
    }
  }

  /** The keys before `k`. */
  function Below<K>(le: (K, K) -> bool, s: set<K>, k: K): set<K> {
    set j | j in s && le(j, k) && j != k
  }

  /** A walk meets a key after exactly the keys before it. */
  lemma WalkRank<K(!new)>(le: (K, K) -> bool, s: set<K>, i: nat)
    requires TotalOrder(le) && i < |Walk(le, s)|
    ensures |Below(le, s, Walk(le, s)[i])| == i
  {
    var ks := Walk(le, s);
    var below := Below(le, s, ks[i]);
    forall j | j in below
      ensures j in ks[..i]
    {
      var n :| 0 <= n < |ks| && ks[n] == j;
      assert ks[..i][n] == j;
    }
    assert IsWalk(le, below, ks[..i]);
    WalkLength(le, below, ks[..i]);
  }

  // ------------------------------------------------------------------ values

  /** The values met along keys of the map. */
  function Values<K, V>(m: map<K, V>, ks: seq<K>): (vs: seq<V>)
    requires forall i :: 0 <= i < |ks| ==> ks[i] in m
    ensures |vs| == |ks|
  {
    seq(|ks|, i requires 0 <= i < |ks| => m[ks[i]])
  }

  /** Filtering keys by what is stored under them is filtering the values. */
  lemma {:induction false} ValuesKept<K, V>(m: map<K, V>, ks: seq<K>, p: K -> bool, q: V -> bool)
    requires forall i :: 0 <= i < |ks| ==> ks[i] in m && p(ks[i]) == q(m[ks[i]])
    ensures (forall i :: 0 <= i < |Kept(p, ks)| ==> Kept(p, ks)[i] in m)
    ensures Values(m, Kept(p, ks)) == Kept(q, Values(m, ks))
  {
    if ks != [] {
      var vs := Values(m, ks);
      ValuesKept(m, ks[1..], p, q);
      assert vs[1..] == Values(m, ks[1..]);
      if p(ks[0]) {
        assert Values(m, [ks[0]] + Kept(p, ks[1..])) == [m[ks[0]]] + Values(m, Kept(p, ks[1..]));
      }
    }
  }

  /** A full walk meets exactly the values stored. */
  lemma ValuesMet<K(!new), V>(le: (K, K) -> bool, m: map<K, V>)
    requires TotalOrder(le)
    ensures var vs := Values(m, Walk(le, m.Keys));
            (forall k :: k in m ==> m[k] in vs) && (forall v :: v in vs ==> exists k :: k in m && m[k] == v)
  {
    hide TotalOrder;
    var ks := Walk(le, m.Keys);
    var vs := Values(m, ks);
    forall k | k in m
      ensures m[k] in vs
    {
      assert k in ks;
      var i :| 0 <= i < |ks| && ks[i] == k;
      assert vs[i] == m[k];
    }
    forall v | v in vs
      ensures exists k :: k in m && m[k] == v
    {
      var i :| 0 <= i < |vs| && vs[i] == v;
      assert ks[i] in m && m[ks[i]] == v;
    }
  }

  /** A condition on every value met by a full walk is one on every value stored. */
  lemma ValuesAll<K(!new), V>(le: (K, K) -> bool, m: map<K, V>, p: V -> bool)
    requires TotalOrder(le)
    ensures var vs := Values(m, Walk(le, m.Keys));
            (forall i :: 0 <= i < |vs| ==> p(vs[i])) <==> (forall k :: k in m ==> p(m[k]))
  {
    hide TotalOrder, Walk, Values;
    ValuesMet(le, m);
    var vs := Values(m, Walk(le, m.Keys));
    if forall k :: k in m ==> p(m[k]) {
      forall i | 0 <= i < |vs|
        ensures p(vs[i])
      {
        assert vs[i] in vs;
        var k :| k in m && m[k] == vs[i];
      }
    }
  }

  /** Values stored under their own keys are met with different keys. */
  lemma ValuesDistinct<K(!new), V>(le: (K, K) -> bool, m: map<K, V>, key: V -> K)
    requires TotalOrder(le) && UnderOwnKey(m, key)
    ensures var vs := Values(m, Walk(le, m.Keys));
            forall i, j :: 0 <= i < j < |vs| ==> key(vs[i]) != key(vs[j])
  {
    hide TotalOrder;
    var ks := Walk(le, m.Keys);
    forall i | 0 <= i < |ks|
      ensures key(Values(m, ks)[i]) == ks[i]
    {
      assert ks[i] in m;
    }
  }

  /** Values stored under their own texts are met in dictionary order. */
  lemma ValuesInOrder<V>(m: map<Bytes, V>, key: V -> Bytes)
    requires TotalOrder(BytesLe) && UnderOwnKey(m, key)
    ensures var vs := Values(m, Walk(BytesLe, m.Keys));
            |vs| == |m| && forall i, j :: 0 <= i < j < |vs| ==> Precedes(key(vs[i]), key(vs[j]))
  {
    hide TotalOrder, BytesLe, Precedes;
    var ks := Walk(BytesLe, m.Keys);
    WalkLength(BytesLe, m.Keys, ks);
    forall i, j | 0 <= i < j < |ks|
      ensures Precedes(key(Values(m, ks)[i]), key(Values(m, ks)[j]))
    {
      assert ks[i] in m && ks[j] in m && BytesLe(ks[i], ks[j]) && ks[i] != ks[j];
      BytesLeIff(ks[i], ks[j]);
    }
  }

  ghost predicate AllDifferent<T>(xs: seq<T>) {
    forall i, j :: 0 <= i < j < |xs| ==> xs[i] != xs[j]
  }

  /** A list has as many different entries as entries exactly when no two are the same. */
  lemma {:induction false} AllDifferentIff<T>(xs: seq<T>)
    ensures AllDifferent(xs) <==> |set i | 0 <= i < |xs| :: xs[i]| == |xs|
    ensures |set i | 0 <= i < |xs| :: xs[i]| <= |xs|
  {
    var all := set i | 0 <= i < |xs| :: xs[i];
    if xs == [] {
      assert all == {};
    } else {
      var n := |xs| - 1;
      var front := xs[..n];
      var rest := set i | 0 <= i < |front| :: front[i];
      AllDifferentIff(front);
      assert all == rest + {xs[n]} by {
        assert forall i :: 0 <= i < n ==> front[i] == xs[i];
      }
      if xs[n] in rest {
        var i :| 0 <= i < n && front[i] == xs[n];
        assert xs[i] == xs[n];
        assert all == rest;
      } else {
        assert forall i :: 0 <= i < n ==> front[i] in rest;
        assert forall i :: 0 <= i < n ==> xs[i] == front[i];
      }
    }
  }

  /** A walk along `keys` that stops once `n` values have been met. */
  method WalkFirst<K, V>(n: nat, m: map<K, V>, keys: seq<K>) returns (vs: seq<V>)
    requires n > 0 && forall i :: 0 <= i < |keys| ==> keys[i] in m
    ensures vs == First(n, Values(m, keys))
  {
    vs := [];
    for i := 0 to |keys|
      invariant i < n && vs == Values(m, keys)[..i]
    {
      vs := vs + [m[keys[i]]];
      if |vs| >= n {
        break;
      }
    }
  }

  /** A walk over the whole map that appends every value it meets. */
  method WalkValues<K(!new), V>(le: (K, K) -> bool, m: map<K, V>) returns (vs: seq<V>)
    requires TotalOrder(le)
    ensures vs == Values(m, Walk(le, m.Keys))
  {
    hide TotalOrder, Walk;
    var keys := Walk(le, m.Keys);
    vs := [];
    for i := 0 to |keys|
      invariant vs == Values(m, keys)[..i]
    {
      vs := vs + [m[keys[i]]];
    }
  }

  /** At most the first `n`. */
  function First<V>(n: nat, vs: seq<V>): seq<V> {
    if |vs| <= n then vs else vs[..n]
  }

  lemma FirstIs<V>(n: nat, vs: seq<V>)
    ensures First(n, vs) <= vs && |First(n, vs)| == if n < |vs| then n else |vs|
  {
  }

  // ------------------------------------------------------------------ refilling a store

  /** Setting values one after the other, each under its own key. */
  function PutAll<K, V>(m: map<K, V>, key: V -> K, vs: seq<V>): map<K, V>
    decreases |vs|
  {
    if vs == [] then m else PutAll(m[key(vs[0]) := vs[0]], key, vs[1..])
  }

  function AddAll<K, V>(s: set<K>, key: V -> K, vs: seq<V>): set<K>
    decreases |vs|
  {
    if vs == [] then s else AddAll(s + {key(vs[0])}, key, vs[1..])
  }

  /** A filled store has no keys but the old ones and those of the values set. */
  lemma {:induction false} PutAllKeys<K, V>(m: map<K, V>, key: V -> K, vs: seq<V>, k: K)
    requires k in PutAll(m, key, vs)
    ensures k in m || exists i :: 0 <= i < |vs| && key(vs[i]) == k
    decreases |vs|
  {
    if vs != [] {
      PutAllKeys(m[key(vs[0]) := vs[0]], key, vs[1..], k);
      if k !in m && k != key(vs[0]) {
        var i :| 0 <= i < |vs[1..]| && key(vs[1..][i]) == k;
        assert vs[i + 1] == vs[1..][i];
      }
    }
  }

  /** Values with different keys, none of them taken, are all stored. */
  lemma {:induction false} PutAllDistinct<K, V>(m: map<K, V>, key: V -> K, vs: seq<V>)
    requires forall i :: 0 <= i < |vs| ==> key(vs[i]) !in m
    requires forall i, j :: 0 <= i < j < |vs| ==> key(vs[i]) != key(vs[j])
    ensures var p := PutAll(m, key, vs);
            && |p| == |m| + |vs|
            && (forall k :: k in m ==> k in p && p[k] == m[k])
            && forall i :: 0 <= i < |vs| ==> key(vs[i]) in p && p[key(vs[i])] == vs[i]
    decreases |vs|
  {
    if vs != [] {
      var more := m[key(vs[0]) := vs[0]];
      assert more.Keys == m.Keys + {key(vs[0])} && |more.Keys| == |m.Keys| + 1;
      assert forall i :: 0 < i < |vs| ==> vs[1..][i - 1] == vs[i];
      PutAllDistinct(more, key, vs[1..]);
    }
  }

  /** A key under which no value is set keeps what was there. */
  lemma {:induction false} PutAllOther<K, V>(m: map<K, V>, key: V -> K, vs: seq<V>, k: K)
    requires forall i :: 0 <= i < |vs| ==> key(vs[i]) != k
    ensures var p := PutAll(m, key, vs); (k in p <==> k in m) && (k in m ==> p[k] == m[k])
    decreases |vs|
  {
    if vs != [] {
      assert forall i :: 0 <= i < |vs[1..]| ==> vs[1..][i] == vs[i + 1];
      PutAllOther(m[key(vs[0]) := vs[0]], key, vs[1..], k);
    }
  }

  /** The last of the values set under a key is the one stored. */
  lemma {:induction false} PutAllLast<K, V>(m: map<K, V>, key: V -> K, vs: seq<V>, i: nat)
    requires i < |vs| && forall j :: i < j < |vs| ==> key(vs[j]) != key(vs[i])
    ensures var p := PutAll(m, key, vs); key(vs[i]) in p && p[key(vs[i])] == vs[i]
    decreases |vs|
  {
    var more := m[key(vs[0]) := vs[0]];
    assert forall j :: 0 < j < |vs| ==> vs[j] == vs[1..][j - 1];
    if i > 0 {
      PutAllLast(more, key, vs[1..], i - 1);
    } else {
      PutAllOther(more, key, vs[1..], key(vs[0]));
    }
  }

  ghost predicate UnderOwnKey<K, V>(m: map<K, V>, key: V -> K) {
    forall k :: k in m ==> key(m[k]) == k
  }

  lemma {:induction false} PutAllOwn<K, V>(m: map<K, V>, key: V -> K, vs: seq<V>)
    requires UnderOwnKey(m, key)
    ensures UnderOwnKey(PutAll(m, key, vs), key)
    decreases |vs|
  {
    if vs != [] {
      PutAllOwn(m[key(vs[0]) := vs[0]], key, vs[1..]);
    }
  }

  function Part<K, V>(m: map<K, V>, ks: seq<K>): map<K, V>
    requires forall i :: 0 <= i < |ks| ==> ks[i] in m
  {
    map k | k in ks :: m[k]
  }

  lemma {:induction false} PutAllValues<K, V>(m0: map<K, V>, m: map<K, V>, key: V -> K, ks: seq<K>)
    requires forall i :: 0 <= i < |ks| ==> ks[i] in m && key(m[ks[i]]) == ks[i]
    ensures PutAll(m0, key, Values(m, ks)) == m0 + Part(m, ks)
    decreases |ks|
  {
    if ks == [] {
    } else {
      var k := ks[0];
      assert Values(m, ks)[1..] == Values(m, ks[1..]);
      PutAllValues(m0[k := m[k]], m, key, ks[1..]);
      assert m0 + Part(m, ks) == m0[k := m[k]] + Part(m, ks[1..]) by {
        assert forall j :: j in ks <==> j == k || j in ks[1..];
      }
    }
  }

  /** Filling an empty store with all the values of another restores it. */
  lemma PutAllRestores<K(!new), V>(le: (K, K) -> bool, m: map<K, V>, key: V -> K)
    requires TotalOrder(le)
    requires forall k :: k in m ==> key(m[k]) == k
    ensures PutAll(map[], key, Values(m, Walk(le, m.Keys))) == m
  {
    var ks := Walk(le, m.Keys);
    PutAllValues(map[], m, key, ks);
    assert Part(m, ks) == m;
  }

  lemma {:induction false} AddAllIs<K, V>(s: set<K>, key: V -> K, vs: seq<V>)
    ensures AddAll(s, key, vs) == s + set i | 0 <= i < |vs| :: key(vs[i])
    decreases |vs|
  {
    if vs == [] {
    } else {
      AddAllIs(s + {key(vs[0])}, key, vs[1..]);
      var rest := set i | 0 <= i < |vs[1..]| :: key(vs[1..][i]);
      var all := set i | 0 <= i < |vs| :: key(vs[i]);
      forall x | x in all
        ensures x in {key(vs[0])} + rest
      {
        var i :| 0 <= i < |vs| && x == key(vs[i]);
        if i > 0 {
          assert vs[1..][i - 1] == vs[i];
        }
      }
      forall x | x in rest
        ensures x in all
      {
        var i :| 0 <= i < |vs[1..]| && x == key(vs[1..][i]);
        assert vs[i + 1] == vs[1..][i];
      }
      assert all == {key(vs[0])} + rest;
    }
  }

  /** An index over a map: the keys of all its values. */
  function IndexOf<K, V, J>(m: map<K, V>, key: V -> J): set<J> {
    set k | k in m :: key(m[k])
  }

  /** A value under a new key adds its own entry to the index, and nothing else. */
  lemma IndexOfAdded<K, V, J>(m: map<K, V>, k: K, v: V, key: V -> J)
    requires k !in m
    ensures IndexOf(m[k := v], key) == IndexOf(m, key) + {key(v)}
  {
    var more := m[k := v];
    var index := IndexOf(more, key);
    assert key(v) in index by { assert k in more; }
    forall j | j in IndexOf(m, key)
      ensures j in index
    {
      var i :| i in m && j == key(m[i]);
      assert i in more && more[i] == m[i];
    }
  }

  /** Two ways to compute the same entry give the same index. */
  lemma IndexOfSame<K, V(!new), J>(m: map<K, V>, f: V -> J, g: V -> J)
    requires forall v :: f(v) == g(v)
    ensures IndexOf(m, f) == IndexOf(m, g)
  {
    forall j
      ensures j in IndexOf(m, f) <==> j in IndexOf(m, g)
    {
      if j in IndexOf(m, f) {
        var k :| k in m && f(m[k]) == j;
        assert g(m[k]) == j;
      }
      if j in IndexOf(m, g) {
        var k :| k in m && g(m[k]) == j;
        assert f(m[k]) == j;
      }
    }
  }

  /** The same for an index of the values. */
  lemma AddAllRestores<K(!new), V, J>(le: (K, K) -> bool, m: map<K, V>, key: V -> J)
    requires TotalOrder(le)
    ensures AddAll({}, key, Values(m, Walk(le, m.Keys))) == IndexOf(m, key)
  {
    hide TotalOrder, AddAll;
    var ks := Walk(le, m.Keys);
    var vs := Values(m, ks);
    AddAllIs({}, key, vs);
    var all := set i | 0 <= i < |vs| :: key(vs[i]);
    forall k | k in m
      ensures key(m[k]) in all
    {
      var i :| 0 <= i < |ks| && ks[i] == k;
      assert vs[i] == m[k];
    }
    forall x | x in all
      ensures x in IndexOf(m, key)
    {
      var i :| 0 <= i < |vs| && x == key(vs[i]);
      assert ks[i] in m && vs[i] == m[ks[i]];
    }
  }
}
