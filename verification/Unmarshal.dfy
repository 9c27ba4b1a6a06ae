/** The generated decoder: the skip loop, the reading of one field, and the loop over a
    message body, on 64-bit wrapping indexes; and what it computes, a fold over fields. */
module Unmarshal {
  import opened Machine
  import opened Varint
  import opened Wire

  // ------------------------------------------------------------------ specification

  /** Applying fields to a message in order; a field may be refused. */
  function Fold<M>(apply: (M, Field) -> Option<M>, m: M, fs: seq<Field>): Option<M> {
    if fs == [] then Some(m)
    else match apply(m, fs[0])
      case None => None
      case Some(m') => Fold(apply, m', fs[1..])
  }

  lemma {:induction false} FoldAppend<M>(apply: (M, Field) -> Option<M>, m: M, a: seq<Field>, b: seq<Field>)
    ensures Fold(apply, m, a + b) == match Fold(apply, m, a)
                                     case None => None
                                     case Some(m') => Fold(apply, m', b)
    decreases |a|
  {
    if a == [] {
      assert a + b == b;
    } else {
      assert (a + b)[1..] == a[1..] + b;
      if apply(m, a[0]).Some? {
        FoldAppend(apply, apply(m, a[0]).value, a[1..], b);
      }
    }
  }

  /** Decoding the body `s` on top of the message `m`. */
  function Decode<M>(kinds: Kinds, apply: (M, Field) -> Option<M>, m: M, s: Bytes): Option<M> {
    match Parse(kinds, s)
    case None => None
    case Some(fs) => Fold(apply, m, fs)
  }

  /** Decoding a concatenation is decoding the second part on top of the first. */
  lemma DecodeAppend<M>(kinds: Kinds, apply: (M, Field) -> Option<M>, m: M, x: Bytes, y: Bytes)
    requires Decode(kinds, apply, m, x).Some?
    ensures Decode(kinds, apply, m, x + y)
         == Decode(kinds, apply, Decode(kinds, apply, m, x).value, y)
  {
    ParseAppend(kinds, x, y);
    if Parse(kinds, y).Some? {
      FoldAppend(apply, m, Parse(kinds, x).value, Parse(kinds, y).value);
    }
  }

  /** Anything that parses to no field, so any well-formed unknown field however its
      varints are spelled, changes no result at any boundary between fields. */
  lemma DecodeInsert<M>(kinds: Kinds, apply: (M, Field) -> Option<M>, m: M, x: Bytes, e: Bytes, y: Bytes)
    requires Parse(kinds, x).Some? && Next(kinds, e) == Some(Hit([], |e|))
    ensures Decode(kinds, apply, m, x + e + y) == Decode(kinds, apply, m, x + y)
  {
    ParseInsert(kinds, x, e, y);
  }

  lemma DecodeStep<M>(kinds: Kinds, apply: (M, Field) -> Option<M>, m: M, s: Bytes)
    requires s != []
    ensures Decode(kinds, apply, m, s) ==
            match Next(kinds, s)
            case None => None
            case Some(h) => match Fold(apply, m, h.fields)
              case None => None
              case Some(m') => Decode(kinds, apply, m', s[h.size..])
  {
    hide Next;
    if Next(kinds, s).Some? && Parse(kinds, s).Some? {
      var h := Next(kinds, s).value;
      FoldAppend(apply, m, h.fields, Parse(kinds, s[h.size..]).value);
    }
  }

  /** A field as a loop into a 32-bit variable leaves it, when its number is in `narrow`. */
  function Narrowed(narrow: set<int>, f: Field): Field {
    if f.VarintField? && f.num in narrow then f.(value := f.value % TWO_32) else f
  }

  function NarrowedHit(narrow: set<int>, h: Option<Hit>): Option<Hit> {
    match h
    case None => None
    case Some(Hit(fields, size)) => Some(Hit(if fields == [] then [] else [Narrowed(narrow, fields[0])], size))
  }

  /** A switch that keeps only the low 32 bits of the fields in `narrow`. */
  ghost predicate KeepsLow<M(!new)>(apply: (M, Field) -> Option<M>, narrow: set<int>) {
    forall m, f :: apply(m, Narrowed(narrow, f)) == apply(m, f)
  }

  // ------------------------------------------------------------------ the loops

  /** The tag and body of one skipped element: the index after it, which may lie past the
      end of the data, and its wire type. */
  method SkipElement(d: Bytes, start: nat) returns (r: Result<Token, WireError>)
    requires start < |d| < TWO_63
    ensures r.Ok? ==> start < r.value.size < TWO_63
    ensures r.Ok? && r.value.size <= |d| <==> NextToken(d[start..]).Some?
    ensures NextToken(d[start..]).Some? ==>
              r.value == NextToken(d[start..]).value.(size := r.value.size)
              && r.value.size == start + NextToken(d[start..]).value.size
  {
    hide Read, AddInt;
    var wire :- Read64(d, start);
    var i: int := start + wire.used;
    var wireType := wire.value % 8;
    assert d[start..][wire.used..] == d[i..];
    if wireType == VARINT {
      var body :- Read64(d, i);
      i := i + body.used;
    } else if wireType == FIXED64 {
      i := AddInt(i, 8);
    } else if wireType == LENGTH {
      var body :- Read64(d, i);
      i := i + body.used;
      var length := AsInt64(body.value);
      if length < 0 {
        return Err(InvalidLength);
      }
      i := AddInt(i, length);
    } else if wireType == FIXED32 {
      i := AddInt(i, 4);
    } else if wireType != START_GROUP && wireType != END_GROUP {
      return Err(IllegalWireType);
    }
    if i < 0 {
      return Err(InvalidLength);
    }
    return Ok(Token(i, wireType));
  }

  function Past(i: nat, rest: Option<nat>): Option<nat> {
    match rest
    case None => None
    case Some(n) => Some(i + n)
  }

  /** The skip loop. The index it returns may lie past the end of the data: the caller
      compares it with the length. */
  method SkipTypes(d: Bytes) returns (r: Result<nat, WireError>)
    requires |d| < TWO_63
    ensures r.Ok? && r.value <= |d| <==> Skip(d, 0).Some?
    ensures Skip(d, 0).Some? ==> r.value == Skip(d, 0).value
    ensures r.Ok? ==> 1 <= r.value < TWO_63
  {
    hide NextToken;
    var i, depth: nat := 0, 0;
    assert d[0..] == d;
    while i < |d|
      invariant i <= |d| ==> Skip(d, 0) == Past(i, Skip(d[i..], depth))
      invariant i > |d| ==> Skip(d, 0).None?
      decreases |d| - i
    {
      ghost var before := d[i..];
      var t :- SkipElement(d, i);
      if t.wireType == END_GROUP && depth == 0 {
        return Err(UnexpectedEndOfGroup);
      }
      depth := Depth(depth, t.wireType);
      assert t.size <= |d| ==> before[t.size - i..] == d[t.size..];
      i := t.size;
      if depth == 0 {
        return Ok(i);
      }
    }
    return Err(UnexpectedEOF);
  }

  lemma SliceWithin(d: Bytes, start: nat, skip: nat, length: nat)
    requires start + skip + length <= |d|
    ensures d[start..][skip..skip + length] == d[start + skip..start + skip + length]
  {
  }

  /** One pass of the decoder's loop: the tag, its checks, and either the value of a known
      field, read into a 32-bit variable for the fields in `narrow`, or the skipping of an
      unknown one. */
  method NextField(kinds: Kinds, narrow: set<int>, d: Bytes, preIndex: nat) returns (r: Result<Hit, WireError>)
    requires ValidKinds(kinds)
    requires preIndex < |d| < TWO_63
    ensures r.ToOption() == NarrowedHit(narrow, Next(kinds, d[preIndex..]))
    ensures r.Ok? && r.value.fields != [] && r.value.fields[0].LenField? ==> |r.value.fields[0].data| <= |d|
  {
    hide Read, Skip, AddInt;
    var wire :- Read64(d, preIndex);
    var i: int := preIndex + wire.used;
    var fieldNum, wireType := FieldNum(wire.value), wire.value % 8;
    ghost var s := d[preIndex..];
    assert s[wire.used..] == d[i..];
    if wireType == END_GROUP {
      return Err(EndGroupForNonGroup);
    }
    if fieldNum <= 0 {
      return Err(IllegalTag);
    }
    if fieldNum in kinds {
      if kinds[fieldNum] != wireType {
        return Err(WrongWireType);
      }
      if wireType == VARINT && fieldNum in narrow {
        var v :- Read32(d, i);
        return Ok(Hit([VarintField(fieldNum, v.value)], i + v.used - preIndex));
      }
      var v :- Read64(d, i);
      i := i + v.used;
      if wireType == VARINT {
        return Ok(Hit([VarintField(fieldNum, v.value)], i - preIndex));
      }
      var length := AsInt64(v.value);
      if length < 0 {
        return Err(InvalidLength);
      }
      var postIndex := AddInt(i, length);
      if postIndex < 0 {
        return Err(InvalidLength);
      }
      if postIndex > |d| {
        return Err(UnexpectedEOF);
      }
      SliceWithin(d, i - v.used, v.used, v.value);
      return Ok(Hit([LenField(fieldNum, d[i..postIndex])], postIndex - preIndex));
    } else {
      var skippy :- SkipTypes(d[preIndex..]);
      if skippy < 0 || AddInt(preIndex, skippy) < 0 {
        return Err(InvalidLength);
      }
      if AddInt(preIndex, skippy) > |d| {
        return Err(UnexpectedEOF);
      }
      return Ok(Hit([], skippy));
    }
  }

  /** `Unmarshal` of a message with field kinds `kinds`, 32-bit fields `narrow` and the
      switch `apply`, on top of the message `m0`. It terminates on every input and fails
      exactly when the specification does. */
  method UnmarshalMessage<M(!new)>(kinds: Kinds, narrow: set<int>, apply: (M, Field) -> Option<M>, m0: M, d: Bytes)
    returns (r: Option<M>)
    requires ValidKinds(kinds) && KeepsLow(apply, narrow)
    requires |d| < TWO_63
    ensures r == Decode(kinds, apply, m0, d)
  {
    hide Next, Decode, Narrowed;
    var m, i := m0, 0;
    assert d[0..] == d;
    while i < |d|
      invariant i <= |d|
      invariant Decode(kinds, apply, m0, d) == Decode(kinds, apply, m, d[i..])
    {
      DecodeStep(kinds, apply, m, d[i..]);
      var hit := NextField(kinds, narrow, d, i);
      if hit.Err? {
        return None;
      }
      var h := hit.value;
      if h.fields != [] {
        var next := apply(m, h.fields[0]);
        if next.None? {
          return None;
        }
        m := next.value;
      }
      assert d[i..][h.size..] == d[i + h.size..];
      i := i + h.size;
    }
    assert d[i..] == [];
    DecodeEmpty(kinds, apply, m);
    return Some(m);
  }

  lemma DecodeEmpty<M>(kinds: Kinds, apply: (M, Field) -> Option<M>, m: M)
    ensures Decode(kinds, apply, m, []) == Some(m)
  {
  }
}
