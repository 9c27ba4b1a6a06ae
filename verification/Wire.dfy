/** The wire format as a grammar over byte sequences: tags, fields, skipping of unknown
    fields and groups, and the field list a message body decodes to. */
module Wire {
  import opened Machine
  import opened Varint

  const VARINT: nat := 0
  const FIXED64: nat := 1
  const LENGTH: nat := 2
  const START_GROUP: nat := 3
  const END_GROUP: nat := 4
  const FIXED32: nat := 5

  // ------------------------------------------------------------------ skipping

  /** One element of a skipped field: the bytes it takes and its wire type. */
  datatype Token = Token(size: nat, wireType: nat)

  /** The bytes after the tag of an element; `None` when they are malformed. */
  function BodySize(s: Bytes, wireType: nat): Option<nat> {
    if wireType == VARINT then
      match Read(s)
      case None => None
      case Some(r) => Some(r.used)
    else if wireType == FIXED64 then Some(8)
    else if wireType == LENGTH then
      match Read(s)
      case None => None
      case Some(r) => if r.value < TWO_63 then Some(r.used + r.value) else None
    else if wireType == START_GROUP || wireType == END_GROUP then Some(0)
    else if wireType == FIXED32 then Some(4)
    else None
  }

  function NextToken(s: Bytes): (t: Option<Token>)
    ensures t.Some? ==> 1 <= t.value.size <= |s|
  {
    match Read(s)
    case None => None
    case Some(tag) =>
      var wireType := tag.value % 8;
      match BodySize(s[tag.used..], wireType)
      case None => None
      case Some(n) => if tag.used + n <= |s| then Some(Token(tag.used + n, wireType)) else None
  }

  /** The bytes up to the element that closes `depth` open groups; with no open group,
      the bytes of one element or one whole group. */
  function Skip(s: Bytes, depth: nat): (n: Option<nat>)
    ensures n.Some? ==> 1 <= n.value <= |s|
    decreases |s|
  {
    match NextToken(s)
    case None => None
    case Some(t) =>
      if t.wireType == END_GROUP && depth == 0 then None
      else
        var depth' := Depth(depth, t.wireType);
        if depth' == 0 then Some(t.size)
        else match Skip(s[t.size..], depth')
          case None => None
          case Some(n) => Some(t.size + n)
  }

  function Depth(depth: nat, wireType: nat): nat
    requires wireType == END_GROUP ==> depth > 0
  {
    if wireType == START_GROUP then depth + 1
    else if wireType == END_GROUP then depth - 1
    else depth
  }

  lemma NextTokenExtend(x: Bytes, y: Bytes)
    requires NextToken(x).Some?
    ensures NextToken(x + y) == NextToken(x)
  {
    hide Get;
    GetExtend(x, y, MAX_LEN);
    var tag := Read(x).value;
    var rest := x[tag.used..];
    assert (x + y)[tag.used..] == rest + y;
    if Get(rest, MAX_LEN).Some? {
      GetExtend(rest, y, MAX_LEN);
    }
  }

  /** Skipping looks at nothing past what it skips. */
  lemma {:induction false} SkipExtend(x: Bytes, y: Bytes, depth: nat)
    requires Skip(x, depth).Some?
    ensures Skip(x + y, depth) == Skip(x, depth)
    decreases |x|
  {
    hide NextToken;
    NextTokenExtend(x, y);
    var t := NextToken(x).value;
    assert (x + y)[t.size..] == x[t.size..] + y;
    if Depth(depth, t.wireType) > 0 {
      SkipExtend(x[t.size..], y, Depth(depth, t.wireType));
    }
  }

  // ------------------------------------------------------------------ fields

  /** A field of a known message: its number and its value. */
  datatype Field =
    | VarintField(num: nat, value: uint64)
    | LenField(num: nat, data: Bytes)
  {
    function WireType(): nat {
      if VarintField? then VARINT else LENGTH
    }
  }

  /** The wire type a message expects for each of its field numbers. */
  type Kinds = map<int, nat>

  ghost predicate ValidKinds(kinds: Kinds) {
    forall num :: num in kinds ==> 0 < num < 16 && kinds[num] in {VARINT, LENGTH}
  }

  /** One field occurrence: the bytes it takes, and the field unless it is unknown. */
  datatype Hit = Hit(fields: seq<Field>, size: nat)

  /** `int32(wire >> 3)`. */
  function FieldNum(tag: uint64): int {
    var low := tag / 8 % TWO_32;
    if low < 0x8000_0000 then low else low - TWO_32
  }

  /** The value of a known field of wire type `kind` at the front of `s`. */
  function Payload(num: nat, kind: nat, s: Bytes): (h: Option<Hit>)
    ensures h.Some? ==> 1 <= h.value.size <= |s| && |h.value.fields| == 1
  {
    match Read(s)
    case None => None
    case Some(r) =>
      if kind == VARINT then Some(Hit([VarintField(num, r.value)], r.used))
      else if r.value < TWO_63 && r.used + r.value <= |s| then
        Some(Hit([LenField(num, s[r.used..r.used + r.value])], r.used + r.value))
      else None
  }

  /** The field occurrence at the front of `s`. */
  function Next(kinds: Kinds, s: Bytes): (h: Option<Hit>)
    ensures h.Some? ==> 1 <= h.value.size <= |s| && |h.value.fields| <= 1
  {
    match Read(s)
    case None => None
    case Some(tag) =>
      var num, wireType := FieldNum(tag.value), tag.value % 8;
      if wireType == END_GROUP || num <= 0 then None
      else if num in kinds then
        if kinds[num] != wireType then None
        else match Payload(num, wireType, s[tag.used..])
          case None => None
          case Some(h) => Some(h.(size := tag.used + h.size))
      else match Skip(s, 0)
        case None => None
        case Some(n) => Some(Hit([], n))
  }

  /** The known fields of a message body, in the order they occur. */
  function Parse(kinds: Kinds, s: Bytes): Option<seq<Field>>
    decreases |s|
  {
    if s == [] then Some([])
    else match Next(kinds, s)
      case None => None
      case Some(h) => Join(h.fields, Parse(kinds, s[h.size..]))
  }

  function Join(fs: seq<Field>, rest: Option<seq<Field>>): Option<seq<Field>> {
    match rest
    case None => None
    case Some(gs) => Some(fs + gs)
  }

  lemma JoinJoin(a: seq<Field>, b: seq<Field>, rest: Option<seq<Field>>)
    ensures Join(a, Join(b, rest)) == Join(a + b, rest)
    ensures Join([], rest) == rest
  {
    if rest.Some? {
      assert a + (b + rest.value) == (a + b) + rest.value;
      assert [] + rest.value == rest.value;
    }
  }

  lemma NextExtend(kinds: Kinds, x: Bytes, y: Bytes)
    requires Next(kinds, x).Some?
    ensures Next(kinds, x + y) == Next(kinds, x)
  {
    hide Get, Skip;
    GetExtend(x, y, MAX_LEN);
    var tag := Read(x).value;
    var rest := x[tag.used..];
    assert (x + y)[tag.used..] == rest + y;
    if FieldNum(tag.value) in kinds {
      GetExtend(rest, y, MAX_LEN);
      var r := Read(rest).value;
      if tag.value % 8 != VARINT {
        assert (rest + y)[r.used..r.used + r.value] == rest[r.used..r.used + r.value];
      }
    } else {
      SkipExtend(x, y, 0);
    }
  }

  /** A body that parses can be followed by any other. */
  lemma {:induction false} ParseAppend(kinds: Kinds, x: Bytes, y: Bytes)
    requires Parse(kinds, x).Some?
    ensures Parse(kinds, x + y) == Join(Parse(kinds, x).value, Parse(kinds, y))
    decreases |x|
  {
    hide Next;
    if x == [] {
      assert x + y == y;
      JoinJoin([], [], Parse(kinds, y));
    } else {
      var h := Next(kinds, x).value;
      NextExtend(kinds, x, y);
      ParseAppend(kinds, x[h.size..], y);
      assert (x + y)[h.size..] == x[h.size..] + y;
      JoinJoin(h.fields, Parse(kinds, x[h.size..]).value, Parse(kinds, y));
    }
  }

  // ------------------------------------------------------------------ encoding

  function Tag(num: nat, wireType: nat): nat {
    num * 8 + wireType
  }

  function EncodeField(f: Field): (s: Bytes) {
    Put(Tag(f.num, f.WireType())) +
    match f
    case VarintField(_, v) => Put(v)
    case LenField(_, data) => Put(|data|) + data
  }

  function EncodeAll(fs: seq<Field>): Bytes {
    if fs == [] then [] else EncodeField(fs[0]) + EncodeAll(fs[1..])
  }

  ghost predicate Encodable(kinds: Kinds, f: Field) {
    && f.num in kinds && kinds[f.num] == f.WireType()
    && (f.LenField? ==> |f.data| < TWO_63)
  }

  lemma NextEncoded(kinds: Kinds, f: Field, y: Bytes)
    requires ValidKinds(kinds) && Encodable(kinds, f)
    ensures Next(kinds, EncodeField(f) + y) == Some(Hit([f], |EncodeField(f)|))
  {
    hide Get, Put, Skip;
    var tag := Tag(f.num, f.WireType());
    var body := match f case VarintField(_, v) => Put(v) case LenField(_, data) => Put(|data|) + data;
    var s := EncodeField(f) + y;
    assert s == Put(tag) + (body + y);
    ReadPut(tag, body + y);
    assert s[|Put(tag)|..] == body + y;
    assert FieldNum(tag) == f.num && tag % 8 == f.WireType();
    match f {
      case VarintField(_, v) =>
        ReadPut(v, y);
      case LenField(_, data) =>
        assert body + y == Put(|data|) + (data + y);
        ReadPut(|data|, data + y);
        assert (body + y)[|Put(|data|)|..|body|] == data;
    }
  }

  /** Parsing inverts encoding. */
  lemma {:induction false} ParseEncoded(kinds: Kinds, fs: seq<Field>)
    requires ValidKinds(kinds)
    requires forall i :: 0 <= i < |fs| ==> Encodable(kinds, fs[i])
    ensures Parse(kinds, EncodeAll(fs)) == Some(fs)
  {
    hide Next, EncodeField;
    if fs != [] {
      var s, n := EncodeAll(fs), |EncodeField(fs[0])|;
      NextEncoded(kinds, fs[0], EncodeAll(fs[1..]));
      ParseEncoded(kinds, fs[1..]);
      assert s[n..] == EncodeAll(fs[1..]);
      assert fs == [fs[0]] + fs[1..];
    }
  }

  // ------------------------------------------------------------------ unknown fields

  /** A number spelled as a varint, whether or not in its shortest form. */
  predicate IsVarint(b: Bytes) {
    Read(b).Some? && Read(b).value.used == |b|
  }

  predicate IsTag(b: Bytes, wireType: nat) {
    IsVarint(b) && Read(b).value.value % 8 == wireType
  }

  lemma ReadExtend(x: Bytes, y: Bytes)
    requires Read(x).Some?
    ensures Read(x + y) == Read(x)
  {
    GetExtend(x, y, MAX_LEN);
  }

  lemma ReadPrefix(s: Bytes)
    requires Read(s).Some?
    ensures IsVarint(s[..Read(s).value.used]) && Read(s[..Read(s).value.used]) == Read(s)
  {
    GetPrefix(s, MAX_LEN);
  }

  /** A field of any kind, groups included, with its varints as they are spelled. The
      decoder checks neither the numbers inside a group nor the number that closes one. */
  datatype Unknown =
    | UVarint(tag: Bytes, value: Bytes)
    | UFixed64(tag: Bytes, bits: Bytes)
    | ULength(tag: Bytes, length: Bytes, data: Bytes)
    | UGroup(tag: Bytes, items: seq<Unknown>, end: Bytes)
    | UFixed32(tag: Bytes, bits: Bytes)

  ghost predicate WellFormed(u: Unknown) {
    && IsTag(u.tag, UnknownType(u))
    && match u
       case UVarint(_, value) => IsVarint(value)
       case UFixed64(_, bits) => |bits| == 8
       case ULength(_, length, data) =>
         IsVarint(length) && Read(length).value.value == |data| && |data| < TWO_63
       case UGroup(_, items, end) =>
         IsTag(end, END_GROUP) && forall i :: 0 <= i < |items| ==> WellFormed(items[i])
       case UFixed32(_, bits) => |bits| == 4
  }

  function UnknownType(u: Unknown): nat {
    match u
    case UVarint(_, _) => VARINT
    case UFixed64(_, _) => FIXED64
    case ULength(_, _, _) => LENGTH
    case UGroup(_, _, _) => START_GROUP
    case UFixed32(_, _) => FIXED32
  }

  /** The field number in the tag, as the decoder reads it. */
  ghost function UnknownNum(u: Unknown): int
    requires WellFormed(u)
  {
    FieldNum(Read(u.tag).value.value)
  }

  function EncodeUnknown(u: Unknown): (s: Bytes)
    decreases u
  {
    u.tag +
    match u
    case UVarint(_, value) => value
    case UFixed64(_, bits) => bits
    case ULength(_, length, data) => length + data
    case UGroup(_, items, end) => EncodeUnknowns(items) + end
    case UFixed32(_, bits) => bits
  }

  function EncodeUnknowns(us: seq<Unknown>): Bytes
    decreases us
  {
    if us == [] then [] else EncodeUnknown(us[0]) + EncodeUnknowns(us[1..])
  }

  /** What `Skip` does after an element of `n` bytes that leaves `depth` groups open. */
  function After(n: nat, s: Bytes, depth: nat): Option<nat> {
    if depth == 0 then Some(n)
    else match Skip(s, depth)
      case None => None
      case Some(m) => Some(n + m)
  }

  /** One element with tag `tag` and body `body`, followed by `y`. */
  lemma TokenStep(tag: Bytes, wireType: nat, body: Bytes, y: Bytes, depth: nat)
    requires IsTag(tag, wireType)
    requires BodySize(body + y, wireType) == Some(|body|)
    requires wireType == END_GROUP ==> depth > 0
    ensures Skip(tag + body + y, depth) == After(|tag + body|, y, Depth(depth, wireType))
  {
    hide Read;
    var e := tag + body;
    assert e + y == tag + (body + y);
    ReadExtend(tag, body + y);
    assert (e + y)[|tag|..] == body + y;
    assert NextToken(e + y) == Some(Token(|e|, wireType));
    assert (e + y)[|e|..] == y;
  }

  /** A well-formed field is skipped exactly, at any group depth. */
  lemma {:induction false} SkipUnknown(u: Unknown, y: Bytes, depth: nat)
    requires WellFormed(u)
    ensures Skip(EncodeUnknown(u) + y, depth) == After(|EncodeUnknown(u)|, y, depth)
    decreases u
  {
    hide Read, Skip;
    match u {
      case UVarint(tag, value) =>
        ReadExtend(value, y);
        TokenStep(tag, VARINT, value, y, depth);
      case UFixed64(tag, bits) =>
        TokenStep(tag, FIXED64, bits, y, depth);
      case ULength(tag, length, data) =>
        assert (length + data) + y == length + (data + y);
        ReadExtend(length, data + y);
        TokenStep(tag, LENGTH, length + data, y, depth);
      case UGroup(tag, items, end) =>
        var inner := EncodeUnknowns(items);
        assert EncodeUnknown(u) + y == tag + [] + (inner + (end + y));
        TokenStep(tag, START_GROUP, [], inner + (end + y), depth);
        SkipUnknowns(items, end + y, depth + 1);
        assert end + [] + y == end + y;
        TokenStep(end, END_GROUP, [], y, depth + 1);
      case UFixed32(tag, bits) =>
        TokenStep(tag, FIXED32, bits, y, depth);
    }
  }

  lemma {:induction false} SkipUnknowns(us: seq<Unknown>, y: Bytes, depth: nat)
    requires forall i :: 0 <= i < |us| ==> WellFormed(us[i])
    requires depth > 0
    ensures Skip(EncodeUnknowns(us) + y, depth) == After(|EncodeUnknowns(us)|, y, depth)
    decreases us
  {
    hide Read, Skip;
    if us == [] {
      assert EncodeUnknowns(us) + y == y;
    } else {
      var rest := EncodeUnknowns(us[1..]);
      assert EncodeUnknowns(us) + y == EncodeUnknown(us[0]) + (rest + y);
      SkipUnknown(us[0], rest + y, depth);
      SkipUnknowns(us[1..], y, depth);
    }
  }

  // ------------------------------------------------------------------ what is skipped

  /** The tag of an element, which is all of it when it opens or closes a group. */
  lemma TokenTag(s: Bytes) returns (tag: Bytes)
    requires NextToken(s).Some?
    ensures var t := NextToken(s).value;
            && IsTag(tag, t.wireType) && |tag| <= t.size && s == tag + s[|tag|..]
            && BodySize(s[|tag|..], t.wireType) == Some(t.size - |tag|)
  {
    hide Read;
    ReadPrefix(s);
    tag := s[..Read(s).value.used];
  }

  /** An element that neither opens nor closes a group. */
  lemma TokenUnknown(s: Bytes) returns (u: Unknown)
    requires NextToken(s).Some? && NextToken(s).value.wireType !in {START_GROUP, END_GROUP}
    ensures WellFormed(u) && EncodeUnknown(u) == s[..NextToken(s).value.size]
  {
    hide Read, NextToken;
    var t := NextToken(s).value;
    var tag := TokenTag(s);
    var body := s[|tag|..t.size];
    var rest := s[|tag|..];
    assert body == rest[..t.size - |tag|];
    assert s[..t.size] == tag + body;
    if t.wireType == VARINT {
      ReadPrefix(rest);
      u := UVarint(tag, body);
    } else if t.wireType == FIXED64 {
      u := UFixed64(tag, body);
    } else if t.wireType == LENGTH {
      ReadPrefix(rest);
      var n := Read(rest).value.used;
      assert rest[..n] == body[..n];
      u := ULength(tag, body[..n], body[n..]);
    } else {
      u := UFixed32(tag, body);
    }
  }

  /** One more field in front of the contents of a group. */
  lemma ContentsCons(u: Unknown, us: seq<Unknown>, end: Bytes, tail: Bytes, n: nat)
    requires n == |EncodeUnknowns(us) + end| <= |tail| && tail[..n] == EncodeUnknowns(us) + end
    ensures var s, more := EncodeUnknown(u) + tail, EncodeUnknowns([u] + us) + end;
            |more| == |EncodeUnknown(u)| + n <= |s| && s[..|more|] == more && s[|more|..] == tail[n..]
  {
    hide EncodeUnknown;
    assert ([u] + us)[1..] == us;
    var e, inner := EncodeUnknown(u), EncodeUnknowns(us);
    assert EncodeUnknowns([u] + us) == e + inner;
    assert e + inner + end == e + (inner + end);
    assert (e + tail)[..|e| + n] == e + tail[..n];
    assert (e + tail)[|e| + n..] == tail[n..];
  }

  lemma SkipOpen(s: Bytes, depth: nat)
    requires Skip(s, depth).Some? && NextToken(s).Some? && NextToken(s).value.wireType == START_GROUP
    ensures Skip(s[NextToken(s).value.size..], depth + 1).Some?
  {
    hide NextToken;
  }

  lemma SkipClose(s: Bytes, depth: nat)
    requires depth > 0 && NextToken(s).Some? && NextToken(s).value.wireType == END_GROUP
    ensures var n := NextToken(s).value.size; Skip(s, depth) == After(n, s[n..], depth - 1)
  {
    hide NextToken;
  }

  /** Up to the element that closes the innermost open group there are well-formed fields. */
  lemma {:induction false} GroupContents(s: Bytes, depth: nat) returns (us: seq<Unknown>, end: Bytes)
    requires depth > 0 && Skip(s, depth).Some?
    ensures (forall i :: 0 <= i < |us| ==> WellFormed(us[i])) && IsTag(end, END_GROUP)
    ensures var n := |EncodeUnknowns(us) + end|;
            && n <= |s| && s[..n] == EncodeUnknowns(us) + end
            && Skip(s, depth) == After(n, s[n..], depth - 1)
    decreases |s|, 1
  {
    hide Read, NextToken, IsTag, IsVarint;
    if NextToken(s).value.wireType == END_GROUP {
      end := TokenTag(s);
      us := [];
      SkipClose(s, depth);
      assert EncodeUnknowns(us) + end == end;
      assert s[..|end|] == end;
    } else {
      hide Skip, EncodeUnknown, WellFormed;
      var u := NextUnknownField(s, depth);
      var tail := s[|EncodeUnknown(u)|..];
      SkipUnknown(u, tail, depth);
      us, end := GroupContents(tail, depth);
      ContentsCons(u, us, end, tail, |EncodeUnknowns(us) + end|);
      us := [u] + us;
    }
  }

  lemma GroupField(s: Bytes, tag: Bytes, items: seq<Unknown>, end: Bytes)
    requires IsTag(tag, START_GROUP) && IsTag(end, END_GROUP) && |tag| <= |s| && s[..|tag|] == tag
    requires forall i :: 0 <= i < |items| ==> WellFormed(items[i])
    requires var n := |EncodeUnknowns(items) + end|;
             n <= |s[|tag|..]| && s[|tag|..][..n] == EncodeUnknowns(items) + end
    ensures var u := UGroup(tag, items, end);
            WellFormed(u) && |EncodeUnknown(u)| <= |s| && s == EncodeUnknown(u) + s[|EncodeUnknown(u)|..]
  {
    hide Read, EncodeUnknowns;
    var rest, inner := s[|tag|..], EncodeUnknowns(items) + end;
    assert s == tag + (rest[..|inner|] + rest[|inner|..]);
    assert EncodeUnknown(UGroup(tag, items, end)) == tag + inner;
  }

  /** The field at the front of the contents of a group, or of a message. */
  lemma {:induction false} NextUnknownField(s: Bytes, depth: nat) returns (u: Unknown)
    requires Skip(s, depth).Some? && NextToken(s).value.wireType != END_GROUP
    ensures WellFormed(u) && 0 < |EncodeUnknown(u)| <= |s|
    ensures s == EncodeUnknown(u) + s[|EncodeUnknown(u)|..]
    decreases |s|, 0
  {
    hide Read, NextToken, IsTag, IsVarint;
    var t := NextToken(s).value;
    if t.wireType == START_GROUP {
      SkipOpen(s, depth);
      var tag := TokenTag(s);
      var inner, close := GroupContents(s[t.size..], depth + 1);
      GroupField(s, tag, inner, close);
      u := UGroup(tag, inner, close);
    } else {
      u := TokenUnknown(s);
    }
    NotEmpty(u);
  }

  lemma NotEmpty(u: Unknown)
    requires WellFormed(u)
    ensures EncodeUnknown(u) != []
  {
    hide Get;
    assert |u.tag| > 0;
  }

  lemma SkippedUnknown(s: Bytes) returns (u: Unknown)
    requires Skip(s, 0).Some?
    ensures WellFormed(u) && EncodeUnknown(u) == s[..Skip(s, 0).value]
  {
    hide Read, NextToken, WellFormed;
    u := NextUnknownField(s, 0);
    SkipUnknown(u, s[|EncodeUnknown(u)|..], 0);
  }

  lemma UnknownSkipped(s: Bytes, u: Unknown, n: nat)
    requires WellFormed(u) && n <= |s| && EncodeUnknown(u) == s[..n]
    ensures Skip(s, 0) == Some(n)
  {
    hide Skip, EncodeUnknown, WellFormed;
    assert s == s[..n] + s[n..];
    SkipUnknown(u, s[n..], 0);
  }

  /** Counting open groups skips exactly the well-formed fields, groups nested to any depth
      included. */
  lemma SkipIffUnknown(s: Bytes, n: nat)
    ensures Skip(s, 0) == Some(n) <==>
            n <= |s| && exists u :: WellFormed(u) && EncodeUnknown(u) == s[..n]
  {
    hide Skip, EncodeUnknown, WellFormed;
    if Skip(s, 0) == Some(n) {
      var u := SkippedUnknown(s);
    }
    if n <= |s| {
      forall u | WellFormed(u) && EncodeUnknown(u) == s[..n]
        ensures Skip(s, 0) == Some(n)
      {
        UnknownSkipped(s, u, n);
      }
    }
  }

  /** A body with one field that parses to nothing is exactly a well-formed field with a
      positive number that the message does not know. */
  lemma NextIffUnknown(kinds: Kinds, e: Bytes)
    ensures Next(kinds, e) == Some(Hit([], |e|)) <==>
            exists u :: WellFormed(u) && UnknownNum(u) !in kinds && UnknownNum(u) > 0 && EncodeUnknown(u) == e
  {
    hide Read, Skip, WellFormed, Payload;
    if Next(kinds, e) == Some(Hit([], |e|)) {
      PayloadField(kinds, e);
      var u := SkippedUnknown(e);
      assert e[..|e|] == e;
      UnknownTag(u, []);
      assert EncodeUnknown(u) + [] == e;
    }
    if u :| WellFormed(u) && UnknownNum(u) !in kinds && UnknownNum(u) > 0 && EncodeUnknown(u) == e {
      assert e + [] == e;
      UnknownTag(u, []);
      SkipUnknown(u, [], 0);
    }
  }

  /** A known field is never passed over. */
  lemma PayloadField(kinds: Kinds, e: Bytes)
    requires Next(kinds, e) == Some(Hit([], |e|))
    ensures Read(e).Some? && FieldNum(Read(e).value.value) !in kinds && Skip(e, 0) == Some(|e|)
    ensures FieldNum(Read(e).value.value) > 0 && Read(e).value.value % 8 != END_GROUP
  {
    hide Read, Skip;
  }

  lemma UnknownTag(u: Unknown, y: Bytes)
    requires WellFormed(u)
    ensures Read(EncodeUnknown(u) + y).Some?
    ensures var tag := Read(EncodeUnknown(u) + y).value.value;
            FieldNum(tag) == UnknownNum(u) && tag % 8 == UnknownType(u)
  {
    hide Read;
    var body := EncodeUnknown(u)[|u.tag|..];
    assert EncodeUnknown(u) + y == u.tag + (body + y);
    ReadExtend(u.tag, body + y);
  }

  /** What parses to no field, put between two parts of a body, changes nothing. */
  lemma ParseInsert(kinds: Kinds, x: Bytes, e: Bytes, y: Bytes)
    requires Parse(kinds, x).Some? && Next(kinds, e) == Some(Hit([], |e|))
    ensures Parse(kinds, x + e + y) == Parse(kinds, x + y)
  {
    hide Next;
    assert Parse(kinds, e) == Some([]) by {
      JoinJoin([], [], Some([]));
      assert e[|e|..] == [];
    }
    assert x + e + y == x + (e + y);
    ParseAppend(kinds, x, e + y);
    ParseAppend(kinds, e, y);
    ParseAppend(kinds, x, y);
    JoinJoin([], [], Parse(kinds, y));
  }
}
