/** The wire format in literal bytes: what the grammar, the tables of field numbers and the
    switches amount to, spelled out without them. */
module WireLaws {
  import opened Machine
  import opened Varint
  import opened Wire
  import opened Unmarshal
  import opened Messages

  // ------------------------------------------------------------------ numbers

  /** A varint is no longer than its value needs. */
  lemma {:induction false} PutSize(v: nat)
    ensures var n := |Put(v)|; v < Pow2(7 * n) && (n > 1 ==> v >= Pow2(7 * (n - 1)))
  {
    hide Pow2;
    Pow2Small();
    if v >= 0x80 {
      var n := |Put(v / 0x80)|;
      PutSize(v / 0x80);
      Pow2Seven(n);
      Pow2Seven(n - 1);
    }
  }

  /** Byte `i` of a varint holds the seven bits from bit 7i on, and its top bit says whether
      another byte follows. */
  lemma {:induction false} PutBytes(v: nat, i: nat)
    requires i < |Put(v)|
    ensures Put(v)[i] == v / Pow2(7 * i) % 128 + if i < |Put(v)| - 1 then 128 else 0
    decreases i
  {
    hide Pow2;
    Pow2Small();
    if i > 0 {
      assert Put(v)[i] == Put(v / 0x80)[i - 1];
      PutBytes(v / 0x80, i - 1);
      Pow2Seven(i - 1);
      DivTwice(v, Pow2(7 * (i - 1)));
    }
  }

  lemma Pow2Small()
    ensures Pow2(0) == 1 && Pow2(7) == 128
  {
  }

  lemma DivTwice(v: nat, p: nat)
    requires p > 0
    ensures v / 128 / p == v / (128 * p)
  {
    var q, r := v / 128, v % 128;
    var d, e := q / p, q % p;
    assert v == 128 * (d * p + e) + r;
    assert v == d * (128 * p) + (128 * e + r);
    assert 128 * e + r < 128 * p;
    DivModUnique(v, 128 * p, d, 128 * e + r);
  }

  /** The number written in groups of seven bits, the lowest first. */
  function Little(s: Bytes): nat {
    if s == [] then 0 else s[0] % 128 + 128 * Little(s[1..])
  }

  /** Bytes that go on up to the last one, which stops. */
  ghost predicate OneNumber(s: Bytes) {
    s != [] && s[|s| - 1] < 128 && forall i :: 0 <= i < |s| - 1 ==> s[i] >= 128
  }

  lemma {:induction false} GetIff(s: Bytes, room: nat, n: nat)
    ensures (Get(s, room).Some? && Get(s, room).value.used == n) <==> n <= room && n <= |s| && OneNumber(s[..n])
    ensures Get(s, room).Some? && Get(s, room).value.used == n ==> Get(s, room).value.value == Little(s[..n])
    decreases room
  {
    if room > 0 && s != [] && n > 0 && n <= |s| {
      assert s[..n][0] == s[0] && s[..n][1..] == s[1..][..n - 1];
      if s[0] >= 0x80 {
        GetIff(s[1..], room - 1, n - 1);
        if n > 1 {
          var t := s[1..][..n - 1];
          assert forall i :: 0 <= i < n - 1 ==> t[i] == s[i + 1];
          assert forall i :: 0 < i < n ==> s[i] == t[i - 1];
        }
      } else if n == 1 {
        assert s[..1][1..] == [];
      }
    }
  }

  /** What is read at the front of a text: one number of at most ten bytes, modulo 2^64. */
  lemma ReadIff(s: Bytes, x: nat, n: nat)
    ensures Read(s) == Some(Reading(x, n)) <==>
            n <= 10 && n <= |s| && OneNumber(s[..n]) && x == Little(s[..n]) % 0x1_0000_0000_0000_0000
  {
    hide Get;
    GetIff(s, MAX_LEN, n);
  }

  /** The field number of a tag: its bits above the third, as a signed 32-bit number. */
  lemma FieldNumIs(tag: uint64)
    ensures -0x8000_0000 <= FieldNum(tag) < 0x8000_0000
    ensures (FieldNum(tag) - tag / 8) % 0x1_0000_0000 == 0
  {
    var t := tag / 8;
    assert t == t / TWO_32 * TWO_32 + t % TWO_32;
    if t % TWO_32 < 0x8000_0000 {
      MultipleOf32(FieldNum(tag) - t, -(t / TWO_32));
    } else {
      MultipleOf32(FieldNum(tag) - t, -(t / TWO_32) - 1);
    }
  }

  lemma MultipleOf32(x: int, q: int)
    requires x == q * 0x1_0000_0000
    ensures x % 0x1_0000_0000 == 0
  {
  }

  // ------------------------------------------------------------------ unknown fields

  /** A field of any wire type, under any number, groups nested to any depth. */
  datatype Item =
    | Number(n: nat, value: uint64)
    | Eight(n: nat, bits: Bytes)
    | Text(n: nat, data: Bytes)
    | Group(n: nat, items: seq<Item>, close: nat)
    | Four(n: nat, bits: Bytes)

  function Spelled(e: Item): Bytes
    decreases e
  {
    match e
    case Number(n, v) => Put(8 * n) + Put(v)
    case Eight(n, bits) => Put(8 * n + 1) + bits
    case Text(n, data) => Put(8 * n + 2) + Put(|data|) + data
    case Group(n, items, close) => Put(8 * n + 3) + SpelledAll(items) + Put(8 * close + 4)
    case Four(n, bits) => Put(8 * n + 5) + bits
  }

  function SpelledAll(es: seq<Item>): Bytes
    decreases es
  {
    if es == [] then [] else Spelled(es[0]) + SpelledAll(es[1..])
  }

  ghost predicate Fits(e: Item) {
    && e.n < 0x2000_0000_0000_0000
    && match e
       case Number(_, _) => true
       case Eight(_, bits) => |bits| == 8
       case Text(_, data) => |data| < 0x8000_0000_0000_0000
       case Group(_, items, close) =>
         close < 0x2000_0000_0000_0000 && forall i :: 0 <= i < |items| ==> Fits(items[i])
       case Four(_, bits) => |bits| == 4
  }

  function ToUnknown(e: Item): Unknown
    decreases e
  {
    match e
    case Number(n, v) => UVarint(Put(8 * n), Put(v))
    case Eight(n, bits) => UFixed64(Put(8 * n + 1), bits)
    case Text(n, data) => ULength(Put(8 * n + 2), Put(|data|), data)
    case Group(n, items, close) => UGroup(Put(8 * n + 3), ToUnknowns(items), Put(8 * close + 4))
    case Four(n, bits) => UFixed32(Put(8 * n + 5), bits)
  }

  function ToUnknowns(es: seq<Item>): (us: seq<Unknown>)
    ensures |us| == |es|
    decreases es
  {
    if es == [] then [] else [ToUnknown(es[0])] + ToUnknowns(es[1..])
  }

  lemma PutReads(v: uint64)
    ensures Read(Put(v)) == Some(Reading(v, |Put(v)|))
  {
    ReadPut(v, []);
    assert Put(v) + [] == Put(v);
  }

  lemma TagIs(n: nat, wireType: nat)
    requires n < 0x2000_0000_0000_0000 && wireType < 8
    ensures IsTag(Put(8 * n + wireType), wireType)
  {
    hide Put, Read;
    PutReads(8 * n + wireType);
  }

  lemma VarintIs(v: uint64)
    ensures IsVarint(Put(v)) && Read(Put(v)).value.value == v
  {
    hide Put, Read;
    PutReads(v);
  }

  lemma {:induction false} ItemIsUnknown(e: Item)
    requires Fits(e)
    ensures WellFormed(ToUnknown(e)) && EncodeUnknown(ToUnknown(e)) == Spelled(e)
    decreases e, 0
  {
    hide Put, Read, IsTag, IsVarint;
    match e {
      case Number(n, v) =>
        TagIs(n, 0);
        VarintIs(v);
      case Eight(n, bits) =>
        TagIs(n, 1);
      case Text(n, data) =>
        TagIs(n, 2);
        VarintIs(|data|);
        Assoc(Put(8 * n + 2), Put(|data|), data);
      case Group(n, items, close) =>
        TagIs(n, 3);
        TagIs(close, 4);
        ItemsAreUnknown(items);
        GroupIsUnknown(Put(8 * n + 3), ToUnknowns(items), Put(8 * close + 4));
      case Four(n, bits) =>
        TagIs(n, 5);
    }
  }

  lemma GroupIsUnknown(tag: Bytes, us: seq<Unknown>, close: Bytes)
    requires IsTag(tag, 3) && IsTag(close, 4) && forall i :: 0 <= i < |us| ==> WellFormed(us[i])
    ensures WellFormed(UGroup(tag, us, close))
    ensures EncodeUnknown(UGroup(tag, us, close)) == tag + EncodeUnknowns(us) + close
  {
    hide Read, EncodeUnknowns;
    Assoc(tag, EncodeUnknowns(us), close);
  }

  lemma {:induction false} ItemsAreUnknown(es: seq<Item>)
    requires forall i :: 0 <= i < |es| ==> Fits(es[i])
    ensures EncodeUnknowns(ToUnknowns(es)) == SpelledAll(es)
    ensures forall i :: 0 <= i < |es| ==> WellFormed(ToUnknowns(es)[i])
    decreases es
  {
    hide WellFormed, Fits;
    if es != [] {
      ItemIsUnknown(es[0]);
      ItemsAreUnknown(es[1..]);
      assert ToUnknowns(es)[1..] == ToUnknowns(es[1..]);
    }
  }

  lemma ItemTag(e: Item)
    requires Fits(e)
    ensures Read(ToUnknown(e).tag).Some? && Read(ToUnknown(e).tag).value.value / 8 == e.n
  {
    hide Put, Read;
    PutReads(8 * e.n);
    PutReads(8 * e.n + 1);
    PutReads(8 * e.n + 2);
    PutReads(8 * e.n + 3);
    PutReads(8 * e.n + 5);
  }

  /** A field of any wire type under a number the message does not know, put between two
      parts of a body, changes no result. */
  lemma UnknownIsSkipped<M>(kinds: Kinds, apply: (M, Field) -> Option<M>, m: M, x: Bytes, e: Item, y: Bytes)
    requires Parse(kinds, x).Some? && Fits(e) && 0 < e.n < 0x8000_0000 && e.n !in kinds
    ensures Decode(kinds, apply, m, x + Spelled(e) + y) == Decode(kinds, apply, m, x + y)
  {
    hide Decode, Parse, Next, WellFormed, Fits, Spelled;
    ItemIsUnknown(e);
    ItemTag(e);
    var u := ToUnknown(e);
    UnknownNumIs(u, e.n);
    NextIffUnknown(kinds, Spelled(e));
    DecodeInsert(kinds, apply, m, x, Spelled(e), y);
  }

  lemma UnknownNumIs(u: Unknown, n: nat)
    requires WellFormed(u) && Read(u.tag).Some? && Read(u.tag).value.value / 8 == n < 0x8000_0000
    ensures UnknownNum(u) == n
  {
    hide Read;
  }

  // ------------------------------------------------------------------ known fields

  /** A number under field `n`, and a text under field `n`. */
  function NumberField(n: nat, v: uint64): Bytes {
    Put(8 * n) + Put(v)
  }

  function TextField(n: nat, b: Bytes): Bytes {
    Put(8 * n + 2) + Put(|b|) + b
  }

  lemma FieldSpelled(n: nat, v: uint64, b: Bytes)
    ensures EncodeField(VarintField(n, v)) == NumberField(n, v)
    ensures EncodeField(LenField(n, b)) == TextField(n, b)
  {
    Assoc(Put(8 * n + 2), Put(|b|), b);
  }

  lemma DecodeOne<M>(kinds: Kinds, apply: (M, Field) -> Option<M>, m: M, f: Field)
    requires ValidKinds(kinds) && Encodable(kinds, f)
    ensures Decode(kinds, apply, m, EncodeField(f)) == apply(m, f)
  {
    hide EncodeField, Next;
    ParseEncoded(kinds, [f]);
    assert [f][1..] == [] && EncodeAll([f]) == EncodeField(f) by {
      assert EncodeField(f) + [] == EncodeField(f);
    }
    if apply(m, f).Some? {
      assert Fold(apply, apply(m, f).value, []) == apply(m, f);
    }
  }

  lemma DecodeText<M>(kinds: Kinds, apply: (M, Field) -> Option<M>, m: M, n: nat, b: Bytes)
    requires ValidKinds(kinds) && n in kinds && kinds[n] == 2 && |b| < 0x8000_0000_0000_0000
    ensures Decode(kinds, apply, m, TextField(n, b)) == apply(m, LenField(n, b))
  {
    hide Decode, ValidKinds;
    FieldSpelled(n, 0, b);
    DecodeOne(kinds, apply, m, LenField(n, b));
  }

  lemma DecodeNumber<M>(kinds: Kinds, apply: (M, Field) -> Option<M>, m: M, n: nat, v: uint64)
    requires ValidKinds(kinds) && n in kinds && kinds[n] == 0
    ensures Decode(kinds, apply, m, NumberField(n, v)) == apply(m, VarintField(n, v))
  {
    hide Decode, ValidKinds;
    FieldSpelled(n, v, []);
    DecodeOne(kinds, apply, m, VarintField(n, v));
  }

  /** Two's complement, as a signed 64-bit field takes an unsigned number. */
  function Signed(v: uint64): int64 {
    if v < 0x8000_0000_0000_0000 then v else v - 0x1_0000_0000_0000_0000
  }

  /** Each field of a record under its number. */
  lemma EnergyDataField(m: EnergyData, b: Bytes, v: uint64)
    requires |b| < 0x8000_0000_0000_0000
    ensures DecodeEnergyData(m, TextField(1, b)) == Some(m.(id := b))
    ensures DecodeEnergyData(m, TextField(2, b)) == Some(m.(category := b))
    ensures DecodeEnergyData(m, TextField(3, b)) == Some(m.(submitter := b))
    ensures DecodeEnergyData(m, TextField(4, b)) == Some(m.(dataHash := b))
    ensures DecodeEnergyData(m, TextField(5, b)) == Some(m.(metadata := b))
    ensures DecodeEnergyData(m, NumberField(6, v)) == Some(m.(blockHeight := Signed(v)))
    ensures DecodeEnergyData(m, NumberField(7, v)) == Some(m.(timestamp := Signed(v)))
  {
    hide Decode, TextField, NumberField;
    DecodeText(ENERGY_DATA_KINDS, ApplyEnergyData, m, 1, b);
    DecodeText(ENERGY_DATA_KINDS, ApplyEnergyData, m, 2, b);
    DecodeText(ENERGY_DATA_KINDS, ApplyEnergyData, m, 3, b);
    DecodeText(ENERGY_DATA_KINDS, ApplyEnergyData, m, 4, b);
    DecodeText(ENERGY_DATA_KINDS, ApplyEnergyData, m, 5, b);
    DecodeNumber(ENERGY_DATA_KINDS, ApplyEnergyData, m, 6, v);
    DecodeNumber(ENERGY_DATA_KINDS, ApplyEnergyData, m, 7, v);
  }

  lemma BatchField(m: BatchSubmission, b: Bytes, v: uint64)
    requires |b| < 0x8000_0000_0000_0000
    ensures DecodeBatch(m, TextField(1, b)) == Some(m.(id := b))
    ensures DecodeBatch(m, TextField(2, b)) == Some(m.(submitter := b))
    ensures DecodeBatch(m, TextField(3, b)) == Some(m.(category := b))
    ensures DecodeBatch(m, NumberField(4, v)) == Some(m.(dataCount := v % 0x1_0000_0000))
    ensures DecodeBatch(m, TextField(5, b)) == Some(m.(merkleRoot := b))
    ensures DecodeBatch(m, NumberField(6, v)) == Some(m.(timestamp := Signed(v)))
  {
    hide Decode, TextField, NumberField;
    DecodeText(BATCH_KINDS, ApplyBatch, m, 1, b);
    DecodeText(BATCH_KINDS, ApplyBatch, m, 2, b);
    DecodeText(BATCH_KINDS, ApplyBatch, m, 3, b);
    DecodeNumber(BATCH_KINDS, ApplyBatch, m, 4, v);
    DecodeText(BATCH_KINDS, ApplyBatch, m, 5, b);
    DecodeNumber(BATCH_KINDS, ApplyBatch, m, 6, v);
  }

  lemma ParamsField(m: Params, b: Bytes, v: uint64)
    requires |b| < 0x8000_0000_0000_0000
    ensures DecodeParams(m, NumberField(1, v)) == Some(m.(maxBatchSize := v % 0x1_0000_0000))
    ensures DecodeParams(m, TextField(2, b)) == Some(m.(allowedSubmitters := m.allowedSubmitters + [b]))
    ensures DecodeParams(m, NumberField(3, v)) == Some(m.(permissionless := v != 0))
    ensures DecodeParams(m, NumberField(4, v)) == Some(m.(maxMetadataSize := v % 0x1_0000_0000))
    ensures DecodeParams(m, NumberField(5, v)) == Some(m.(maxSubmissions := v % 0x1_0000_0000))
  {
    hide Decode, TextField, NumberField;
    DecodeNumber(PARAMS_KINDS, ApplyParams, m, 1, v);
    DecodeText(PARAMS_KINDS, ApplyParams, m, 2, b);
    DecodeNumber(PARAMS_KINDS, ApplyParams, m, 3, v);
    DecodeNumber(PARAMS_KINDS, ApplyParams, m, 4, v);
    DecodeNumber(PARAMS_KINDS, ApplyParams, m, 5, v);
  }

  lemma ItemField(m: BatchItem, b: Bytes)
    requires |b| < 0x8000_0000_0000_0000
    ensures DecodeItem(m, TextField(1, b)) == Some(m.(dataHash := b))
    ensures DecodeItem(m, TextField(2, b)) == Some(m.(metadata := b))
  {
    hide Decode, TextField;
    DecodeText(ITEM_KINDS, ApplyItem, m, 1, b);
    DecodeText(ITEM_KINDS, ApplyItem, m, 2, b);
  }

  /** Embedded parameters go on top of those there; records and batches start from nothing;
      an embedded message that does not decode is refused. */
  lemma GenesisField(m: GenesisState, b: Bytes, v: uint64)
    requires |b| < 0x8000_0000_0000_0000
    ensures DecodeGenesis(m, TextField(1, b)) == match DecodeParams(m.params, b)
                                                 case None => None
                                                 case Some(p) => Some(m.(params := p))
    ensures DecodeGenesis(m, TextField(2, b)) == match DecodeEnergyData(EnergyData([], [], [], [], [], 0, 0), b)
                                                 case None => None
                                                 case Some(d) => Some(m.(dataRecords := m.dataRecords + [d]))
    ensures DecodeGenesis(m, TextField(3, b)) == match DecodeBatch(BatchSubmission([], [], [], 0, [], 0), b)
                                                 case None => None
                                                 case Some(x) => Some(m.(batches := m.batches + [x]))
    ensures DecodeGenesis(m, NumberField(4, v)) == Some(m.(nextID := v))
  {
    hide Decode, TextField, NumberField;
    DecodeText(GENESIS_KINDS, ApplyGenesis, m, 1, b);
    DecodeText(GENESIS_KINDS, ApplyGenesis, m, 2, b);
    DecodeText(GENESIS_KINDS, ApplyGenesis, m, 3, b);
    DecodeNumber(GENESIS_KINDS, ApplyGenesis, m, 4, v);
  }

  // ------------------------------------------------------------------ what is refused

  /** A body whose next field begins with tag number `t` is refused if `t` has field number
      zero, closes a group, or has the wrong wire type for a field the message knows. */
  lemma TagRefused<M>(kinds: Kinds, apply: (M, Field) -> Option<M>, m: M, x: Bytes, t: uint64, y: Bytes)
    requires ValidKinds(kinds) && Parse(kinds, x).Some? && t < 0x4_0000_0000
    requires t / 8 == 0 || t % 8 == 4 || t % 8 == 6 || t % 8 == 7 || (t / 8 in kinds && kinds[t / 8] != t % 8)
    ensures Decode(kinds, apply, m, x + (Put(t) + y)) == None
  {
    hide Read, Put, Skip, Next;
    var s := Put(t) + y;
    ReadPut(t, y);
    NoField(kinds, s, t);
    ParseAppend(kinds, x, s);
  }

  lemma NoField(kinds: Kinds, s: Bytes, t: uint64)
    requires ValidKinds(kinds) && Read(s).Some? && Read(s).value.value == t < 0x4_0000_0000
    requires t / 8 == 0 || t % 8 == 4 || t % 8 == 6 || t % 8 == 7 || (t / 8 in kinds && kinds[t / 8] != t % 8)
    ensures Next(kinds, s) == None
  {
    hide Read, Skip;
    assert FieldNum(t) == t / 8;
    if t % 8 == 6 || t % 8 == 7 {
      NoSuchType(s, t);
    }
  }

  lemma NoSuchType(s: Bytes, t: uint64)
    requires Read(s).Some? && Read(s).value.value == t && (t % 8 == 6 || t % 8 == 7)
    ensures Skip(s, 0) == None
  {
    hide Read;
  }

  /** So is a text that is announced longer than what is left of the body, known or not. */
  lemma LengthRefused<M>(kinds: Kinds, apply: (M, Field) -> Option<M>, m: M, x: Bytes, n: nat, l: uint64, y: Bytes)
    requires ValidKinds(kinds) && Parse(kinds, x).Some? && n < 0x2000_0000 && l > |y|
    ensures Decode(kinds, apply, m, x + (Put(8 * n + 2) + (Put(l) + y))) == None
  {
    hide Get, Put;
    var s := Put(8 * n + 2) + (Put(l) + y);
    ReadPut(8 * n + 2, Put(l) + y);
    ReadPut(l, y);
    assert s[|Put(8 * n + 2)|..] == Put(l) + y;
    assert Skip(s, 0) == None;
    assert Next(kinds, s) == None;
    ParseAppend(kinds, x, s);
  }

  // ------------------------------------------------------------------ encodings

  /** A text behind a tag byte, left out when empty; and a number, left out when zero. */
  function TextAt(tag: byte, b: Bytes): Bytes {
    if b == [] then [] else [tag] + Put(|b|) + b
  }

  function NumberAt(tag: byte, v: uint64): Bytes {
    if v == 0 then [] else [tag] + Put(v)
  }

  /** Every text behind the tag byte, the empty ones too. */
  function TextsAt(tag: byte, bs: seq<Bytes>): Bytes {
    if bs == [] then [] else [tag] + Put(|bs[0]|) + bs[0] + TextsAt(tag, bs[1..])
  }

  lemma StrAt(n: nat, b: Bytes, rest: seq<Field>)
    requires 0 < n < 16
    ensures EncodeAll(Str(n, b) + rest) == TextAt(8 * n + 2, b) + EncodeAll(rest)
  {
    hide Get;
    if b == [] {
      assert [] + rest == rest;
    } else {
      FieldSpelled(n, 0, b);
      assert (Str(n, b) + rest)[1..] == rest;
    }
  }

  lemma NumAt(n: nat, v: uint64, rest: seq<Field>)
    requires 0 < n < 16
    ensures EncodeAll(Num(n, v) + rest) == NumberAt(8 * n, v) + EncodeAll(rest)
  {
    if v == 0 {
      assert [] + rest == rest;
    } else {
      FieldSpelled(n, v, []);
      assert (Num(n, v) + rest)[1..] == rest;
    }
  }

  lemma {:induction false} RepeatedAt(n: nat, bs: seq<Bytes>, rest: seq<Field>)
    requires 0 < n < 16
    ensures EncodeAll(Repeated(n, bs) + rest) == TextsAt(8 * n + 2, bs) + EncodeAll(rest)
  {
    if bs == [] {
      assert [] + rest == rest;
    } else {
      RepeatedAt(n, bs[1..], rest);
      FieldSpelled(n, 0, bs[0]);
      var more := Repeated(n, bs[1..]) + rest;
      assert Repeated(n, bs) + rest == [LenField(n, bs[0])] + more;
      assert ([LenField(n, bs[0])] + more)[1..] == more;
      Assoc(TextField(n, bs[0]), TextsAt(8 * n + 2, bs[1..]), EncodeAll(rest));
    }
  }

  lemma NumLast(n: nat, v: uint64)
    requires 0 < n < 16
    ensures EncodeAll(Num(n, v)) == NumberAt(8 * n, v)
  {
    NumAt(n, v, []);
    assert Num(n, v) + [] == Num(n, v);
    assert NumberAt(8 * n, v) + [] == NumberAt(8 * n, v);
  }

  lemma StrLast(n: nat, b: Bytes)
    requires 0 < n < 16
    ensures EncodeAll(Str(n, b)) == TextAt(8 * n + 2, b)
  {
    StrAt(n, b, []);
    assert Str(n, b) + [] == Str(n, b);
    assert TextAt(8 * n + 2, b) + [] == TextAt(8 * n + 2, b);
  }

  /** A record byte by byte. */
  lemma EnergyDataBytes(m: EnergyData)
    ensures EncodeEnergyData(m) ==
            TextAt(0x0A, m.id) + (TextAt(0x12, m.category) + (TextAt(0x1A, m.submitter) + (TextAt(0x22, m.dataHash) +
            (TextAt(0x2A, m.metadata) + (NumberAt(0x30, m.blockHeight % 0x1_0000_0000_0000_0000) +
            NumberAt(0x38, m.timestamp % 0x1_0000_0000_0000_0000))))))
  {
    hide EncodeAll, Str, Num, TextAt, NumberAt;
    var f7 := Num(7, AsUint64(m.timestamp));
    var f6 := Num(6, AsUint64(m.blockHeight)) + f7;
    var f5 := Str(5, m.metadata) + f6;
    var f4 := Str(4, m.dataHash) + f5;
    var f3 := Str(3, m.submitter) + f4;
    var f2 := Str(2, m.category) + f3;
    StrAt(1, m.id, f2);
    StrAt(2, m.category, f3);
    StrAt(3, m.submitter, f4);
    StrAt(4, m.dataHash, f5);
    StrAt(5, m.metadata, f6);
    NumAt(6, AsUint64(m.blockHeight), f7);
    NumLast(7, AsUint64(m.timestamp));
    Unsigned(m.blockHeight);
    Unsigned(m.timestamp);
  }

  lemma Unsigned(i: int64)
    ensures AsUint64(i) == i % 0x1_0000_0000_0000_0000
  {
  }

  lemma BatchBytes(m: BatchSubmission)
    ensures EncodeBatch(m) ==
            TextAt(0x0A, m.id) + (TextAt(0x12, m.submitter) + (TextAt(0x1A, m.category) + (NumberAt(0x20, m.dataCount) +
            (TextAt(0x2A, m.merkleRoot) + NumberAt(0x30, m.timestamp % 0x1_0000_0000_0000_0000)))))
  {
    hide EncodeAll, Str, Num, TextAt, NumberAt;
    var f6 := Num(6, AsUint64(m.timestamp));
    var f5 := Str(5, m.merkleRoot) + f6;
    var f4 := Num(4, m.dataCount) + f5;
    var f3 := Str(3, m.category) + f4;
    StrAt(1, m.id, Str(2, m.submitter) + f3);
    StrAt(2, m.submitter, f3);
    StrAt(3, m.category, f4);
    NumAt(4, m.dataCount, f5);
    StrAt(5, m.merkleRoot, f6);
    NumLast(6, AsUint64(m.timestamp));
    Unsigned(m.timestamp);
  }

  lemma ParamsBytes(m: Params)
    ensures EncodeParams(m) ==
            NumberAt(0x08, m.maxBatchSize) + (TextsAt(0x12, m.allowedSubmitters) +
            ((if m.permissionless then [0x18, 1] else []) + (NumberAt(0x20, m.maxMetadataSize) +
            NumberAt(0x28, m.maxSubmissions))))
  {
    hide EncodeAll, Repeated, Num, NumberAt, TextsAt;
    var f5 := Num(5, m.maxSubmissions);
    var f4 := Num(4, m.maxMetadataSize) + f5;
    var f3 := Num(3, if m.permissionless then 1 else 0) + f4;
    NumAt(1, m.maxBatchSize, Repeated(2, m.allowedSubmitters) + f3);
    RepeatedAt(2, m.allowedSubmitters, f3);
    NumAt(3, if m.permissionless then 1 else 0, f4);
    NumAt(4, m.maxMetadataSize, f5);
    NumLast(5, m.maxSubmissions);
    OneFlag();
  }

  lemma OneFlag()
    ensures NumberAt(0x18, 1) == [0x18, 1] && NumberAt(0x18, 0) == []
  {
  }

  lemma ItemBytes(m: BatchItem)
    ensures EncodeItem(m) == TextAt(0x0A, m.dataHash) + TextAt(0x12, m.metadata)
  {
    StrAt(1, m.dataHash, Str(2, m.metadata));
    StrLast(2, m.metadata);
  }

  lemma GenesisBytes(m: GenesisState)
    ensures EncodeGenesis(m) ==
            [0x0A] + Put(|EncodeParams(m.params)|) + EncodeParams(m.params) +
            (TextsAt(0x12, EncodeRecords(m.dataRecords)) + (TextsAt(0x1A, EncodeBatches(m.batches)) +
            NumberAt(0x20, m.nextID)))
  {
    hide EncodeAll, Repeated, Num, NumberAt, TextsAt, EncodeParams, EncodeRecords, EncodeBatches;
    var p := EncodeParams(m.params);
    var f3 := Repeated(3, EncodeBatches(m.batches)) + Num(4, m.nextID);
    var f2 := Repeated(2, EncodeRecords(m.dataRecords)) + f3;
    FirstField(p, f2);
    RepeatedAt(2, EncodeRecords(m.dataRecords), f3);
    RepeatedAt(3, EncodeBatches(m.batches), Num(4, m.nextID));
    NumLast(4, m.nextID);
  }

  lemma FirstField(p: Bytes, rest: seq<Field>)
    ensures EncodeAll([LenField(1, p)] + rest) == [0x0A] + Put(|p|) + p + EncodeAll(rest)
  {
    FieldSpelled(1, 0, p);
    assert ([LenField(1, p)] + rest)[1..] == rest;
  }
}
