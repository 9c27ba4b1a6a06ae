/** The generated encoder: sizes first, then a buffer filled from the back to the front.
    Every method states the whole new content of the buffer. */
module Marshal {
  import opened Machine
  import opened Varint
  import opened Wire
  import opened Messages

  // ------------------------------------------------------------------ writing backwards

  /** `encodeVarintTypes`: the varint of `v`, written to end just before `offset`. */
  method EncodeVarint(a: array<byte>, offset: nat, v: uint64) returns (base: nat)
    requires Sov(v) <= offset <= a.Length
    modifies a
    ensures base == offset - |Put(v)|
    ensures a[..base] == old(a[..base]) && a[base..] == Put(v) + old(a[offset..])
  {
    hide BitOr, BitLen, Sov;
    SovIsLength(v);
    var i: nat := offset - Sov(v);
    base := i;
    var w := v;
    ghost var done: Bytes := [];
    while w >= 0x80
      invariant base <= i && i + |Put(w)| == offset
      invariant done + Put(w) == Put(v) && |done| == i - base
      invariant a[..base] == old(a[..base]) && a[base..i] == done
      invariant a[offset..] == old(a[offset..])
    {
      a[i] := w % 0x80 + 0x80;
      assert Put(w) == [a[i]] + Put(w / 0x80);
      assert done + [a[i]] + Put(w / 0x80) == done + Put(w);
      assert a[base..i + 1] == a[base..i] + [a[i]];
      done := done + [a[i]];
      w := w / 0x80;
      i := i + 1;
    }
    a[i] := w;
    assert Put(w) == [w];
    assert a[base..] == a[base..i] + [a[i]] + a[offset..];
  }

  /** `copy(dAtA[i:], b)` after making room for `b`. */
  method CopyBefore(a: array<byte>, end: nat, b: Bytes) returns (i: nat)
    requires |b| <= end <= a.Length
    modifies a
    ensures i == end - |b|
    ensures a[..i] == old(a[..i]) && a[i..] == b + old(a[end..])
  {
    i := end - |b|;
    forall k | 0 <= k < |b| {
      a[i + k] := b[k];
    }
    assert a[i..] == a[i..end] + a[end..];
    assert a[i..end] == b;
  }

  method PutByte(a: array<byte>, end: nat, b: byte) returns (i: nat)
    requires 1 <= end <= a.Length
    modifies a
    ensures i == end - 1
    ensures a[..i] == old(a[..i]) && a[i..] == [b] + old(a[end..])
  {
    i := end - 1;
    a[i] := b;
    assert a[i..] == [a[i]] + a[end..];
  }

  lemma LenFieldParts(num: nat, data: Bytes, tail: Bytes)
    ensures EncodeField(LenField(num, data)) + tail
         == Put(Tag(num, LENGTH)) + (Put(|data|) + (data + tail))
  {
    hide Put;
    var p, q := Put(Tag(num, LENGTH)), Put(|data|);
    Assoc(p, q + data, tail);
    Assoc(q, data, tail);
  }

  /** One more field in front of fields already encoded at the back. */
  lemma Cons(f: Field, rest: seq<Field>, tail: Bytes)
    ensures EncodeField(f) + (EncodeAll(rest) + tail) == EncodeAll([f] + rest) + tail
  {
    hide EncodeField;
    assert ([f] + rest)[1..] == rest;
    Assoc(EncodeField(f), EncodeAll(rest), tail);
  }

  lemma Nothing(rest: seq<Field>)
    ensures [] + rest == rest
  {
  }

  // ------------------------------------------------------------------ fields

  /** The bytes of a length-delimited field whose payload has `l` bytes. */
  function SizeLen(l: nat): nat {
    1 + l + Sov(l)
  }

  function SizeStr(b: Bytes): nat {
    if |b| > 0 then SizeLen(|b|) else 0
  }

  function SizeNum(v: uint64): nat {
    if v != 0 then 1 + Sov(v) else 0
  }

  /** The size of a repeated field from the lengths of its entries. */
  function SizeRepeated(ls: seq<nat>): nat {
    if ls == [] then 0 else SizeLen(ls[0]) + SizeRepeated(ls[1..])
  }

  /** The buffer from `i` on holds the fields `fs` and then `tail`; before `i` it is as it
      was. */
  ghost predicate Filled(a: array<byte>, i: nat, was: Bytes, fs: seq<Field>, tail: Bytes)
    reads a
  {
    && i <= a.Length == |was|
    && a[..i] == was[..i]
    && a[i..] == EncodeAll(fs) + tail
  }

  lemma Unfilled(a: array<byte>, i: nat)
    requires i <= a.Length
    ensures Filled(a, i, a[..], [], a[i..])
  {
  }

  lemma FilledSize(a: array<byte>, end: nat, size: nat, was: Bytes, fs: seq<Field>)
    requires size <= end <= |was| && Filled(a, end - size, was, fs, was[end..])
    ensures |EncodeAll(fs)| == size
    ensures a[..end - size] == was[..end - size] && a[end - size..] == EncodeAll(fs) + was[end..]
  {
    assert |a[end - size..]| == |EncodeAll(fs)| + |was[end..]|;
  }

  /** The length and the tag in front of a payload already in place. */
  method PutHeader(a: array<byte>, end: nat, tag: byte, num: nat, data: Bytes,
                   ghost was: Bytes, ghost rest: seq<Field>, ghost tail: Bytes) returns (i: nat)
    requires end <= a.Length == |was| && |data| < TWO_63 && 0 < num < 16 && tag == Tag(num, LENGTH)
    requires a[..end] == was[..end] && a[end..] == data + (EncodeAll(rest) + tail)
    requires SizeLen(|data|) - |data| <= end
    modifies a
    ensures i == end - (SizeLen(|data|) - |data|)
    ensures Filled(a, i, was, [LenField(num, data)] + rest, tail)
  {
    hide Sov, EncodeAll;
    SovIsLength(|data|);
    i := EncodeVarint(a, end, |data|);
    ghost var mid := a[..i];
    i := PutByte(a, i, tag);
    assert a[..i] == mid[..i] == was[..i];
    LenFieldParts(num, data, EncodeAll(rest) + tail);
    Cons(LenField(num, data), rest, tail);
  }

  /** A length-delimited field. */
  method PutBytes(a: array<byte>, end: nat, tag: byte, num: nat, b: Bytes,
                  ghost was: Bytes, ghost rest: seq<Field>, ghost tail: Bytes) returns (i: nat)
    requires |b| < TWO_63 && 0 < num < 16 && tag == Tag(num, LENGTH)
    requires Filled(a, end, was, rest, tail) && SizeLen(|b|) <= end
    modifies a
    ensures i == end - SizeLen(|b|)
    ensures Filled(a, i, was, [LenField(num, b)] + rest, tail)
  {
    hide Sov, EncodeAll;
    i := CopyBefore(a, end, b);
    i := PutHeader(a, i, tag, num, b, was, rest, tail);
  }

  /** A string field, which is left out when empty. */
  method PutStr(a: array<byte>, end: nat, tag: byte, num: nat, b: Bytes,
                ghost was: Bytes, ghost rest: seq<Field>, ghost tail: Bytes) returns (i: nat)
    requires |b| < TWO_63 && 0 < num < 16 && tag == Tag(num, LENGTH)
    requires Filled(a, end, was, rest, tail) && SizeStr(b) <= end
    modifies a
    ensures i == end - SizeStr(b)
    ensures Filled(a, i, was, Str(num, b) + rest, tail)
  {
    hide Sov, EncodeAll, Filled;
    Nothing(rest);
    i := end;
    if |b| > 0 {
      i := PutBytes(a, i, tag, num, b, was, rest, tail);
    }
  }

  /** A numeric field, which is left out when zero. */
  method PutNum(a: array<byte>, end: nat, tag: byte, num: nat, v: uint64,
                ghost was: Bytes, ghost rest: seq<Field>, ghost tail: Bytes) returns (i: nat)
    requires 0 < num < 16 && tag == Tag(num, VARINT)
    requires Filled(a, end, was, rest, tail) && SizeNum(v) <= end
    modifies a
    ensures i == end - SizeNum(v)
    ensures Filled(a, i, was, Num(num, v) + rest, tail)
  {
    hide Sov, EncodeAll;
    Nothing(rest);
    i := end;
    if v != 0 {
      SovIsLength(v);
      i := EncodeVarint(a, i, v);
      ghost var mid := a[..i];
      i := PutByte(a, i, tag);
      assert a[..i] == mid[..i] == was[..i];
      Assoc(Put(tag), Put(v), EncodeAll(rest) + tail);
      Cons(VarintField(num, v), rest, tail);
    }
  }

  /** A repeated string field, entry by entry from the last to the first. */
  method PutRepeated(a: array<byte>, end: nat, tag: byte, num: nat, bs: seq<Bytes>,
                     ghost was: Bytes, ghost rest: seq<Field>, ghost tail: Bytes) returns (i: nat)
    requires (forall k :: 0 <= k < |bs| ==> |bs[k]| < TWO_63) && 0 < num < 16 && tag == Tag(num, LENGTH)
    requires Filled(a, end, was, rest, tail) && SizeRepeated(Lengths(bs)) <= end
    modifies a
    ensures i == end - SizeRepeated(Lengths(bs))
    ensures Filled(a, i, was, Repeated(num, bs) + rest, tail)
  {
    hide Sov, EncodeAll, Filled;
    Nothing(rest);
    ghost var ls := Lengths(bs);
    i := end;
    var k := |bs|;
    while k > 0
      invariant 0 <= k <= |bs|
      invariant i == end - SizeRepeated(ls[k..])
      invariant Filled(a, i, was, Repeated(num, bs[k..]) + rest, tail)
    {
      k := k - 1;
      RepeatedFits(ls, k);
      i := PutBytes(a, i, tag, num, bs[k], was, Repeated(num, bs[k + 1..]) + rest, tail);
      RepeatedStep(num, bs, k, rest);
    }
    assert bs[0..] == bs && ls[0..] == ls;
  }

  function Lengths(bs: seq<Bytes>): seq<nat> {
    seq(|bs|, i requires 0 <= i < |bs| => |bs[i]|)
  }

  lemma {:induction false} RepeatedFits(ls: seq<nat>, k: nat)
    requires k < |ls|
    ensures SizeRepeated(ls[k..]) == SizeLen(ls[k]) + SizeRepeated(ls[k + 1..])
    ensures SizeRepeated(ls[k..]) <= SizeRepeated(ls)
    decreases k
  {
    hide SizeLen;
    assert ls[k..][1..] == ls[k + 1..];
    if k > 0 {
      RepeatedFits(ls, k - 1);
    } else {
      assert ls[0..] == ls;
    }
  }

  lemma RepeatedStep(num: nat, bs: seq<Bytes>, k: nat, rest: seq<Field>)
    requires k < |bs|
    ensures Repeated(num, bs[k..]) + rest
         == [LenField(num, bs[k])] + (Repeated(num, bs[k + 1..]) + rest)
  {
    assert bs[k..][1..] == bs[k + 1..];
  }

  // ------------------------------------------------------------------ messages

  function SizeEnergyData(m: EnergyData): nat {
    SizeStr(m.id) + SizeStr(m.category) + SizeStr(m.submitter) + SizeStr(m.dataHash) +
    SizeStr(m.metadata) + SizeNum(AsUint64(m.blockHeight)) + SizeNum(AsUint64(m.timestamp))
  }

  /** `MarshalToSizedBuffer`: the message ends up just before `end`, nothing else in the
      buffer changes, and it takes exactly the bytes that sizing it announced. */
  method EnergyDataToSizedBuffer(a: array<byte>, end: nat, m: EnergyData) returns (i: nat)
    requires SizeEnergyData(m) <= end <= a.Length < TWO_63
    modifies a
    ensures i == end - SizeEnergyData(m) && |EncodeEnergyData(m)| == SizeEnergyData(m)
    ensures a[..i] == old(a[..i]) && a[i..] == EncodeEnergyData(m) + old(a[end..])
  {
    hide EncodeAll, Str, Num, Sov, Filled;
    ghost var was, tail := a[..], a[end..];
    ghost var f7 := Num(7, AsUint64(m.timestamp));
    ghost var f6 := Num(6, AsUint64(m.blockHeight)) + f7;
    ghost var f5 := Str(5, m.metadata) + f6;
    ghost var f4 := Str(4, m.dataHash) + f5;
    ghost var f3 := Str(3, m.submitter) + f4;
    ghost var f2 := Str(2, m.category) + f3;
    Unfilled(a, end);
    assert f7 == f7 + [];
    i := end;
    i := PutNum(a, i, 0x38, 7, AsUint64(m.timestamp), was, [], tail);
    i := PutNum(a, i, 0x30, 6, AsUint64(m.blockHeight), was, f7, tail);
    i := PutStr(a, i, 0x2a, 5, m.metadata, was, f6, tail);
    i := PutStr(a, i, 0x22, 4, m.dataHash, was, f5, tail);
    i := PutStr(a, i, 0x1a, 3, m.submitter, was, f4, tail);
    i := PutStr(a, i, 0x12, 2, m.category, was, f3, tail);
    i := PutStr(a, i, 0x0a, 1, m.id, was, f2, tail);
    FilledSize(a, end, SizeEnergyData(m), was, EnergyDataFields(m));
  }

  function SizeBatch(m: BatchSubmission): nat {
    SizeStr(m.id) + SizeStr(m.submitter) + SizeStr(m.category) + SizeNum(m.dataCount) +
    SizeStr(m.merkleRoot) + SizeNum(AsUint64(m.timestamp))
  }

  method BatchToSizedBuffer(a: array<byte>, end: nat, m: BatchSubmission) returns (i: nat)
    requires SizeBatch(m) <= end <= a.Length < TWO_63
    modifies a
    ensures i == end - SizeBatch(m) && |EncodeBatch(m)| == SizeBatch(m)
    ensures a[..i] == old(a[..i]) && a[i..] == EncodeBatch(m) + old(a[end..])
  {
    hide EncodeAll, Str, Num, Sov, Filled;
    ghost var was, tail := a[..], a[end..];
    ghost var f6 := Num(6, AsUint64(m.timestamp));
    ghost var f5 := Str(5, m.merkleRoot) + f6;
    ghost var f4 := Num(4, m.dataCount) + f5;
    ghost var f3 := Str(3, m.category) + f4;
    ghost var f2 := Str(2, m.submitter) + f3;
    Unfilled(a, end);
    assert f6 == f6 + [];
    i := end;
    i := PutNum(a, i, 0x30, 6, AsUint64(m.timestamp), was, [], tail);
    i := PutStr(a, i, 0x2a, 5, m.merkleRoot, was, f6, tail);
    i := PutNum(a, i, 0x20, 4, m.dataCount, was, f5, tail);
    i := PutStr(a, i, 0x1a, 3, m.category, was, f4, tail);
    i := PutStr(a, i, 0x12, 2, m.submitter, was, f3, tail);
    i := PutStr(a, i, 0x0a, 1, m.id, was, f2, tail);
    FilledSize(a, end, SizeBatch(m), was, BatchFields(m));
  }

  function SizeItem(m: BatchItem): nat {
    SizeStr(m.dataHash) + SizeStr(m.metadata)
  }

  method ItemToSizedBuffer(a: array<byte>, end: nat, m: BatchItem) returns (i: nat)
    requires SizeItem(m) <= end <= a.Length < TWO_63
    modifies a
    ensures i == end - SizeItem(m) && |EncodeItem(m)| == SizeItem(m)
    ensures a[..i] == old(a[..i]) && a[i..] == EncodeItem(m) + old(a[end..])
  {
    hide EncodeAll, Str, Num, Sov, Filled;
    ghost var was, tail := a[..], a[end..];
    Unfilled(a, end);
    assert Str(2, m.metadata) == Str(2, m.metadata) + [];
    i := end;
    i := PutStr(a, i, 0x12, 2, m.metadata, was, [], tail);
    i := PutStr(a, i, 0x0a, 1, m.dataHash, was, Str(2, m.metadata), tail);
    FilledSize(a, end, SizeItem(m), was, ItemFields(m));
  }

  function SizeParams(m: Params): nat {
    SizeNum(m.maxBatchSize) + SizeRepeated(Lengths(m.allowedSubmitters)) +
    (if m.permissionless then 2 else 0) + SizeNum(m.maxMetadataSize) + SizeNum(m.maxSubmissions)
  }

  /** `Size`, whose loop adds up the entries of the repeated field. */
  method ComputeSizeParams(m: Params) returns (n: nat)
    ensures n == SizeParams(m)
  {
    hide Sov;
    n := SizeNum(m.maxBatchSize);
    ghost var ls := Lengths(m.allowedSubmitters);
    assert ls[0..] == ls;
    for k := 0 to |m.allowedSubmitters|
      invariant n + SizeRepeated(ls[k..]) == SizeNum(m.maxBatchSize) + SizeRepeated(ls)
    {
      RepeatedFits(ls, k);
      n := n + SizeLen(|m.allowedSubmitters[k]|);
    }
    if m.permissionless {
      n := n + 2;
    }
    n := n + SizeNum(m.maxMetadataSize) + SizeNum(m.maxSubmissions);
  }

  /** The flag: two bytes when set. */
  method PutFlag(a: array<byte>, end: nat, tag: byte, num: nat, flag: bool,
                 ghost was: Bytes, ghost rest: seq<Field>, ghost tail: Bytes) returns (i: nat)
    requires 0 < num < 16 && tag == Tag(num, VARINT)
    requires Filled(a, end, was, rest, tail) && (flag ==> 2 <= end)
    modifies a
    ensures i == end - if flag then 2 else 0
    ensures Filled(a, i, was, Num(num, if flag then 1 else 0) + rest, tail)
  {
    hide EncodeAll;
    Nothing(rest);
    i := end;
    if flag {
      i := PutByte(a, i, 1);
      ghost var mid := a[..i];
      i := PutByte(a, i, tag);
      assert a[..i] == mid[..i] == was[..i];
      Assoc([tag], [1], EncodeAll(rest) + tail);
      Cons(VarintField(num, 1), rest, tail);
    }
  }

  lemma SubmittersFit(bs: seq<Bytes>)
    ensures forall k :: 0 <= k < |bs| ==> |bs[k]| <= SizeRepeated(Lengths(bs))
  {
    forall k | 0 <= k < |bs|
      ensures |bs[k]| <= SizeRepeated(Lengths(bs))
    {
      RepeatedFits(Lengths(bs), k);
    }
  }

  method ParamsToSizedBuffer(a: array<byte>, end: nat, m: Params) returns (i: nat)
    requires SizeParams(m) <= end <= a.Length < TWO_63
    modifies a
    ensures i == end - SizeParams(m) && |EncodeParams(m)| == SizeParams(m)
    ensures a[..i] == old(a[..i]) && a[i..] == EncodeParams(m) + old(a[end..])
  {
    hide EncodeAll, Num, Sov, Filled, Repeated, SizeRepeated;
    ghost var was, tail := a[..], a[end..];
    ghost var f5 := Num(5, m.maxSubmissions);
    ghost var f4 := Num(4, m.maxMetadataSize) + f5;
    ghost var f3 := Num(3, if m.permissionless then 1 else 0) + f4;
    ghost var f2 := Repeated(2, m.allowedSubmitters) + f3;
    SubmittersFit(m.allowedSubmitters);
    Unfilled(a, end);
    assert f5 == f5 + [];
    i := end;
    i := PutNum(a, i, 0x28, 5, m.maxSubmissions, was, [], tail);
    i := PutNum(a, i, 0x20, 4, m.maxMetadataSize, was, f5, tail);
    i := PutFlag(a, i, 0x18, 3, m.permissionless, was, f4, tail);
    i := PutRepeated(a, i, 0x12, 2, m.allowedSubmitters, was, f3, tail);
    i := PutNum(a, i, 0x08, 1, m.maxBatchSize, was, f2, tail);
    FilledSize(a, end, SizeParams(m), was, ParamsFields(m));
  }

  // ------------------------------------------------------------------ the nested message

  function RecordSizes(ms: seq<EnergyData>): seq<nat> {
    seq(|ms|, i requires 0 <= i < |ms| => SizeEnergyData(ms[i]))
  }

  function BatchSizes(ms: seq<BatchSubmission>): seq<nat> {
    seq(|ms|, i requires 0 <= i < |ms| => SizeBatch(ms[i]))
  }

  function SizeGenesis(m: GenesisState): nat {
    SizeLen(SizeParams(m.params)) + SizeRepeated(RecordSizes(m.dataRecords)) +
    SizeRepeated(BatchSizes(m.batches)) + SizeNum(m.nextID)
  }

  method ComputeSizeGenesis(m: GenesisState) returns (n: nat)
    ensures n == SizeGenesis(m)
  {
    hide Sov, SizeLen, SizeEnergyData, SizeBatch, SizeParams;
    var l := ComputeSizeParams(m.params);
    n := SizeLen(l);
    ghost var rs, bs := RecordSizes(m.dataRecords), BatchSizes(m.batches);
    assert rs[0..] == rs && bs[0..] == bs;
    for k := 0 to |m.dataRecords|
      invariant n + SizeRepeated(rs[k..]) == SizeLen(l) + SizeRepeated(rs)
    {
      RepeatedFits(rs, k);
      n := n + SizeLen(SizeEnergyData(m.dataRecords[k]));
    }
    for k := 0 to |m.batches|
      invariant n + SizeRepeated(bs[k..]) == SizeLen(l) + SizeRepeated(rs) + SizeRepeated(bs)
    {
      RepeatedFits(bs, k);
      n := n + SizeLen(SizeBatch(m.batches[k]));
    }
    n := n + SizeNum(m.nextID);
  }

  /** An embedded message already in place before `end` extends what is filled. */
  lemma Embedded(a: array<byte>, i: nat, end: nat, was: Bytes, before: Bytes, data: Bytes,
                 rest: seq<Field>, tail: Bytes)
    requires i <= end <= a.Length == |was| == |before|
    requires before[..end] == was[..end] && before[end..] == EncodeAll(rest) + tail
    requires a[..i] == before[..i] && a[i..] == data + before[end..]
    ensures a[..i] == was[..i] && a[i..] == data + (EncodeAll(rest) + tail)
  {
    assert a[..i] == before[..end][..i] == was[..end][..i] == was[..i];
  }

  method PutRecord(a: array<byte>, end: nat, m: EnergyData,
                   ghost was: Bytes, ghost rest: seq<Field>, ghost tail: Bytes) returns (i: nat)
    requires a.Length < TWO_63 && Filled(a, end, was, rest, tail) && SizeLen(SizeEnergyData(m)) <= end
    modifies a
    ensures i == end - SizeLen(SizeEnergyData(m))
    ensures Filled(a, i, was, [LenField(2, EncodeEnergyData(m))] + rest, tail)
  {
    hide EncodeAll, EncodeEnergyData, SizeEnergyData, Sov;
    ghost var before := a[..];
    i := EnergyDataToSizedBuffer(a, end, m);
    Embedded(a, i, end, was, before, EncodeEnergyData(m), rest, tail);
    i := PutHeader(a, i, 0x12, 2, EncodeEnergyData(m), was, rest, tail);
  }

  method PutBatch(a: array<byte>, end: nat, m: BatchSubmission,
                  ghost was: Bytes, ghost rest: seq<Field>, ghost tail: Bytes) returns (i: nat)
    requires a.Length < TWO_63 && Filled(a, end, was, rest, tail) && SizeLen(SizeBatch(m)) <= end
    modifies a
    ensures i == end - SizeLen(SizeBatch(m))
    ensures Filled(a, i, was, [LenField(3, EncodeBatch(m))] + rest, tail)
  {
    hide EncodeAll, EncodeBatch, SizeBatch, Sov;
    ghost var before := a[..];
    i := BatchToSizedBuffer(a, end, m);
    Embedded(a, i, end, was, before, EncodeBatch(m), rest, tail);
    i := PutHeader(a, i, 0x1a, 3, EncodeBatch(m), was, rest, tail);
  }

  method PutRecords(a: array<byte>, end: nat, ms: seq<EnergyData>,
                    ghost was: Bytes, ghost rest: seq<Field>, ghost tail: Bytes) returns (i: nat)
    requires a.Length < TWO_63 && Filled(a, end, was, rest, tail)
    requires SizeRepeated(RecordSizes(ms)) <= end
    modifies a
    ensures i == end - SizeRepeated(RecordSizes(ms))
    ensures Filled(a, i, was, Repeated(2, EncodeRecords(ms)) + rest, tail)
  {
    hide EncodeAll, EncodeEnergyData, SizeEnergyData, Filled, Sov;
    Nothing(rest);
    ghost var ls, bs := RecordSizes(ms), EncodeRecords(ms);
    i := end;
    var k := |ms|;
    while k > 0
      invariant 0 <= k <= |ms|
      invariant i == end - SizeRepeated(ls[k..])
      invariant Filled(a, i, was, Repeated(2, bs[k..]) + rest, tail)
    {
      k := k - 1;
      RepeatedFits(ls, k);
      i := PutRecord(a, i, ms[k], was, Repeated(2, bs[k + 1..]) + rest, tail);
      RepeatedStep(2, bs, k, rest);
    }
    assert bs[0..] == bs && ls[0..] == ls;
  }

  method PutBatches(a: array<byte>, end: nat, ms: seq<BatchSubmission>,
                    ghost was: Bytes, ghost rest: seq<Field>, ghost tail: Bytes) returns (i: nat)
    requires a.Length < TWO_63 && Filled(a, end, was, rest, tail)
    requires SizeRepeated(BatchSizes(ms)) <= end
    modifies a
    ensures i == end - SizeRepeated(BatchSizes(ms))
    ensures Filled(a, i, was, Repeated(3, EncodeBatches(ms)) + rest, tail)
  {
    hide EncodeAll, EncodeBatch, SizeBatch, Filled, Sov;
    Nothing(rest);
    ghost var ls, bs := BatchSizes(ms), EncodeBatches(ms);
    i := end;
    var k := |ms|;
    while k > 0
      invariant 0 <= k <= |ms|
      invariant i == end - SizeRepeated(ls[k..])
      invariant Filled(a, i, was, Repeated(3, bs[k..]) + rest, tail)
    {
      k := k - 1;
      RepeatedFits(ls, k);
      i := PutBatch(a, i, ms[k], was, Repeated(3, bs[k + 1..]) + rest, tail);
      RepeatedStep(3, bs, k, rest);
    }
    assert bs[0..] == bs && ls[0..] == ls;
  }

  method GenesisToSizedBuffer(a: array<byte>, end: nat, m: GenesisState) returns (i: nat)
    requires SizeGenesis(m) <= end <= a.Length < TWO_63
    modifies a
    ensures i == end - SizeGenesis(m) && |EncodeGenesis(m)| == SizeGenesis(m)
    ensures a[..i] == old(a[..i]) && a[i..] == EncodeGenesis(m) + old(a[end..])
  {
    hide EncodeAll, EncodeParams, EncodeRecords, EncodeBatches, SizeParams, RecordSizes, BatchSizes,
         Num, Sov, Repeated, SizeRepeated;
    ghost var was, tail := a[..], a[end..];
    ghost var f4 := Num(4, m.nextID);
    ghost var f3 := Repeated(3, EncodeBatches(m.batches)) + f4;
    ghost var f2 := Repeated(2, EncodeRecords(m.dataRecords)) + f3;
    Unfilled(a, end);
    assert f4 == f4 + [];
    i := end;
    i := PutNum(a, i, 0x20, 4, m.nextID, was, [], tail);
    i := PutBatches(a, i, m.batches, was, f4, tail);
    i := PutRecords(a, i, m.dataRecords, was, f3, tail);
    ghost var before, at := a[..], i;
    i := ParamsToSizedBuffer(a, i, m.params);
    Embedded(a, i, at, was, before, EncodeParams(m.params), f2, tail);
    i := PutHeader(a, i, 0x0a, 1, EncodeParams(m.params), was, f2, tail);
    FilledSize(a, end, SizeGenesis(m), was, GenesisFields(m));
  }

  // ------------------------------------------------------------------ Marshal

  /** `Marshal`: the buffer allocated from the size is filled to its first byte, and what
      it holds is the fields in ascending order of their numbers. */
  method MarshalEnergyData(m: EnergyData) returns (d: Bytes)
    requires SizeEnergyData(m) < TWO_63
    ensures d == EncodeEnergyData(m) && |d| == SizeEnergyData(m)
  {
    var a := new byte[SizeEnergyData(m)];
    var i := EnergyDataToSizedBuffer(a, a.Length, m);
    d := a[i..];
  }

  method MarshalBatch(m: BatchSubmission) returns (d: Bytes)
    requires SizeBatch(m) < TWO_63
    ensures d == EncodeBatch(m) && |d| == SizeBatch(m)
  {
    var a := new byte[SizeBatch(m)];
    var i := BatchToSizedBuffer(a, a.Length, m);
    d := a[i..];
  }

  method MarshalItem(m: BatchItem) returns (d: Bytes)
    requires SizeItem(m) < TWO_63
    ensures d == EncodeItem(m) && |d| == SizeItem(m)
  {
    var a := new byte[SizeItem(m)];
    var i := ItemToSizedBuffer(a, a.Length, m);
    d := a[i..];
  }

  method MarshalParams(m: Params) returns (d: Bytes)
    requires SizeParams(m) < TWO_63
    ensures d == EncodeParams(m) && |d| == SizeParams(m)
  {
    var size := ComputeSizeParams(m);
    var a := new byte[size];
    var i := ParamsToSizedBuffer(a, a.Length, m);
    d := a[i..];
  }

  method MarshalGenesis(m: GenesisState) returns (d: Bytes)
    requires SizeGenesis(m) < TWO_63
    ensures d == EncodeGenesis(m) && |d| == SizeGenesis(m)
  {
    var size := ComputeSizeGenesis(m);
    var a := new byte[size];
    var i := GenesisToSizedBuffer(a, a.Length, m);
    d := a[i..];
  }
}
