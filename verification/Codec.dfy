/**
 The generated codec of the small CLP messages: Asset, WhiteList and Params.  Each message is a value
 here; module Messages holds the objects and buffers that the methods work on.
 */
module Codec {
  import opened Varint
  import opened Wire

  datatype Message =
    | AssetMsg(symbol: seq<Byte>)
    | WhiteListMsg(validators: seq<seq<Byte>>)
    | ParamsMsg(threshold: U64)

  // ---------- meaning ----------

  const STRING_TAG: seq<Byte> := [0x0a]
  const UINT_TAG: seq<Byte> := [0x08]

  /** A list of fields that a message of this kind may be read from: positive numbers, field 1 of the right type. */
  predicate Fits(m: Message, fs: seq<Field>) {
    forall f | f in fs ::
      && WellFormed(f) && FieldNumber(f.tag) > 0
      && (FieldNumber(f.tag) == 1 ==> if m.ParamsMsg? then f.VarintField? else f.Delimited?)
  }

  /** What field 1 does to a message; a repeated field is appended, a single one replaced. */
  function Absorb(m: Message, f: Field): Message
    requires FieldNumber(f.tag) == 1 ==> if m.ParamsMsg? then f.VarintField? else f.Delimited?
  {
    if FieldNumber(f.tag) != 1 then m
    else
      match m
      case AssetMsg(_) => AssetMsg(f.payload)
      case WhiteListMsg(validators) => WhiteListMsg(validators + [f.payload])
      case ParamsMsg(_) => ParamsMsg(Payload(f.value) % TWO_64)
  }

  /** The message that a list of fields makes of a message. */
  function Meaning(m: Message, fs: seq<Field>): Message
    requires Fits(m, fs)
    decreases fs
  {
    if fs == [] then m else Meaning(Absorb(m, fs[0]), fs[1..])
  }

  // ---------- writing ----------

  function StringField(payload: seq<Byte>): Field { Delimited(STRING_TAG, Encoded(|payload|), payload) }

  function StringFields(list: seq<seq<Byte>>): (fs: seq<Field>)
    ensures |fs| == |list| && forall i | 0 <= i < |list| :: fs[i] == StringField(list[i])
  {
    seq(|list|, i requires 0 <= i < |list| => StringField(list[i]))
  }

  /** The fields a message is written as: zero values are left out, list elements never are. */
  function FieldsOf(m: Message): seq<Field> {
    match m
    case AssetMsg(symbol) => if symbol == [] then [] else [StringField(symbol)]
    case WhiteListMsg(validators) => StringFields(validators)
    case ParamsMsg(threshold) => if threshold == 0 then [] else [VarintField(UINT_TAG, Encoded(threshold))]
  }

  function Encode(m: Message): seq<Byte> { Concat(FieldsOf(m)) }

  function StringSize(payload: seq<Byte>): nat { 1 + |payload| + Sov(|payload|) }

  function ListSize(list: seq<seq<Byte>>): nat {
    if list == [] then 0 else StringSize(list[0]) + ListSize(list[1..])
  }

  /** The size the code computes before it allocates the buffer. */
  function Size(m: Message): nat {
    match m
    case AssetMsg(symbol) => if |symbol| > 0 then StringSize(symbol) else 0
    case WhiteListMsg(validators) => ListSize(validators)
    case ParamsMsg(threshold) => if threshold != 0 then 1 + Sov(threshold) else 0
  }

  lemma StringFieldSize(payload: seq<Byte>)
    ensures |Bytes(StringField(payload))| == StringSize(payload)
  {
    SovExact(|payload|);
  }

  lemma {:induction false} ListFieldsSize(list: seq<seq<Byte>>)
    ensures |Concat(StringFields(list))| == ListSize(list)
  {
    if list != [] {
      hide Bytes;
      assert StringFields(list)[1..] == StringFields(list[1..]);
      ListFieldsSize(list[1..]);
      StringFieldSize(list[0]);
    }
  }

  lemma SingleField(f: Field)
    ensures Concat([f]) == Bytes(f)
  {
    assert [f][1..] == [];
    assert Concat([f]) == Bytes(f) + [];
  }

  /** The computed size is exactly the number of bytes written. */
  lemma SizeExact(m: Message)
    ensures |Encode(m)| == Size(m)
  {
    hide Sov, Encoded;
    match m
    case AssetMsg(symbol) => StringFieldSize(symbol); SingleField(StringField(symbol));
    case WhiteListMsg(validators) => ListFieldsSize(validators);
    case ParamsMsg(threshold) => SovExact(threshold); SingleField(VarintField(UINT_TAG, Encoded(threshold)));
  }

  // ---------- reading ----------

  /** The payload that a length prefix at an index announces: its start and its end. */
  function Extent(s: seq<Byte>, i: nat): (r: Result<(nat, nat)>)
    requires i <= |s| < TWO_63
    ensures r.Ok? ==> i < r.value.0 <= r.value.1 <= |s|
  {
    var (length, k) :- Uvarint(s, i);
    if Signed(length) < 0 then Err(InvalidLength)
    else
      var post := Wrap(k + length);
      if post < 0 then Err(InvalidLength) else if post > |s| then Err(UnexpectedEOF) else Ok((k, post))
  }

  /** The end of the unknown field at an index. */
  function Unknown(s: seq<Byte>, i: nat): (r: Result<nat>)
    requires i <= |s| < TWO_63
    ensures r.Ok? ==> i < r.value <= |s|
  {
    var n :- SkipFrom(s[i..], 0, 0);
    if Wrap(i + n) < 0 then Err(InvalidLength) else if i + n > |s| then Err(UnexpectedEOF) else Ok(i + n)
  }

  /** One turn of the decoding loop: the index after the field at an index, and the message then. */
  function DecodeField(s: seq<Byte>, i: nat, m: Message): (r: Result<(nat, Message)>)
    requires i < |s| < TWO_63
    ensures r.Ok? ==> i < r.value.0 <= |s|
  {
    var (wire, j) :- Uvarint(s, i);
    var wireType, number := wire % 8, Int32(wire / 8);
    if wireType == 4 then Err(EndGroupForNonGroup)
    else if number <= 0 then Err(IllegalTag)
    else if number == 1 then
      if wireType != (if m.ParamsMsg? then 0 else 2) then Err(WrongWireType)
      else
        match m
        case ParamsMsg(_) => var (v, k) :- Uvarint(s, j); Ok((k, ParamsMsg(v)))
        case AssetMsg(_) => var (k, post) :- Extent(s, j); Ok((post, AssetMsg(s[k..post])))
        case WhiteListMsg(list) => var (k, post) :- Extent(s, j); Ok((post, WhiteListMsg(list + [s[k..post]])))
    else
      var next :- Unknown(s, i);
      Ok((next, m))
  }

  function DecodeFrom(s: seq<Byte>, i: nat, m: Message): Result<Message>
    requires i <= |s| < TWO_63
    decreases |s| - i
  {
    if i == |s| then Ok(m)
    else
      var (next, m') :- DecodeField(s, i, m);
      DecodeFrom(s, next, m')
  }

  /** Where reading a varint stops when it fails: after ten bytes, or at the end. */
  function Stop(s: seq<Byte>, i: nat): (k: nat)
    requires i <= |s|
    ensures i <= k <= |s|
  {
    if |s| < i + 10 then |s| else i + 10
  }

  /** What a field that fails leaves in the message: only an integer is written while it is being read. */
  function Partial(s: seq<Byte>, i: nat, m: Message): Message
    requires i < |s|
  {
    var tag := Uvarint(s, i);
    if m.ParamsMsg? && tag.Ok? && tag.value.0 % 8 == 0 && Int32(tag.value.0 / 8) == 1 then
      ParamsMsg(Payload(s[tag.value.1..Stop(s, tag.value.1)]) % TWO_64)
    else m
  }

  /** The message as decoding leaves it, whether it succeeds or not. */
  function Residue(s: seq<Byte>, i: nat, m: Message): Message
    requires i <= |s| < TWO_63
    decreases |s| - i
  {
    if i == |s| then m
    else
      match DecodeField(s, i, m)
      case Ok((next, m')) => Residue(s, next, m')
      case Err(_) => Partial(s, i, m)
  }

  // ---------- reading finds the meaning ----------

  lemma ExtentReads(s: seq<Byte>, i: nat, length: seq<Byte>, payload: seq<Byte>)
    requires |s| < TWO_63 && At(s, i, length + payload) && IsVarint(length) && Payload(length) % TWO_64 == |payload|
    ensures
      var k := i + |length|;
      k + |payload| <= |s| && Extent(s, i) == Ok((k, k + |payload|)) && s[k..k + |payload|] == payload
  {
    hide Uvarint, IsVarint, Payload, At;
    AtSplit(s, i, length, payload);
    TagReads(s, i, length);
    AtIs(s, i + |length|, payload);
  }

  lemma UnknownReads(s: seq<Byte>, i: nat, f: Field)
    requires |s| < TWO_63 && At(s, i, Bytes(f)) && WellFormed(f)
    ensures Unknown(s, i) == Ok(i + |Bytes(f)|)
  {
    hide Bytes, WellFormed, SkipFrom;
    var n := |Bytes(f)|;
    assert s[i..][0..n] == s[i..i + n];
    SkipOver(s[i..], 0, f, 0);
  }

  /** Reading one well-formed field absorbs it. */
  lemma FieldReads(s: seq<Byte>, i: nat, f: Field, m: Message)
    requires |s| < TWO_63 && At(s, i, Bytes(f)) && Fits(m, [f])
    ensures i < |s| && DecodeField(s, i, m) == Ok((i + |Bytes(f)|, Absorb(m, f)))
  {
    hide Uvarint, IsVarint, Payload, Unknown, Extent, Int32, At;
    assert f in [f];
    TagAt(s, i, f);
    TagReads(s, i, f.tag);
    if FieldNumber(f.tag) != 1 {
      UnknownReads(s, i, f);
    } else if m.ParamsMsg? {
      AtSplit(s, i, f.tag, f.value);
      TagReads(s, i + |f.tag|, f.value);
    } else {
      AtSplit(s, i, f.tag + f.length, f.payload);
      assert f.tag + f.length + f.payload == f.tag + (f.length + f.payload);
      AtSplit(s, i, f.tag, f.length + f.payload);
      ExtentReads(s, i + |f.tag|, f.length, f.payload);
    }
  }

  lemma TagAt(s: seq<Byte>, i: nat, f: Field)
    requires At(s, i, Bytes(f))
    ensures At(s, i, f.tag)
  {
    assert Bytes(f)[..|f.tag|] == f.tag;
    assert Bytes(f) == f.tag + Bytes(f)[|f.tag|..];
    AtSplit(s, i, f.tag, Bytes(f)[|f.tag|..]);
  }

  lemma {:induction false} DecodeReads(s: seq<Byte>, i: nat, fs: seq<Field>, m: Message)
    requires |s| < TWO_63 && At(s, i, Concat(fs)) && i + |Concat(fs)| == |s| && Fits(m, fs)
    ensures DecodeFrom(s, i, m) == Ok(Meaning(m, fs))
    decreases fs
  {
    hide DecodeField, Bytes, At, WellFormed;
    if fs != [] {
      AtSplit(s, i, Bytes(fs[0]), Concat(fs[1..]));
      FieldReads(s, i, fs[0], m);
      DecodeReads(s, i + |Bytes(fs[0])|, fs[1..], Absorb(m, fs[0]));
    }
  }

  // ---------- and only that ----------

  lemma FieldIs(s: seq<Byte>, i: nat, m: Message) returns (f: Field)
    requires i < |s| < TWO_63 && DecodeField(s, i, m).Ok?
    ensures Fits(m, [f]) && Bytes(f) == s[i..DecodeField(s, i, m).value.0]
  {
    hide Payload, Uvarint, IsVarint, SkipFrom, Extent, Bytes, WellFormed;
    var next := DecodeField(s, i, m).value.0;
    var (wire, j) := Uvarint(s, i).value;
    if Int32(wire / 8) != 1 {
      f := UnknownIs(s, i);
    } else if m.ParamsMsg? {
      f := UintFieldIs(s, i);
    } else {
      f := StringFieldIs(s, i);
    }
  }

  lemma UnknownIs(s: seq<Byte>, i: nat) returns (f: Field)
    requires i < |s| < TWO_63 && Unknown(s, i).Ok?
    ensures WellFormed(f) && Bytes(f) == s[i..Unknown(s, i).value]
    ensures Uvarint(s, i).Ok? && Uvarint(s, i).value.0 == TagValue(f.tag)
  {
    hide Payload, Uvarint, SkipFrom, Bytes, WellFormed;
    var next := Unknown(s, i).value;
    f := SkippedField(s[i..], next - i);
    assert s[i..][..next - i] == s[i..next];
    FieldAtStart(s, i, next, f);
  }

  lemma UintFieldIs(s: seq<Byte>, i: nat) returns (f: Field)
    requires i < |s| && Uvarint(s, i).Ok? && Uvarint(s, i).value.0 % 8 == 0
    requires Uvarint(s, Uvarint(s, i).value.1).Ok?
    ensures f.VarintField? && WellFormed(f) && TagValue(f.tag) == Uvarint(s, i).value.0
    ensures Bytes(f) == s[i..Uvarint(s, Uvarint(s, i).value.1).value.1]
  {
    hide Payload, Uvarint, IsVarint;
    var j := Uvarint(s, i).value.1;
    var k := Uvarint(s, j).value.1;
    f := VarintField(s[i..j], s[j..k]);
    Join(s, i, j, k);
  }

  lemma StringFieldIs(s: seq<Byte>, i: nat) returns (f: Field)
    requires i < |s| < TWO_63 && Uvarint(s, i).Ok? && Uvarint(s, i).value.0 % 8 == 2
    requires Extent(s, Uvarint(s, i).value.1).Ok?
    ensures f.Delimited? && WellFormed(f) && TagValue(f.tag) == Uvarint(s, i).value.0
    ensures Bytes(f) == s[i..Extent(s, Uvarint(s, i).value.1).value.1]
  {
    hide Payload, Uvarint, IsVarint, WellFormed, Bytes;
    f := DelimitedIs(s, i, Extent(s, Uvarint(s, i).value.1).value.1);
  }

  /** A field that starts at an index carries the tag read there. */
  lemma FieldAtStart(s: seq<Byte>, i: nat, next: nat, f: Field)
    requires i < next <= |s| && WellFormed(f) && Bytes(f) == s[i..next]
    ensures Uvarint(s, i).Ok? && Uvarint(s, i).value.0 == TagValue(f.tag)
  {
    hide Uvarint, Payload, IsVarint;
    TagAt(s, i, f);
    TagReads(s, i, f.tag);
  }

  lemma {:induction false} Parse(s: seq<Byte>, i: nat, m: Message) returns (fs: seq<Field>)
    requires i <= |s| < TWO_63 && DecodeFrom(s, i, m).Ok?
    ensures Fits(m, fs) && Concat(fs) == s[i..]
    decreases |s| - i
  {
    hide DecodeField, Bytes, WellFormed;
    if i == |s| {
      fs := [];
    } else {
      var f := FieldIs(s, i, m);
      var (next, m') := DecodeField(s, i, m).value;
      SameKind(s, i, m);
      var rest := Parse(s, next, m');
      fs := [f] + rest;
      assert fs[1..] == rest && f in [f];
      assert s[i..] == s[i..next] + s[next..];
    }
  }

  lemma SameKind(s: seq<Byte>, i: nat, m: Message)
    requires i < |s| < TWO_63 && DecodeField(s, i, m).Ok?
    ensures DecodeField(s, i, m).value.1.ParamsMsg? <==> m.ParamsMsg?
  {
  }

  /**
   A failed decoding leaves what the fields before the failing one mean, and of the failing one only
   the bits of an integer read so far.
   */
  lemma {:induction false} ResidueMeans(s: seq<Byte>, i: nat, m: Message) returns (fs: seq<Field>, k: nat)
    requires i <= |s| < TWO_63 && DecodeFrom(s, i, m).Err?
    ensures i <= k < |s| && Fits(m, fs) && Concat(fs) == s[i..k]
    ensures DecodeField(s, k, Meaning(m, fs)).Err? && Residue(s, i, m) == Partial(s, k, Meaning(m, fs))
    decreases |s| - i
  {
    hide DecodeField, Bytes, WellFormed, Partial, Absorb;
    if DecodeField(s, i, m).Err? {
      fs, k := [], i;
    } else {
      var f := FieldIs(s, i, m);
      var (next, m') := DecodeField(s, i, m).value;
      assert At(s, i, Bytes(f)) && f in [f];
      FieldReads(s, i, f, m);
      SameKind(s, i, m);
      var rest;
      rest, k := ResidueMeans(s, next, m');
      fs := [f] + rest;
      assert fs[1..] == rest;
      Join(s, i, next, k);
    }
  }

  ghost predicate Reads(m: Message, fs: seq<Field>, s: seq<Byte>) { Fits(m, fs) && Concat(fs) == s }

  /** Decoding succeeds exactly on concatenations of fitting fields, and yields what the fields mean. */
  lemma DecodeExactly(s: seq<Byte>, m: Message)
    requires |s| < TWO_63
    ensures DecodeFrom(s, 0, m).Ok? <==> exists fs :: Reads(m, fs, s)
    ensures forall fs | Reads(m, fs, s) :: DecodeFrom(s, 0, m) == Ok(Meaning(m, fs))
  {
    hide Fits, Concat, DecodeFrom, Meaning;
    if DecodeFrom(s, 0, m).Ok? {
      var fs := Parse(s, 0, m);
      assert s[0..] == s;
      assert Reads(m, fs, s);
    }
    forall fs | Reads(m, fs, s) ensures DecodeFrom(s, 0, m) == Ok(Meaning(m, fs)) {
      assert s[0..|s|] == s;
      DecodeReads(s, 0, fs, m);
    }
  }

  // ---------- round trip ----------

  function Zero(m: Message): Message {
    match m
    case AssetMsg(_) => AssetMsg([])
    case WhiteListMsg(_) => WhiteListMsg([])
    case ParamsMsg(_) => ParamsMsg(0)
  }

  lemma TagsFit()
    ensures IsVarint(STRING_TAG) && WireType(STRING_TAG) == 2 && FieldNumber(STRING_TAG) == 1
    ensures IsVarint(UINT_TAG) && WireType(UINT_TAG) == 0 && FieldNumber(UINT_TAG) == 1
  {
    assert STRING_TAG[1..] == [] && UINT_TAG[1..] == [];
    assert Payload(STRING_TAG) == 10 && Payload(UINT_TAG) == 8;
  }

  lemma StringFieldFits(payload: seq<Byte>)
    requires |payload| < TWO_63
    ensures WellFormed(StringField(payload)) && FieldNumber(StringField(payload).tag) == 1
  {
    hide IsVarint, Payload, Encoded, FieldNumber;
    TagsFit();
    U64IsVarint(|payload|);
  }

  lemma {:induction false} ListMeans(list: seq<seq<Byte>>, more: seq<seq<Byte>>)
    requires forall p | p in more :: |p| < TWO_63
    ensures Fits(WhiteListMsg(list), StringFields(more))
    ensures Meaning(WhiteListMsg(list), StringFields(more)) == WhiteListMsg(list + more)
    decreases |more|
  {
    hide WellFormed, FieldNumber, Encoded, Fits, Meaning, StringFields;
    ListFits(list, more);
    if more == [] {
      assert list + more == list;
      NothingMeans(list, more);
    } else {
      ListFits(list + [more[0]], more[1..]);
      FirstMeans(list, more);
      ListMeans(list + [more[0]], more[1..]);
      assert list + more == list + [more[0]] + more[1..];
    }
  }

  lemma NothingMeans(list: seq<seq<Byte>>, more: seq<seq<Byte>>)
    requires more == []
    ensures Fits(WhiteListMsg(list), StringFields(more)) && Meaning(WhiteListMsg(list), StringFields(more)) == WhiteListMsg(list)
  {
  }

  lemma FirstMeans(list: seq<seq<Byte>>, more: seq<seq<Byte>>)
    requires more != [] && |more[0]| < TWO_63
    requires Fits(WhiteListMsg(list), StringFields(more)) && Fits(WhiteListMsg(list + [more[0]]), StringFields(more[1..]))
    ensures Meaning(WhiteListMsg(list), StringFields(more)) ==
            Meaning(WhiteListMsg(list + [more[0]]), StringFields(more[1..]))
  {
    hide WellFormed, FieldNumber, Encoded;
    StringFieldFits(more[0]);
    assert StringFields(more)[1..] == StringFields(more[1..]);
  }

  lemma ListFits(list: seq<seq<Byte>>, more: seq<seq<Byte>>)
    requires forall p | p in more :: |p| < TWO_63
    ensures Fits(WhiteListMsg(list), StringFields(more))
  {
    hide WellFormed, FieldNumber, Encoded;
    forall f | f in StringFields(more) ensures WellFormed(f) && FieldNumber(f.tag) == 1 && f.Delimited? {
      var i :| 0 <= i < |more| && f == StringField(more[i]);
      StringFieldFits(more[i]);
    }
  }

  lemma {:induction false} ElementsWithin(list: seq<seq<Byte>>)
    ensures forall p | p in list :: |p| <= ListSize(list)
  {
    if list != [] { ElementsWithin(list[1..]); }
  }

  lemma FieldsMean(m: Message)
    requires Size(m) < TWO_63
    ensures Fits(Zero(m), FieldsOf(m)) && Meaning(Zero(m), FieldsOf(m)) == m
  {
    match m {
      case WhiteListMsg(validators) =>
        ElementsWithin(validators);
        ListMeans([], validators);
        assert [] + validators == validators;
      case AssetMsg(symbol) =>
        if symbol != [] {
          StringFieldFits(symbol);
          OneField(Zero(m), StringField(symbol));
        }
      case ParamsMsg(threshold) =>
        if threshold != 0 {
          U64IsVarint(threshold);
          TagsFit();
          OneField(Zero(m), VarintField(UINT_TAG, Encoded(threshold)));
        }
    }
  }

  lemma OneField(m: Message, f: Field)
    requires Fits(m, [f])
    ensures f in [f] && Meaning(m, [f]) == Absorb(m, f)
  {
    assert f in [f] && [f][1..] == [];
  }

  /** What is written is read back, for every message whose encoding fits in memory. */
  lemma RoundTrip(m: Message)
    requires Size(m) < TWO_63
    ensures |Encode(m)| == Size(m) && DecodeFrom(Encode(m), 0, Zero(m)) == Ok(m)
  {
    hide Concat, Meaning, Fits, DecodeFrom, FieldsOf, Size;
    SizeExact(m);
    FieldsMean(m);
    var s := Encode(m);
    assert s[0..|s|] == s;
    DecodeReads(s, 0, FieldsOf(m), Zero(m));
  }
}
