/**
 The message objects: marshalling fills a buffer from its end, unmarshalling walks the bytes with an
 index and updates the message in place.
 */
module Messages {
  import opened Varint
  import opened Wire
  import opened Codec

  // ---------- writing ----------

  /** Copies a string so that it ends at an index. */
  method CopyBefore(a: array<Byte>, end: nat, payload: seq<Byte>) returns (base: nat)
    requires |payload| <= end <= a.Length
    modifies a
    ensures base == end - |payload|
    ensures a[..] == old(a[..base]) + payload + old(a[end..])
  {
    base := end - |payload|;
    for k := 0 to |payload|
      invariant forall j | 0 <= j < k :: a[base + j] == payload[j]
      invariant forall j | 0 <= j < a.Length && !(base <= j < base + k) :: a[j] == old(a[j])
    {
      a[base + k] := payload[k];
    }
    forall k | base <= k < end ensures a[..][k] == payload[k - base] { assert a[base + (k - base)] == payload[k - base]; }
    Spliced(a[..], old(a[..]), payload, base, end);
    assert old(a[..base]) == old(a[..])[..base] && old(a[end..]) == old(a[..])[end..];
  }

  method PutByte(a: array<Byte>, end: nat, b: Byte) returns (base: nat)
    requires 1 <= end <= a.Length
    modifies a
    ensures base == end - 1
    ensures a[..] == old(a[..base]) + [b] + old(a[end..])
  {
    base := end - 1;
    a[base] := b;
  }

  /** Two writes that meet: the later one ends where the earlier one begins. */
  lemma Meets(s0: seq<Byte>, s1: seq<Byte>, s2: seq<Byte>, x: seq<Byte>, y: seq<Byte>, i: nat, j: nat, k: nat)
    requires i <= j <= k <= |s0| && |y| == k - j && |x| == j - i
    requires s1 == s0[..j] + y + s0[k..]
    requires s2 == s1[..i] + x + s1[j..]
    ensures s2 == s0[..i] + (x + y) + s0[k..]
  {
    assert s1[..i] == s0[..i] && s1[j..] == y + s0[k..];
    assert s0[..i] + x + (y + s0[k..]) == s0[..i] + (x + y) + s0[k..];
  }

  /** A write that ends where the filled part of the buffer begins. */
  lemma Extends(s0: seq<Byte>, s1: seq<Byte>, s2: seq<Byte>, x: seq<Byte>, filled: seq<Byte>, i: nat, j: nat)
    requires i <= j <= |s0| && |filled| == |s0| - j
    requires s1 == s0[..j] + filled
    requires s2 == s1[..i] + x + s1[j..]
    ensures s2 == s0[..i] + (x + filled)
  {
    assert s1[..i] == s0[..i] && s1[j..] == filled;
  }

  /** Writes one string field so that it ends at an index. */
  method PutString(a: array<Byte>, end: nat, payload: seq<Byte>) returns (base: nat)
    requires StringSize(payload) <= end <= a.Length < TWO_63
    modifies a
    ensures base == end - StringSize(payload)
    ensures a[..] == old(a[..])[..base] + Bytes(StringField(payload)) + old(a[..])[end..]
  {
    hide Sov, Encoded;
    StringFieldSize(payload);
    SovExact(|payload|);
    ghost var s0 := a[..];
    var i := CopyBefore(a, end, payload);
    ghost var s1 := a[..];
    assert s1 == s0[..i] + payload + s0[end..];
    var j := EncodeVarint(a, i, |payload|);
    ghost var s2 := a[..];
    assert s2 == s1[..j] + Encoded(|payload|) + s1[i..];
    Meets(s0, s1, s2, Encoded(|payload|), payload, j, i, end);
    base := PutByte(a, j, 0x0a);
    assert a[..] == s2[..base] + [0x0a] + s2[j..];
    Meets(s0, s2, a[..], [0x0a], Encoded(|payload|) + payload, base, j, end);
    assert Bytes(StringField(payload)) == [0x0a] + (Encoded(|payload|) + payload);
  }

  // ---------- reading ----------

  method ReadExtent(s: seq<Byte>, i: nat) returns (r: Result<(nat, nat)>)
    requires i <= |s| < TWO_63
    ensures r == Extent(s, i)
  {
    hide Uvarint;
    var size :- ReadVarint(s, i);
    var length := Signed(size.0);
    if length < 0 { return Err(InvalidLength); }
    var post := Wrap(size.1 + length);
    if post < 0 { return Err(InvalidLength); }
    if post > |s| { return Err(UnexpectedEOF); }
    return Ok((size.1, post));
  }

  method SkipUnknown(s: seq<Byte>, i: nat) returns (r: Result<nat>)
    requires i <= |s| < TWO_63
    ensures r == Unknown(s, i)
  {
    hide SkipFrom;
    var skippy :- Skip(s[i..]);
    var next := Wrap(i + skippy);
    if next < 0 { return Err(InvalidLength); }
    if next > |s| { return Err(UnexpectedEOF); }
    return Ok(next);
  }

  /** The field number and wire type at an index, and the index after the tag. */
  method ReadTag(s: seq<Byte>, i: nat) returns (r: Result<(int, nat, nat)>)
    requires i <= |s|
    ensures r == match Uvarint(s, i) {
                   case Err(e) => Err(e)
                   case Ok((wire, j)) =>
                     if wire % 8 == 4 then Err(EndGroupForNonGroup)
                     else if Int32(wire / 8) <= 0 then Err(IllegalTag)
                     else Ok((Int32(wire / 8), wire % 8, j))
                 }
  {
    hide Uvarint, Int32;
    var wire :- ReadVarint(s, i);
    var number, wireType := Int32(wire.0 / 8), wire.0 % 8;
    if wireType == 4 { return Err(EndGroupForNonGroup); }
    if number <= 0 { return Err(IllegalTag); }
    return Ok((number, wireType, wire.1));
  }

  /** An unmarshalling result: the decoding's, with the message left as decoding leaves it. */
  ghost predicate Decoded(s: seq<Byte>, before: Message, r: Result<()>, after: Message)
    requires |s| < TWO_63
  {
    && after == Residue(s, 0, before)
    && match DecodeFrom(s, 0, before)
       case Ok(m) => r.Ok? && after == m
       case Err(e) => r == Err(e)
  }

  class Asset {
    var symbol: seq<Byte>

    ghost function View(): Message
      reads this
    {
      AssetMsg(symbol)
    }

    constructor ()
      ensures View() == AssetMsg([])
    {
      symbol := [];
    }

    method ComputeSize() returns (n: nat)
      ensures n == |Encode(View())|
    {
      n := 0;
      if |symbol| > 0 { n := n + 1 + |symbol| + Sov(|symbol|); }
      SizeExact(View());
    }

    method MarshalToSizedBuffer(a: array<Byte>) returns (n: nat)
      requires Size(View()) <= a.Length < TWO_63
      modifies a
      ensures n == |Encode(View())| <= a.Length
      ensures a[..] == old(a[..])[..a.Length - n] + Encode(View())
    {
      hide Bytes, Sov;
      SizeExact(View());
      var i := a.Length;
      if |symbol| > 0 {
        i := PutString(a, i, symbol);
        SingleField(StringField(symbol));
      }
      n := a.Length - i;
    }

    method Marshal() returns (a: array<Byte>)
      requires Size(View()) < TWO_63
      ensures fresh(a) && a[..] == Encode(View())
    {
      hide Encode, Size;
      var size := ComputeSize();
      SizeExact(View());
      a := new Byte[size];
      var n := MarshalToSizedBuffer(a);
    }

    method Unmarshal(s: seq<Byte>) returns (r: Result<()>)
      requires |s| < TWO_63
      modifies this
      ensures Decoded(s, old(View()), r, View())
    {
      hide Uvarint, Int32, Extent, Unknown;
      var i := 0;
      while i < |s|
        invariant i <= |s| && DecodeFrom(s, 0, old(View())) == DecodeFrom(s, i, View())
        invariant Residue(s, 0, old(View())) == Residue(s, i, View())
      {
        var tag :- ReadTag(s, i);
        if tag.0 == 1 {
          if tag.1 != 2 { return Err(WrongWireType); }
          var extent :- ReadExtent(s, tag.2);
          symbol := s[extent.0..extent.1];
          i := extent.1;
        } else {
          i :- SkipUnknown(s, i);
        }
      }
      return Ok(());
    }
  }

  class WhiteList {
    var validators: seq<seq<Byte>>

    ghost function View(): Message
      reads this
    {
      WhiteListMsg(validators)
    }

    constructor ()
      ensures View() == WhiteListMsg([])
    {
      validators := [];
    }

    method ComputeSize() returns (n: nat)
      ensures n == |Encode(View())|
    {
      hide StringSize;
      n := 0;
      for k := 0 to |validators|
        invariant n + ListSize(validators[k..]) == ListSize(validators)
      {
        n := n + StringSize(validators[k]);
        assert validators[k..][1..] == validators[k + 1..];
      }
      SizeExact(View());
    }

    method MarshalToSizedBuffer(a: array<Byte>) returns (n: nat)
      requires Size(View()) <= a.Length < TWO_63
      modifies a
      ensures n == |Encode(View())| <= a.Length
      ensures a[..] == old(a[..])[..a.Length - n] + Encode(View())
    {
      hide Bytes, StringSize, Concat, StringFields, ListSize;
      SizeExact(View());
      ghost var s0 := a[..];
      var i := a.Length;
      NoStrings(validators[|validators|..]);
      for k := |validators| downto 0
        invariant a.Length - i == |Concat(StringFields(validators[k..]))| == ListSize(validators[k..])
        invariant 0 <= i <= a.Length && a[..] == s0[..i] + Concat(StringFields(validators[k..]))
      {
        ghost var s1, j := a[..], i;
        SizeSuffix(validators, k);
        FirstString(validators, k);
        StringFieldSize(validators[k]);
        i := PutString(a, i, validators[k]);
        Extends(s0, s1, a[..], Bytes(StringField(validators[k])), Concat(StringFields(validators[k + 1..])), i, j);
      }
      assert validators[0..] == validators;
      n := a.Length - i;
    }

    method Marshal() returns (a: array<Byte>)
      requires Size(View()) < TWO_63
      ensures fresh(a) && a[..] == Encode(View())
    {
      hide Encode, Size;
      var size := ComputeSize();
      SizeExact(View());
      a := new Byte[size];
      var n := MarshalToSizedBuffer(a);
    }

    method Unmarshal(s: seq<Byte>) returns (r: Result<()>)
      requires |s| < TWO_63
      modifies this
      ensures Decoded(s, old(View()), r, View())
    {
      hide Uvarint, Int32, Extent, Unknown;
      var i := 0;
      while i < |s|
        invariant i <= |s| && DecodeFrom(s, 0, old(View())) == DecodeFrom(s, i, View())
        invariant Residue(s, 0, old(View())) == Residue(s, i, View())
      {
        var tag :- ReadTag(s, i);
        if tag.0 == 1 {
          if tag.1 != 2 { return Err(WrongWireType); }
          var extent :- ReadExtent(s, tag.2);
          validators := validators + [s[extent.0..extent.1]];
          i := extent.1;
        } else {
          i :- SkipUnknown(s, i);
        }
      }
      return Ok(());
    }
  }

  lemma NoStrings(list: seq<seq<Byte>>)
    requires |list| == 0
    ensures Concat(StringFields(list)) == [] && ListSize(list) == 0
  {
  }

  lemma FirstString(list: seq<seq<Byte>>, k: nat)
    requires k < |list|
    ensures Concat(StringFields(list[k..])) == Bytes(StringField(list[k])) + Concat(StringFields(list[k + 1..]))
    ensures ListSize(list[k..]) == StringSize(list[k]) + ListSize(list[k + 1..])
  {
    assert list[k..][1..] == list[k + 1..];
    assert StringFields(list[k..])[1..] == StringFields(list[k + 1..]);
  }

  lemma {:induction false} SizeSuffix(list: seq<seq<Byte>>, k: nat)
    requires k <= |list|
    ensures ListSize(list[k..]) <= ListSize(list)
  {
    if k > 0 {
      assert list[1..][k - 1..] == list[k..];
      SizeSuffix(list[1..], k - 1);
    } else {
      assert list[k..] == list;
    }
  }

  class Params {
    var threshold: U64

    ghost function View(): Message
      reads this
    {
      ParamsMsg(threshold)
    }

    constructor ()
      ensures View() == ParamsMsg(0)
    {
      threshold := 0;
    }

    method ComputeSize() returns (n: nat)
      ensures n == |Encode(View())|
    {
      n := 0;
      if threshold != 0 { n := n + 1 + Sov(threshold); }
      SizeExact(View());
    }

    method MarshalToSizedBuffer(a: array<Byte>) returns (n: nat)
      requires Size(View()) <= a.Length < TWO_63
      modifies a
      ensures n == |Encode(View())| <= a.Length
      ensures a[..] == old(a[..])[..a.Length - n] + Encode(View())
    {
      hide Sov, Encoded, Concat;
      SizeExact(View());
      ghost var s0 := a[..];
      var i := a.Length;
      if threshold == 0 {
        NoStrings([]);
        NoUint();
      } else {
        i := EncodeVarint(a, i, threshold);
        ghost var s1, j := a[..], i;
        assert s1 == s0[..i] + Encoded(threshold) + s0[a.Length..];
        i := PutByte(a, i, 0x08);
        SovExact(threshold);
        Meets(s0, s1, a[..], [0x08], Encoded(threshold), i, j, a.Length);
        SingleField(VarintField(UINT_TAG, Encoded(threshold)));
      }
      n := a.Length - i;
    }

    method Marshal() returns (a: array<Byte>)
      ensures fresh(a) && a[..] == Encode(View())
    {
      hide Encode, Size;
      var size := ComputeSize();
      SizeExact(View());
      ParamsSmall(threshold);
      a := new Byte[size];
      var n := MarshalToSizedBuffer(a);
    }

    /** Clears the field and sets its bits as the bytes of a varint come in. */
    method ReadThreshold(s: seq<Byte>, start: nat) returns (r: Result<nat>)
      requires start <= |s|
      modifies this
      ensures match Uvarint(s, start)
              case Ok((value, next)) => r == Ok(next) && threshold == value
              case Err(e) => r == Err(e) && threshold == Payload(s[start..Stop(s, start)]) % TWO_64
    {
      hide Payload, Pow2, Continued, Uvarint, IsVarint;
      var shift: nat, i: nat := 0, start;
      threshold := 0;
      EmptyPayload(s[start..i]);
      while true
        invariant start <= i <= |s| && shift == 7 * (i - start) && i - start <= 10
        invariant forall j | start <= j < i :: s[j] >= 128
        invariant threshold == Payload(s[start..i]) % TWO_64
        decreases |s| - i
      {
        VarintDecided(s, start, i - start);
        if shift >= 64 { return Err(Overflow); }
        if i >= |s| { return Err(UnexpectedEOF); }
        var b := s[i];
        NextValue(s, start, i, shift, threshold);
        threshold := threshold + (b % 128 * Pow2(shift)) % TWO_64;
        i := i + 1;
        if b < 128 { return Ok(i); }
        shift := shift + 7;
      }
    }

    method Unmarshal(s: seq<Byte>) returns (r: Result<()>)
      requires |s| < TWO_63
      modifies this
      ensures Decoded(s, old(View()), r, View())
    {
      hide Uvarint, Int32, Extent, Unknown;
      var i := 0;
      while i < |s|
        invariant i <= |s| && DecodeFrom(s, 0, old(View())) == DecodeFrom(s, i, View())
        invariant Residue(s, 0, old(View())) == Residue(s, i, View())
      {
        var tag :- ReadTag(s, i);
        if tag.0 == 1 {
          if tag.1 != 0 { return Err(WrongWireType); }
          i :- ReadThreshold(s, tag.2);
        } else {
          i :- SkipUnknown(s, i);
        }
      }
      return Ok(());
    }
  }

  lemma NoUint()
    ensures Encode(ParamsMsg(0)) == []
  {
  }

  lemma ParamsSmall(v: U64)
    ensures Size(ParamsMsg(v)) <= 11
  {
    hide Sov, Encoded;
    SovExact(v);
    U64IsVarint(v);
  }
}
