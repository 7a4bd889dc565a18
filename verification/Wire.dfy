/**
 The wire format of the Protocol Buffers encoding ("Message Structure") as a grammar of fields, and
 the unknown-field skipper of the generated CLP code, which walks it with a depth counter.
 */
module Wire {
  import opened Varint

  // ---------- fields ----------

  /** One field as it stands in the bytes; tags and lengths keep the varint bytes they were written with. */
  datatype Field =
    | VarintField(tag: seq<Byte>, value: seq<Byte>)
    | Fixed64(tag: seq<Byte>, payload: seq<Byte>)
    | Delimited(tag: seq<Byte>, length: seq<Byte>, payload: seq<Byte>)
    | Group(tag: seq<Byte>, fields: seq<Field>, end: seq<Byte>)
    | Fixed32(tag: seq<Byte>, payload: seq<Byte>)

  /** A tag's 64-bit value, wire type and 32-bit field number. */
  function TagValue(tag: seq<Byte>): U64 { Payload(tag) % TWO_64 }

  function WireType(tag: seq<Byte>): nat { TagValue(tag) % 8 }

  function Int32(x: nat): int { if x % TWO_32 >= TWO_31 then x % TWO_32 - TWO_32 else x % TWO_32 }

  function FieldNumber(tag: seq<Byte>): int { Int32(TagValue(tag) / 8) }

  /**
   A field the generated code accepts.  This is the standard's grammar but for one point: the standard
   wants a group's end tag to carry the field number of its start tag, which the code does not compare.
   */
  predicate WellFormed(f: Field) {
    IsVarint(f.tag) &&
    match f
    case VarintField(tag, value) => WireType(tag) == 0 && IsVarint(value)
    case Fixed64(tag, payload) => WireType(tag) == 1 && |payload| == 8
    case Delimited(tag, length, payload) =>
      WireType(tag) == 2 && IsVarint(length) && Payload(length) % TWO_64 == |payload| < TWO_63
    case Group(tag, fields, end) =>
      WireType(tag) == 3 && IsVarint(end) && WireType(end) == 4 && forall g | g in fields :: WellFormed(g)
    case Fixed32(tag, payload) => WireType(tag) == 5 && |payload| == 4
  }

  predicate AllWellFormed(fs: seq<Field>) { forall f | f in fs :: WellFormed(f) }

  function Bytes(f: Field): seq<Byte>
    decreases f
  {
    match f
    case VarintField(tag, value) => tag + value
    case Fixed64(tag, payload) => tag + payload
    case Delimited(tag, length, payload) => tag + length + payload
    case Group(tag, fields, end) => tag + Concat(fields) + end
    case Fixed32(tag, payload) => tag + payload
  }

  function Concat(fs: seq<Field>): seq<Byte>
    decreases fs
  {
    if fs == [] then [] else Bytes(fs[0]) + Concat(fs[1..])
  }

  // ---------- the skipper ----------

  /** 64-bit signed readings of an unsigned value and of a sum of two non-negative ones. */
  function Signed(u: U64): int { if u >= TWO_63 then u - TWO_64 else u }

  function Wrap(x: nat): int { if x >= TWO_63 then x - TWO_64 else x }

  /** One turn of the skip loop: the index and depth after the item at an index. */
  function SkipItem(s: seq<Byte>, i: nat, depth: nat): (r: Result<(nat, nat)>)
    requires i < |s| < TWO_63
    ensures r.Ok? ==> i < r.value.0 < TWO_63
  {
    var (wire, j) :- Uvarint(s, i);
    match wire % 8
    case 0 => var (_, k) :- Uvarint(s, j); Ok((k, depth))
    case 1 => if Wrap(j + 8) < 0 then Err(InvalidLength) else Ok((j + 8, depth))
    case 2 =>
      var (length, k) :- Uvarint(s, j);
      if Signed(length) < 0 then Err(InvalidLength)
      else if Wrap(k + length) < 0 then Err(InvalidLength)
      else Ok((k + length, depth))
    case 3 => Ok((j, depth + 1))
    case 4 => if depth == 0 then Err(UnexpectedEndOfGroup) else Ok((j, depth - 1))
    case 5 => if Wrap(j + 4) < 0 then Err(InvalidLength) else Ok((j + 4, depth))
    case _ => Err(IllegalWireType)
  }

  /** The skip loop from an index and a depth: the index at which the depth is back to zero, possibly past the end. */
  function SkipFrom(s: seq<Byte>, i: nat, depth: nat): (r: Result<nat>)
    requires |s| < TWO_63
    ensures r.Ok? ==> i < r.value < TWO_63
    decreases |s| - i
  {
    if i >= |s| then Err(UnexpectedEOF)
    else
      var (next, d) :- SkipItem(s, i, depth);
      if d == 0 then Ok(next) else SkipFrom(s, next, d)
  }

  /** Skips one field, or one whole group, at the start of the bytes. */
  method Skip(s: seq<Byte>) returns (r: Result<nat>)
    requires |s| < TWO_63
    ensures r == SkipFrom(s, 0, 0)
  {
    hide Uvarint, Payload, IsVarint;
    var i: int, depth: nat := 0, 0;
    while i < |s|
      invariant 0 <= i && SkipFrom(s, 0, 0) == SkipFrom(s, i, depth)
      decreases |s| - i
    {
      var wire :- ReadVarint(s, i);
      i := wire.1;
      var wireType := wire.0 % 8;
      if wireType == 0 {
        var value :- ReadVarint(s, i);
        i := value.1;
      } else if wireType == 1 {
        i := Wrap(i + 8);
      } else if wireType == 2 {
        var size :- ReadVarint(s, i);
        var length := Signed(size.0);
        if length < 0 { return Err(InvalidLength); }
        i := Wrap(size.1 + length);
      } else if wireType == 3 {
        depth := depth + 1;
      } else if wireType == 4 {
        if depth == 0 { return Err(UnexpectedEndOfGroup); }
        depth := depth - 1;
      } else if wireType == 5 {
        i := Wrap(i + 4);
      } else {
        return Err(IllegalWireType);
      }
      if i < 0 { return Err(InvalidLength); }
      if depth == 0 { return Ok(i); }
    }
    return Err(UnexpectedEOF);
  }

  // ---------- the skipper takes exactly one field ----------

  /** The bytes of a field start at an index. */
  ghost predicate At(s: seq<Byte>, i: nat, bytes: seq<Byte>) { i + |bytes| <= |s| && s[i..i + |bytes|] == bytes }

  lemma AtSplit(s: seq<Byte>, i: nat, a: seq<Byte>, b: seq<Byte>)
    requires At(s, i, a + b)
    ensures At(s, i, a) && At(s, i + |a|, b)
  {
    var ab := a + b;
    assert s[i..i + |a|] == ab[..|a|] && s[i + |a|..i + |ab|] == ab[|a|..];
  }

  lemma TagReads(s: seq<Byte>, i: nat, tag: seq<Byte>)
    requires IsVarint(tag) && At(s, i, tag)
    ensures Uvarint(s, i) == Ok((TagValue(tag), i + |tag|)) && i < |s|
  {
    VarintReads(s, i, tag);
  }

  /** The item of a field that is not a group leads just past the field. */
  lemma ItemOver(s: seq<Byte>, i: nat, f: Field, depth: nat)
    requires |s| < TWO_63 && At(s, i, Bytes(f)) && WellFormed(f) && !f.Group?
    ensures i < |s| && SkipItem(s, i, depth) == Ok((i + |Bytes(f)|, depth))
  {
    hide Uvarint, Payload, IsVarint, At;
    if f.VarintField? {
      AtSplit(s, i, f.tag, f.value);
      TagReads(s, i, f.tag);
      TagReads(s, i + |f.tag|, f.value);
    } else if f.Delimited? {
      DelimitedOver(s, i, f, depth);
    } else if f.Fixed64? || f.Fixed32? {
      AtSplit(s, i, f.tag, f.payload);
      TagReads(s, i, f.tag);
      AtIs(s, i, Bytes(f));
    }
  }

  lemma DelimitedOver(s: seq<Byte>, i: nat, f: Field, depth: nat)
    requires |s| < TWO_63 && At(s, i, Bytes(f)) && WellFormed(f) && f.Delimited?
    ensures i < |s| && SkipItem(s, i, depth) == Ok((i + |Bytes(f)|, depth))
  {
    hide Uvarint, Payload, IsVarint, At;
    AtSplit(s, i, f.tag + f.length, f.payload);
    AtSplit(s, i, f.tag, f.length);
    TagReads(s, i, f.tag);
    TagReads(s, i + |f.tag|, f.length);
    AtIs(s, i, Bytes(f));
  }

  lemma AtIs(s: seq<Byte>, i: nat, bytes: seq<Byte>)
    requires At(s, i, bytes)
    ensures i + |bytes| <= |s| && s[i..i + |bytes|] == bytes
  {
  }

  /** A group's tags move the depth by one and the index past themselves. */
  lemma GroupTags(s: seq<Byte>, i: nat, tag: seq<Byte>, depth: nat)
    requires |s| < TWO_63 && At(s, i, tag) && IsVarint(tag) && WireType(tag) in {3, 4}
    ensures i < |s|
    ensures WireType(tag) == 3 ==> SkipItem(s, i, depth) == Ok((i + |tag|, depth + 1))
    ensures WireType(tag) == 4 && depth > 0 ==> SkipItem(s, i, depth) == Ok((i + |tag|, depth - 1))
  {
    hide Uvarint, Payload, IsVarint, At;
    TagReads(s, i, tag);
  }

  /** A well-formed field, nested groups and all, is skipped as one. */
  lemma {:induction false} SkipOver(s: seq<Byte>, i: nat, f: Field, depth: nat)
    requires |s| < TWO_63 && At(s, i, Bytes(f)) && WellFormed(f)
    ensures SkipFrom(s, i, depth) ==
            if depth == 0 then Ok(i + |Bytes(f)|) else SkipFrom(s, i + |Bytes(f)|, depth)
    decreases f
  {
    hide Uvarint, Payload, IsVarint, At, SkipItem, Concat, WireType;
    if f.Group? {
      AtSplit(s, i, f.tag + Concat(f.fields), f.end);
      AtSplit(s, i, f.tag, Concat(f.fields));
      var j := i + |f.tag|;
      var k := j + |Concat(f.fields)|;
      GroupTags(s, i, f.tag, depth);
      SkipOverAll(s, j, f.fields, depth + 1);
      GroupTags(s, k, f.end, depth + 1);
      assert SkipFrom(s, i, depth) == SkipFrom(s, j, depth + 1) == SkipFrom(s, k, depth + 1);
    } else {
      ItemOver(s, i, f, depth);
    }
  }

  lemma {:induction false} SkipOverAll(s: seq<Byte>, i: nat, fs: seq<Field>, depth: nat)
    requires |s| < TWO_63 && At(s, i, Concat(fs)) && AllWellFormed(fs) && depth > 0
    ensures SkipFrom(s, i, depth) == SkipFrom(s, i + |Concat(fs)|, depth)
    decreases fs
  {
    hide SkipFrom, At, Bytes, WellFormed;
    if fs != [] {
      AtSplit(s, i, Bytes(fs[0]), Concat(fs[1..]));
      SkipOver(s, i, fs[0], depth);
      SkipOverAll(s, i + |Bytes(fs[0])|, fs[1..], depth);
    }
  }

  // ---------- and takes nothing else ----------

  lemma Join(s: seq<Byte>, i: nat, j: nat, k: nat)
    requires i <= j <= k <= |s|
    ensures s[i..j] + s[j..k] == s[i..k]
  {
  }

  /** What an item that keeps the depth stood for. */
  lemma ItemIs(s: seq<Byte>, i: nat, depth: nat) returns (f: Field)
    requires i < |s| < TWO_63 && SkipItem(s, i, depth).Ok?
    requires SkipItem(s, i, depth).value.1 == depth && SkipItem(s, i, depth).value.0 <= |s|
    ensures WellFormed(f) && !f.Group? && Bytes(f) == s[i..SkipItem(s, i, depth).value.0]
  {
    hide Payload, Uvarint, IsVarint;
    var next := SkipItem(s, i, depth).value.0;
    var (wire, j) := Uvarint(s, i).value;
    var tag := s[i..j];
    if wire % 8 == 2 {
      f := DelimitedIs(s, i, next);
    } else {
      f := if wire % 8 == 0 then VarintField(tag, s[j..next])
           else if wire % 8 == 1 then Fixed64(tag, s[j..next])
           else Fixed32(tag, s[j..next]);
      Join(s, i, j, next);
    }
  }

  lemma DelimitedIs(s: seq<Byte>, i: nat, next: nat) returns (f: Field)
    requires i < |s| < TWO_63 && next <= |s| && Uvarint(s, i).Ok? && Uvarint(s, i).value.0 % 8 == 2
    requires Uvarint(s, Uvarint(s, i).value.1).Ok?
    requires
      var (length, k) := Uvarint(s, Uvarint(s, i).value.1).value;
      next == k + length
    ensures f.Delimited? && WellFormed(f) && TagValue(f.tag) == Uvarint(s, i).value.0 && Bytes(f) == s[i..next]
  {
    hide Payload, Uvarint, IsVarint;
    var j := Uvarint(s, i).value.1;
    var k := Uvarint(s, j).value.1;
    f := Delimited(s[i..j], s[j..k], s[k..next]);
    Join(s, i, j, k);
    Join(s, i, k, next);
  }

  lemma ItemTag(s: seq<Byte>, i: nat, depth: nat)
    requires i < |s| < TWO_63 && SkipItem(s, i, depth).Ok?
    requires SkipItem(s, i, depth).value.1 != depth
    ensures
      var (next, d) := SkipItem(s, i, depth).value;
      && next <= |s| && IsVarint(s[i..next])
      && ((d == depth + 1 && WireType(s[i..next]) == 3) || (d + 1 == depth && WireType(s[i..next]) == 4))
  {
  }

  /** A field followed by the rest of a group is the group's rest one field longer. */
  lemma Prepend(s: seq<Byte>, i: nat, m: nat, k: nat, f: Field, rest: seq<Field>, end: seq<Byte>)
    requires i <= m <= k <= |s| && s[i..m] == Bytes(f) && s[m..k] == Concat(rest) + end
    requires WellFormed(f) && AllWellFormed(rest)
    ensures s[i..k] == Concat([f] + rest) + end && AllWellFormed([f] + rest)
  {
    assert ([f] + rest)[1..] == rest;
    assert s[i..k] == s[i..m] + s[m..k];
  }

  lemma GroupIs(s: seq<Byte>, i: nat, j: nat, k: nat, fs: seq<Field>, end: seq<Byte>)
    requires i <= j <= k <= |s| && IsVarint(s[i..j]) && WireType(s[i..j]) == 3
    requires AllWellFormed(fs) && IsVarint(end) && WireType(end) == 4 && s[j..k] == Concat(fs) + end
    ensures WellFormed(Group(s[i..j], fs, end)) && Bytes(Group(s[i..j], fs, end)) == s[i..k]
  {
    hide IsVarint, WireType, Concat;
    assert s[i..k] == s[i..j] + s[j..k];
  }

  /** Inside a group the loop consumes whole fields, then the end tag of the group. */
  lemma {:induction false} GroupTail(s: seq<Byte>, i: nat, depth: nat, n: nat)
    returns (fs: seq<Field>, end: seq<Byte>, k: nat)
    requires |s| < TWO_63 && i <= |s| && depth > 0 && SkipFrom(s, i, depth) == Ok(n) && n <= |s|
    ensures AllWellFormed(fs) && IsVarint(end) && WireType(end) == 4
    ensures i < k <= n && s[i..k] == Concat(fs) + end
    ensures if depth == 1 then k == n else SkipFrom(s, k, depth - 1) == Ok(n)
    decreases |s| - i
  {
    hide Uvarint, Payload, IsVarint, SkipItem, Concat, WireType, WellFormed, AllWellFormed, Bytes;
    var (next, d) := SkipItem(s, i, depth).value;
    if d == depth {
      var f := ItemIs(s, i, depth);
      var rest;
      rest, end, k := GroupTail(s, next, depth, n);
      fs := [f] + rest;
      Prepend(s, i, next, k, f, rest, end);
    } else {
      ItemTag(s, i, depth);
      if d == depth + 1 {
        var inner, close, m := GroupTail(s, next, d, n);
        GroupIs(s, i, next, m, inner, close);
        var f, rest := Group(s[i..next], inner, close), [];
        rest, end, k := GroupTail(s, m, depth, n);
        fs := [f] + rest;
        Prepend(s, i, m, k, f, rest, end);
      } else {
        fs, end, k := [], s[i..next], next;
        NoFields();
      }
    }
  }

  lemma NoFields()
    ensures Concat([]) == [] && AllWellFormed([])
  {
  }

  lemma SkippedField(s: seq<Byte>, n: nat) returns (f: Field)
    requires |s| < TWO_63 && SkipFrom(s, 0, 0) == Ok(n) && n <= |s|
    ensures WellFormed(f) && Bytes(f) == s[..n]
  {
    hide Uvarint, Payload, IsVarint, SkipItem, Concat, WireType;
    var (next, d) := SkipItem(s, 0, 0).value;
    if d == 0 {
      f := ItemIs(s, 0, 0);
      assert s[0..n] == s[..n];
    } else {
      ItemTag(s, 0, 0);
      var inner, end, k := GroupTail(s, next, 1, n);
      GroupIs(s, 0, next, n, inner, end);
      f := Group(s[0..next], inner, end);
      assert s[0..n] == s[..n];
    }
  }

  ghost predicate IsField(s: seq<Byte>) { exists f :: WellFormed(f) && Bytes(f) == s }

  /** Skipping takes a prefix exactly when that prefix is one well-formed field. */
  lemma SkipExactly(s: seq<Byte>, n: nat)
    requires |s| < TWO_63 && n <= |s|
    ensures SkipFrom(s, 0, 0) == Ok(n) <==> IsField(s[..n])
  {
    if SkipFrom(s, 0, 0) == Ok(n) {
      var f := SkippedField(s, n);
    }
    if f :| WellFormed(f) && Bytes(f) == s[..n] {
      assert s[0..n] == s[..n];
      SkipOver(s, 0, f, 0);
    }
  }
}
