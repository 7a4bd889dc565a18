/**
 Base 128 varints of the Protocol Buffers encoding ("Base 128 Varints"): the back-to-front writer,
 the size computation and the reader of the generated CLP code.
 */
module Varint {
  type Byte = x: int | 0 <= x < 256

  const TWO_31: nat := 0x8000_0000
  const TWO_32: nat := 0x1_0000_0000
  const TWO_63: nat := 0x8000_0000_0000_0000
  const TWO_64: nat := 0x1_0000_0000_0000_0000

  type U64 = x: int | 0 <= x < TWO_64

  function Pow2(n: nat): (p: nat)
    ensures p > 0
  {
    if n == 0 then 1 else 2 * Pow2(n - 1)
  }

  lemma Pow2Seven(n: nat)
    ensures Pow2(n + 7) == 128 * Pow2(n)
  {
    assert Pow2(n + 7) == 2 * Pow2(n + 6) == 4 * Pow2(n + 5) == 8 * Pow2(n + 4);
    assert Pow2(n + 4) == 2 * Pow2(n + 3) == 4 * Pow2(n + 2) == 8 * Pow2(n + 1) == 16 * Pow2(n);
  }

  // ---------- the encoding itself ----------

  /** The varint of a value: seven bits a byte, least significant group first, high bit on all but the last. */
  function Encoded(v: nat): (s: seq<Byte>)
    ensures |s| >= 1
  {
    if v < 128 then [v] else [v % 128 + 128] + Encoded(v / 128)
  }

  /** The value of a byte string read as a varint payload, without any bound. */
  function Payload(s: seq<Byte>): nat {
    if s == [] then 0 else s[0] % 128 + 128 * Payload(s[1..])
  }

  /** A complete varint: at most ten bytes, a continuation bit on all but the last. */
  predicate IsVarint(s: seq<Byte>) {
    1 <= |s| <= 10 && s[|s| - 1] < 128 && forall i | 0 <= i < |s| - 1 :: s[i] >= 128
  }

  lemma {:induction false} PayloadEncoded(v: nat)
    ensures Payload(Encoded(v)) == v
  {
    if v >= 128 {
      PayloadEncoded(v / 128);
      assert Encoded(v)[1..] == Encoded(v / 128);
    } else {
      assert [v as Byte][1..] == [];
    }
  }

  lemma EmptyPayload(s: seq<Byte>)
    requires |s| == 0
    ensures Payload(s) == 0
  {
  }

  lemma {:induction false} PayloadAppend(s: seq<Byte>, b: Byte)
    ensures Payload(s + [b]) == Payload(s) + b % 128 * Pow2(7 * |s|)
  {
    if s == [] {
      assert (s + [b])[1..] == [];
    } else {
      PayloadAppend(s[1..], b);
      assert (s + [b])[1..] == s[1..] + [b];
      Pow2Seven(7 * |s[1..]|);
      assert 7 * |s| == 7 * |s[1..]| + 7;
      assert 128 * (b % 128 * Pow2(7 * |s[1..]|)) == b % 128 * Pow2(7 * |s|);
    }
  }

  lemma {:induction false} PayloadBound(s: seq<Byte>)
    ensures Payload(s) < Pow2(7 * |s|)
  {
    if s != [] {
      PayloadBound(s[1..]);
      Pow2Seven(7 * |s[1..]|);
      assert 7 * |s| == 7 * |s[1..]| + 7;
    }
  }

  lemma {:induction false} EncodedShape(v: nat)
    ensures |Encoded(v)| <= 10 ==> IsVarint(Encoded(v))
    ensures Encoded(v)[|Encoded(v)| - 1] < 128
    ensures forall i | 0 <= i < |Encoded(v)| - 1 :: Encoded(v)[i] >= 128
  {
    if v >= 128 { EncodedShape(v / 128); }
  }

  // ---------- the size computation ----------

  /** The number of bits of a value. */
  function Len64(x: nat): nat { if x == 0 then 0 else 1 + Len64(x / 2) }

  /** The byte count the generated code computes from the bit length of x|1. */
  function Sov(x: nat): nat { (Len64(if x % 2 == 0 then x + 1 else x) + 6) / 7 }

  lemma Len64Seven(x: nat)
    requires x >= 128
    ensures Len64(x) == 7 + Len64(x / 128)
  {
    assert x / 2 / 2 / 2 / 2 == x / 16;
    assert x / 16 / 2 / 2 / 2 == x / 128;
    assert Len64(x) == 1 + Len64(x / 2) == 2 + Len64(x / 2 / 2) == 3 + Len64(x / 2 / 2 / 2) == 4 + Len64(x / 16);
    assert Len64(x / 16) == 1 + Len64(x / 16 / 2) == 2 + Len64(x / 16 / 2 / 2) == 3 + Len64(x / 128);
  }

  /** Setting the lowest bit changes the bit length of zero only. */
  lemma Len64Odd(x: nat)
    requires x > 0
    ensures Len64(if x % 2 == 0 then x + 1 else x) == Len64(x)
  {
  }

  lemma {:induction false} Len64Bound(x: nat, k: nat)
    requires x < Pow2(k)
    ensures Len64(x) <= k
  {
    if x > 0 { Len64Bound(x / 2, k - 1); }
  }

  /** The computed size is the length of the encoding, for every value. */
  lemma {:induction false} SovExact(x: nat)
    ensures Sov(x) == |Encoded(x)|
  {
    if x == 0 {
      assert Len64(1) == 1;
    } else if x < 128 {
      Len64Odd(x);
      Pow2Seven(0);
      Len64Bound(x, 7);
    } else {
      SovExact(x / 128);
      Len64Odd(x);
      Len64Odd(x / 128);
      Len64Seven(x);
    }
  }

  lemma {:induction false} EncodedLength(v: nat, n: nat)
    requires v < Pow2(7 * n) && n >= 1
    ensures |Encoded(v)| <= n
  {
    if v >= 128 {
      if n == 1 {
        Pow2Seven(0);
      } else {
        Pow2Seven(7 * (n - 1));
        EncodedLength(v / 128, n - 1);
      }
    }
  }

  lemma TenBytes()
    ensures Pow2(63) == TWO_63 && Pow2(56) * 128 == TWO_63 && Pow2(70) == 64 * TWO_64
  {
    Pow2TwentyEight();
    hide Pow2;
    Pow2Seven(28);
    Pow2Seven(35);
    Pow2Seven(42);
    Pow2Seven(49);
    Pow2Seven(56);
    Pow2Seven(63);
  }

  lemma Pow2TwentyEight()
    ensures Pow2(28) == 0x1000_0000
  {
    Pow2Seven(0);
    Pow2Seven(7);
    Pow2Seven(14);
    Pow2Seven(21);
  }

  /** A 64-bit value takes at most ten bytes. */
  lemma U64IsVarint(v: U64)
    ensures IsVarint(Encoded(v)) && Payload(Encoded(v)) == v
  {
    TenBytes();
    EncodedLength(v, 10);
    EncodedShape(v);
    PayloadEncoded(v);
  }

  // ---------- the writer ----------

  /** A buffer that changed only between two indices, to the given bytes. */
  lemma Spliced(now: seq<Byte>, was: seq<Byte>, out: seq<Byte>, base: nat, end: nat)
    requires base <= end <= |now| == |was| && |out| == end - base
    requires forall k | base <= k < end :: now[k] == out[k - base]
    requires forall k | 0 <= k < |now| && !(base <= k < end) :: now[k] == was[k]
    ensures now == was[..base] + out + was[end..]
  {
  }

  lemma EncodedStep(v: nat)
    requires v >= 128
    ensures Encoded(v)[0] == v % 128 + 128 && Encoded(v)[1..] == Encoded(v / 128)
  {
  }

  /** Writes the varint so that it ends where the buffer is already filled from. */
  method EncodeVarint(a: array<Byte>, end: nat, value: U64) returns (base: nat)
    requires Sov(value) <= end <= a.Length
    modifies a
    ensures base == end - Sov(value)
    ensures a[..] == old(a[..base]) + Encoded(value) + old(a[end..])
  {
    hide Sov, Len64, Encoded;
    SovExact(value);
    base := end - Sov(value);
    ghost var out := Encoded(value);
    var offset: nat, v: nat := base, value;
    while v >= 128
      invariant base <= offset < end && out[offset - base..] == Encoded(v)
      invariant forall k | base <= k < offset :: a[k] == out[k - base]
      invariant forall k | 0 <= k < a.Length && !(base <= k < end) :: a[k] == old(a[k])
      decreases v
    {
      EncodedStep(v);
      assert out[offset - base] == Encoded(v)[0] && out[offset + 1 - base..] == Encoded(v)[1..];
      a[offset] := v % 128 + 128;
      v := v / 128;
      offset := offset + 1;
    }
    EncodedLast(v);
    assert out[offset - base] == Encoded(v)[0];
    a[offset] := v;
    Spliced(a[..], old(a[..]), out, base, end);
    assert old(a[..base]) == old(a[..])[..base] && old(a[end..]) == old(a[..])[end..];
  }

  lemma EncodedLast(v: nat)
    requires v < 128
    ensures Encoded(v) == [v]
  {
  }

  // ---------- the reader ----------

  datatype Error =
    | Overflow | UnexpectedEOF | InvalidLength | EndGroupForNonGroup | IllegalTag
    | WrongWireType | IllegalWireType | UnexpectedEndOfGroup

  datatype Result<+T> = Ok(value: T) | Err(error: Error) {
    predicate IsFailure() { Err? }
    function PropagateFailure<U>(): Result<U> requires Err? { Err(error) }
    function Extract(): T requires Ok? { value }
  }

  /** How many bytes with a continuation bit stand in a row from an index. */
  function Continued(s: seq<Byte>, i: nat): (n: nat)
    ensures i <= |s| ==> i + n <= |s|
    ensures forall j | i <= j < i + n && j < |s| :: s[j] >= 128
    ensures i + n < |s| ==> s[i + n] < 128
    decreases |s| - i
  {
    if i < |s| && s[i] >= 128 then 1 + Continued(s, i + 1) else 0
  }

  /** The varint at an index, truncated to 64 bits, and the index after it. */
  function Uvarint(s: seq<Byte>, i: nat): (r: Result<(U64, nat)>)
    requires i <= |s|
    ensures r.Ok? ==> i < r.value.1 <= |s| && IsVarint(s[i..r.value.1]) && r.value.0 == Payload(s[i..r.value.1]) % TWO_64
  {
    var n := Continued(s, i);
    if n >= 10 then Err(Overflow)
    else if i + n >= |s| then Err(UnexpectedEOF)
    else Ok((Payload(s[i..i + n + 1]) % TWO_64, i + n + 1))
  }

  /**
   Reading succeeds exactly when a complete varint stands at the index, overflows exactly on ten
   bytes that all continue, and ends unexpectedly exactly when fewer than ten bytes are left and all continue.
   */
  lemma UvarintExactly(s: seq<Byte>, i: nat)
    requires i <= |s|
    ensures Uvarint(s, i).Ok? <==> exists k :: i < k <= |s| && IsVarint(s[i..k])
    ensures Uvarint(s, i) == Err(Overflow) <==> i + 10 <= |s| && forall j | i <= j < i + 10 :: s[j] >= 128
    ensures Uvarint(s, i) == Err(UnexpectedEOF) <==> |s| < i + 10 && forall j | i <= j < |s| :: s[j] >= 128
  {
    hide Payload;
    if i + 10 <= |s| && (forall j | i <= j < i + 10 :: s[j] >= 128) { ContinuedIs(s, i, 10); }
    if |s| < i + 10 && (forall j | i <= j < |s| :: s[j] >= 128) { ContinuedIs(s, i, |s| - i); }
    if k :| i < k <= |s| && IsVarint(s[i..k]) { VarintReads(s, i, s[i..k]); }
  }

  lemma {:induction false} ContinuedIs(s: seq<Byte>, i: nat, n: nat)
    requires i + n <= |s|
    requires forall j | i <= j < i + n :: s[j] >= 128
    ensures Continued(s, i) >= n
    ensures i + n < |s| && s[i + n] < 128 ==> Continued(s, i) == n
    ensures i + n == |s| ==> Continued(s, i) == n
    decreases n
  {
    if n > 0 { ContinuedIs(s, i + 1, n - 1); }
  }

  /** Reading finds exactly the varint that stands at the index. */
  lemma VarintReads(s: seq<Byte>, i: nat, v: seq<Byte>)
    requires i + |v| <= |s| && s[i..i + |v|] == v && IsVarint(v)
    ensures Uvarint(s, i) == Ok((Payload(v) % TWO_64, i + |v|))
  {
    hide Payload, Uvarint;
    forall j | i <= j < i + |v| ensures s[j] == v[j - i] { assert s[i..i + |v|][j - i] == s[j]; }
    VarintDecided(s, i, |v| - 1);
  }

  /** A 64-bit value survives being written and read, wherever it stands. */
  lemma VarintRoundTrip(before: seq<Byte>, v: U64, rest: seq<Byte>)
    ensures Uvarint(before + Encoded(v) + rest, |before|) == Ok((v, |before| + |Encoded(v)|))
  {
    hide Encoded, Payload, Uvarint, IsVarint;
    U64IsVarint(v);
    var s := before + Encoded(v) + rest;
    assert s[|before|..|before| + |Encoded(v)|] == Encoded(v);
    VarintReads(s, |before|, Encoded(v));
  }

  /** Bits arriving above those already read add to the value; the tenth byte wraps. */
  lemma NextByte(s: seq<Byte>, b: Byte, shift: nat)
    requires |s| <= 9 && shift == 7 * |s|
    ensures Payload(s) < Pow2(shift) <= TWO_63
    ensures Payload(s + [b]) % TWO_64 == Payload(s) + (b % 128 * Pow2(shift)) % TWO_64
    ensures |s| < 9 ==> Payload(s + [b]) < TWO_64
  {
    hide *;
    PayloadBound(s);
    PayloadAppend(s, b);
    WeightBound(|s|, shift);
    WrapByte(Payload(s), Pow2(shift), b % 128, b % 128 * Pow2(shift));
  }

  lemma WeightBound(n: nat, shift: nat)
    requires n <= 9 && shift == 7 * n
    ensures if n == 9 then Pow2(shift) == TWO_63 else 128 * Pow2(shift) <= TWO_63
  {
    hide Pow2;
    TenBytes();
    if n < 9 { Pow2Order(shift, 56); }
  }

  /** One turn of reading: the value so far and the next byte's bits make the next value. */
  lemma NextValue(s: seq<Byte>, start: nat, i: nat, shift: nat, value: nat)
    requires start <= i < |s| && i - start <= 9 && shift == 7 * (i - start) && value == Payload(s[start..i]) % TWO_64
    ensures value + (s[i] % 128 * Pow2(shift)) % TWO_64 == Payload(s[start..i + 1]) % TWO_64
  {
    hide Payload, Pow2;
    assert s[start..i + 1] == s[start..i] + [s[i]];
    NextByte(s[start..i], s[i], shift);
  }

  lemma WrapByte(p: nat, w: nat, c: nat, cw: nat)
    requires p < w && c < 128 && (w == TWO_63 || 128 * w <= TWO_63) && cw == c * w
    ensures (p + cw) % TWO_64 == p + cw % TWO_64
    ensures w < TWO_63 ==> p + cw < TWO_64
  {
    if w == TWO_63 {
      WrapTop(p, c);
      WrapTop(0, c);
    } else {
      UpTo127(w, c, cw);
    }
  }

  lemma UpTo127(w: nat, c: nat, cw: nat)
    requires c < 128 && cw == c * w
    ensures cw <= 127 * w
  {
    assert (127 - c) * w >= 0;
  }

  lemma WrapTop(p: nat, c: nat)
    requires p < TWO_63
    ensures (p + TWO_63 * c) % TWO_64 == p + TWO_63 * (c % 2)
  {
    var q := c / 2;
    assert p + TWO_63 * c == TWO_64 * q + (p + TWO_63 * (c % 2));
  }

  lemma {:induction false} Pow2Order(m: nat, n: nat)
    requires m <= n
    ensures Pow2(m) <= Pow2(n)
  {
    if m < n { Pow2Order(m, n - 1); }
  }

  /** What a row of continued bytes decides. */
  lemma VarintDecided(s: seq<Byte>, i: nat, n: nat)
    requires i + n <= |s| && n <= 10
    requires forall j | i <= j < i + n :: s[j] >= 128
    ensures n == 10 ==> Uvarint(s, i) == Err(Overflow)
    ensures n < 10 && i + n == |s| ==> Uvarint(s, i) == Err(UnexpectedEOF)
    ensures n < 10 && i + n < |s| && s[i + n] < 128 ==>
              Uvarint(s, i) == Ok((Payload(s[i..i + n + 1]) % TWO_64, i + n + 1))
  {
    ContinuedIs(s, i, n);
  }

  /** Reads a varint by accumulating seven bits at a time. */
  method ReadVarint(s: seq<Byte>, start: nat) returns (r: Result<(U64, nat)>)
    requires start <= |s|
    ensures r == Uvarint(s, start)
  {
    hide Payload, Pow2, Continued, Uvarint, IsVarint;
    var value: nat, shift: nat, i: nat := 0, 0, start;
    EmptyPayload(s[start..i]);
    while true
      invariant start <= i <= |s| && shift == 7 * (i - start) && i - start <= 10
      invariant forall j | start <= j < i :: s[j] >= 128
      invariant i - start <= 9 ==> value == Payload(s[start..i])
      decreases |s| - i
    {
      VarintDecided(s, start, i - start);
      if shift >= 64 { return Err(Overflow); }
      if i >= |s| { return Err(UnexpectedEOF); }
      var b := s[i];
      assert s[start..i + 1] == s[start..i] + [b];
      NextByte(s[start..i], b, shift);
      // The bits already read lie below the shift, so setting bits is adding.
      value := value + (b % 128 * Pow2(shift)) % TWO_64;
      i := i + 1;
      if b < 128 { return Ok((value, i)); }
      shift := shift + 7;
    }
  }
}
