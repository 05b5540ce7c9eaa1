/** Base 128 varints, as pkg/storage/protocol.pb.go and pkg/storage/config/config.pb.go read and write them. */
module Varints {
  import opened Bits

  const TWO_32 := 0x1_0000_0000
  const TWO_63 := 0x8000_0000_0000_0000
  const TWO_64 := 0x1_0000_0000_0000_0000

  type byte = b: int | 0 <= b < 256
  type uint32 = v: int | 0 <= v < TWO_32
  type uint64 = v: int | 0 <= v < TWO_64

  /** The contents of a Go slice: its length fits in an int. */
  type Slice = s: seq<byte> | |s| < TWO_63 witness []

  /** What a Go conversion to a signed 64-bit (32-bit) integer makes of an integer: wrap-around. */
  function Int64(x: int): int { (x + TWO_63) % TWO_64 - TWO_63 }
  function Int32(x: int): int { (x + 0x8000_0000) % TWO_32 - 0x8000_0000 }

  /** A 64-bit (32-bit) number read as a signed one: the upper half stands for the negative numbers. */
  lemma Signed(x: uint64)
    ensures Int64(x) == if x < TWO_63 then x else x - TWO_64
    ensures -0x8000_0000 <= Int32(x) < 0x8000_0000 && (x - Int32(x)) % TWO_32 == 0
  {}

  datatype Error =
    | IntOverflow
    | UnexpectedEOF
    | InvalidLength
    | UnexpectedEndOfGroup
    | EndGroupForNonGroup
    | IllegalTag
    | WrongWireType
    | IllegalWireType

  datatype Result<+T> = Ok(value: T) | Err(error: Error) {
    predicate IsFailure() { Err? }
    function PropagateFailure<U>(): Result<U> requires Err? { Err(error) }
    function Extract(): T requires Ok? { value }
  }

  // ---------------------------------------------------------------------------
  // The encoding
  // ---------------------------------------------------------------------------

  /** The canonical encoding: seven bits a byte, lowest first, the top bit set on all but the last byte. */
  function Varint(v: nat): (bs: seq<byte>)
    ensures |bs| > 0
  {
    if v < 128 then [v] else [v % 128 + 128] + Varint(v / 128)
  }

  /** The number the low seven bits of the bytes spell, lowest first. */
  function Payload(bs: seq<byte>): nat {
    if bs == [] then 0 else bs[0] % 128 + 128 * Payload(bs[1..])
  }

  /** What the decoder accepts as one varint: at most ten bytes, the top bit clear on the last one only. */
  predicate IsVarint(bs: seq<byte>) {
    && 1 <= |bs| <= 10
    && bs[|bs| - 1] < 128
    && forall k :: 0 <= k < |bs| - 1 ==> bs[k] >= 128
  }

  function Pow128(n: nat): (p: nat)
    ensures p > 0
  {
    if n == 0 then 1 else 128 * Pow128(n - 1)
  }

  lemma PowTop()
    ensures Pow128(8) == 0x100_0000_0000_0000 && Pow128(9) == TWO_63 && Pow128(10) >= TWO_64
  {
    assert Pow128(1) == 128 && Pow128(2) == 0x4000 && Pow128(3) == 0x20_0000;
    assert Pow128(4) == 0x1000_0000 && Pow128(5) == 0x8_0000_0000;
    assert Pow128(6) == 0x400_0000_0000 && Pow128(7) == 0x2_0000_0000_0000;
  }

  /** Encoding then reading the payload gives the number back, and the bytes are one well-formed varint. */
  lemma {:induction false} VarintPayload(v: nat)
    ensures Payload(Varint(v)) == v
    ensures forall k :: 0 <= k < |Varint(v)| - 1 ==> Varint(v)[k] >= 128
    ensures Varint(v)[|Varint(v)| - 1] < 128
  {
    if v >= 128 {
      VarintPayload(v / 128);
      assert Varint(v)[1..] == Varint(v / 128);
    }
  }

  /** A number below 128^n takes at most n bytes, and no fewer than n when it is not below 128^(n-1). */
  lemma {:induction false} VarintLength(v: nat, n: nat)
    requires n > 0
    ensures |Varint(v)| <= n <==> v < Pow128(n)
  {
    if v >= 128 {
      if n == 1 {
      } else {
        VarintLength(v / 128, n - 1);
      }
    } else if n > 1 {
      assert Pow128(n) >= 128 by { PowMonotone(1, n); }
    }
  }

  lemma {:induction false} PowMonotone(a: nat, b: nat)
    requires a <= b
    ensures Pow128(a) <= Pow128(b)
    decreases b
  {
    if a < b { PowMonotone(a, b - 1); }
  }

  lemma CanonicalIsVarint(v: uint64)
    ensures IsVarint(Varint(v))
  {
    VarintPayload(v);
    VarintLength(v, 10);
    PowTop();
  }

  // ---------------------------------------------------------------------------
  // The size, computed from the bit length
  // ---------------------------------------------------------------------------

  /** math/bits.Len64. */
  function BitLen(x: nat): (n: nat) { if x == 0 then 0 else 1 + BitLen(x / 2) }

  function Sov(x: nat): (n: nat) { (BitLen(Or(x, 1)) + 6) / 7 }

  lemma BitLenDrop7(x: nat)
    requires x >= 128
    ensures BitLen(x) == 7 + BitLen(x / 128)
  {
    var (a, b, c) := (x / 2, x / 4, x / 8);
    var (d, e, f) := (x / 16, x / 32, x / 64);
    assert a / 2 == b && b / 2 == c && c / 2 == d && d / 2 == e && e / 2 == f && f / 2 == x / 128;
    assert BitLen(x) == 1 + BitLen(a) && BitLen(a) == 1 + BitLen(b);
    assert BitLen(b) == 1 + BitLen(c) && BitLen(c) == 1 + BitLen(d);
    assert BitLen(d) == 1 + BitLen(e) && BitLen(e) == 1 + BitLen(f);
  }

  lemma {:induction false} BitLenSmall(x: nat, k: nat)
    requires k <= 7 && x < [1, 2, 4, 8, 16, 32, 64, 128][k]
    ensures BitLen(x) <= k
  {
    if x > 0 { BitLenSmall(x / 2, k - 1); }
  }

  /** sovProtocol computes exactly the number of bytes the varint loop writes. */
  lemma {:induction false} SovIsLength(x: nat)
    ensures Sov(x) == |Varint(x)|
  {
    hide Or;
    OrOne(x);
    if x < 128 {
      BitLenSmall(Or(x, 1), 7);
    } else {
      SovIsLength(x / 128);
      BitLenDrop7(Or(x, 1));
      SameLength(x);
    }
  }

  /** The seventh bit and those above do not see the low bit set, but for the length of zero. */
  lemma SameLength(x: nat)
    requires x >= 128
    ensures BitLen(Or(x, 1) / 128) == BitLen(Or(x / 128, 1))
  {
    hide Or;
    var y := x / 128;
    OrOne(x);
    OrOne(y);
    assert Or(x, 1) / 128 == y;
    if y % 2 == 0 {
      assert (y + 1) / 2 == y / 2;
    }
  }

  lemma SovBounds(x: uint64)
    ensures 1 <= Sov(x) <= 10
  {
    SovIsLength(x);
    CanonicalIsVarint(x);
  }

  // ---------------------------------------------------------------------------
  // Reading with a cursor
  // ---------------------------------------------------------------------------

  /** Where the varint that starts k bytes before cursor i ends, or why the loop gives up. */
  function VarintEnd(s: seq<byte>, i: nat, k: nat): (r: Result<nat>)
    ensures r.Ok? ==> i < r.value <= |s| && k < 10 && r.value - i <= 10 - k
    ensures r.Err? ==> r.error in {IntOverflow, UnexpectedEOF}
    decreases 10 - k
  {
    if k >= 10 then Err(IntOverflow)
    else if i >= |s| then Err(UnexpectedEOF)
    else if s[i] < 128 then Ok(i + 1)
    else VarintEnd(s, i + 1, k + 1)
  }

  /** The varint at cursor i: its value modulo 2^64 and the cursor behind it. */
  function ReadVarint(s: seq<byte>, i: nat): (r: Result<(uint64, nat)>)
    ensures r.Ok? ==> i < r.value.1 <= |s|
  {
    var end :- VarintEnd(s, i, 0);
    Ok((Payload(s[i..end]) % TWO_64, end))
  }

  lemma {:induction false} VarintEndIsVarint(s: seq<byte>, i: nat, k: nat)
    requires VarintEnd(s, i, k).Ok?
    ensures var e := VarintEnd(s, i, k).value; IsVarint(s[i..e])
    decreases 10 - k
  {
    if s[i] >= 128 {
      VarintEndIsVarint(s, i + 1, k + 1);
      var e := VarintEnd(s, i, k).value;
      assert s[i..e] == [s[i]] + s[i + 1..e];
    }
  }

  lemma {:induction false} VarintEndAccepts(s: seq<byte>, i: nat, k: nat, bs: seq<byte>)
    requires IsVarint(bs) && k + |bs| <= 10
    requires i + |bs| <= |s| && s[i..i + |bs|] == bs
    ensures VarintEnd(s, i, k) == Ok(i + |bs|)
    decreases 10 - k
  {
    assert s[i] == bs[0];
    if |bs| > 1 {
      assert s[i + 1..i + 1 + |bs[1..]|] == bs[1..];
      VarintEndAccepts(s, i + 1, k + 1, bs[1..]);
    }
  }

  /** The reader succeeds exactly when a well-formed varint starts at the cursor, and returns its payload. */
  lemma ReadVarintExact(s: seq<byte>, i: nat, e: nat)
    requires i <= e <= |s|
    ensures IsVarint(s[i..e]) <==> ReadVarint(s, i).Ok? && ReadVarint(s, i).value.1 == e
    ensures IsVarint(s[i..e]) ==> ReadVarint(s, i).value.0 == Payload(s[i..e]) % TWO_64
  {
    if IsVarint(s[i..e]) { VarintEndAccepts(s, i, 0, s[i..e]); }
    if VarintEnd(s, i, 0).Ok? { VarintEndIsVarint(s, i, 0); }
  }

  /** A stretch of bytes that all announce another one. */
  predicate Unended(bs: seq<byte>) { forall k :: 0 <= k < |bs| ==> bs[k] >= 128 }

  lemma UnendedCons(b: byte, bs: seq<byte>)
    ensures Unended([b] + bs) <==> b >= 128 && Unended(bs)
  {
    if Unended([b] + bs) {
      assert ([b] + bs)[0] == b;
      assert forall k :: 0 <= k < |bs| ==> bs[k] == ([b] + bs)[k + 1];
    }
  }

  lemma {:induction false} VarintEndFails(s: seq<byte>, i: nat, k: nat)
    requires i <= |s| && k <= 10
    ensures VarintEnd(s, i, k) == Err(IntOverflow) <==> i + 10 - k <= |s| && Unended(s[i..i + 10 - k])
    ensures VarintEnd(s, i, k) == Err(UnexpectedEOF) <==> |s| < i + 10 - k && Unended(s[i..])
    decreases 10 - k
  {
    if k < 10 && i < |s| && s[i] >= 128 {
      hide Unended;
      VarintEndFails(s, i + 1, k + 1);
      if i + 10 - k <= |s| {
        assert s[i..i + 10 - k] == [s[i]] + s[i + 1..i + 10 - k];
        UnendedCons(s[i], s[i + 1..i + 10 - k]);
      }
      assert s[i..] == [s[i]] + s[i + 1..];
      UnendedCons(s[i], s[i + 1..]);
    } else if k < 10 && i < |s| {
      assert s[i..][0] == s[i];
      if i + 10 - k <= |s| { assert s[i..i + 10 - k][0] == s[i]; }
    }
  }

  /** The reader overflows exactly on ten bytes that all announce another one, and comes to the end exactly when
      there are fewer and all do. */
  lemma ReadVarintFails(s: seq<byte>, i: nat)
    requires i <= |s|
    ensures ReadVarint(s, i) == Err(IntOverflow) <==> i + 10 <= |s| && Unended(s[i..i + 10])
    ensures ReadVarint(s, i) == Err(UnexpectedEOF) <==> |s| < i + 10 && Unended(s[i..])
  {
    hide VarintEnd;
    VarintEndFails(s, i, 0);
  }

  /** The lowest seven bits come first. */
  lemma ThreeHundred()
    ensures Varint(300) == [0xac, 0x02] && Payload([0xac, 0x02]) == 300
  {}

  /** Reading the canonical encoding gives the number back. */
  lemma ReadCanonical(s: seq<byte>, i: nat, v: uint64)
    requires i + |Varint(v)| <= |s| && s[i..i + |Varint(v)|] == Varint(v)
    ensures ReadVarint(s, i) == Ok((v, i + |Varint(v)|))
  {
    hide ReadVarint, VarintEnd, Payload, IsVarint, Varint;
    CanonicalIsVarint(v);
    VarintPayload(v);
    ReadVarintExact(s, i, i + |Varint(v)|);
  }

  lemma {:induction false} VarintEndAppend(a: seq<byte>, b: seq<byte>, i: nat, k: nat)
    requires VarintEnd(a, i, k).Ok?
    ensures VarintEnd(a + b, i, k) == VarintEnd(a, i, k)
    decreases 10 - k
  {
    if a[i] >= 128 { VarintEndAppend(a, b, i + 1, k + 1); }
  }

  lemma {:induction false} VarintEndShift(a: seq<byte>, b: seq<byte>, i: nat, k: nat)
    ensures VarintEnd(b, i, k).Ok? ==> VarintEnd(a + b, |a| + i, k) == Ok(|a| + VarintEnd(b, i, k).value)
    ensures VarintEnd(b, i, k).Err? ==> VarintEnd(a + b, |a| + i, k) == VarintEnd(b, i, k)
    decreases 10 - k
  {
    if k < 10 && i < |b| && b[i] >= 128 { VarintEndShift(a, b, i + 1, k + 1); }
  }

  /** What has been read does not change when bytes are appended. */
  lemma ReadVarintAppend(a: seq<byte>, b: seq<byte>, i: nat)
    requires ReadVarint(a, i).Ok?
    ensures ReadVarint(a + b, i) == ReadVarint(a, i)
  {
    VarintEndAppend(a, b, i, 0);
    var e := VarintEnd(a, i, 0).value;
    assert (a + b)[i..e] == a[i..e];
  }

  /** Bytes in front of the cursor play no part. */
  lemma ReadVarintShift(a: seq<byte>, b: seq<byte>, i: nat)
    ensures ReadVarint(b, i).Ok? ==>
              ReadVarint(a + b, |a| + i) == Ok((ReadVarint(b, i).value.0, |a| + ReadVarint(b, i).value.1))
    ensures ReadVarint(b, i).Err? ==> ReadVarint(a + b, |a| + i) == ReadVarint(b, i)
  {
    VarintEndShift(a, b, i, 0);
    if VarintEnd(b, i, 0).Ok? {
      var e := VarintEnd(b, i, 0).value;
      assert (a + b)[|a| + i..|a| + e] == b[i..e];
    }
  }

  // ---------------------------------------------------------------------------
  // The loops
  // ---------------------------------------------------------------------------

  /** uint64(b&0x7F) << shift: the bits above bit 63 are lost. */
  function Shifted(b: byte, shift: nat): uint64 { And(b, 0x7f) * Pow2(shift) % TWO_64 }

  lemma {:induction false} PowersAgree(k: nat)
    ensures Pow2(7 * k) == Pow128(k)
  {
    if k > 0 {
      PowersAgree(k - 1);
      var n := 7 * k;
      assert Pow2(n) == 2 * Pow2(n - 1) && Pow2(n - 1) == 2 * Pow2(n - 2) && Pow2(n - 2) == 2 * Pow2(n - 3);
      assert Pow2(n - 3) == 2 * Pow2(n - 4) && Pow2(n - 4) == 2 * Pow2(n - 5) && Pow2(n - 5) == 2 * Pow2(n - 6);
    }
  }

  lemma {:induction false} PayloadSnoc(bs: seq<byte>, b: byte)
    ensures Payload(bs + [b]) == Payload(bs) + b % 128 * Pow128(|bs|)
    ensures Payload(bs) < Pow128(|bs|)
  {
    if bs == [] {
    } else {
      PayloadSnoc(bs[1..], b);
      assert (bs + [b])[1..] == bs[1..] + [b];
      assert 128 * (b % 128 * Pow128(|bs| - 1)) == b % 128 * Pow128(|bs|);
    }
  }

  lemma ProductBound(x: nat, q: nat, bound: nat)
    requires x <= 127 && q <= bound
    ensures x * q <= 127 * bound
  {
    if x > 0 {
      assert x * q <= x * bound by { assert x * (bound - q) >= 0; }
      assert (127 - x) * bound >= 0;
    }
  }

  /** Seven bits at most reach past bit 63 when they start there; the bits below are kept. */
  lemma PlaceTopBits(x: nat, p: nat)
    requires p < TWO_63
    ensures p % TWO_64 + x * TWO_63 % TWO_64 == (p + x * TWO_63) % TWO_64
    ensures x * TWO_63 % TWO_64 == x % 2 * TWO_63
  {
    var h := x / 2;
    assert x == 2 * h || x == 2 * h + 1;
  }

  lemma PlaceLowBits(p: nat, w: nat)
    requires p + w < TWO_64
    ensures p % TWO_64 + w % TWO_64 == (p + w) % TWO_64
  {}

  /** Below bit 63, nothing of seven bits moved up is lost, nor of a payload in front of them. */
  lemma NothingLost(x: nat, k: nat)
    requires x < 128 && k <= 8
    ensures x * Pow128(k) + Pow128(k) < TWO_64
  {
    hide Pow128;
    PowTop();
    PowMonotone(k, 8);
    ProductBound(x, Pow128(k), 0x100_0000_0000_0000);
  }

  /** Seven bits moved up: a multiple of the power of two moved by, without the bits above bit 63. */
  lemma ShiftedIs(b: byte, k: nat) returns (c: nat)
    requires k <= 9
    ensures Shifted(b, 7 * k) == c * Pow2(7 * k) == b % 128 * Pow128(k) % TWO_64
  {
    hide And, Pow2, Pow128;
    LowSeven(b);
    PowersAgree(k);
    if k == 9 {
      PowTop();
      c := b % 2;
      PlaceTopBits(b % 128, 0);
    } else {
      c := b % 128;
      NothingLost(c, k);
      PlaceLowBits(0, c * Pow128(k));
    }
  }

  /** In numbers: the accumulator stays the payload read so far, modulo 2^64. */
  lemma SumAccumulates(bs: seq<byte>, b: byte)
    requires |bs| <= 9
    ensures Payload(bs) % TWO_64 + b % 128 * Pow128(|bs|) % TWO_64 == Payload(bs + [b]) % TWO_64
    ensures Payload(bs) < Pow128(|bs|) < TWO_64
  {
    hide Payload, Pow128;
    PayloadSnoc(bs, b);
    PowTop();
    if |bs| == 9 {
      PlaceTopBits(b % 128, Payload(bs));
    } else {
      PowMonotone(|bs|, 8);
      NothingLost(b % 128, |bs|);
      PlaceLowBits(Payload(bs), b % 128 * Pow128(|bs|));
    }
  }

  /** One turn of the decoding loop: or-ing the next seven bits in keeps the accumulator the payload read so far,
      modulo 2^64. */
  lemma OrAccumulates(bs: seq<byte>, b: byte)
    requires |bs| <= 9
    ensures Or(Payload(bs) % TWO_64, Shifted(b, 7 * |bs|)) == Payload(bs + [b]) % TWO_64
  {
    hide Payload, Pow128, Pow2, Shifted, Or, And;
    var c := ShiftedIs(b, |bs|);
    SumAccumulates(bs, b);
    PowersAgree(|bs|);
    PlaceLowBits(Payload(bs), 0);
    OrIsPlus(Payload(bs), c, 7 * |bs|);
  }

  /** The loop every Unmarshal and skipProtocol runs to read a tag, a length or a number. */
  method DecodeVarint(dAtA: seq<byte>, start: nat) returns (r: Result<(uint64, nat)>)
    ensures r == ReadVarint(dAtA, start)
  {
    hide Shifted, Pow128, Or;
    var v: uint64, iNdEx, shift := 0, start, 0;
    while true
      invariant shift == 7 * (iNdEx - start) && start <= iNdEx <= start + 10
      invariant iNdEx > start ==> iNdEx <= |dAtA|
      invariant VarintEnd(dAtA, start, 0) == VarintEnd(dAtA, iNdEx, iNdEx - start)
      invariant v == if iNdEx == start then 0 else Payload(dAtA[start..iNdEx]) % TWO_64
      decreases 70 - shift
    {
      if shift >= 64 { return Err(IntOverflow); }
      if iNdEx >= |dAtA| { return Err(UnexpectedEOF); }
      var b := dAtA[iNdEx];
      assert dAtA[start..iNdEx] + [b] == dAtA[start..iNdEx + 1];
      OrAccumulates(dAtA[start..iNdEx], b);
      iNdEx := iNdEx + 1;
      v := Or(v, Shifted(b, shift));
      if b < 128 { return Ok((v, iNdEx)); }
      shift := shift + 7;
    }
  }

  /** One turn of the encoding loop moves a byte over to what is done. */
  lemma Unroll(done: seq<byte>, w: nat)
    requires w >= 128
    ensures done + Varint(w) == (done + [w % 128 + 128]) + Varint(w / 128)
    ensures |Varint(w)| == 1 + |Varint(w / 128)|
  {}

  lemma LastByte(w: nat)
    requires w < 128
    ensures Varint(w) == [w]
  {}

  /** encodeVarintProtocol and encodeVarintConfig: fill the bytes that end at offset. */
  method EncodeVarint(dAtA: array<byte>, offset: nat, v: uint64) returns (base: nat)
    requires Sov(v) <= offset <= dAtA.Length
    modifies dAtA
    ensures base == offset - |Varint(v)|
    ensures dAtA[..] == old(dAtA[..base]) + Varint(v) + old(dAtA[offset..])
  {
    hide Sov, Varint;
    SovIsLength(v);
    var o, w := offset - Sov(v), v;
    base := o;
    ghost var before, after := dAtA[..base], dAtA[offset..];
    ghost var done: seq<byte> := [];
    while w >= 128
      invariant base <= o < offset && |done| == o - base && offset - o == |Varint(w)|
      invariant done + Varint(w) == Varint(v)
      invariant dAtA[..o] == before + done && dAtA[offset..] == after
      decreases w
    {
      Continuation(w);
      dAtA[o] := Or(And(w, 0x7f), 0x80);
      Unroll(done, w);
      done := done + [w % 128 + 128];
      assert dAtA[..o + 1] == dAtA[..o] + [dAtA[o]];
      w := w / 128;
      o := o + 1;
    }
    dAtA[o] := w;
    LastByte(w);
    assert dAtA[..] == dAtA[..o] + [w] + dAtA[offset..];
  }

  /** encodeVarintPopulateConfig: the append-based twin writes the same bytes. */
  method AppendVarint(dAtA: seq<byte>, v: uint64) returns (out: seq<byte>)
    ensures out == dAtA + Varint(v)
  {
    var w := v;
    out := dAtA;
    while w >= 128
      invariant out + Varint(w) == dAtA + Varint(v)
      decreases w
    {
      Unroll(out, w);
      Continuation(w);
      out := out + [Or(And(w, 0x7f), 0x80)];
      w := w / 128;
    }
    out := out + [w];
  }
}
