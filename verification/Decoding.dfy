/** The field loop shared by every generated Unmarshal, as a fold of fields into a message. */
module Decoding {
  import opened Bits
  import opened Varints
  import opened Skipping

  /** How a message's switch treats a field number: a varint field, a length-prefixed field, or the default case. */
  datatype Kind = Scalar | Chunk | Unknown

  /** The field one turn of the loop has read. */
  datatype Token =
    | Num(num: int, v: uint64)
    | Blob(num: int, bytes: Slice)
    | Skipped

  /** One turn at cursor i: the field read and the cursor behind it. */
  function NextField(kind: int -> Kind, s: Slice, i: nat): (r: Result<(Token, nat)>)
    requires i <= |s|
    ensures r.Ok? ==> i < r.value.1 <= |s|
    ensures r.Ok? && !r.value.0.Skipped? ==> r.value.0.num > 0
    ensures r.Ok? ==> match r.value.0
                      case Num(n, _) => kind(n).Scalar?
                      case Blob(n, _) => kind(n).Chunk?
                      case Skipped => true
  {
    var (wire, j) :- ReadVarint(s, i);
    var num := Int32(wire / 8);
    if wire % 8 == 4 then Err(EndGroupForNonGroup)
    else if num <= 0 then Err(IllegalTag)
    else
      match kind(num)
      case Scalar =>
        if wire % 8 != 0 then Err(WrongWireType) else
        var (v, k) :- ReadVarint(s, j);
        Ok((Num(num, v), k))
      case Chunk =>
        if wire % 8 != 2 then Err(WrongWireType) else
        var (start, end) :- ReadLength(s, j);
        if end > |s| then Err(UnexpectedEOF) else Ok((Blob(num, s[start..end]), end))
      case Unknown =>
        var n :- Skip(s[i..]);
        var k :- Forward(i, n);
        if k > |s| then Err(UnexpectedEOF) else Ok((Skipped, k))
  }

  /** The loop from cursor i: `put` is the body of the message's switch. */
  function Decode<M>(kind: int -> Kind, put: (M, Token) -> Result<M>, m: M, s: Slice, i: nat): Result<M>
    requires i <= |s|
    decreases |s| - i
  {
    if i == |s| then Ok(m) else
    var (token, j) :- NextField(kind, s, i);
    var m' :- put(m, token);
    Decode(kind, put, m', s, j)
  }

  /** The same value, or an error both times. */
  ghost predicate Same<T>(r: Result<T>, q: Result<T>) {
    (r.Ok? <==> q.Ok?) && (r.Ok? ==> r.value == q.value)
  }

  /** One turn of the loop as the program takes it. */
  method ReadField(kind: int -> Kind, dAtA: Slice, iNdEx: nat) returns (r: Result<(Token, nat)>)
    requires iNdEx <= |dAtA|
    ensures r == NextField(kind, dAtA, iNdEx)
  {
    hide ReadVarint, Skip, VarintEnd, And;
    var tag := DecodeVarint(dAtA, iNdEx);
    if tag.Err? { return Err(tag.error); }
    var (wire, j) := tag.value;
    LowThree(wire);
    var (fieldNum, wireType) := (Int32(wire / 8), And(wire, 7));
    if wireType == 4 { return Err(EndGroupForNonGroup); }
    if fieldNum <= 0 { return Err(IllegalTag); }
    match kind(fieldNum) {
      case Scalar =>
        if wireType != 0 { return Err(WrongWireType); }
        var number := DecodeVarint(dAtA, j);
        if number.Err? { return Err(number.error); }
        return Ok((Num(fieldNum, number.value.0), number.value.1));
      case Chunk =>
        if wireType != 2 { return Err(WrongWireType); }
        var length := DecodeVarint(dAtA, j);
        if length.Err? { return Err(length.error); }
        var byteLen := Int64(length.value.0);
        if byteLen < 0 { return Err(InvalidLength); }
        var postIndex := Int64(length.value.1 + byteLen);
        if postIndex < 0 { return Err(InvalidLength); }
        if postIndex > |dAtA| { return Err(UnexpectedEOF); }
        return Ok((Blob(fieldNum, dAtA[length.value.1..postIndex]), postIndex));
      case Unknown =>
        var skippy := SkipField(dAtA[iNdEx..]);
        if skippy.Err? { return Err(skippy.error); }
        var next := Int64(iNdEx + skippy.value);
        if next < 0 { return Err(InvalidLength); }
        if next > |dAtA| { return Err(UnexpectedEOF); }
        return Ok((Skipped, next));
    }
  }

  // ---------------------------------------------------------------------------
  // Decoding is a left-to-right fold
  // ---------------------------------------------------------------------------

  lemma ReadLengthAppend(a: Slice, b: Slice, i: nat)
    requires |a| + |b| < TWO_63 && ReadLength(a, i).Ok?
    ensures ReadLength(a + b, i) == ReadLength(a, i)
  {
    ReadVarintAppend(a, b, i);
  }

  lemma SkipAppend(a: Slice, b: Slice)
    requires |a| + |b| < TWO_63 && Skip(a).Ok? && Skip(a).value <= |a|
    ensures Skip(a + b) == Skip(a)
  {
    var f := SkipIsField(a);
    assert (a + b)[..Skip(a).value] == Bytes(f);
    SkipRefinesGrammar(a + b, Skip(a).value);
  }

  lemma NextFieldAppend(kind: int -> Kind, a: Slice, b: Slice, i: nat)
    requires |a| + |b| < TWO_63 && i <= |a| && NextField(kind, a, i).Ok?
    ensures NextField(kind, a + b, i) == NextField(kind, a, i)
  {
    hide ReadVarint, VarintEnd, Skip, SkipFrom, ReadLength;
    ReadVarintAppend(a, b, i);
    var (wire, j) := ReadVarint(a, i).value;
    match kind(Int32(wire / 8)) {
      case Scalar => ReadVarintAppend(a, b, j);
      case Chunk =>
        ReadLengthAppend(a, b, j);
        var (start, end) := ReadLength(a, j).value;
        assert (a + b)[start..end] == a[start..end];
      case Unknown =>
        assert (a + b)[i..] == a[i..] + b;
        SkipAppend(a[i..], b);
    }
  }

  lemma ReadLengthShift(a: Slice, b: Slice, i: nat)
    requires |a| + |b| < TWO_63
    ensures ReadLength(b, i).Err? ==> ReadLength(a + b, |a| + i).Err?
    ensures ReadLength(b, i).Ok? ==>
              var (start, end) := ReadLength(b, i).value;
              if |a| + end < TWO_63 then ReadLength(a + b, |a| + i) == Ok((|a| + start, |a| + end))
              else ReadLength(a + b, |a| + i).Err?
  {
    ReadVarintShift(a, b, i);
  }

  lemma NextFieldShift(kind: int -> Kind, a: Slice, b: Slice, i: nat)
    requires |a| + |b| < TWO_63 && i <= |b|
    ensures NextField(kind, b, i).Err? ==> NextField(kind, a + b, |a| + i).Err?
    ensures NextField(kind, b, i).Ok? ==>
              var (token, j) := NextField(kind, b, i).value;
              NextField(kind, a + b, |a| + i) == Ok((token, |a| + j))
  {
    hide ReadVarint, VarintEnd, Skip, SkipFrom, ReadLength;
    ReadVarintShift(a, b, i);
    if ReadVarint(b, i).Ok? {
      var (wire, j) := ReadVarint(b, i).value;
      match kind(Int32(wire / 8)) {
        case Scalar => ReadVarintShift(a, b, j);
        case Chunk =>
          ReadLengthShift(a, b, j);
          if ReadLength(b, j).Ok? && ReadLength(b, j).value.1 <= |b| {
            var (start, end) := ReadLength(b, j).value;
            assert (a + b)[|a| + start..|a| + end] == b[start..end];
          }
        case Unknown => assert (a + b)[|a| + i..] == b[i..];
      }
    }
  }

  lemma {:induction false} DecodePrefix<M>(
    kind: int -> Kind, put: (M, Token) -> Result<M>, m: M, a: Slice, b: Slice, i: nat)
    requires |a| + |b| < TWO_63 && i <= |a| && Decode(kind, put, m, a, i).Ok?
    ensures Decode(kind, put, m, a + b, i) == Decode(kind, put, Decode(kind, put, m, a, i).value, a + b, |a|)
    decreases |a| - i
  {
    hide NextField;
    if i < |a| {
      var (token, j) := NextField(kind, a, i).value;
      NextFieldAppend(kind, a, b, i);
      DecodePrefix(kind, put, put(m, token).value, a, b, j);
    }
  }

  lemma {:induction false} DecodeShift<M>(
    kind: int -> Kind, put: (M, Token) -> Result<M>, m: M, a: Slice, b: Slice, i: nat)
    requires |a| + |b| < TWO_63 && i <= |b|
    ensures Same(Decode(kind, put, m, a + b, |a| + i), Decode(kind, put, m, b, i))
    decreases |b| - i
  {
    hide NextField;
    if i < |b| {
      NextFieldShift(kind, a, b, i);
      if NextField(kind, b, i).Ok? {
        var (token, j) := NextField(kind, b, i).value;
        if put(m, token).Ok? { DecodeShift(kind, put, put(m, token).value, a, b, j); }
      }
    }
  }

  /** If a decodes, decoding a + b into m is decoding a into m and then b into the result. */
  lemma DecodeFolds<M>(kind: int -> Kind, put: (M, Token) -> Result<M>, m: M, a: Slice, b: Slice)
    requires |a| + |b| < TWO_63 && Decode(kind, put, m, a, 0).Ok?
    ensures Same(Decode(kind, put, m, a + b, 0), Decode(kind, put, Decode(kind, put, m, a, 0).value, b, 0))
  {
    hide NextField, Decode;
    DecodePrefix(kind, put, m, a, b, 0);
    DecodeShift(kind, put, Decode(kind, put, m, a, 0).value, a, b, 0);
  }

  // ---------------------------------------------------------------------------
  // One field at a time
  // ---------------------------------------------------------------------------

  /** A varint field as the encoder writes it; zero is left out. */
  function NumberField(num: nat, v: uint64): seq<byte>
    requires 1 <= num <= 15
  {
    if v == 0 then [] else [8 * num] + Varint(v)
  }

  /** A length-prefixed field as the encoder writes it when it is always present. */
  function ChunkField(num: nat, bytes: seq<byte>): seq<byte>
    requires 1 <= num <= 15
  {
    [8 * num + 2] + Varint(|bytes|) + bytes
  }

  /** A length-prefixed field as the encoder writes it when the empty value is left out. */
  function BytesField(num: nat, bytes: seq<byte>): seq<byte>
    requires 1 <= num <= 15
  {
    if bytes == [] then [] else ChunkField(num, bytes)
  }

  /** The tag byte of a small field number is read back as that number and wire type. */
  lemma ReadSmallTag(s: Slice, i: nat, num: nat, wireType: nat)
    requires 1 <= num <= 15 && wireType < 8 && i < |s| && s[i] == 8 * num + wireType
    ensures ReadVarint(s, i) == Ok((8 * num + wireType, i + 1))
    ensures Int32((8 * num + wireType) / 8) == num
  {
    assert Varint(8 * num + wireType) == [s[i]] == s[i..i + 1];
    ReadCanonical(s, i, 8 * num + wireType);
  }

  lemma DecodeNumber<M>(kind: int -> Kind, put: (M, Token) -> Result<M>, m: M, num: nat, v: uint64)
    requires 1 <= num <= 15 && kind(num).Scalar? && |NumberField(num, v)| < TWO_63
    ensures Decode(kind, put, m, NumberField(num, v), 0) == if v == 0 then Ok(m) else put(m, Num(num, v))
  {
    if v != 0 {
      hide ReadVarint, VarintEnd, Varint;
      var s: Slice := NumberField(num, v);
      ReadSmallTag(s, 0, num, 0);
      assert s[1..1 + |Varint(v)|] == Varint(v);
      ReadCanonical(s, 1, v);
      assert NextField(kind, s, 0) == Ok((Num(num, v), |s|));
    }
  }

  lemma DecodeChunk<M>(kind: int -> Kind, put: (M, Token) -> Result<M>, m: M, num: nat, bytes: seq<byte>)
    requires 1 <= num <= 15 && kind(num).Chunk? && |ChunkField(num, bytes)| < TWO_63
    ensures Decode(kind, put, m, ChunkField(num, bytes), 0) == put(m, Blob(num, bytes))
  {
    hide ReadVarint, VarintEnd, Varint;
    var s: Slice := ChunkField(num, bytes);
    var n := |Varint(|bytes|)|;
    ReadSmallTag(s, 0, num, 2);
    assert s[1..1 + n] == Varint(|bytes|);
    ReadCanonical(s, 1, |bytes|);
    assert ReadLength(s, 1) == Ok((1 + n, |s|));
    assert s[1 + n..|s|] == bytes;
    assert NextField(kind, s, 0) == Ok((Blob(num, bytes), |s|));
  }

  lemma DecodeBytes<M>(kind: int -> Kind, put: (M, Token) -> Result<M>, m: M, num: nat, bytes: seq<byte>)
    requires 1 <= num <= 15 && kind(num).Chunk? && |BytesField(num, bytes)| < TWO_63
    ensures Decode(kind, put, m, BytesField(num, bytes), 0) == if bytes == [] then Ok(m) else put(m, Blob(num, bytes))
  {
    if bytes != [] { DecodeChunk(kind, put, m, num, bytes); }
  }

  /** Two parts that decode one after the other decode when joined. */
  lemma DecodeJoined<M>(kind: int -> Kind, put: (M, Token) -> Result<M>, m: M, a: Slice, b: Slice)
    requires |a| + |b| < TWO_63 && Decode(kind, put, m, a, 0).Ok?
    requires Decode(kind, put, Decode(kind, put, m, a, 0).value, b, 0).Ok?
    ensures Decode(kind, put, m, a + b, 0) == Decode(kind, put, Decode(kind, put, m, a, 0).value, b, 0)
  {
    DecodeFolds(kind, put, m, a, b);
  }

  /** The field number the decoder gives a tag: the low 32 bits of what is above the wire type. */
  function FieldNumber(tag: seq<byte>): int { Int32(Payload(tag) % TWO_64 / 8) }

  // ---------------------------------------------------------------------------
  // The decoder refines the grammar
  // ---------------------------------------------------------------------------

  /** What a field means to a message, from its parse alone. */
  function TokenOf(kind: int -> Kind, f: Field): Result<Token> {
    var num := FieldNumber(f.tag);
    if num <= 0 then Err(IllegalTag)
    else
      match kind(num)
      case Scalar => if f.Number? then Ok(Num(num, Payload(f.number) % TWO_64)) else Err(WrongWireType)
      case Chunk => if f.Delimited? && |f.body| < TWO_63 then Ok(Blob(num, f.body)) else Err(WrongWireType)
      case Unknown => Ok(Skipped)
  }

  /** What a list of fields means: each puts its token, from left to right. */
  function Meaning<M>(kind: int -> Kind, put: (M, Token) -> Result<M>, m: M, fs: Fields): Result<M> {
    match fs
    case NoMore => Ok(m)
    case More(f, rest) =>
      var token :- TokenOf(kind, f);
      var m' :- put(m, token);
      Meaning(kind, put, m', rest)
  }

  lemma FieldAt(s: Slice, i: nat, f: Field) returns (wire: uint64)
    requires WellFormed(f) && At(s, i, Bytes(f))
    ensures ReadVarint(s, i) == Ok((wire, i + |f.tag|)) && Int32(wire / 8) == FieldNumber(f.tag)
    ensures |Bytes(f)| >= |f.tag| && At(s, i, f.tag)
    ensures wire % 8 == match f case Number(_, _) => 0 case Fixed64(_, _) => 1 case Delimited(_, _, _) => 2
                                case Group(_, _, _) => 3 case Fixed32(_, _) => 5
  {
    hide ReadVarint, VarintEnd, Payload, IsVarint;
    AtSplit(s, i, f.tag, Bytes(f)[|f.tag|..]);
    assert f.tag + Bytes(f)[|f.tag|..] == Bytes(f);
    ReadVarintExact(s, i, i + |f.tag|);
    wire := Payload(f.tag) % TWO_64;
    LowBits(Payload(f.tag));
  }

  /** A field in place is read as its token, with exactly its length, or refused. */
  lemma ReadsField(kind: int -> Kind, s: Slice, i: nat, f: Field)
    requires WellFormed(f) && At(s, i, Bytes(f))
    ensures TokenOf(kind, f).Ok? ==> NextField(kind, s, i) == Ok((TokenOf(kind, f).value, i + |Bytes(f)|))
    ensures TokenOf(kind, f).Err? ==> NextField(kind, s, i).Err?
  {
    hide ReadVarint, VarintEnd, Payload, IsVarint, FieldNumber, Skip, SkipFrom, Int32, Int64, IsTag;
    var wire := FieldAt(s, i, f);
    var j := i + |f.tag|;
    match kind(FieldNumber(f.tag)) {
      case Scalar =>
        if f.Number? {
          AtSplit(s, i, f.tag, f.number);
          ReadVarintExact(s, j, j + |f.number|);
        }
      case Chunk =>
        if f.Delimited? {
          AtSplit(s, i, f.tag + f.length, f.body);
          AtSplit(s, i, f.tag, f.length);
          ReadVarintExact(s, j, j + |f.length|);
          LengthRefused(s, j);
          hide ReadLength;
        }
      case Unknown =>
        assert s[i..][..|Bytes(f)|] == Bytes(f);
        SkipRefinesGrammar(s[i..], |Bytes(f)|);
    }
  }

  /** Whatever one turn reads is one well-formed field that means the token returned. */
  lemma FieldRead(kind: int -> Kind, s: Slice, i: nat) returns (f: Field)
    requires i <= |s| && NextField(kind, s, i).Ok?
    ensures WellFormed(f) && Bytes(f) == s[i..NextField(kind, s, i).value.1]
    ensures TokenOf(kind, f) == Ok(NextField(kind, s, i).value.0)
  {
    hide ReadVarint, VarintEnd, Payload, IsVarint, FieldNumber, Skip, SkipFrom, Int32;
    var (wire, j) := ReadVarint(s, i).value;
    var k := NextField(kind, s, i).value.1;
    ReadVarintExact(s, i, j);
    var tag := s[i..j];
    LowBits(Payload(tag));
    match kind(Int32(wire / 8)) {
      case Scalar =>
        ReadVarintExact(s, j, k);
        f := Number(tag, s[j..k]);
      case Chunk =>
        var b := ReadLength(s, j).value.0;
        ReadVarintExact(s, j, b);
        f := Delimited(tag, s[j..b], s[b..k]);
      case Unknown =>
        f := SkipIsField(s[i..]);
        assert s[i..][..k - i] == s[i..k];
        assert At(s, i, Bytes(f));
        var w := FieldAt(s, i, f);
    }
    assert FieldNumber(f.tag) == Int32(wire / 8) by { FieldNumberIs(f.tag); FieldNumberIs(tag); }
    assert Bytes(f) == s[i..k];
  }

  lemma FieldNumberIs(tag: seq<byte>)
    ensures FieldNumber(tag) == Int32(Payload(tag) % TWO_64 / 8)
  {}

  lemma {:induction false} DecodesFields<M>(
    kind: int -> Kind, put: (M, Token) -> Result<M>, m: M, s: Slice, i: nat, fs: Fields)
    requires i <= |s| && AllWellFormed(fs) && AllBytes(fs) == s[i..]
    ensures Same(Decode(kind, put, m, s, i), Meaning(kind, put, m, fs))
    decreases fs
  {
    hide NextField, TokenOf, WellFormed, Bytes;
    if fs.More? {
      assert s[i..][..|Bytes(fs.head)|] == Bytes(fs.head);
      assert s[i..][|Bytes(fs.head)|..] == AllBytes(fs.tail);
      FieldNotEmpty(fs.head);
      ReadsField(kind, s, i, fs.head);
      var token := TokenOf(kind, fs.head);
      if token.Ok? && put(m, token.value).Ok? {
        DecodesFields(kind, put, put(m, token.value).value, s, i + |Bytes(fs.head)|, fs.tail);
      }
    }
  }

  lemma FieldNotEmpty(f: Field)
    requires WellFormed(f)
    ensures |Bytes(f)| > 0
  {}

  lemma {:induction false} FieldsDecoded<M>(
    kind: int -> Kind, put: (M, Token) -> Result<M>, m: M, s: Slice, i: nat) returns (fs: Fields)
    requires i <= |s| && Decode(kind, put, m, s, i).Ok?
    ensures AllWellFormed(fs) && AllBytes(fs) == s[i..]
    decreases |s| - i
  {
    hide NextField, TokenOf, WellFormed, Bytes;
    fs := NoMore;
    if i < |s| {
      var f := FieldRead(kind, s, i);
      var (token, j) := NextField(kind, s, i).value;
      var rest := FieldsDecoded(kind, put, put(m, token).value, s, j);
      fs := More(f, rest);
      assert s[i..] == s[i..j] + s[j..];
    }
  }

  /** On every byte string: the loop returns m' exactly when the bytes parse as fields that mean m'. */
  lemma DecodeRefinesGrammar<M>(kind: int -> Kind, put: (M, Token) -> Result<M>, m: M, s: Slice, m': M)
    ensures Decode(kind, put, m, s, 0) == Ok(m') <==>
              exists fs :: AllWellFormed(fs) && AllBytes(fs) == s && Meaning(kind, put, m, fs) == Ok(m')
  {
    hide Decode, Meaning, AllWellFormed, AllBytes;
    assert s[0..] == s;
    if Decode(kind, put, m, s, 0) == Ok(m') {
      var fs := FieldsDecoded(kind, put, m, s, 0);
      DecodesFields(kind, put, m, s, 0, fs);
    }
    forall fs | AllWellFormed(fs) && AllBytes(fs) == s && Meaning(kind, put, m, fs) == Ok(m')
      ensures Decode(kind, put, m, s, 0) == Ok(m')
    {
      DecodesFields(kind, put, m, s, 0, fs);
    }
  }

  // ---------------------------------------------------------------------------
  // Unknown fields
  // ---------------------------------------------------------------------------

  lemma DecodeUnknown<M>(kind: int -> Kind, put: (M, Token) -> Result<M>, m: M, f: Field)
    requires WellFormed(f) && |Bytes(f)| < TWO_63
    requires FieldNumber(f.tag) > 0 && kind(FieldNumber(f.tag)).Unknown?
    ensures Bytes(f) != []
    ensures Decode(kind, put, m, Bytes(f), 0) == put(m, Skipped)
  {
    hide NextField;
    var s: Slice := Bytes(f);
    FieldNotEmpty(f);
    ReadsField(kind, s, 0, f);
  }

  /** A well-formed field the message does not know, put in at a field boundary, changes nothing. */
  lemma UnknownFieldIgnored<M>(kind: int -> Kind, put: (M, Token) -> Result<M>, m: M, a: Slice, f: Field, b: Slice)
    requires |a| + |Bytes(f)| + |b| < TWO_63 && Decode(kind, put, m, a, 0).Ok?
    requires WellFormed(f) && FieldNumber(f.tag) > 0 && kind(FieldNumber(f.tag)).Unknown?
    requires forall x :: put(x, Skipped) == Ok(x)
    ensures Same(Decode(kind, put, m, a + Bytes(f) + b, 0), Decode(kind, put, m, a + b, 0))
  {
    hide NextField, Decode, WellFormed, Bytes;
    var m' := Decode(kind, put, m, a, 0).value;
    DecodeUnknown(kind, put, m', f);
    DecodeFolds(kind, put, m, a, Bytes(f));
    DecodeFolds(kind, put, m, a + Bytes(f), b);
    DecodeFolds(kind, put, m, a, b);
  }

  /** In general it is that number, its bits above the lowest 32 cut off, read as a signed one. */
  lemma NumberWraps(tag: seq<byte>)
    ensures -0x8000_0000 <= FieldNumber(tag) < 0x8000_0000 && (Payload(tag) / 8 - FieldNumber(tag)) % TWO_32 == 0
  {
    hide Int32, Payload;
    Signed(Payload(tag) % TWO_64 / 8);
    LowerBits(Payload(tag), FieldNumber(tag));
  }

  lemma LowerBits(p: nat, num: int)
    requires (p % TWO_64 / 8 - num) % TWO_32 == 0
    ensures (p / 8 - num) % TWO_32 == 0
  {
    var q := p / TWO_64;
    var low := p % TWO_64 / 8;
    assert p / 8 == q * 0x2000_0000 * TWO_32 + low;
    var k := (low - num) / TWO_32;
    assert p / 8 - num == (q * 0x2000_0000 + k) * TWO_32;
  }

  /** What one turn refuses, and why, in the order of the checks: an end tag, a number that is not positive, a wire type
      that does not fit the number, a length out of range, bytes that are not there. */
  lemma TurnRefused(kind: int -> Kind, s: Slice, i: nat)
    requires i <= |s| && ReadVarint(s, i).Ok?
    ensures var (wire, j) := ReadVarint(s, i).value;
            var (num, r) := (Int32(wire / 8), NextField(kind, s, i));
            && (wire % 8 == 4 ==> r == Err(EndGroupForNonGroup))
            && (wire % 8 != 4 && num <= 0 ==> r == Err(IllegalTag))
            && (wire % 8 != 4 && num > 0 && kind(num).Scalar? ==>
                  if wire % 8 != 0 then r == Err(WrongWireType)
                  else ReadVarint(s, j).Err? ==> r == Err(ReadVarint(s, j).error))
            && (wire % 8 != 4 && num > 0 && kind(num).Chunk? ==>
                  if wire % 8 != 2 then r == Err(WrongWireType)
                  else match ReadVarint(s, j)
                       case Err(e) => r == Err(e)
                       case Ok((v, k)) =>
                         && (k + v >= TWO_63 ==> r == Err(InvalidLength))
                         && (|s| < k + v < TWO_63 ==> r == Err(UnexpectedEOF)))
            && (wire % 8 != 4 && num > 0 && kind(num).Unknown? ==>
                  match Skip(s[i..])
                  case Err(e) => r == Err(e)
                  case Ok(n) =>
                    && (i + n >= TWO_63 ==> r == Err(InvalidLength))
                    && (|s| < i + n < TWO_63 ==> r == Err(UnexpectedEOF)))
  {
    hide ReadVarint, Skip;
    var (wire, j) := ReadVarint(s, i).value;
    if ReadVarint(s, j).Ok? { LengthRefused(s, j); }
  }

  /** The number read is the one the tag carries exactly when that is below 2^31. */
  lemma NumberKept(tag: seq<byte>)
    ensures FieldNumber(tag) == Payload(tag) / 8 <==> Payload(tag) / 8 < 0x8000_0000
  {}

  /** The number is cut to 32 bits: a tag whose number is 2^32 too large is taken for the smaller one. */
  lemma TagNumberTruncated(num: nat, wireType: nat)
    requires 1 <= num <= 15 && wireType < 8
    ensures FieldNumber(Varint(8 * (num + TWO_32) + wireType)) == num
  {
    VarintPayload(8 * (num + TWO_32) + wireType);
  }
}
