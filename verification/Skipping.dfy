/** skipProtocol: the depth-counter loop, and the grammar of fields that it accepts. */
module Skipping {
  import opened Bits
  import opened Varints

  // ---------------------------------------------------------------------------
  // The loop
  // ---------------------------------------------------------------------------

  /** What one turn of the loop reads: a scalar field, a start-group tag or an end-group tag. */
  datatype Mark = Plain | Open | Close

  /** The cursor moved by n, unless the sum wraps around to a negative int. */
  function Forward(i: nat, n: nat): (r: Result<nat>)
    requires i < TWO_63 && n < TWO_63
    ensures r == if i + n < TWO_63 then Ok(i + n) else Err(InvalidLength)
  {
    var post := Int64(i + n);
    if post < 0 then Err(InvalidLength) else Ok(post)
  }

  /** A length at cursor i: where the bytes it announces begin and where they would end. */
  function ReadLength(s: Slice, i: nat): (r: Result<(nat, nat)>)
    ensures r.Ok? ==> i < r.value.0 <= r.value.1 < TWO_63 && r.value.0 <= |s|
  {
    var (v, j) :- ReadVarint(s, i);
    if Int64(v) < 0 then Err(InvalidLength) else
    var post :- Forward(j, Int64(v));
    Ok((j, post))
  }

  /** One turn: a tag and what follows it. The cursor returned may lie behind the end of the bytes. */
  function ReadMark(s: Slice, i: nat): (r: Result<(Mark, nat)>)
    ensures r.Ok? ==> i < r.value.1 < TWO_63
  {
    var (wire, j) :- ReadVarint(s, i);
    match wire % 8
    case 0 => var (_, k) :- ReadVarint(s, j); Ok((Plain, k))
    case 1 => var k :- Forward(j, 8); Ok((Plain, k))
    case 2 => var (_, k) :- ReadLength(s, j); Ok((Plain, k))
    case 3 => Ok((Open, j))
    case 4 => Ok((Close, j))
    case 5 => var k :- Forward(j, 4); Ok((Plain, k))
    case _ => Err(IllegalWireType)
  }

  /** The rest of the loop from cursor i with `depth` groups open. */
  function SkipFrom(s: Slice, i: nat, depth: nat): (r: Result<nat>)
    ensures r.Ok? ==> i < r.value < TWO_63
    decreases |s| - i
  {
    if i >= |s| then Err(UnexpectedEOF) else
    var (mark, j) :- ReadMark(s, i);
    if mark.Close? && depth == 0 then Err(UnexpectedEndOfGroup) else
    var d := match mark case Plain => depth case Open => depth + 1 case Close => depth - 1;
    if d == 0 then Ok(j) else SkipFrom(s, j, d)
  }

  function Skip(s: Slice): (r: Result<nat>)
    ensures r.Ok? ==> 0 < r.value < TWO_63
  {
    SkipFrom(s, 0, 0)
  }

  /** skipProtocol and skipConfig. */
  method SkipField(dAtA: Slice) returns (r: Result<nat>)
    ensures r == Skip(dAtA)
  {
    hide ReadVarint, VarintEnd, And;
    var iNdEx, depth := 0, 0;
    while iNdEx < |dAtA|
      invariant Skip(dAtA) == SkipFrom(dAtA, iNdEx, depth)
      decreases |dAtA| - iNdEx
    {
      var tag := DecodeVarint(dAtA, iNdEx);
      if tag.Err? { return Err(tag.error); }
      var (wire, j) := tag.value;
      var next: int := j;
      LowThree(wire);
      match And(wire, 7) {
        case 0 =>
          var value := DecodeVarint(dAtA, j);
          if value.Err? { return Err(value.error); }
          next := value.value.1;
        case 1 =>
          next := Int64(next + 8);
        case 2 =>
          var length := DecodeVarint(dAtA, j);
          if length.Err? { return Err(length.error); }
          var n := Int64(length.value.0);
          if n < 0 { return Err(InvalidLength); }
          next := Int64(length.value.1 + n);
        case 3 =>
          depth := depth + 1;
        case 4 =>
          if depth == 0 { return Err(UnexpectedEndOfGroup); }
          depth := depth - 1;
        case 5 =>
          next := Int64(next + 4);
        case _ =>
          return Err(IllegalWireType);
      }
      if next < 0 { return Err(InvalidLength); }
      iNdEx := next;
      if depth == 0 { return Ok(iNdEx); }
    }
    return Err(UnexpectedEOF);
  }

  // ---------------------------------------------------------------------------
  // The grammar
  // ---------------------------------------------------------------------------

  /** A parsed field. Tags, lengths and numbers are kept as bytes: they need not be canonical. */
  datatype Field =
    | Number(tag: seq<byte>, number: seq<byte>)
    | Fixed64(tag: seq<byte>, body: seq<byte>)
    | Delimited(tag: seq<byte>, length: seq<byte>, body: seq<byte>)
    | Group(tag: seq<byte>, fields: Fields, end: seq<byte>)
    | Fixed32(tag: seq<byte>, body: seq<byte>)

  datatype Fields = NoMore | More(head: Field, tail: Fields)

  predicate IsTag(bs: seq<byte>, wireType: nat) {
    IsVarint(bs) && Payload(bs) % 8 == wireType
  }

  /** The end-group tag may carry any field number: the loop only counts. */
  predicate WellFormed(f: Field) {
    match f
    case Number(tag, number) => IsTag(tag, 0) && IsVarint(number)
    case Fixed64(tag, body) => IsTag(tag, 1) && |body| == 8
    case Delimited(tag, length, body) => IsTag(tag, 2) && IsVarint(length) && Payload(length) % TWO_64 == |body|
    case Group(tag, fields, end) => IsTag(tag, 3) && AllWellFormed(fields) && IsTag(end, 4)
    case Fixed32(tag, body) => IsTag(tag, 5) && |body| == 4
  }

  predicate AllWellFormed(fs: Fields) {
    fs.More? ==> WellFormed(fs.head) && AllWellFormed(fs.tail)
  }

  function Bytes(f: Field): seq<byte> {
    match f
    case Number(tag, number) => tag + number
    case Fixed64(tag, body) => tag + body
    case Delimited(tag, length, body) => tag + length + body
    case Group(tag, fields, end) => tag + AllBytes(fields) + end
    case Fixed32(tag, body) => tag + body
  }

  function AllBytes(fs: Fields): seq<byte> {
    match fs
    case NoMore => []
    case More(head, tail) => Bytes(head) + AllBytes(tail)
  }

  /** Bytes bs stand in s at cursor i. */
  predicate At(s: seq<byte>, i: nat, bs: seq<byte>) {
    i + |bs| <= |s| && s[i..i + |bs|] == bs
  }

  lemma AtSplit(s: seq<byte>, i: nat, a: seq<byte>, b: seq<byte>)
    ensures At(s, i, a + b) <==> At(s, i, a) && At(s, i + |a|, b)
  {
    if i + |a| + |b| <= |s| {
      var (x, y) := (s[i..i + |a|], s[i + |a|..i + |a| + |b|]);
      assert s[i..i + |a + b|] == x + y;
      assert (x + y)[..|a|] == x && (x + y)[|a|..] == y;
      assert (a + b)[..|a|] == a && (a + b)[|a|..] == b;
    }
  }

  /** The wire type of a tag is in bits that truncation to 64 bits keeps. */
  lemma LowBits(p: nat)
    ensures p % TWO_64 % 8 == p % 8
  {}

  lemma ReadTagAt(s: Slice, i: nat, tag: seq<byte>, wireType: nat)
    requires IsTag(tag, wireType) && At(s, i, tag)
    ensures ReadVarint(s, i).Ok? && ReadVarint(s, i).value.1 == i + |tag| && ReadVarint(s, i).value.0 % 8 == wireType
  {
    hide ReadVarint, VarintEnd, Payload, IsVarint;
    ReadVarintExact(s, i, i + |tag|);
    LowBits(Payload(tag));
  }

  // ---------------------------------------------------------------------------
  // Every well-formed field is skipped with exactly its length
  // ---------------------------------------------------------------------------

  lemma DelimitedMark(s: Slice, i: nat, f: Field)
    requires WellFormed(f) && f.Delimited? && At(s, i, Bytes(f))
    ensures ReadMark(s, i) == Ok((Plain, i + |Bytes(f)|))
  {
    hide ReadVarint, VarintEnd, Payload, IsVarint, IsTag;
    AtSplit(s, i, f.tag + f.length, f.body);
    AtSplit(s, i, f.tag, f.length);
    ReadTagAt(s, i, f.tag, 2);
    ReadVarintExact(s, i + |f.tag|, i + |f.tag| + |f.length|);
  }

  /** Scalars take one turn. */
  lemma ScalarMark(s: Slice, i: nat, f: Field)
    requires WellFormed(f) && !f.Group? && At(s, i, Bytes(f))
    ensures ReadMark(s, i) == Ok((Plain, i + |Bytes(f)|))
  {
    hide ReadVarint, VarintEnd, Payload, IsVarint, IsTag;
    match f
    case Number(tag, number) =>
      AtSplit(s, i, tag, number);
      ReadTagAt(s, i, tag, 0);
      ReadVarintExact(s, i + |tag|, i + |tag| + |number|);
    case Fixed64(tag, body) =>
      AtSplit(s, i, tag, body);
      ReadTagAt(s, i, tag, 1);
    case Delimited(_, _, _) => DelimitedMark(s, i, f);
    case Fixed32(tag, body) =>
      AtSplit(s, i, tag, body);
      ReadTagAt(s, i, tag, 5);
  }

  /** A start or end tag takes one turn. */
  lemma GroupMark(s: Slice, i: nat, tag: seq<byte>, wireType: nat)
    requires wireType in {3, 4} && IsTag(tag, wireType) && At(s, i, tag)
    ensures |tag| > 0 && ReadMark(s, i) == Ok((if wireType == 3 then Open else Close, i + |tag|))
  {
    hide ReadVarint, VarintEnd, Payload;
    ReadTagAt(s, i, tag, wireType);
  }

  lemma {:induction false} SkipsField(s: Slice, i: nat, depth: nat, f: Field)
    requires WellFormed(f) && At(s, i, Bytes(f))
    ensures |Bytes(f)| > 0
    ensures SkipFrom(s, i, depth) == if depth == 0 then Ok(i + |Bytes(f)|) else SkipFrom(s, i + |Bytes(f)|, depth)
    decreases f
  {
    hide ReadMark, IsTag;
    if f.Group? {
      AtSplit(s, i, f.tag + AllBytes(f.fields), f.end);
      AtSplit(s, i, f.tag, AllBytes(f.fields));
      GroupMark(s, i, f.tag, 3);
      SkipsFields(s, i + |f.tag|, depth + 1, f.fields);
      GroupMark(s, i + |f.tag| + |AllBytes(f.fields)|, f.end, 4);
    } else {
      ScalarMark(s, i, f);
    }
  }

  lemma {:induction false} SkipsFields(s: Slice, i: nat, depth: nat, fs: Fields)
    requires AllWellFormed(fs) && At(s, i, AllBytes(fs)) && depth > 0
    ensures SkipFrom(s, i, depth) == SkipFrom(s, i + |AllBytes(fs)|, depth)
    decreases fs
  {
    hide ReadMark;
    if fs.More? {
      AtSplit(s, i, Bytes(fs.head), AllBytes(fs.tail));
      SkipsField(s, i, depth, fs.head);
      SkipsFields(s, i + |Bytes(fs.head)|, depth, fs.tail);
    }
  }

  // ---------------------------------------------------------------------------
  // Whatever is skipped is one well-formed field
  // ---------------------------------------------------------------------------

  /** What closes the open groups, innermost first: the fields left in the group and its end tag. */
  datatype Closing = Done | Closed(fields: Fields, end: seq<byte>, outer: Closing)

  function Depth(c: Closing): nat { if c.Done? then 0 else 1 + Depth(c.outer) }

  predicate WellClosed(c: Closing) {
    c.Closed? ==> AllWellFormed(c.fields) && IsTag(c.end, 4) && WellClosed(c.outer)
  }

  function ClosingBytes(c: Closing): seq<byte> {
    if c.Done? then [] else AllBytes(c.fields) + c.end + ClosingBytes(c.outer)
  }

  /** The scalar field read by a plain turn that stays inside the bytes. */
  lemma PlainField(s: Slice, i: nat) returns (f: Field)
    requires ReadMark(s, i).Ok? && ReadMark(s, i).value.0.Plain? && ReadMark(s, i).value.1 <= |s|
    ensures WellFormed(f) && Bytes(f) == s[i..ReadMark(s, i).value.1]
  {
    hide ReadVarint, VarintEnd, Payload, IsVarint;
    var (wire, j) := ReadVarint(s, i).value;
    var k := ReadMark(s, i).value.1;
    ReadVarintExact(s, i, j);
    var tag := s[i..j];
    LowBits(Payload(tag));
    match wire % 8 {
      case 0 => ReadVarintExact(s, j, k); f := Number(tag, s[j..k]);
      case 1 => f := Fixed64(tag, s[j..k]);
      case 2 =>
        var b := ReadLength(s, j).value.0;
        ReadVarintExact(s, j, b);
        f := Delimited(tag, s[j..b], s[b..k]);
      case _ => f := Fixed32(tag, s[j..k]);
    }
    assert Bytes(f) == s[i..k];
  }

  /** One more field in front, in the innermost open group. */
  function Prepend(f: Field, c: Closing): Closing
    requires c.Closed?
  {
    Closed(More(f, c.fields), c.end, c.outer)
  }

  lemma Associate(a: seq<byte>, b: seq<byte>, c: seq<byte>)
    ensures (a + b) + c == a + (b + c)
  {}

  lemma PrependField(f: Field, c: Closing)
    requires c.Closed? && WellFormed(f) && WellClosed(c)
    ensures WellClosed(Prepend(f, c)) && Depth(Prepend(f, c)) == Depth(c)
    ensures ClosingBytes(Prepend(f, c)) == Bytes(f) + ClosingBytes(c)
  {
    hide WellFormed, Bytes, IsTag;
    Associate(Bytes(f), AllBytes(c.fields), c.end);
    Associate(Bytes(f), AllBytes(c.fields) + c.end, ClosingBytes(c.outer));
  }

  /** A start tag makes the innermost closing into a field of the group around it. */
  lemma PrependGroup(tag: seq<byte>, c: Closing)
    requires c.Closed? && c.outer.Closed? && WellClosed(c) && IsTag(tag, 3)
    ensures var g := Prepend(Group(tag, c.fields, c.end), c.outer);
            WellClosed(g) && Depth(g) == Depth(c) - 1 && ClosingBytes(g) == tag + ClosingBytes(c)
  {
    hide IsTag, AllWellFormed, AllBytes;
    var f := Group(tag, c.fields, c.end);
    PrependField(f, c.outer);
    Associate(tag, AllBytes(c.fields), c.end);
    Associate(tag, AllBytes(c.fields) + c.end, ClosingBytes(c.outer));
  }

  /** The tag a turn reads. */
  lemma MarkTag(s: Slice, i: nat)
    requires ReadMark(s, i).Ok? && !ReadMark(s, i).value.0.Plain?
    ensures var (mark, j) := ReadMark(s, i).value;
            j <= |s| && IsTag(s[i..j], if mark.Open? then 3 else 4)
  {
    hide ReadVarint, VarintEnd, Payload, IsVarint;
    var (wire, j) := ReadVarint(s, i).value;
    ReadVarintExact(s, i, j);
    LowBits(Payload(s[i..j]));
  }

  /** With groups open, the bytes up to where the loop stops close them all, in order. */
  lemma {:induction false} SkipCloses(s: Slice, i: nat, depth: nat) returns (c: Closing)
    requires depth > 0 && SkipFrom(s, i, depth).Ok? && SkipFrom(s, i, depth).value <= |s|
    ensures WellClosed(c) && Depth(c) == depth && ClosingBytes(c) == s[i..SkipFrom(s, i, depth).value]
    decreases |s| - i
  {
    hide ReadMark, IsTag, WellFormed, AllWellFormed, Bytes, AllBytes;
    var n := SkipFrom(s, i, depth).value;
    var (mark, j) := ReadMark(s, i).value;
    match mark {
      case Plain =>
        var f := PlainField(s, i);
        var rest := SkipCloses(s, j, depth);
        PrependField(f, rest);
        c := Prepend(f, rest);
      case Open =>
        MarkTag(s, i);
        var rest := SkipCloses(s, j, depth + 1);
        PrependGroup(s[i..j], rest);
        c := Prepend(Group(s[i..j], rest.fields, rest.end), rest.outer);
      case Close =>
        MarkTag(s, i);
        var outer := Done;
        if depth > 1 { outer := SkipCloses(s, j, depth - 1); }
        c := CloseOff(s[i..j], outer);
    }
    assert s[i..n] == s[i..j] + s[j..n];
  }

  lemma CloseOff(tag: seq<byte>, outer: Closing) returns (c: Closing)
    requires IsTag(tag, 4) && WellClosed(outer)
    ensures WellClosed(c) && Depth(c) == Depth(outer) + 1 && ClosingBytes(c) == tag + ClosingBytes(outer)
  {
    c := Closed(NoMore, tag, outer);
    assert AllBytes(NoMore) + tag == tag;
  }

  /** What each wire type takes, on a tag of one byte: 8 bytes, 4 bytes, a varint, or a length and so many bytes, which
      need not be there; wire types 6 and 7 are refused, and an end tag with no group open. */
  lemma WireTypes(s: Slice)
    requires |s| >= 2 && s[0] < 128 && s[1] < 128
    ensures s[0] % 8 == 0 ==> Skip(s) == Ok(2)
    ensures s[0] % 8 == 1 ==> Skip(s) == Ok(9)
    ensures s[0] % 8 == 2 ==> Skip(s) == Ok(2 + s[1])
    ensures s[0] % 8 == 3 && s[1] % 8 == 4 ==> Skip(s) == Ok(2)
    ensures s[0] % 8 == 4 ==> Skip(s) == Err(UnexpectedEndOfGroup)
    ensures s[0] % 8 == 5 ==> Skip(s) == Ok(5)
    ensures s[0] % 8 >= 6 ==> Skip(s) == Err(IllegalWireType)
  {
    OneByte(s, 0);
    OneByte(s, 1);
    hide ReadVarint;
    if s[0] % 8 == 3 && s[1] % 8 == 4 {
      assert ReadMark(s, 0) == Ok((Open, 1)) && ReadMark(s, 1) == Ok((Close, 2));
      assert SkipFrom(s, 0, 0) == SkipFrom(s, 1, 1);
    }
  }

  lemma OneByte(s: seq<byte>, i: nat)
    requires i < |s| && s[i] < 128
    ensures ReadVarint(s, i) == Ok((s[i], i + 1))
  {
    assert s[i..i + 1] == [s[i]] && [s[i]][1..] == [];
    assert Payload([s[i]]) == s[i];
  }

  /** A length is refused exactly when it does not fit a signed number, or its end does not. */
  lemma LengthRefused(s: Slice, i: nat)
    requires ReadVarint(s, i).Ok?
    ensures var (v, j) := ReadVarint(s, i).value;
            ReadLength(s, i) == if j + v < TWO_63 then Ok((j, j + v)) else Err(InvalidLength)
  {
    hide ReadVarint;
    Signed(ReadVarint(s, i).value.0);
  }

  /** A success that stays inside the bytes has consumed exactly one well-formed field, groups balanced. */
  lemma SkipIsField(s: Slice) returns (f: Field)
    requires Skip(s).Ok? && Skip(s).value <= |s|
    ensures WellFormed(f) && Bytes(f) == s[..Skip(s).value]
  {
    hide ReadVarint, VarintEnd, Payload, IsVarint;
    var n := Skip(s).value;
    var (mark, j) := ReadMark(s, 0).value;
    if mark.Plain? {
      f := PlainField(s, 0);
    } else {
      MarkTag(s, 0);
      var c := SkipCloses(s, j, 1);
      f := Group(s[..j], c.fields, c.end);
      assert ClosingBytes(c) == AllBytes(c.fields) + c.end + [];
      assert s[..n] == s[..j] + s[j..n];
    }
  }

  /** The loop refines the grammar: it skips n bytes exactly when they are one well-formed field. */
  lemma SkipRefinesGrammar(s: Slice, n: nat)
    requires n <= |s|
    ensures Skip(s) == Ok(n) <==> exists f :: WellFormed(f) && Bytes(f) == s[..n]
  {
    if Skip(s) == Ok(n) {
      var f := SkipIsField(s);
    }
    forall f | WellFormed(f) && Bytes(f) == s[..n]
      ensures Skip(s) == Ok(n)
    {
      SkipsField(s, 0, 0, f);
    }
  }

  // ---------------------------------------------------------------------------
  // Bytes have one parse, and whether its groups match
  // ---------------------------------------------------------------------------

  /** A varint ends where its first byte below 128 is. */
  lemma OneVarint(a: seq<byte>, x: seq<byte>, b: seq<byte>, y: seq<byte>)
    requires IsVarint(a) && IsVarint(b) && a + x == b + y
    ensures a == b && x == y
  {
    hide ReadVarint, VarintEnd, Payload, IsVarint;
    var s := a + x;
    assert s[0..|a|] == a && s[0..|b|] == b;
    ReadVarintExact(s, 0, |a|);
    ReadVarintExact(s, 0, |b|);
    assert x == s[|a|..] && y == s[|b|..];
  }

  lemma OneSplit(a: seq<byte>, x: seq<byte>, b: seq<byte>, y: seq<byte>)
    requires |a| == |b| && a + x == b + y
    ensures a == b && x == y
  {
    assert a == (a + x)[..|a|] && x == (a + x)[|a|..];
  }

  /** The tag comes first. */
  function AfterTag(f: Field): seq<byte> {
    match f
    case Number(_, number) => number
    case Fixed64(_, body) => body
    case Delimited(_, length, body) => length + body
    case Group(_, fields, end) => AllBytes(fields) + end
    case Fixed32(_, body) => body
  }

  function WireType(f: Field): nat {
    match f
    case Number(_, _) => 0
    case Fixed64(_, _) => 1
    case Delimited(_, _, _) => 2
    case Group(_, _, _) => 3
    case Fixed32(_, _) => 5
  }

  lemma TagFirst(f: Field, x: seq<byte>)
    requires WellFormed(f)
    ensures Bytes(f) + x == f.tag + (AfterTag(f) + x) && IsTag(f.tag, WireType(f))
  {
    hide IsTag;
    match f
    case Number(_, number) => Associate(f.tag, number, x);
    case Fixed64(_, body) => Associate(f.tag, body, x);
    case Delimited(_, length, body) =>
      Associate(f.tag, length, body);
      Associate(f.tag, length + body, x);
    case Group(_, fields, end) =>
      Associate(f.tag, AllBytes(fields), end);
      Associate(f.tag, AllBytes(fields) + end, x);
    case Fixed32(_, body) => Associate(f.tag, body, x);
  }

  /** Two fields in front of the same bytes begin with the same tag. */
  lemma SameTag(f: Field, x: seq<byte>, g: Field, y: seq<byte>)
    requires WellFormed(f) && WellFormed(g) && Bytes(f) + x == Bytes(g) + y
    ensures f.tag == g.tag && WireType(f) == WireType(g) && AfterTag(f) + x == AfterTag(g) + y
  {
    hide WellFormed, Bytes, AfterTag, Payload;
    TagFirst(f, x);
    TagFirst(g, y);
    OneVarint(f.tag, AfterTag(f) + x, g.tag, AfterTag(g) + y);
  }

  /** No two fields begin in the same place. */
  lemma {:induction false} OneParse(f: Field, x: seq<byte>, g: Field, y: seq<byte>)
    requires WellFormed(f) && WellFormed(g) && Bytes(f) + x == Bytes(g) + y
    ensures f == g && x == y
    decreases f
  {
    hide IsVarint, IsTag, Payload, Bytes;
    SameTag(f, x, g, y);
    match f
    case Number(_, number) => OneVarint(number, x, g.number, y);
    case Fixed64(_, body) => OneSplit(body, x, g.body, y);
    case Fixed32(_, body) => OneSplit(body, x, g.body, y);
    case Delimited(_, length, body) =>
      Associate(length, body, x);
      Associate(g.length, g.body, y);
      OneVarint(length, body + x, g.length, g.body + y);
      OneSplit(body, x, g.body, y);
    case Group(_, fields, end) =>
      Associate(AllBytes(fields), end, x);
      Associate(AllBytes(g.fields), g.end, y);
      OneParseAll(fields, end, x, g.fields, g.end, y);
  }

  /** Fields up to an end tag: no field begins with one. */
  lemma {:induction false} OneParseAll(
    fs: Fields, end: seq<byte>, x: seq<byte>, gs: Fields, end': seq<byte>, y: seq<byte>)
    requires AllWellFormed(fs) && AllWellFormed(gs) && IsTag(end, 4) && IsTag(end', 4)
    requires AllBytes(fs) + (end + x) == AllBytes(gs) + (end' + y)
    ensures fs == gs && end == end' && x == y
    decreases fs
  {
    hide WellFormed, Bytes;
    match (fs, gs)
    case (NoMore, NoMore) =>
      assert AllBytes(fs) + (end + x) == end + x && AllBytes(gs) + (end' + y) == end' + y;
      OneVarint(end, x, end', y);
    case (More(f, rest), More(g, rest')) =>
      hide IsTag;
      Associate(Bytes(f), AllBytes(rest), end + x);
      Associate(Bytes(g), AllBytes(rest'), end' + y);
      OneParse(f, AllBytes(rest) + (end + x), g, AllBytes(rest') + (end' + y));
      OneParseAll(rest, end, x, rest', end', y);
    case (NoMore, More(g, rest')) =>
      assert AllBytes(fs) + (end + x) == end + x;
      Associate(Bytes(g), AllBytes(rest'), end' + y);
      TagFirst(g, AllBytes(rest') + (end' + y));
      OneVarint(end, x, g.tag, AfterTag(g) + (AllBytes(rest') + (end' + y)));
    case (More(f, rest), NoMore) =>
      assert AllBytes(gs) + (end' + y) == end' + y;
      Associate(Bytes(f), AllBytes(rest), end + x);
      TagFirst(f, AllBytes(rest) + (end + x));
      OneVarint(f.tag, AfterTag(f) + (AllBytes(rest) + (end + x)), end', y);
  }

  /** Section "Groups": the end tag of a group carries the number of its start tag. */
  predicate Matched(f: Field) {
    f.Group? ==> Payload(f.tag) / 8 == Payload(f.end) / 8 && AllMatched(f.fields)
  }

  predicate AllMatched(fs: Fields) {
    fs.More? ==> Matched(fs.head) && AllMatched(fs.tail)
  }

  /** What the loop skips has one parse, and the section allows it exactly when the groups of this parse match. */
  lemma SkippedIsAllowed(s: Slice, n: nat, f: Field)
    requires n <= |s| && WellFormed(f) && Bytes(f) == s[..n]
    ensures Skip(s) == Ok(n)
    ensures (exists g :: WellFormed(g) && Matched(g) && Bytes(g) == s[..n]) <==> Matched(f)
  {
    hide Skip, WellFormed, Bytes, Matched;
    SkipRefinesGrammar(s, n);
    if g :| WellFormed(g) && Matched(g) && Bytes(g) == s[..n] {
      OneParse(f, [], g, []);
    }
  }

  /** Section "Groups" wants the end tag to carry the number of the start tag; the loop takes any other. */
  lemma EndTagNotMatched()
    ensures Skip([0x0b, 0x14]) == Ok(2)
  {
    var f := Group([0x0b], NoMore, [0x14]);
    assert WellFormed(f) && Bytes(f) == [0x0b, 0x14];
    SkipsField([0x0b, 0x14], 0, 0, f);
  }
}
