/** ProtocolConfig of pkg/storage/config, whose two durations are in the hands of a library's codec. */
module ConfigCodec {
  import opened Options
  import opened Varints
  import opened Skipping
  import opened Decoding
  import opened Codec
  import opened Meanings
  import opened WireForms

  /** time.Duration: nanoseconds in 64 bits. */
  type Duration = x: int | -TWO_63 <= x < TWO_63

  /** StdDurationMarshalTo and StdDurationUnmarshal. */
  datatype Durations = Durations(marshal: Duration -> Slice, unmarshal: Slice -> Result<Duration>)

  /** What is asked of the library. */
  ghost predicate Faithful(d: Durations) {
    forall x: Duration :: d.unmarshal(d.marshal(x)) == Ok(x)
  }

  datatype ProtocolConfig = ProtocolConfig(
    heartbeatPeriod: Option<Duration>, electionTimeout: Option<Duration>,
    snapshotEntryThreshold: uint64, compactionRetainEntries: uint64)

  const NO_CONFIG := ProtocolConfig(None, None, 0, 0)

  function ConfigKind(num: int): Kind {
    if num == 1 || num == 2 then Chunk else if num == 3 || num == 4 then Scalar else Unknown
  }

  function PutConfig(d: Durations, m: ProtocolConfig, token: Token): Result<ProtocolConfig> {
    match token
    case Blob(1, bytes) =>
      var x :- d.unmarshal(bytes);
      Ok(m.(heartbeatPeriod := Some(x)))
    case Blob(2, bytes) =>
      var x :- d.unmarshal(bytes);
      Ok(m.(electionTimeout := Some(x)))
    case Num(3, v) => Ok(m.(snapshotEntryThreshold := v))
    case Num(4, v) => Ok(m.(compactionRetainEntries := v))
    case _ => Ok(m)
  }

  function Put(d: Durations): (ProtocolConfig, Token) -> Result<ProtocolConfig> {
    (m: ProtocolConfig, token: Token) => PutConfig(d, m, token)
  }

  function DecodeConfig(d: Durations, m: ProtocolConfig, s: Slice): Result<ProtocolConfig> {
    Decode(ConfigKind, Put(d), m, s, 0)
  }

  /** A duration field, unless the pointer is nil. */
  function DurationField(d: Durations, num: nat, x: Option<Duration>): seq<byte>
    requires 1 <= num <= 15
  {
    match x case None => [] case Some(v) => ChunkField(num, d.marshal(v))
  }

  function EncodeConfig(d: Durations, m: ProtocolConfig): seq<byte> {
    DurationField(d, 1, m.heartbeatPeriod) + DurationField(d, 2, m.electionTimeout) +
    NumberField(3, m.snapshotEntryThreshold) + NumberField(4, m.compactionRetainEntries)
  }

  function MergeConfig(m: ProtocolConfig, e: ProtocolConfig): ProtocolConfig {
    ProtocolConfig(
      if e.heartbeatPeriod.None? then m.heartbeatPeriod else e.heartbeatPeriod,
      if e.electionTimeout.None? then m.electionTimeout else e.electionTimeout,
      if e.snapshotEntryThreshold == 0 then m.snapshotEntryThreshold else e.snapshotEntryThreshold,
      if e.compactionRetainEntries == 0 then m.compactionRetainEntries else e.compactionRetainEntries)
  }

  lemma DecodeDuration(d: Durations, m: ProtocolConfig, num: nat, x: Option<Duration>)
    requires Faithful(d) && 1 <= num <= 2 && |DurationField(d, num, x)| < TWO_63
    ensures DecodeConfig(d, m, DurationField(d, num, x)) ==
              Ok(if x.None? then m else if num == 1 then m.(heartbeatPeriod := x) else m.(electionTimeout := x))
  {
    if x.Some? {
      hide Decode, ChunkField;
      DecodeChunk(ConfigKind, Put(d), m, num, d.marshal(x.value));
    }
  }

  lemma ConfigMerges(d: Durations, m: ProtocolConfig, e: ProtocolConfig)
    requires Faithful(d) && |EncodeConfig(d, e)| < TWO_63
    ensures DecodeConfig(d, m, EncodeConfig(d, e)) == Ok(MergeConfig(m, e))
  {
    hide Decode, NumberField, DurationField, Faithful;
    var f1: Slice := DurationField(d, 1, e.heartbeatPeriod);
    var f2: Slice := DurationField(d, 2, e.electionTimeout);
    var f3: Slice := NumberField(3, e.snapshotEntryThreshold);
    var f4: Slice := NumberField(4, e.compactionRetainEntries);
    DecodeDuration(d, m, 1, e.heartbeatPeriod);
    var m1 := DecodeConfig(d, m, f1).value;
    DecodeDuration(d, m1, 2, e.electionTimeout);
    DecodeJoined(ConfigKind, Put(d), m, f1, f2);
    var m2 := DecodeConfig(d, m1, f2).value;
    DecodeNumber(ConfigKind, Put(d), m2, 3, e.snapshotEntryThreshold);
    DecodeJoined(ConfigKind, Put(d), m, f1 + f2, f3);
    var m3 := DecodeConfig(d, m2, f3).value;
    DecodeNumber(ConfigKind, Put(d), m3, 4, e.compactionRetainEntries);
    DecodeJoined(ConfigKind, Put(d), m, f1 + f2 + f3, f4);
  }

  // ---------------------------------------------------------------------------
  // Field by field
  // ---------------------------------------------------------------------------

  /** A duration that a body holds. */
  function DurationIn(d: Durations, bytes: seq<byte>): Option<Duration> {
    if |bytes| < TWO_63 && d.unmarshal(bytes).Ok? then Some(d.unmarshal(bytes).value) else None
  }

  /** On all bytes that decode, and for any codec of durations: the last field of each number counts. */
  lemma ConfigDecoded(d: Durations, m: ProtocolConfig, s: Slice) returns (fs: Fields)
    requires DecodeConfig(d, m, s).Ok?
    ensures Parses(fs, s) && Fits({3, 4}, {1, 2}, fs)
    ensures var e := DecodeConfig(d, m, s).value;
            && e.heartbeatPeriod == (match LastBody(1, fs)
                                    case None => m.heartbeatPeriod
                                    case Some(b) => DurationIn(d, b))
            && e.electionTimeout == (match LastBody(2, fs)
                                    case None => m.electionTimeout
                                    case Some(b) => DurationIn(d, b))
            && e.snapshotEntryThreshold == Else(LastNumber(3, fs), m.snapshotEntryThreshold)
            && e.compactionRetainEntries == Else(LastNumber(4, fs), m.compactionRetainEntries)
  {
    hide Decode, Meaning, Fits, LastNumber, LastBody, AllWellFormed, AllBytes;
    fs := ParseOf(ConfigKind, Put(d), m, s);
    MeaningFits(ConfigKind, Put(d), {3, 4}, {1, 2}, m, fs);
    BodyWins(ConfigKind, Put(d), (x: ProtocolConfig) => x.heartbeatPeriod, 1, b => DurationIn(d, b), m, fs);
    BodyWins(ConfigKind, Put(d), (x: ProtocolConfig) => x.electionTimeout, 2, b => DurationIn(d, b), m, fs);
    NumberWins(ConfigKind, Put(d), (x: ProtocolConfig) => x.snapshotEntryThreshold, 3, v => v, m, fs);
    NumberWins(ConfigKind, Put(d), (x: ProtocolConfig) => x.compactionRetainEntries, 4, v => v, m, fs);
  }

  /** A duration in front of the fields behind it; nil is left out, and zero is not. */
  lemma DurationWritten(d: Durations, num: nat, x: Option<Duration>, rest: Fields) returns (fs: Fields)
    requires 1 <= num <= 15 && Tidy(rest) && Above(num, rest)
    ensures Before(num, fs, rest) && AllBytes(fs) == DurationField(d, num, x) + AllBytes(rest)
    ensures LastBody(num, fs) == match x case None => None case Some(v) => Some(d.marshal(v))
    ensures LastNumber(num, fs) == None
    ensures Numbers(fs) == (if x.None? then {} else {num}) + Numbers(rest)
  {
    hide Tidy, Above, LastNumber, LastBody, ChunkField;
    fs := rest;
    if x.None? {
      Untouched(num, rest);
    } else {
      ChunkWritten(num, d.marshal(x.value), rest);
      fs := WithChunk(num, d.marshal(x.value), rest);
    }
  }

  lemma ConfigSpelt(d: Durations, e: ProtocolConfig) returns (fs: Fields)
    ensures Spells(fs, EncodeConfig(d, e), {1, 2, 3, 4})
    ensures LastBody(1, fs) == match e.heartbeatPeriod case None => None case Some(x) => Some(d.marshal(x))
    ensures LastBody(2, fs) == match e.electionTimeout case None => None case Some(x) => Some(d.marshal(x))
    ensures LastNumber(3, fs) == NonZero(e.snapshotEntryThreshold)
    ensures LastNumber(4, fs) == NonZero(e.compactionRetainEntries)
  {
    hide NumberField, DurationField, Tidy, Above, LastNumber, LastBody, WithNumber;
    NothingWritten();
    NumberWritten(4, e.compactionRetainEntries, NoMore);
    fs := WithNumber(4, e.compactionRetainEntries, NoMore);
    NumberWritten(3, e.snapshotEntryThreshold, fs);
    fs := WithNumber(3, e.snapshotEntryThreshold, fs);
    fs := DurationWritten(d, 2, e.electionTimeout, fs);
    fs := DurationWritten(d, 1, e.heartbeatPeriod, fs);
    var (f1, f2) := (DurationField(d, 1, e.heartbeatPeriod), DurationField(d, 2, e.electionTimeout));
    var (f3, f4) := (NumberField(3, e.snapshotEntryThreshold), NumberField(4, e.compactionRetainEntries));
    Associate(f1, f2, f3 + f4);
    Associate(f1 + f2, f3, f4);
    assert AllBytes(fs) == f1 + (f2 + (f3 + (f4 + [])));
    TidyIsWellFormed(fs);
  }

  /** Whatever the durations' codec, if it is faithful so is that of the configuration. */
  lemma ConfigRoundTrip(d: Durations, e: ProtocolConfig)
    requires Faithful(d) && |EncodeConfig(d, e)| < TWO_63
    ensures DecodeConfig(d, NO_CONFIG, EncodeConfig(d, e)) == Ok(e)
  {
    ConfigMerges(d, NO_CONFIG, e);
  }

  // ---------------------------------------------------------------------------
  // A faithful codec
  // ---------------------------------------------------------------------------

  const SECOND := 1_000_000_000

  /** The well-known message google.protobuf.Duration: an int64 of seconds and an int32 of nanoseconds. */
  datatype Parts = Parts(seconds: int, nanos: int)

  function PartsKind(num: int): Kind { if num == 1 || num == 2 then Scalar else Unknown }

  function PutParts(m: Parts, token: Token): Result<Parts> {
    match token
    case Num(1, v) => Ok(m.(seconds := Int64(v)))
    case Num(2, v) => Ok(m.(nanos := Int32(v)))
    case _ => Ok(m)
  }

  /** Seconds and nanoseconds of one sign: Go's division truncates. */
  function Split(x: Duration): Parts {
    var n: int := x;
    if n >= 0 then Parts(n / SECOND, n % SECOND) else Parts(-(-n / SECOND), -(-n % SECOND))
  }

  function Join(m: Parts): Result<Duration> {
    var x := m.seconds * SECOND + m.nanos;
    if -TWO_63 <= x < TWO_63 then Ok(x) else Err(IntOverflow)
  }

  /** A negative number is written as the 64-bit one it wraps around to. */
  function Wrapped(x: int): uint64 { x % TWO_64 }

  function MarshalDuration(x: Duration): (bytes: seq<byte>) {
    NumberField(1, Wrapped(Split(x).seconds)) + NumberField(2, Wrapped(Split(x).nanos))
  }

  lemma DurationFits(x: Duration)
    ensures |MarshalDuration(x)| <= 22
  {
    SovIsLength(Wrapped(Split(x).seconds));
    SovIsLength(Wrapped(Split(x).nanos));
    SovBounds(Wrapped(Split(x).seconds));
    SovBounds(Wrapped(Split(x).nanos));
  }

  function MarshalSlice(x: Duration): Slice {
    DurationFits(x);
    MarshalDuration(x)
  }

  function UnmarshalDuration(s: Slice): Result<Duration> {
    var m :- Decode(PartsKind, PutParts, Parts(0, 0), s, 0);
    Join(m)
  }

  const WELL_KNOWN := Durations(MarshalSlice, UnmarshalDuration)

  lemma Unwraps(x: int)
    ensures -TWO_63 <= x < TWO_63 ==> Int64(Wrapped(x)) == x
    ensures -0x8000_0000 <= x < 0x8000_0000 ==> Int32(Wrapped(x)) == x
  {}

  lemma SplitJoins(x: Duration)
    ensures Join(Split(x)) == Ok(x)
    ensures -TWO_63 <= Split(x).seconds < TWO_63 && -SECOND < Split(x).nanos < SECOND
  {}

  lemma DurationRoundTrip(x: Duration)
    ensures UnmarshalDuration(MarshalSlice(x)) == Ok(x)
  {
    hide Decode, NumberField, Split, Wrapped, Join, Int64, Int32;
    var (parts, zero) := (Split(x), Parts(0, 0));
    SplitJoins(x);
    Unwraps(parts.seconds);
    Unwraps(parts.nanos);
    WrapsZero(parts.seconds);
    WrapsZero(parts.nanos);
    DurationFits(x);
    var f1: Slice := NumberField(1, Wrapped(parts.seconds));
    var f2: Slice := NumberField(2, Wrapped(parts.nanos));
    DecodeNumber(PartsKind, PutParts, zero, 1, Wrapped(parts.seconds));
    DecodeNumber(PartsKind, PutParts, zero.(seconds := parts.seconds), 2, Wrapped(parts.nanos));
    DecodeJoined(PartsKind, PutParts, zero, f1, f2);
  }

  lemma WrapsZero(x: int)
    requires -TWO_63 <= x < TWO_63
    ensures Wrapped(x) == 0 <==> x == 0
  {}

  /** There is a faithful codec: the hypothesis of the round trip is one that can be met. */
  lemma WellKnownIsFaithful()
    ensures Faithful(WELL_KNOWN)
  {
    forall x: Duration
      ensures WELL_KNOWN.unmarshal(WELL_KNOWN.marshal(x)) == Ok(x)
    {
      DurationRoundTrip(x);
    }
  }

  /** With it, the round trip of a configuration is without a hypothesis on the library. */
  lemma WellKnownRoundTrip(e: ProtocolConfig)
    ensures |EncodeConfig(WELL_KNOWN, e)| < TWO_63
    ensures DecodeConfig(WELL_KNOWN, NO_CONFIG, EncodeConfig(WELL_KNOWN, e)) == Ok(e)
  {
    WellKnownIsFaithful();
    ConfigFits(e);
    hide Faithful, EncodeConfig, DecodeConfig;
    ConfigRoundTrip(WELL_KNOWN, e);
  }

  lemma ConfigFits(e: ProtocolConfig)
    ensures |EncodeConfig(WELL_KNOWN, e)| < TWO_63
  {
    hide MarshalDuration, Varint, Sov;
    DurationFieldFits(1, e.heartbeatPeriod);
    DurationFieldFits(2, e.electionTimeout);
    SovIsLength(e.snapshotEntryThreshold);
    SovIsLength(e.compactionRetainEntries);
    SovBounds(e.snapshotEntryThreshold);
    SovBounds(e.compactionRetainEntries);
  }

  lemma DurationFieldFits(num: nat, x: Option<Duration>)
    requires 1 <= num <= 15
    ensures |DurationField(WELL_KNOWN, num, x)| <= 33
  {
    hide MarshalDuration, Varint, Sov;
    if x.Some? {
      DurationFits(x.value);
      SovIsLength(|MarshalSlice(x.value)|);
      SovBounds(|MarshalSlice(x.value)|);
    }
  }

  // ---------------------------------------------------------------------------
  // The object
  // ---------------------------------------------------------------------------

  /** A duration field, unless the pointer is nil: the library's bytes, then their length and a tag in front. */
  method PutDurationField(dAtA: array<byte>, end: nat, d: Durations, num: nat, x: Option<Duration>) returns (i: nat)
    requires 1 <= num <= 15 && |DurationField(d, num, x)| <= end <= dAtA.Length
    modifies dAtA
    ensures i == end - |DurationField(d, num, x)| && Filled(dAtA, i, end, DurationField(d, num, x))
  {
    hide Varint;
    i := end;
    if x.Some? {
      var bytes := d.marshal(x.value);
      i := i - |bytes|;
      forall k | 0 <= k < |bytes| { dAtA[i + k] := bytes[k]; }
      i := PutHeader(dAtA, i, num, |bytes|, bytes, old(dAtA[end..]));
    }
  }

  class ProtocolConfigMessage {
    const durations: Durations
    var heartbeatPeriod: Option<Duration>
    var electionTimeout: Option<Duration>
    var snapshotEntryThreshold: uint64
    var compactionRetainEntries: uint64

    function View(): ProtocolConfig
      reads this
    {
      ProtocolConfig(heartbeatPeriod, electionTimeout, snapshotEntryThreshold, compactionRetainEntries)
    }

    constructor (durations: Durations)
      ensures this.durations == durations && View() == NO_CONFIG
    {
      this.durations := durations;
      heartbeatPeriod, electionTimeout, snapshotEntryThreshold, compactionRetainEntries := None, None, 0, 0;
    }

    method MarshalToSizedBuffer(dAtA: array<byte>, end: nat) returns (n: nat)
      requires |EncodeConfig(durations, View())| <= end <= dAtA.Length < TWO_63
      modifies dAtA
      ensures n == |EncodeConfig(durations, View())| && Filled(dAtA, end - n, end, EncodeConfig(durations, View()))
    {
      hide NumberField, DurationField;
      ghost var f1 := DurationField(durations, 1, heartbeatPeriod);
      ghost var f2 := DurationField(durations, 2, electionTimeout);
      ghost var (f3, f4) := (NumberField(3, snapshotEntryThreshold), NumberField(4, compactionRetainEntries));
      ghost var rest := dAtA[end..];
      var i := PutNumberField(dAtA, end, 4, compactionRetainEntries);
      i := PutNumberField(dAtA, i, 3, snapshotEntryThreshold);
      Stack(f3, f4, rest);
      assert dAtA[i..] == f3 + f4 + rest;
      i := PutDurationField(dAtA, i, durations, 2, electionTimeout);
      Stack(f2, f3 + f4, rest);
      assert dAtA[i..] == f2 + (f3 + f4) + rest;
      i := PutDurationField(dAtA, i, durations, 1, heartbeatPeriod);
      Stack(f1, f2 + (f3 + f4), rest);
      assert dAtA[i..] == f1 + (f2 + (f3 + f4)) + rest;
      Associate(f1, f2, f3 + f4);
      Associate(f1 + f2, f3, f4);
      n := end - i;
    }

    method Unmarshal(dAtA: Slice) returns (err: Option<Error>)
      modifies this
      ensures match DecodeConfig(durations, old(View()), dAtA)
              case Ok(m) => err.None? && View() == m
              case Err(e) => err == Some(e)
    {
      hide NextField;
      var iNdEx := 0;
      while iNdEx < |dAtA|
        invariant iNdEx <= |dAtA|
        invariant DecodeConfig(durations, old(View()), dAtA) == Decode(ConfigKind, Put(durations), View(), dAtA, iNdEx)
        decreases |dAtA| - iNdEx
      {
        var field := ReadField(ConfigKind, dAtA, iNdEx);
        if field.Err? { return Some(field.error); }
        var (token, next) := field.value;
        match token {
          case Blob(1, bytes) =>
            var x := durations.unmarshal(bytes);
            if x.Err? { return Some(x.error); }
            heartbeatPeriod := Some(x.value);
          case Blob(2, bytes) =>
            var x := durations.unmarshal(bytes);
            if x.Err? { return Some(x.error); }
            electionTimeout := Some(x.value);
          case Num(3, v) => snapshotEntryThreshold := v;
          case Num(4, v) => compactionRetainEntries := v;
          case _ =>
        }
        iNdEx := next;
      }
      return None;
    }
  }
}
