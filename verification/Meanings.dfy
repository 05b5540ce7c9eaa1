/** What bytes mean to a message, in the words of the encoding alone: of a scalar the last field counts, and the bodies
    of an embedded message are one message. */
module Meanings {
  import opened Options
  import opened Varints
  import opened Skipping
  import opened Decoding
  import opened Messages

  // ---------------------------------------------------------------------------
  // The fields of a number
  // ---------------------------------------------------------------------------

  /** The value of the last varint field of a number. */
  function LastNumber(num: int, fs: Fields): Option<uint64> {
    match fs
    case NoMore => None
    case More(f, rest) =>
      var later := LastNumber(num, rest);
      if later.Some? then later
      else if f.Number? && FieldNumber(f.tag) == num then Some(Payload(f.number) % TWO_64)
      else None
  }

  /** The body of the last length-prefixed field of a number. */
  function LastBody(num: int, fs: Fields): Option<seq<byte>> {
    match fs
    case NoMore => None
    case More(f, rest) =>
      var later := LastBody(num, rest);
      if later.Some? then later
      else if f.Delimited? && FieldNumber(f.tag) == num then Some(f.body)
      else None
  }

  /** The bodies of all length-prefixed fields of a number, joined. */
  function Bodies(num: int, fs: Fields): seq<byte> {
    match fs
    case NoMore => []
    case More(f, rest) => (if f.Delimited? && FieldNumber(f.tag) == num then f.body else []) + Bodies(num, rest)
  }

  function Else<T>(found: Option<T>, otherwise: T): T { if found.Some? then found.value else otherwise }

  /** The fields fit a message whose varint and length-prefixed fields have these numbers. */
  predicate Fits(scalars: set<int>, chunks: set<int>, fs: Fields) {
    fs.More? ==>
      && FieldNumber(fs.head.tag) > 0
      && (FieldNumber(fs.head.tag) in scalars ==> fs.head.Number?)
      && (FieldNumber(fs.head.tag) in chunks ==> fs.head.Delimited?)
      && Fits(scalars, chunks, fs.tail)
  }

  /** A message's kinds are those of these numbers. */
  ghost predicate Knows(kind: int -> Kind, scalars: set<int>, chunks: set<int>) {
    forall n :: (kind(n).Scalar? <==> n in scalars) && (kind(n).Chunk? <==> n in chunks)
  }

  lemma {:induction false} MeaningFits<M>(
    kind: int -> Kind, put: (M, Token) -> Result<M>, scalars: set<int>, chunks: set<int>, m: M, fs: Fields)
    requires Knows(kind, scalars, chunks) && Meaning(kind, put, m, fs).Ok?
    ensures Fits(scalars, chunks, fs)
  {
    hide FieldNumber;
    if fs.More? {
      var token := TokenOf(kind, fs.head).value;
      MeaningFits(kind, put, scalars, chunks, put(m, token).value, fs.tail);
    }
  }

  /** Each body of an embedded message decodes into what those before it have made. */
  predicate InTurn<N>(num: int, kind: int -> Kind, put: (N, Token) -> Result<N>, n: N, fs: Fields) {
    match fs
    case NoMore => true
    case More(f, rest) =>
      if f.Delimited? && FieldNumber(f.tag) == num then
        |f.body| < TWO_63 && Decode(kind, put, n, f.body, 0).Ok?
        && InTurn(num, kind, put, Decode(kind, put, n, f.body, 0).value, rest)
      else InTurn(num, kind, put, n, rest)
  }

  /** A message whose fields never fail to be set is decoded from all fields that fit. */
  lemma {:induction false} FitsMeans<M>(
    kind: int -> Kind, put: (M, Token) -> Result<M>, scalars: set<int>, chunks: set<int>, m: M, fs: Fields)
    requires Knows(kind, scalars, chunks) && Fits(scalars, chunks, fs) && |AllBytes(fs)| < TWO_63
    requires forall x, token :: put(x, token).Ok?
    ensures Meaning(kind, put, m, fs).Ok?
  {
    hide FieldNumber;
    if fs.More? {
      BodyShort(fs.head);
      var token := TokenOf(kind, fs.head).value;
      FitsMeans(kind, put, scalars, chunks, put(m, token).value, fs.tail);
    }
  }

  /** One that fails only where its embedded message does, from all fields that fit and whose bodies decode in turn. */
  lemma {:induction false} TurnsMean<M(!new), N>(
    kind: int -> Kind, put: (M, Token) -> Result<M>, scalars: set<int>, chunks: set<int>, get: M -> N, num: int,
    subKind: int -> Kind, subPut: (N, Token) -> Result<N>, m: M, fs: Fields)
    requires Knows(kind, scalars, chunks) && num in chunks && num !in scalars
    requires Fits(scalars, chunks, fs) && |AllBytes(fs)| < TWO_63
    requires EmbedsAt(put, get, num, subKind, subPut)
    ensures Meaning(kind, put, m, fs).Ok? <==> InTurn(num, subKind, subPut, get(m), fs)
  {
    hide FieldNumber, Decode;
    if fs.More? {
      BodyShort(fs.head);
      var token := TokenOf(kind, fs.head).value;
      assert token.Blob? && token.num == num <==> fs.head.Delimited? && FieldNumber(fs.head.tag) == num;
      if put(m, token).Ok? {
        TurnsMean(kind, put, scalars, chunks, get, num, subKind, subPut, put(m, token).value, fs.tail);
      }
    }
  }

  /** The switch decodes fields of a number into an embedded message, and does nothing else to it. */
  ghost predicate EmbedsAt<M(!new), N>(
    put: (M, Token) -> Result<M>, get: M -> N, num: int, kind: int -> Kind, sub: (N, Token) -> Result<N>)
  {
    forall x: M, token: Token ::
      if token.Blob? && token.num == num then
        var r := Decode(kind, sub, get(x), token.bytes, 0);
        (put(x, token).Ok? <==> r.Ok?) && (r.Ok? ==> get(put(x, token).value) == r.value)
      else put(x, token).Ok? && get(put(x, token).value) == get(x)
  }

  lemma BodyShort(f: Field)
    ensures f.Delimited? ==> |f.body| <= |Bytes(f)|
  {}

  // ---------------------------------------------------------------------------
  // Last one wins, and embedded messages merge
  // ---------------------------------------------------------------------------

  /** A field of a message that its switch sets from the varint fields of a number. */
  lemma {:induction false} NumberWins<M, V>(
    kind: int -> Kind, put: (M, Token) -> Result<M>, get: M -> V, num: int, convert: uint64 -> V, m: M, fs: Fields)
    requires kind(num).Scalar? && Meaning(kind, put, m, fs).Ok?
    requires forall x, token :: put(x, token).Ok? ==>
               get(put(x, token).value) == if token.Num? && token.num == num then convert(token.v) else get(x)
    ensures get(Meaning(kind, put, m, fs).value) ==
              match LastNumber(num, fs) case None => get(m) case Some(v) => convert(v)
  {
    hide FieldNumber, Payload;
    if fs.More? {
      var token := TokenOf(kind, fs.head).value;
      NumberWins(kind, put, get, num, convert, put(m, token).value, fs.tail);
    }
  }

  /** One that it sets from the length-prefixed fields of a number. */
  lemma {:induction false} BodyWins<M, V>(
    kind: int -> Kind, put: (M, Token) -> Result<M>, get: M -> V, num: int, convert: seq<byte> -> V, m: M, fs: Fields)
    requires kind(num).Chunk? && Meaning(kind, put, m, fs).Ok?
    requires forall x, token :: put(x, token).Ok? ==>
               get(put(x, token).value) == if token.Blob? && token.num == num then convert(token.bytes) else get(x)
    ensures get(Meaning(kind, put, m, fs).value) ==
              match LastBody(num, fs) case None => get(m) case Some(bytes) => convert(bytes)
  {
    hide FieldNumber, Payload;
    if fs.More? {
      var token := TokenOf(kind, fs.head).value;
      BodyWins(kind, put, get, num, convert, put(m, token).value, fs.tail);
    }
  }

  /** One that it decodes from the length-prefixed fields of a number. */
  lemma {:induction false} BodiesMerge<M(!new), N>(
    kind: int -> Kind, put: (M, Token) -> Result<M>, get: M -> N, num: int,
    subKind: int -> Kind, subPut: (N, Token) -> Result<N>, m: M, fs: Fields)
    requires kind(num).Chunk? && Meaning(kind, put, m, fs).Ok? && |AllBytes(fs)| < TWO_63
    requires EmbedsAt(put, get, num, subKind, subPut)
    ensures |Bodies(num, fs)| <= |AllBytes(fs)|
    ensures Decode(subKind, subPut, get(m), Bodies(num, fs), 0) == Ok(get(Meaning(kind, put, m, fs).value))
  {
    hide FieldNumber, Payload, NextField;
    if fs.More? {
      BodyShort(fs.head);
      var token := TokenOf(kind, fs.head).value;
      var m' := put(m, token).value;
      BodiesMerge(kind, put, get, num, subKind, subPut, m', fs.tail);
      if token.Blob? && token.num == num {
        hide Decode;
        DecodeJoined(subKind, subPut, get(m), fs.head.body, Bodies(num, fs.tail));
      } else {
        assert Bodies(num, fs) == Bodies(num, fs.tail);
      }
    }
  }

  /** The parse of bytes that decode. */
  lemma ParseOf<M>(kind: int -> Kind, put: (M, Token) -> Result<M>, m: M, s: Slice) returns (fs: Fields)
    requires Decode(kind, put, m, s, 0).Ok?
    ensures AllWellFormed(fs) && AllBytes(fs) == s
    ensures Meaning(kind, put, m, fs) == Decode(kind, put, m, s, 0)
  {
    hide Decode, Meaning, AllWellFormed, AllBytes;
    DecodeRefinesGrammar(kind, put, m, s, Decode(kind, put, m, s, 0).value);
    fs :| AllWellFormed(fs) && AllBytes(fs) == s && Meaning(kind, put, m, fs) == Decode(kind, put, m, s, 0);
  }

  ghost predicate Parses(fs: Fields, s: seq<byte>) { AllWellFormed(fs) && AllBytes(fs) == s }

  lemma ParseDecodes<M>(kind: int -> Kind, put: (M, Token) -> Result<M>, m: M, s: Slice, fs: Fields)
    requires Parses(fs, s) && Meaning(kind, put, m, fs).Ok?
    ensures Decode(kind, put, m, s, 0) == Meaning(kind, put, m, fs)
  {
    DecodeRefinesGrammar(kind, put, m, s, Meaning(kind, put, m, fs).value);
  }

  // ---------------------------------------------------------------------------
  // The messages
  // ---------------------------------------------------------------------------

  const NO_NUMBERS: set<int> := {}

  /** The last of each scalar. */
  ghost predicate EntryFrom(m: Entry, fs: Fields, e: Entry) {
    && e.value == Else(LastBody(1, fs), m.value)
    && e.streamID == Else(LastNumber(2, fs), m.streamID)
  }

  lemma EntryMeans(m: Entry, fs: Fields)
    requires Meaning(EntryKind, PutEntry, m, fs).Ok?
    ensures Fits({2}, {1}, fs)
    ensures EntryFrom(m, fs, Meaning(EntryKind, PutEntry, m, fs).value)
  {
    hide Meaning, Fits, LastNumber, LastBody, Bodies, AllBytes, Decode;
    MeaningFits(EntryKind, PutEntry, {2}, {1}, m, fs);
    BodyWins(EntryKind, PutEntry, (x: Entry) => x.value, 1,
             bytes => bytes, m, fs);
    NumberWins(EntryKind, PutEntry, (x: Entry) => x.streamID, 2, v => v, m, fs);
  }

  lemma EntryDecoded(m: Entry, s: Slice, e: Entry)
    ensures DecodeEntry(m, s) == Ok(e) <==>
              exists fs :: Parses(fs, s) && Fits({2}, {1}, fs)
                           && EntryFrom(m, fs, e)
  {
    hide Decode, Meaning, Fits, LastNumber, LastBody, Bodies, InTurn, AllWellFormed, AllBytes;
    if DecodeEntry(m, s).Ok? {
      var fs := ParseOf(EntryKind, PutEntry, m, s);
      EntryMeans(m, fs);
      assert Parses(fs, s);
    }
    forall fs | Parses(fs, s) && Fits({2}, {1}, fs)
      ensures DecodeEntry(m, s).Ok?
      ensures EntryFrom(m, fs, DecodeEntry(m, s).value)
    {
      FitsMeans(EntryKind, PutEntry, {2}, {1}, m, fs);
      ParseDecodes(EntryKind, PutEntry, m, s, fs);
      EntryMeans(m, fs);
    }
  }

  /** The last of each scalar. */
  ghost predicate PartitionFrom(m: PartitionEvent, fs: Fields, e: PartitionEvent) {
    && (e.partition == match LastNumber(1, fs) case None => m.partition case Some(v) => v % TWO_32)
  }

  lemma PartitionMeans(m: PartitionEvent, fs: Fields)
    requires Meaning(PartitionKind, PutPartition, m, fs).Ok?
    ensures Fits({1}, NO_NUMBERS, fs)
    ensures PartitionFrom(m, fs, Meaning(PartitionKind, PutPartition, m, fs).value)
  {
    hide Meaning, Fits, LastNumber, LastBody, Bodies, AllBytes, Decode;
    MeaningFits(PartitionKind, PutPartition, {1}, NO_NUMBERS, m, fs);
    NumberWins(PartitionKind, PutPartition, (x: PartitionEvent) => x.partition, 1, (v: uint64) => v % TWO_32, m, fs);
  }

  lemma PartitionDecoded(m: PartitionEvent, s: Slice, e: PartitionEvent)
    ensures DecodePartition(m, s) == Ok(e) <==>
              exists fs :: Parses(fs, s) && Fits({1}, NO_NUMBERS, fs)
                           && PartitionFrom(m, fs, e)
  {
    hide Decode, Meaning, Fits, LastNumber, LastBody, Bodies, InTurn, AllWellFormed, AllBytes;
    if DecodePartition(m, s).Ok? {
      var fs := ParseOf(PartitionKind, PutPartition, m, s);
      PartitionMeans(m, fs);
      assert Parses(fs, s);
    }
    forall fs | Parses(fs, s) && Fits({1}, NO_NUMBERS, fs)
      ensures DecodePartition(m, s).Ok?
      ensures PartitionFrom(m, fs, DecodePartition(m, s).value)
    {
      FitsMeans(PartitionKind, PutPartition, {1}, NO_NUMBERS, m, fs);
      ParseDecodes(PartitionKind, PutPartition, m, s, fs);
      PartitionMeans(m, fs);
    }
  }

  /** The last of each scalar, and the merged bodies of the embedded message. */
  ghost predicate LeaderFrom(m: LeaderEvent, fs: Fields, e: LeaderEvent) {
    && |Bodies(1, fs)| < TWO_63
    && DecodePartition(m.partitionEvent, Bodies(1, fs)) == Ok(e.partitionEvent)
    && e.term == Else(LastNumber(2, fs), m.term)
    && e.leader == Else(LastBody(3, fs), m.leader)
  }

  predicate LeaderTurns(m: LeaderEvent, fs: Fields) {
    InTurn(1, PartitionKind, PutPartition, m.partitionEvent, fs)
  }

  lemma LeaderTaken(m: LeaderEvent, fs: Fields)
    requires Fits({2}, {1, 3}, fs) && |AllBytes(fs)| < TWO_63
    ensures Meaning(LeaderKind, PutLeader, m, fs).Ok? <==> LeaderTurns(m, fs)
  {
    hide Decode;
    TurnsMean(LeaderKind, PutLeader, {2}, {1, 3},
              (x: LeaderEvent) => x.partitionEvent, 1, PartitionKind, PutPartition, m, fs);
  }

  lemma LeaderMeans(m: LeaderEvent, fs: Fields)
    requires Meaning(LeaderKind, PutLeader, m, fs).Ok? && |AllBytes(fs)| < TWO_63
    ensures Fits({2}, {1, 3}, fs)
    ensures LeaderFrom(m, fs, Meaning(LeaderKind, PutLeader, m, fs).value)
  {
    hide Meaning, Fits, LastNumber, LastBody, Bodies, AllBytes, Decode;
    MeaningFits(LeaderKind, PutLeader, {2}, {1, 3}, m, fs);
    BodiesMerge(LeaderKind, PutLeader, (x: LeaderEvent) => x.partitionEvent, 1,
                PartitionKind, PutPartition, m, fs);
    NumberWins(LeaderKind, PutLeader, (x: LeaderEvent) => x.term, 2, v => v, m, fs);
    BodyWins(LeaderKind, PutLeader, (x: LeaderEvent) => x.leader, 3,
             bytes => bytes, m, fs);
  }

  lemma LeaderDecoded(m: LeaderEvent, s: Slice, e: LeaderEvent)
    ensures DecodeLeader(m, s) == Ok(e) <==>
              exists fs :: Parses(fs, s) && Fits({2}, {1, 3}, fs) && LeaderTurns(m, fs)
                           && LeaderFrom(m, fs, e)
  {
    hide Decode, Meaning, Fits, LastNumber, LastBody, Bodies, InTurn, AllWellFormed, AllBytes;
    if DecodeLeader(m, s).Ok? {
      var fs := ParseOf(LeaderKind, PutLeader, m, s);
      LeaderMeans(m, fs);
      LeaderTaken(m, fs);
      assert Parses(fs, s);
    }
    forall fs | Parses(fs, s) && Fits({2}, {1, 3}, fs) && LeaderTurns(m, fs)
      ensures DecodeLeader(m, s).Ok?
      ensures LeaderFrom(m, fs, DecodeLeader(m, s).value)
    {
      LeaderTaken(m, fs);
      ParseDecodes(LeaderKind, PutLeader, m, s, fs);
      LeaderMeans(m, fs);
    }
  }

  /** The last of each scalar, and the merged bodies of the embedded message. */
  ghost predicate LeaderUpdatedFrom(m: LeaderUpdatedEvent, fs: Fields, e: LeaderUpdatedEvent) {
    && |Bodies(1, fs)| < TWO_63
    && DecodeLeader(m.leaderEvent, Bodies(1, fs)) == Ok(e.leaderEvent)
  }

  predicate LeaderUpdatedTurns(m: LeaderUpdatedEvent, fs: Fields) {
    InTurn(1, LeaderKind, PutLeader, m.leaderEvent, fs)
  }

  lemma LeaderUpdatedTaken(m: LeaderUpdatedEvent, fs: Fields)
    requires Fits(NO_NUMBERS, {1}, fs) && |AllBytes(fs)| < TWO_63
    ensures Meaning(LeaderUpdatedKind, PutLeaderUpdated, m, fs).Ok? <==> LeaderUpdatedTurns(m, fs)
  {
    hide Decode;
    TurnsMean(LeaderUpdatedKind, PutLeaderUpdated, NO_NUMBERS, {1},
              (x: LeaderUpdatedEvent) => x.leaderEvent, 1, LeaderKind, PutLeader, m, fs);
  }

  lemma LeaderUpdatedMeans(m: LeaderUpdatedEvent, fs: Fields)
    requires Meaning(LeaderUpdatedKind, PutLeaderUpdated, m, fs).Ok? && |AllBytes(fs)| < TWO_63
    ensures Fits(NO_NUMBERS, {1}, fs)
    ensures LeaderUpdatedFrom(m, fs, Meaning(LeaderUpdatedKind, PutLeaderUpdated, m, fs).value)
  {
    hide Meaning, Fits, LastNumber, LastBody, Bodies, AllBytes, Decode;
    MeaningFits(LeaderUpdatedKind, PutLeaderUpdated, NO_NUMBERS, {1}, m, fs);
    BodiesMerge(LeaderUpdatedKind, PutLeaderUpdated, (x: LeaderUpdatedEvent) => x.leaderEvent, 1,
                LeaderKind, PutLeader, m, fs);
  }

  lemma LeaderUpdatedDecoded(m: LeaderUpdatedEvent, s: Slice, e: LeaderUpdatedEvent)
    ensures DecodeLeaderUpdated(m, s) == Ok(e) <==>
              exists fs :: Parses(fs, s) && Fits(NO_NUMBERS, {1}, fs) && LeaderUpdatedTurns(m, fs)
                           && LeaderUpdatedFrom(m, fs, e)
  {
    hide Decode, Meaning, Fits, LastNumber, LastBody, Bodies, InTurn, AllWellFormed, AllBytes;
    if DecodeLeaderUpdated(m, s).Ok? {
      var fs := ParseOf(LeaderUpdatedKind, PutLeaderUpdated, m, s);
      LeaderUpdatedMeans(m, fs);
      LeaderUpdatedTaken(m, fs);
      assert Parses(fs, s);
    }
    forall fs | Parses(fs, s) && Fits(NO_NUMBERS, {1}, fs) && LeaderUpdatedTurns(m, fs)
      ensures DecodeLeaderUpdated(m, s).Ok?
      ensures LeaderUpdatedFrom(m, fs, DecodeLeaderUpdated(m, s).value)
    {
      LeaderUpdatedTaken(m, fs);
      ParseDecodes(LeaderUpdatedKind, PutLeaderUpdated, m, s, fs);
      LeaderUpdatedMeans(m, fs);
    }
  }

  /** The last of each scalar, and the merged bodies of the embedded message. */
  ghost predicate SnapshotFrom(m: SnapshotEvent, fs: Fields, e: SnapshotEvent) {
    && |Bodies(1, fs)| < TWO_63
    && DecodePartition(m.partitionEvent, Bodies(1, fs)) == Ok(e.partitionEvent)
    && e.index == Else(LastNumber(2, fs), m.index)
  }

  predicate SnapshotTurns(m: SnapshotEvent, fs: Fields) {
    InTurn(1, PartitionKind, PutPartition, m.partitionEvent, fs)
  }

  lemma SnapshotTaken(m: SnapshotEvent, fs: Fields)
    requires Fits({2}, {1}, fs) && |AllBytes(fs)| < TWO_63
    ensures Meaning(SnapshotKind, PutSnapshot, m, fs).Ok? <==> SnapshotTurns(m, fs)
  {
    hide Decode;
    TurnsMean(SnapshotKind, PutSnapshot, {2}, {1},
              (x: SnapshotEvent) => x.partitionEvent, 1, PartitionKind, PutPartition, m, fs);
  }

  lemma SnapshotMeans(m: SnapshotEvent, fs: Fields)
    requires Meaning(SnapshotKind, PutSnapshot, m, fs).Ok? && |AllBytes(fs)| < TWO_63
    ensures Fits({2}, {1}, fs)
    ensures SnapshotFrom(m, fs, Meaning(SnapshotKind, PutSnapshot, m, fs).value)
  {
    hide Meaning, Fits, LastNumber, LastBody, Bodies, AllBytes, Decode;
    MeaningFits(SnapshotKind, PutSnapshot, {2}, {1}, m, fs);
    BodiesMerge(SnapshotKind, PutSnapshot, (x: SnapshotEvent) => x.partitionEvent, 1,
                PartitionKind, PutPartition, m, fs);
    NumberWins(SnapshotKind, PutSnapshot, (x: SnapshotEvent) => x.index, 2, v => v, m, fs);
  }

  lemma SnapshotDecoded(m: SnapshotEvent, s: Slice, e: SnapshotEvent)
    ensures DecodeSnapshot(m, s) == Ok(e) <==>
              exists fs :: Parses(fs, s) && Fits({2}, {1}, fs) && SnapshotTurns(m, fs)
                           && SnapshotFrom(m, fs, e)
  {
    hide Decode, Meaning, Fits, LastNumber, LastBody, Bodies, InTurn, AllWellFormed, AllBytes;
    if DecodeSnapshot(m, s).Ok? {
      var fs := ParseOf(SnapshotKind, PutSnapshot, m, s);
      SnapshotMeans(m, fs);
      SnapshotTaken(m, fs);
      assert Parses(fs, s);
    }
    forall fs | Parses(fs, s) && Fits({2}, {1}, fs) && SnapshotTurns(m, fs)
      ensures DecodeSnapshot(m, s).Ok?
      ensures SnapshotFrom(m, fs, DecodeSnapshot(m, s).value)
    {
      SnapshotTaken(m, fs);
      ParseDecodes(SnapshotKind, PutSnapshot, m, s, fs);
      SnapshotMeans(m, fs);
    }
  }

  /** The last of each scalar, and the merged bodies of the embedded message. */
  ghost predicate SendSnapshotStartedFrom(m: SendSnapshotStartedEvent, fs: Fields, e: SendSnapshotStartedEvent) {
    && |Bodies(1, fs)| < TWO_63
    && DecodeSnapshot(m.snapshotEvent, Bodies(1, fs)) == Ok(e.snapshotEvent)
    && e.to == Else(LastBody(2, fs), m.to)
  }

  predicate SendSnapshotStartedTurns(m: SendSnapshotStartedEvent, fs: Fields) {
    InTurn(1, SnapshotKind, PutSnapshot, m.snapshotEvent, fs)
  }

  lemma SendSnapshotStartedTaken(m: SendSnapshotStartedEvent, fs: Fields)
    requires Fits(NO_NUMBERS, {1, 2}, fs) && |AllBytes(fs)| < TWO_63
    ensures Meaning(SendSnapshotStartedKind, PutSendSnapshotStarted, m, fs).Ok? <==> SendSnapshotStartedTurns(m, fs)
  {
    hide Decode;
    TurnsMean(SendSnapshotStartedKind, PutSendSnapshotStarted, NO_NUMBERS, {1, 2},
              (x: SendSnapshotStartedEvent) => x.snapshotEvent, 1, SnapshotKind, PutSnapshot, m, fs);
  }

  lemma SendSnapshotStartedMeans(m: SendSnapshotStartedEvent, fs: Fields)
    requires Meaning(SendSnapshotStartedKind, PutSendSnapshotStarted, m, fs).Ok? && |AllBytes(fs)| < TWO_63
    ensures Fits(NO_NUMBERS, {1, 2}, fs)
    ensures SendSnapshotStartedFrom(m, fs, Meaning(SendSnapshotStartedKind, PutSendSnapshotStarted, m, fs).value)
  {
    hide Meaning, Fits, LastNumber, LastBody, Bodies, AllBytes, Decode;
    MeaningFits(SendSnapshotStartedKind, PutSendSnapshotStarted, NO_NUMBERS, {1, 2}, m, fs);
    BodiesMerge(SendSnapshotStartedKind, PutSendSnapshotStarted, (x: SendSnapshotStartedEvent) => x.snapshotEvent, 1,
                SnapshotKind, PutSnapshot, m, fs);
    BodyWins(SendSnapshotStartedKind, PutSendSnapshotStarted, (x: SendSnapshotStartedEvent) => x.to, 2,
             bytes => bytes, m, fs);
  }

  lemma SendSnapshotStartedDecoded(m: SendSnapshotStartedEvent, s: Slice, e: SendSnapshotStartedEvent)
    ensures DecodeSendSnapshotStarted(m, s) == Ok(e) <==>
              exists fs :: Parses(fs, s) && Fits(NO_NUMBERS, {1, 2}, fs) && SendSnapshotStartedTurns(m, fs)
                           && SendSnapshotStartedFrom(m, fs, e)
  {
    hide Decode, Meaning, Fits, LastNumber, LastBody, Bodies, InTurn, AllWellFormed, AllBytes;
    if DecodeSendSnapshotStarted(m, s).Ok? {
      var fs := ParseOf(SendSnapshotStartedKind, PutSendSnapshotStarted, m, s);
      SendSnapshotStartedMeans(m, fs);
      SendSnapshotStartedTaken(m, fs);
      assert Parses(fs, s);
    }
    forall fs | Parses(fs, s) && Fits(NO_NUMBERS, {1, 2}, fs) && SendSnapshotStartedTurns(m, fs)
      ensures DecodeSendSnapshotStarted(m, s).Ok?
      ensures SendSnapshotStartedFrom(m, fs, DecodeSendSnapshotStarted(m, s).value)
    {
      SendSnapshotStartedTaken(m, fs);
      ParseDecodes(SendSnapshotStartedKind, PutSendSnapshotStarted, m, s, fs);
      SendSnapshotStartedMeans(m, fs);
    }
  }

  /** The last of each scalar. */
  ghost predicate ConnectionFrom(m: ConnectionEvent, fs: Fields, e: ConnectionEvent) {
    && e.address == Else(LastBody(1, fs), m.address)
    && (e.snapshot == match LastNumber(2, fs) case None => m.snapshot case Some(v) => v != 0)
  }

  lemma ConnectionMeans(m: ConnectionEvent, fs: Fields)
    requires Meaning(ConnectionKind, PutConnection, m, fs).Ok?
    ensures Fits({2}, {1}, fs)
    ensures ConnectionFrom(m, fs, Meaning(ConnectionKind, PutConnection, m, fs).value)
  {
    hide Meaning, Fits, LastNumber, LastBody, Bodies, AllBytes, Decode;
    MeaningFits(ConnectionKind, PutConnection, {2}, {1}, m, fs);
    BodyWins(ConnectionKind, PutConnection, (x: ConnectionEvent) => x.address, 1,
             bytes => bytes, m, fs);
    NumberWins(ConnectionKind, PutConnection, (x: ConnectionEvent) => x.snapshot, 2, (v: uint64) => v != 0, m, fs);
  }

  lemma ConnectionDecoded(m: ConnectionEvent, s: Slice, e: ConnectionEvent)
    ensures DecodeConnection(m, s) == Ok(e) <==>
              exists fs :: Parses(fs, s) && Fits({2}, {1}, fs)
                           && ConnectionFrom(m, fs, e)
  {
    hide Decode, Meaning, Fits, LastNumber, LastBody, Bodies, InTurn, AllWellFormed, AllBytes;
    if DecodeConnection(m, s).Ok? {
      var fs := ParseOf(ConnectionKind, PutConnection, m, s);
      ConnectionMeans(m, fs);
      assert Parses(fs, s);
    }
    forall fs | Parses(fs, s) && Fits({2}, {1}, fs)
      ensures DecodeConnection(m, s).Ok?
      ensures ConnectionFrom(m, fs, DecodeConnection(m, s).value)
    {
      FitsMeans(ConnectionKind, PutConnection, {2}, {1}, m, fs);
      ParseDecodes(ConnectionKind, PutConnection, m, s, fs);
      ConnectionMeans(m, fs);
    }
  }
}
