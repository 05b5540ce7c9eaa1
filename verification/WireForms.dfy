/** What the encoder writes, field by field: the parse of every encoding. */
module WireForms {
  import opened Options
  import opened Varints
  import opened Skipping
  import opened Decoding
  import opened Messages
  import opened Meanings

  // ---------------------------------------------------------------------------
  // Fields in order
  // ---------------------------------------------------------------------------

  /** All field numbers are above n. */
  predicate Above(n: int, fs: Fields) {
    fs.More? ==> FieldNumber(fs.head.tag) > n && Above(n, fs.tail)
  }

  /** Every number and length is written in the shortest way, and tags take one byte. */
  predicate Shortest(f: Field) {
    && |f.tag| == 1
    && (f.Number? ==> f.number == Varint(Payload(f.number)))
    && (f.Delimited? ==> f.length == Varint(|f.body|))
  }

  /** Well-formed fields without groups, in the shortest way, their numbers strictly ascending. */
  predicate Tidy(fs: Fields) {
    fs.More? ==>
      && WellFormed(fs.head) && (fs.head.Number? || fs.head.Delimited?) && Shortest(fs.head)
      && Above(FieldNumber(fs.head.tag), fs.tail)
      && Tidy(fs.tail)
  }

  /** The field numbers there are. */
  function Numbers(fs: Fields): set<int> {
    if fs.NoMore? then {} else {FieldNumber(fs.head.tag)} + Numbers(fs.tail)
  }

  lemma {:induction false} AboveLower(n: int, m: int, fs: Fields)
    requires Above(n, fs) && m <= n
    ensures Above(m, fs)
  {
    hide FieldNumber;
    if fs.More? { AboveLower(n, m, fs.tail); }
  }

  lemma {:induction false} AboveMisses(n: int, fs: Fields)
    requires Above(n, fs)
    ensures LastNumber(n, fs) == None && LastBody(n, fs) == None
  {
    hide FieldNumber, Payload;
    if fs.More? { AboveMisses(n, fs.tail); }
  }

  lemma {:induction false} TidyIsWellFormed(fs: Fields)
    requires Tidy(fs)
    ensures AllWellFormed(fs)
  {
    hide WellFormed, Shortest, Above;
    if fs.More? { TidyIsWellFormed(fs.tail); }
  }

  // ---------------------------------------------------------------------------
  // One field in front
  // ---------------------------------------------------------------------------

  /** What an encoder has when it leaves a zero out. */
  function NonZero(v: uint64): Option<uint64> { if v == 0 then None else Some(v) }
  function NonEmpty(bytes: seq<byte>): Option<seq<byte>> { if bytes == [] then None else Some(bytes) }

  function WithNumber(num: nat, v: uint64, rest: Fields): Fields
    requires 1 <= num <= 15
  {
    if v == 0 then rest else More(Number([8 * num], Varint(v)), rest)
  }

  function WithChunk(num: nat, bytes: seq<byte>, rest: Fields): Fields
    requires 1 <= num <= 15
  {
    More(Delimited([8 * num + 2], Varint(|bytes|), bytes), rest)
  }

  function WithBytes(num: nat, bytes: seq<byte>, rest: Fields): Fields
    requires 1 <= num <= 15
  {
    if bytes == [] then rest else WithChunk(num, bytes, rest)
  }

  lemma SmallTag(num: nat, wireType: nat)
    requires 1 <= num <= 15 && wireType < 8
    ensures IsTag([8 * num + wireType], wireType) && FieldNumber([8 * num + wireType]) == num
  {
    var tag: seq<byte> := [8 * num + wireType];
    assert tag[1..] == [] && Payload(tag) == 8 * num + wireType;
    hide Payload;
    assert Payload(tag) / 8 == num && Payload(tag) % 8 == wireType;
    NumberKept(tag);
  }

  /** What a field in front does to the list. */
  ghost predicate Before(num: int, fs: Fields, rest: Fields) {
    && Tidy(fs) && Above(num - 1, fs)
    && (forall k :: k != num ==> LastNumber(k, fs) == LastNumber(k, rest) && LastBody(k, fs) == LastBody(k, rest))
  }

  /** A field is put in front of fields of higher numbers. */
  lemma InFront(num: nat, f: Field, rest: Fields)
    requires WellFormed(f) && Shortest(f) && (f.Number? || f.Delimited?) && FieldNumber(f.tag) == num
    requires Tidy(rest) && Above(num, rest)
    ensures Before(num, More(f, rest), rest)
    ensures Numbers(More(f, rest)) == {num} + Numbers(rest)
    ensures LastNumber(num, More(f, rest)) == if f.Number? then Some(Payload(f.number) % TWO_64) else None
    ensures LastBody(num, More(f, rest)) == if f.Delimited? then Some(f.body) else None
  {
    hide WellFormed, Shortest, Payload, FieldNumber;
    AboveMisses(num, rest);
    AboveLower(num, num - 1, rest);
  }

  lemma NumberWritten(num: nat, v: uint64, rest: Fields)
    requires 1 <= num <= 15 && Tidy(rest) && Above(num, rest)
    ensures var fs := WithNumber(num, v, rest);
            && Before(num, fs, rest) && AllBytes(fs) == NumberField(num, v) + AllBytes(rest)
            && LastNumber(num, fs) == NonZero(v) && LastBody(num, fs) == None
            && Numbers(fs) == (if v == 0 then {} else {num}) + Numbers(rest)
  {
    hide Varint, Payload, IsVarint, FieldNumber, IsTag, Tidy, Above, LastNumber, LastBody;
    if v == 0 {
      Untouched(num, rest);
    } else {
      SmallTag(num, 0);
      CanonicalIsVarint(v);
      VarintPayload(v);
      InFront(num, Number([8 * num], Varint(v)), rest);
    }
  }

  lemma Untouched(num: nat, rest: Fields)
    requires Tidy(rest) && Above(num, rest)
    ensures Before(num, rest, rest) && LastNumber(num, rest) == None && LastBody(num, rest) == None
  {
    AboveMisses(num, rest);
    AboveLower(num, num - 1, rest);
  }

  lemma ChunkWritten(num: nat, bytes: seq<byte>, rest: Fields)
    requires 1 <= num <= 15 && Tidy(rest) && Above(num, rest) && |bytes| < TWO_63
    ensures var fs := WithChunk(num, bytes, rest);
            && Before(num, fs, rest) && AllBytes(fs) == ChunkField(num, bytes) + AllBytes(rest)
            && LastBody(num, fs) == Some(bytes) && LastNumber(num, fs) == None
            && Numbers(fs) == {num} + Numbers(rest)
  {
    hide Varint, Payload, IsVarint, FieldNumber, IsTag, Tidy, Above, LastNumber, LastBody;
    SmallTag(num, 2);
    CanonicalIsVarint(|bytes|);
    VarintPayload(|bytes|);
    InFront(num, Delimited([8 * num + 2], Varint(|bytes|), bytes), rest);
  }

  lemma BytesWritten(num: nat, bytes: seq<byte>, rest: Fields)
    requires 1 <= num <= 15 && Tidy(rest) && Above(num, rest) && |bytes| < TWO_63
    ensures var fs := WithBytes(num, bytes, rest);
            && Before(num, fs, rest) && AllBytes(fs) == BytesField(num, bytes) + AllBytes(rest)
            && LastBody(num, fs) == NonEmpty(bytes) && LastNumber(num, fs) == None
            && Numbers(fs) == (if bytes == [] then {} else {num}) + Numbers(rest)
  {
    hide Tidy, Above, LastNumber, LastBody, WithChunk, ChunkField;
    if bytes == [] { Untouched(num, rest); } else { ChunkWritten(num, bytes, rest); }
  }

  /** The encoding of a message with fields in order, whose numbers are among these. */
  ghost predicate Spells(fs: Fields, bytes: seq<byte>, numbers: set<int>) {
    Tidy(fs) && AllWellFormed(fs) && AllBytes(fs) == bytes && Numbers(fs) <= numbers
  }

  // ---------------------------------------------------------------------------
  // The messages
  // ---------------------------------------------------------------------------

  lemma NothingWritten()
    ensures Tidy(NoMore) && AllBytes(NoMore) == [] && Numbers(NoMore) == {}
    ensures forall n :: Above(n, NoMore)
  {}

  lemma EntrySpelt(e: Entry) returns (fs: Fields)
    requires |EncodeEntry(e)| < TWO_63
    ensures Spells(fs, EncodeEntry(e), {1, 2})
    ensures LastBody(1, fs) == NonEmpty(e.value)
    ensures LastNumber(2, fs) == NonZero(e.streamID)
  {
    hide NumberField, BytesField, ChunkField, Tidy, Above, LastNumber, LastBody, WithNumber, WithBytes, WithChunk;
    fs := NoMore;
    NothingWritten();
    NumberWritten(2, e.streamID, fs);
    fs := WithNumber(2, e.streamID, fs);
    BytesWritten(1, e.value, fs);
    fs := WithBytes(1, e.value, fs);
    assert AllBytes(fs) == BytesField(1, e.value) + (NumberField(2, e.streamID) + []);
    TidyIsWellFormed(fs);
  }

  lemma PartitionSpelt(e: PartitionEvent) returns (fs: Fields)
    requires |EncodePartition(e)| < TWO_63
    ensures Spells(fs, EncodePartition(e), {1})
    ensures LastNumber(1, fs) == NonZero(e.partition)
  {
    hide NumberField, BytesField, ChunkField, Tidy, Above, LastNumber, LastBody, WithNumber, WithBytes, WithChunk;
    fs := NoMore;
    NothingWritten();
    NumberWritten(1, e.partition, fs);
    fs := WithNumber(1, e.partition, fs);
    assert AllBytes(fs) == NumberField(1, e.partition) + [];
    TidyIsWellFormed(fs);
  }

  lemma LeaderSpelt(e: LeaderEvent) returns (fs: Fields)
    requires |EncodeLeader(e)| < TWO_63
    ensures Spells(fs, EncodeLeader(e), {1, 2, 3})
    ensures LastBody(1, fs) == Some(EncodePartition(e.partitionEvent))
    ensures LastNumber(2, fs) == NonZero(e.term)
    ensures LastBody(3, fs) == NonEmpty(e.leader)
  {
    hide NumberField, BytesField, ChunkField, Tidy, Above, LastNumber, LastBody, WithNumber, WithBytes, WithChunk;
    fs := NoMore;
    NothingWritten();
    BytesWritten(3, e.leader, fs);
    fs := WithBytes(3, e.leader, fs);
    NumberWritten(2, e.term, fs);
    fs := WithNumber(2, e.term, fs);
    ChunkFits(1, EncodePartition(e.partitionEvent));
    ChunkWritten(1, EncodePartition(e.partitionEvent), fs);
    fs := WithChunk(1, EncodePartition(e.partitionEvent), fs);
    Associate(ChunkField(1, EncodePartition(e.partitionEvent)), NumberField(2, e.term), BytesField(3, e.leader));
    assert AllBytes(fs) == ChunkField(1, EncodePartition(e.partitionEvent)) + (NumberField(2, e.term) +
           (BytesField(3, e.leader) + []));
    TidyIsWellFormed(fs);
  }

  lemma LeaderUpdatedSpelt(e: LeaderUpdatedEvent) returns (fs: Fields)
    requires |EncodeLeaderUpdated(e)| < TWO_63
    ensures Spells(fs, EncodeLeaderUpdated(e), {1})
    ensures LastBody(1, fs) == Some(EncodeLeader(e.leaderEvent))
  {
    hide NumberField, BytesField, ChunkField, Tidy, Above, LastNumber, LastBody, WithNumber, WithBytes, WithChunk;
    fs := NoMore;
    NothingWritten();
    ChunkFits(1, EncodeLeader(e.leaderEvent));
    ChunkWritten(1, EncodeLeader(e.leaderEvent), fs);
    fs := WithChunk(1, EncodeLeader(e.leaderEvent), fs);
    assert AllBytes(fs) == ChunkField(1, EncodeLeader(e.leaderEvent)) + [];
    TidyIsWellFormed(fs);
  }

  lemma SnapshotSpelt(e: SnapshotEvent) returns (fs: Fields)
    requires |EncodeSnapshot(e)| < TWO_63
    ensures Spells(fs, EncodeSnapshot(e), {1, 2})
    ensures LastBody(1, fs) == Some(EncodePartition(e.partitionEvent))
    ensures LastNumber(2, fs) == NonZero(e.index)
  {
    hide NumberField, BytesField, ChunkField, Tidy, Above, LastNumber, LastBody, WithNumber, WithBytes, WithChunk;
    fs := NoMore;
    NothingWritten();
    NumberWritten(2, e.index, fs);
    fs := WithNumber(2, e.index, fs);
    ChunkFits(1, EncodePartition(e.partitionEvent));
    ChunkWritten(1, EncodePartition(e.partitionEvent), fs);
    fs := WithChunk(1, EncodePartition(e.partitionEvent), fs);
    assert AllBytes(fs) == ChunkField(1, EncodePartition(e.partitionEvent)) + (NumberField(2, e.index) + []);
    TidyIsWellFormed(fs);
  }

  lemma SendSnapshotStartedSpelt(e: SendSnapshotStartedEvent) returns (fs: Fields)
    requires |EncodeSendSnapshotStarted(e)| < TWO_63
    ensures Spells(fs, EncodeSendSnapshotStarted(e), {1, 2})
    ensures LastBody(1, fs) == Some(EncodeSnapshot(e.snapshotEvent))
    ensures LastBody(2, fs) == NonEmpty(e.to)
  {
    hide NumberField, BytesField, ChunkField, Tidy, Above, LastNumber, LastBody, WithNumber, WithBytes, WithChunk;
    fs := NoMore;
    NothingWritten();
    BytesWritten(2, e.to, fs);
    fs := WithBytes(2, e.to, fs);
    ChunkFits(1, EncodeSnapshot(e.snapshotEvent));
    ChunkWritten(1, EncodeSnapshot(e.snapshotEvent), fs);
    fs := WithChunk(1, EncodeSnapshot(e.snapshotEvent), fs);
    assert AllBytes(fs) == ChunkField(1, EncodeSnapshot(e.snapshotEvent)) + (BytesField(2, e.to) + []);
    TidyIsWellFormed(fs);
  }

  lemma ConnectionSpelt(e: ConnectionEvent) returns (fs: Fields)
    requires |EncodeConnection(e)| < TWO_63
    ensures Spells(fs, EncodeConnection(e), {1, 2})
    ensures LastBody(1, fs) == NonEmpty(e.address)
    ensures LastNumber(2, fs) == (if e.snapshot then Some(1) else None)
  {
    hide NumberField, BytesField, ChunkField, Tidy, Above, LastNumber, LastBody, WithNumber, WithBytes, WithChunk;
    fs := NoMore;
    NothingWritten();
    NumberWritten(2, if e.snapshot then 1 else 0, fs);
    fs := WithNumber(2, if e.snapshot then 1 else 0, fs);
    BytesWritten(1, e.address, fs);
    fs := WithBytes(1, e.address, fs);
    assert AllBytes(fs) == BytesField(1, e.address) + (NumberField(2, if e.snapshot then 1 else 0) + []);
    TidyIsWellFormed(fs);
  }

  /** The value comes first: a fixed entry, byte by byte. */
  lemma EntryBytes()
    ensures EncodeEntry(Entry([7], 5)) == [0x0a, 1, 7, 0x10, 5]
  {}
}
