/** The messages of pkg/storage/protocol.proto: their wire form, their decoder's switch, and what decoding means. */
module Messages {
  import opened Varints
  import opened Decoding

  /** The size of a varint field, and of a length-prefixed field of n bytes, as every Size method adds them up. */
  function NumberSize(v: uint64): nat { if v != 0 then 1 + Sov(v) else 0 }
  function ChunkSize(n: nat): nat { 1 + n + Sov(n) }
  function BytesSize(n: nat): nat { if n > 0 then ChunkSize(n) else 0 }

  lemma FieldSizes(num: nat, v: uint64, bytes: seq<byte>)
    requires 1 <= num <= 15
    ensures NumberSize(v) == |NumberField(num, v)|
    ensures ChunkSize(|bytes|) == |ChunkField(num, bytes)|
    ensures BytesSize(|bytes|) == |BytesField(num, bytes)|
  {
    SovIsLength(v);
    SovIsLength(|bytes|);
  }

  lemma SovOne()
    ensures Sov(1) == 1
  {
    SovIsLength(1);
  }

  /** A chunk is shorter than its field. */
  lemma ChunkFits(num: nat, bytes: seq<byte>)
    requires 1 <= num <= 15
    ensures |bytes| < |ChunkField(num, bytes)|
  {}

  // ---------------------------------------------------------------------------
  // Entry
  // ---------------------------------------------------------------------------

  datatype Entry = Entry(value: Slice, streamID: uint64)

  const NO_ENTRY := Entry([], 0)

  function EntryKind(num: int): Kind {
    if num == 1 then Chunk else if num == 2 then Scalar else Unknown
  }

  function PutEntry(m: Entry, token: Token): Result<Entry> {
    match token
    case Blob(1, bytes) => Ok(m.(value := bytes))
    case Num(2, v) => Ok(m.(streamID := v))
    case _ => Ok(m)
  }

  function DecodeEntry(m: Entry, s: Slice): Result<Entry> { Decode(EntryKind, PutEntry, m, s, 0) }

  function EncodeEntry(m: Entry): seq<byte> {
    BytesField(1, m.value) + NumberField(2, m.streamID)
  }

  function EntrySize(m: Entry): nat {
    BytesSize(|m.value|) + NumberSize(m.streamID)
  }

  lemma EntrySizeExact(m: Entry)
    ensures EntrySize(m) == |EncodeEntry(m)|
  {
    hide Sov, Varint;
    FieldSizes(1, 0, m.value);
    FieldSizes(2, m.streamID, []);
  }

  function MergeEntry(m: Entry, e: Entry): Entry {
    Entry(
      if e.value == [] then m.value else e.value,
      if e.streamID == 0 then m.streamID else e.streamID)
  }

  lemma EntryMerges(m: Entry, e: Entry)
    requires |EncodeEntry(e)| < TWO_63
    ensures DecodeEntry(m, EncodeEntry(e)) == Ok(MergeEntry(m, e))
  {
    hide Decode, NumberField, BytesField, ChunkField;
    var f1: Slice := BytesField(1, e.value);
    DecodeBytes(EntryKind, PutEntry, m, 1, e.value);
    var m1 := Decode(EntryKind, PutEntry, m, f1, 0).value;
    var f2: Slice := NumberField(2, e.streamID);
    DecodeNumber(EntryKind, PutEntry, m1, 2, e.streamID);
    DecodeJoined(EntryKind, PutEntry, m, f1, f2);
  }

  lemma EntryRoundTrip(e: Entry)
    requires |EncodeEntry(e)| < TWO_63
    ensures DecodeEntry(NO_ENTRY, EncodeEntry(e)) == Ok(e)
  {
    EntryMerges(NO_ENTRY, e);
  }

  // ---------------------------------------------------------------------------
  // PartitionEvent
  // ---------------------------------------------------------------------------

  datatype PartitionEvent = PartitionEvent(partition: uint32)

  const NO_PARTITION := PartitionEvent(0)

  function PartitionKind(num: int): Kind {
    if num == 1 then Scalar else Unknown
  }

  function PutPartition(m: PartitionEvent, token: Token): Result<PartitionEvent> {
    match token
    case Num(1, v) => Ok(m.(partition := v % TWO_32))
    case _ => Ok(m)
  }

  function DecodePartition(m: PartitionEvent, s: Slice): Result<PartitionEvent> {
    Decode(PartitionKind, PutPartition, m, s, 0)
  }

  function EncodePartition(m: PartitionEvent): seq<byte> {
    NumberField(1, m.partition)
  }

  function PartitionSize(m: PartitionEvent): nat {
    NumberSize(m.partition)
  }

  lemma PartitionSizeExact(m: PartitionEvent)
    ensures PartitionSize(m) == |EncodePartition(m)|
  {
    hide Sov, Varint;
    FieldSizes(1, m.partition, []);
  }

  function MergePartition(m: PartitionEvent, e: PartitionEvent): PartitionEvent {
    PartitionEvent(
      if e.partition == 0 then m.partition else e.partition)
  }

  lemma PartitionMerges(m: PartitionEvent, e: PartitionEvent)
    requires |EncodePartition(e)| < TWO_63
    ensures DecodePartition(m, EncodePartition(e)) == Ok(MergePartition(m, e))
  {
    hide Decode, NumberField, BytesField, ChunkField;
    var f1: Slice := NumberField(1, e.partition);
    DecodeNumber(PartitionKind, PutPartition, m, 1, e.partition);
  }

  lemma PartitionRoundTrip(e: PartitionEvent)
    requires |EncodePartition(e)| < TWO_63
    ensures DecodePartition(NO_PARTITION, EncodePartition(e)) == Ok(e)
  {
    PartitionMerges(NO_PARTITION, e);
  }

  // ---------------------------------------------------------------------------
  // LeaderEvent
  // ---------------------------------------------------------------------------

  datatype LeaderEvent = LeaderEvent(partitionEvent: PartitionEvent, term: uint64, leader: Slice)

  const NO_LEADER := LeaderEvent(NO_PARTITION, 0, [])

  function LeaderKind(num: int): Kind {
    if num == 1 then Chunk else if num == 2 then Scalar else if num == 3 then Chunk else Unknown
  }

  function PutLeader(m: LeaderEvent, token: Token): Result<LeaderEvent> {
    match token
    case Blob(1, bytes) =>
      var sub :- DecodePartition(m.partitionEvent, bytes);
      Ok(m.(partitionEvent := sub))
    case Num(2, v) => Ok(m.(term := v))
    case Blob(3, bytes) => Ok(m.(leader := bytes))
    case _ => Ok(m)
  }

  function DecodeLeader(m: LeaderEvent, s: Slice): Result<LeaderEvent> { Decode(LeaderKind, PutLeader, m, s, 0) }

  function EncodeLeader(m: LeaderEvent): seq<byte> {
    ChunkField(1, EncodePartition(m.partitionEvent)) + NumberField(2, m.term) + BytesField(3, m.leader)
  }

  function LeaderSize(m: LeaderEvent): nat {
    ChunkSize(PartitionSize(m.partitionEvent)) + NumberSize(m.term) + BytesSize(|m.leader|)
  }

  lemma LeaderSizeExact(m: LeaderEvent)
    ensures LeaderSize(m) == |EncodeLeader(m)|
  {
    hide Sov, Varint;
    PartitionSizeExact(m.partitionEvent);
    FieldSizes(1, 0, EncodePartition(m.partitionEvent));
    FieldSizes(2, m.term, []);
    FieldSizes(3, 0, m.leader);
  }

  function MergeLeader(m: LeaderEvent, e: LeaderEvent): LeaderEvent {
    LeaderEvent(
      MergePartition(m.partitionEvent, e.partitionEvent),
      if e.term == 0 then m.term else e.term,
      if e.leader == [] then m.leader else e.leader)
  }

  lemma LeaderMerges(m: LeaderEvent, e: LeaderEvent)
    requires |EncodeLeader(e)| < TWO_63
    ensures DecodeLeader(m, EncodeLeader(e)) == Ok(MergeLeader(m, e))
  {
    hide Decode, NumberField, BytesField, ChunkField;
    var f1: Slice := ChunkField(1, EncodePartition(e.partitionEvent));
    ChunkFits(1, EncodePartition(e.partitionEvent));
    PartitionMerges(m.partitionEvent, e.partitionEvent);
    DecodeChunk(LeaderKind, PutLeader, m, 1, EncodePartition(e.partitionEvent));
    var m1 := Decode(LeaderKind, PutLeader, m, f1, 0).value;
    var f2: Slice := NumberField(2, e.term);
    DecodeNumber(LeaderKind, PutLeader, m1, 2, e.term);
    var m2 := Decode(LeaderKind, PutLeader, m1, f2, 0).value;
    var f3: Slice := BytesField(3, e.leader);
    DecodeBytes(LeaderKind, PutLeader, m2, 3, e.leader);
    DecodeJoined(LeaderKind, PutLeader, m, f1, f2);
    DecodeJoined(LeaderKind, PutLeader, m, f1 + f2, f3);
  }

  lemma LeaderRoundTrip(e: LeaderEvent)
    requires |EncodeLeader(e)| < TWO_63
    ensures DecodeLeader(NO_LEADER, EncodeLeader(e)) == Ok(e)
  {
    LeaderMerges(NO_LEADER, e);
  }

  // ---------------------------------------------------------------------------
  // LeaderUpdatedEvent
  // ---------------------------------------------------------------------------

  datatype LeaderUpdatedEvent = LeaderUpdatedEvent(leaderEvent: LeaderEvent)

  const NO_LEADER_UPDATED := LeaderUpdatedEvent(NO_LEADER)

  function LeaderUpdatedKind(num: int): Kind {
    if num == 1 then Chunk else Unknown
  }

  function PutLeaderUpdated(m: LeaderUpdatedEvent, token: Token): Result<LeaderUpdatedEvent> {
    match token
    case Blob(1, bytes) =>
      var sub :- DecodeLeader(m.leaderEvent, bytes);
      Ok(m.(leaderEvent := sub))
    case _ => Ok(m)
  }

  function DecodeLeaderUpdated(m: LeaderUpdatedEvent, s: Slice): Result<LeaderUpdatedEvent> {
    Decode(LeaderUpdatedKind, PutLeaderUpdated, m, s, 0)
  }

  function EncodeLeaderUpdated(m: LeaderUpdatedEvent): seq<byte> {
    ChunkField(1, EncodeLeader(m.leaderEvent))
  }

  function LeaderUpdatedSize(m: LeaderUpdatedEvent): nat {
    ChunkSize(LeaderSize(m.leaderEvent))
  }

  lemma LeaderUpdatedSizeExact(m: LeaderUpdatedEvent)
    ensures LeaderUpdatedSize(m) == |EncodeLeaderUpdated(m)|
  {
    hide Sov, Varint;
    LeaderSizeExact(m.leaderEvent);
    FieldSizes(1, 0, EncodeLeader(m.leaderEvent));
  }

  function MergeLeaderUpdated(m: LeaderUpdatedEvent, e: LeaderUpdatedEvent): LeaderUpdatedEvent {
    LeaderUpdatedEvent(
      MergeLeader(m.leaderEvent, e.leaderEvent))
  }

  lemma LeaderUpdatedMerges(m: LeaderUpdatedEvent, e: LeaderUpdatedEvent)
    requires |EncodeLeaderUpdated(e)| < TWO_63
    ensures DecodeLeaderUpdated(m, EncodeLeaderUpdated(e)) == Ok(MergeLeaderUpdated(m, e))
  {
    hide Decode, NumberField, BytesField, ChunkField;
    var f1: Slice := ChunkField(1, EncodeLeader(e.leaderEvent));
    ChunkFits(1, EncodeLeader(e.leaderEvent));
    LeaderMerges(m.leaderEvent, e.leaderEvent);
    DecodeChunk(LeaderUpdatedKind, PutLeaderUpdated, m, 1, EncodeLeader(e.leaderEvent));
  }

  lemma LeaderUpdatedRoundTrip(e: LeaderUpdatedEvent)
    requires |EncodeLeaderUpdated(e)| < TWO_63
    ensures DecodeLeaderUpdated(NO_LEADER_UPDATED, EncodeLeaderUpdated(e)) == Ok(e)
  {
    LeaderUpdatedMerges(NO_LEADER_UPDATED, e);
  }

  // ---------------------------------------------------------------------------
  // SnapshotEvent
  // ---------------------------------------------------------------------------

  datatype SnapshotEvent = SnapshotEvent(partitionEvent: PartitionEvent, index: uint64)

  const NO_SNAPSHOT := SnapshotEvent(NO_PARTITION, 0)

  function SnapshotKind(num: int): Kind {
    if num == 1 then Chunk else if num == 2 then Scalar else Unknown
  }

  function PutSnapshot(m: SnapshotEvent, token: Token): Result<SnapshotEvent> {
    match token
    case Blob(1, bytes) =>
      var sub :- DecodePartition(m.partitionEvent, bytes);
      Ok(m.(partitionEvent := sub))
    case Num(2, v) => Ok(m.(index := v))
    case _ => Ok(m)
  }

  function DecodeSnapshot(m: SnapshotEvent, s: Slice): Result<SnapshotEvent> {
    Decode(SnapshotKind, PutSnapshot, m, s, 0)
  }

  function EncodeSnapshot(m: SnapshotEvent): seq<byte> {
    ChunkField(1, EncodePartition(m.partitionEvent)) + NumberField(2, m.index)
  }

  function SnapshotSize(m: SnapshotEvent): nat {
    ChunkSize(PartitionSize(m.partitionEvent)) + NumberSize(m.index)
  }

  lemma SnapshotSizeExact(m: SnapshotEvent)
    ensures SnapshotSize(m) == |EncodeSnapshot(m)|
  {
    hide Sov, Varint;
    PartitionSizeExact(m.partitionEvent);
    FieldSizes(1, 0, EncodePartition(m.partitionEvent));
    FieldSizes(2, m.index, []);
  }

  function MergeSnapshot(m: SnapshotEvent, e: SnapshotEvent): SnapshotEvent {
    SnapshotEvent(
      MergePartition(m.partitionEvent, e.partitionEvent),
      if e.index == 0 then m.index else e.index)
  }

  lemma SnapshotMerges(m: SnapshotEvent, e: SnapshotEvent)
    requires |EncodeSnapshot(e)| < TWO_63
    ensures DecodeSnapshot(m, EncodeSnapshot(e)) == Ok(MergeSnapshot(m, e))
  {
    hide Decode, NumberField, BytesField, ChunkField;
    var f1: Slice := ChunkField(1, EncodePartition(e.partitionEvent));
    ChunkFits(1, EncodePartition(e.partitionEvent));
    PartitionMerges(m.partitionEvent, e.partitionEvent);
    DecodeChunk(SnapshotKind, PutSnapshot, m, 1, EncodePartition(e.partitionEvent));
    var m1 := Decode(SnapshotKind, PutSnapshot, m, f1, 0).value;
    var f2: Slice := NumberField(2, e.index);
    DecodeNumber(SnapshotKind, PutSnapshot, m1, 2, e.index);
    DecodeJoined(SnapshotKind, PutSnapshot, m, f1, f2);
  }

  lemma SnapshotRoundTrip(e: SnapshotEvent)
    requires |EncodeSnapshot(e)| < TWO_63
    ensures DecodeSnapshot(NO_SNAPSHOT, EncodeSnapshot(e)) == Ok(e)
  {
    SnapshotMerges(NO_SNAPSHOT, e);
  }

  // ---------------------------------------------------------------------------
  // SendSnapshotStartedEvent
  // ---------------------------------------------------------------------------

  datatype SendSnapshotStartedEvent = SendSnapshotStartedEvent(snapshotEvent: SnapshotEvent, to: Slice)

  const NO_SEND_SNAPSHOT_STARTED := SendSnapshotStartedEvent(NO_SNAPSHOT, [])

  function SendSnapshotStartedKind(num: int): Kind {
    if num == 1 then Chunk else if num == 2 then Chunk else Unknown
  }

  function PutSendSnapshotStarted(m: SendSnapshotStartedEvent, token: Token): Result<SendSnapshotStartedEvent> {
    match token
    case Blob(1, bytes) =>
      var sub :- DecodeSnapshot(m.snapshotEvent, bytes);
      Ok(m.(snapshotEvent := sub))
    case Blob(2, bytes) => Ok(m.(to := bytes))
    case _ => Ok(m)
  }

  function DecodeSendSnapshotStarted(m: SendSnapshotStartedEvent, s: Slice): Result<SendSnapshotStartedEvent> {
    Decode(SendSnapshotStartedKind, PutSendSnapshotStarted, m, s, 0)
  }

  function EncodeSendSnapshotStarted(m: SendSnapshotStartedEvent): seq<byte> {
    ChunkField(1, EncodeSnapshot(m.snapshotEvent)) + BytesField(2, m.to)
  }

  function SendSnapshotStartedSize(m: SendSnapshotStartedEvent): nat {
    ChunkSize(SnapshotSize(m.snapshotEvent)) + BytesSize(|m.to|)
  }

  lemma SendSnapshotStartedSizeExact(m: SendSnapshotStartedEvent)
    ensures SendSnapshotStartedSize(m) == |EncodeSendSnapshotStarted(m)|
  {
    hide Sov, Varint;
    SnapshotSizeExact(m.snapshotEvent);
    FieldSizes(1, 0, EncodeSnapshot(m.snapshotEvent));
    FieldSizes(2, 0, m.to);
  }

  function MergeSendSnapshotStarted(m: SendSnapshotStartedEvent, e: SendSnapshotStartedEvent):
    SendSnapshotStartedEvent
  {
    SendSnapshotStartedEvent(
      MergeSnapshot(m.snapshotEvent, e.snapshotEvent),
      if e.to == [] then m.to else e.to)
  }

  lemma SendSnapshotStartedMerges(m: SendSnapshotStartedEvent, e: SendSnapshotStartedEvent)
    requires |EncodeSendSnapshotStarted(e)| < TWO_63
    ensures DecodeSendSnapshotStarted(m, EncodeSendSnapshotStarted(e)) == Ok(MergeSendSnapshotStarted(m, e))
  {
    hide Decode, NumberField, BytesField, ChunkField;
    var f1: Slice := ChunkField(1, EncodeSnapshot(e.snapshotEvent));
    ChunkFits(1, EncodeSnapshot(e.snapshotEvent));
    SnapshotMerges(m.snapshotEvent, e.snapshotEvent);
    DecodeChunk(SendSnapshotStartedKind, PutSendSnapshotStarted, m, 1, EncodeSnapshot(e.snapshotEvent));
    var m1 := Decode(SendSnapshotStartedKind, PutSendSnapshotStarted, m, f1, 0).value;
    var f2: Slice := BytesField(2, e.to);
    DecodeBytes(SendSnapshotStartedKind, PutSendSnapshotStarted, m1, 2, e.to);
    DecodeJoined(SendSnapshotStartedKind, PutSendSnapshotStarted, m, f1, f2);
  }

  lemma SendSnapshotStartedRoundTrip(e: SendSnapshotStartedEvent)
    requires |EncodeSendSnapshotStarted(e)| < TWO_63
    ensures DecodeSendSnapshotStarted(NO_SEND_SNAPSHOT_STARTED, EncodeSendSnapshotStarted(e)) == Ok(e)
  {
    SendSnapshotStartedMerges(NO_SEND_SNAPSHOT_STARTED, e);
  }

  // ---------------------------------------------------------------------------
  // ConnectionEvent
  // ---------------------------------------------------------------------------

  datatype ConnectionEvent = ConnectionEvent(address: Slice, snapshot: bool)

  const NO_CONNECTION := ConnectionEvent([], false)

  function ConnectionKind(num: int): Kind {
    if num == 1 then Chunk else if num == 2 then Scalar else Unknown
  }

  function PutConnection(m: ConnectionEvent, token: Token): Result<ConnectionEvent> {
    match token
    case Blob(1, bytes) => Ok(m.(address := bytes))
    case Num(2, v) => Ok(m.(snapshot := v != 0))
    case _ => Ok(m)
  }

  function DecodeConnection(m: ConnectionEvent, s: Slice): Result<ConnectionEvent> {
    Decode(ConnectionKind, PutConnection, m, s, 0)
  }

  function EncodeConnection(m: ConnectionEvent): seq<byte> {
    BytesField(1, m.address) + NumberField(2, if m.snapshot then 1 else 0)
  }

  function ConnectionSize(m: ConnectionEvent): nat {
    BytesSize(|m.address|) + (if m.snapshot then 2 else 0)
  }

  lemma ConnectionSizeExact(m: ConnectionEvent)
    ensures ConnectionSize(m) == |EncodeConnection(m)|
  {
    hide Sov, Varint;
    FieldSizes(1, 0, m.address);
    FieldSizes(2, 1, []);
    assert Sov(1) == 1 by { SovOne(); }
  }

  function MergeConnection(m: ConnectionEvent, e: ConnectionEvent): ConnectionEvent {
    ConnectionEvent(
      if e.address == [] then m.address else e.address,
      m.snapshot || e.snapshot)
  }

  lemma ConnectionMerges(m: ConnectionEvent, e: ConnectionEvent)
    requires |EncodeConnection(e)| < TWO_63
    ensures DecodeConnection(m, EncodeConnection(e)) == Ok(MergeConnection(m, e))
  {
    hide Decode, NumberField, BytesField, ChunkField;
    var f1: Slice := BytesField(1, e.address);
    DecodeBytes(ConnectionKind, PutConnection, m, 1, e.address);
    var m1 := Decode(ConnectionKind, PutConnection, m, f1, 0).value;
    var f2: Slice := NumberField(2, if e.snapshot then 1 else 0);
    DecodeNumber(ConnectionKind, PutConnection, m1, 2, if e.snapshot then 1 else 0);
    DecodeJoined(ConnectionKind, PutConnection, m, f1, f2);
  }

  lemma ConnectionRoundTrip(e: ConnectionEvent)
    requires |EncodeConnection(e)| < TWO_63
    ensures DecodeConnection(NO_CONNECTION, EncodeConnection(e)) == Ok(e)
  {
    ConnectionMerges(NO_CONNECTION, e);
  }
}
