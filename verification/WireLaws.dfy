/** What the Protocol Buffers encoding promises of whole messages, for the messages of pkg/storage/protocol.proto. */
module WireLaws {
  import opened Varints
  import opened Skipping
  import opened Decoding
  import opened Messages

  // ---------------------------------------------------------------------------
  // Marshal is injective
  // ---------------------------------------------------------------------------

  lemma EntryInjective(a: Entry, b: Entry)
    requires |EncodeEntry(a)| < TWO_63 && EncodeEntry(a) == EncodeEntry(b)
    ensures a == b
  {
    EntryRoundTrip(a);
    EntryRoundTrip(b);
  }

  lemma LeaderUpdatedInjective(a: LeaderUpdatedEvent, b: LeaderUpdatedEvent)
    requires |EncodeLeaderUpdated(a)| < TWO_63 && EncodeLeaderUpdated(a) == EncodeLeaderUpdated(b)
    ensures a == b
  {
    LeaderUpdatedRoundTrip(a);
    LeaderUpdatedRoundTrip(b);
  }

  lemma SendSnapshotStartedInjective(a: SendSnapshotStartedEvent, b: SendSnapshotStartedEvent)
    requires |EncodeSendSnapshotStarted(a)| < TWO_63 && EncodeSendSnapshotStarted(a) == EncodeSendSnapshotStarted(b)
    ensures a == b
  {
    SendSnapshotStartedRoundTrip(a);
    SendSnapshotStartedRoundTrip(b);
  }

  // ---------------------------------------------------------------------------
  // Two encodings, one after the other, are their merge
  // ---------------------------------------------------------------------------

  lemma EntryConcatenation(a: Entry, b: Entry)
    requires |EncodeEntry(a)| + |EncodeEntry(b)| < TWO_63
    ensures DecodeEntry(NO_ENTRY, EncodeEntry(a) + EncodeEntry(b)) == Ok(MergeEntry(a, b))
  {
    hide Decode, EncodeEntry;
    EntryRoundTrip(a);
    EntryMerges(a, b);
    DecodeJoined(EntryKind, PutEntry, NO_ENTRY, EncodeEntry(a), EncodeEntry(b));
  }

  lemma LeaderUpdatedConcatenation(a: LeaderUpdatedEvent, b: LeaderUpdatedEvent)
    requires |EncodeLeaderUpdated(a)| + |EncodeLeaderUpdated(b)| < TWO_63
    ensures DecodeLeaderUpdated(NO_LEADER_UPDATED, EncodeLeaderUpdated(a) + EncodeLeaderUpdated(b)) ==
              Ok(MergeLeaderUpdated(a, b))
  {
    hide Decode, EncodeLeaderUpdated;
    LeaderUpdatedRoundTrip(a);
    LeaderUpdatedMerges(a, b);
    DecodeJoined(LeaderUpdatedKind, PutLeaderUpdated, NO_LEADER_UPDATED,
                 EncodeLeaderUpdated(a), EncodeLeaderUpdated(b));
  }

  lemma SendSnapshotStartedConcatenation(a: SendSnapshotStartedEvent, b: SendSnapshotStartedEvent)
    requires |EncodeSendSnapshotStarted(a)| + |EncodeSendSnapshotStarted(b)| < TWO_63
    ensures DecodeSendSnapshotStarted(NO_SEND_SNAPSHOT_STARTED,
                                      EncodeSendSnapshotStarted(a) + EncodeSendSnapshotStarted(b)) ==
              Ok(MergeSendSnapshotStarted(a, b))
  {
    hide Decode, EncodeSendSnapshotStarted;
    SendSnapshotStartedRoundTrip(a);
    SendSnapshotStartedMerges(a, b);
    DecodeJoined(SendSnapshotStartedKind, PutSendSnapshotStarted, NO_SEND_SNAPSHOT_STARTED,
                 EncodeSendSnapshotStarted(a), EncodeSendSnapshotStarted(b));
  }

  // ---------------------------------------------------------------------------
  // On arbitrary bytes: last scalar, merged submessages, unknown fields
  // ---------------------------------------------------------------------------

  /** Whatever decoded before, a stream id at the end is the one the entry has. */
  lemma LastStreamIDWins(m: Entry, a: Slice, v: uint64)
    requires v != 0 && |a| + |NumberField(2, v)| < TWO_63 && DecodeEntry(m, a).Ok?
    ensures DecodeEntry(m, a + NumberField(2, v)) == Ok(DecodeEntry(m, a).value.(streamID := v))
  {
    hide Decode, NumberField;
    var m1 := DecodeEntry(m, a).value;
    DecodeNumber(EntryKind, PutEntry, m1, 2, v);
    DecodeJoined(EntryKind, PutEntry, m, a, NumberField(2, v));
  }

  /** A leader event sent in two embedded pieces is the leader event of the joined pieces. */
  lemma EmbeddedPiecesMerge(m: LeaderUpdatedEvent, a: Slice, b: Slice)
    requires |ChunkField(1, a)| + |ChunkField(1, b)| < TWO_63 && |ChunkField(1, a + b)| < TWO_63
    requires DecodeLeader(m.leaderEvent, a).Ok?
    ensures Same(DecodeLeaderUpdated(m, ChunkField(1, a) + ChunkField(1, b)),
                 DecodeLeaderUpdated(m, ChunkField(1, a + b)))
  {
    hide Decode, ChunkField;
    var m1 := m.(leaderEvent := DecodeLeader(m.leaderEvent, a).value);
    ChunkFits(1, a + b);
    DecodeChunk(LeaderUpdatedKind, PutLeaderUpdated, m, 1, a);
    DecodeChunk(LeaderUpdatedKind, PutLeaderUpdated, m1, 1, b);
    DecodeChunk(LeaderUpdatedKind, PutLeaderUpdated, m, 1, a + b);
    DecodeFolds(LeaderUpdatedKind, PutLeaderUpdated, m, ChunkField(1, a), ChunkField(1, b));
    DecodeFolds(LeaderKind, PutLeader, m.leaderEvent, a, b);
  }

  lemma EntryIgnoresUnknown(m: Entry, a: Slice, f: Field, b: Slice)
    requires |a| + |Bytes(f)| + |b| < TWO_63 && DecodeEntry(m, a).Ok?
    requires WellFormed(f) && FieldNumber(f.tag) > 2
    ensures Same(DecodeEntry(m, a + Bytes(f) + b), DecodeEntry(m, a + b))
  {
    hide Decode, WellFormed, Bytes, FieldNumber;
    UnknownFieldIgnored(EntryKind, PutEntry, m, a, f, b);
  }

  /** An unknown field in an embedded message changes nothing outside of it either. */
  lemma NestedUnknownIgnored(m: LeaderEvent, a: Slice, f: Field, b: Slice)
    requires |ChunkField(1, a + Bytes(f) + b)| < TWO_63 && DecodePartition(m.partitionEvent, a).Ok?
    requires WellFormed(f) && FieldNumber(f.tag) > 1
    ensures |ChunkField(1, a + b)| < TWO_63
    ensures Same(DecodeLeader(m, ChunkField(1, a + Bytes(f) + b)), DecodeLeader(m, ChunkField(1, a + b)))
  {
    hide Decode, WellFormed, Bytes, FieldNumber, ChunkField;
    var (x, y) := (a + Bytes(f) + b, a + b);
    ChunkFits(1, x);
    ShorterChunk(1, y, x);
    UnknownFieldIgnored(PartitionKind, PutPartition, m.partitionEvent, a, f, b);
    DecodeChunk(LeaderKind, PutLeader, m, 1, x);
    DecodeChunk(LeaderKind, PutLeader, m, 1, y);
  }

  /** Nor does one in the innermost message of three. */
  lemma DeepUnknownIgnored(m: LeaderUpdatedEvent, a: Slice, f: Field, b: Slice)
    requires |ChunkField(1, ChunkField(1, a + Bytes(f) + b))| < TWO_63
    requires DecodePartition(m.leaderEvent.partitionEvent, a).Ok? && WellFormed(f) && FieldNumber(f.tag) > 1
    ensures |ChunkField(1, ChunkField(1, a + b))| < TWO_63
    ensures Same(DecodeLeaderUpdated(m, ChunkField(1, ChunkField(1, a + Bytes(f) + b))),
                 DecodeLeaderUpdated(m, ChunkField(1, ChunkField(1, a + b))))
  {
    hide Decode, WellFormed, Bytes, FieldNumber, ChunkField;
    var (x, y) := (ChunkField(1, a + Bytes(f) + b), ChunkField(1, a + b));
    ChunkFits(1, x);
    NestedUnknownIgnored(m.leaderEvent, a, f, b);
    ShorterChunk(1, a + b, a + Bytes(f) + b);
    ShorterChunk(1, y, x);
    DecodeChunk(LeaderUpdatedKind, PutLeaderUpdated, m, 1, x);
    DecodeChunk(LeaderUpdatedKind, PutLeaderUpdated, m, 1, y);
  }

  lemma ShorterChunk(num: nat, a: seq<byte>, b: seq<byte>)
    requires 1 <= num <= 15 && |a| <= |b|
    ensures |ChunkField(num, a)| <= |ChunkField(num, b)|
  {
    VarintMonotone(|a|, |b|);
  }

  lemma {:induction false} VarintMonotone(v: nat, w: nat)
    requires v <= w
    ensures |Varint(v)| <= |Varint(w)|
  {
    if w >= 128 && v >= 128 { VarintMonotone(v / 128, w / 128); }
  }

  /** On every byte string: an Entry is decoded exactly when the bytes parse as fields that mean it. */
  lemma EntryRefinesGrammar(m: Entry, s: Slice, e: Entry)
    ensures DecodeEntry(m, s) == Ok(e) <==>
              exists fs :: AllWellFormed(fs) && AllBytes(fs) == s && Meaning(EntryKind, PutEntry, m, fs) == Ok(e)
  {
    DecodeRefinesGrammar(EntryKind, PutEntry, m, s, e);
  }
}
