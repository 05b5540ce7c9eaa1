/** The generated message types as objects: fields set in place, buffers filled backwards, a cursor that moves on. */
module Codec {
  import opened Options
  import opened Varints
  import opened Skipping
  import opened Decoding
  import opened Messages

  // ---------------------------------------------------------------------------
  // Filling the buffer backwards
  // ---------------------------------------------------------------------------

  /** The buffer is as it was in front of base, and holds `bytes` from there up to what stood at `end`. */
  twostate predicate Filled(dAtA: array<byte>, base: nat, end: nat, bytes: seq<byte>)
    requires base <= end <= dAtA.Length
    reads dAtA
  {
    && (forall k :: 0 <= k < base ==> dAtA[k] == old(dAtA[k]))
    && dAtA[base..] == bytes + old(dAtA[end..])
  }

  /** A tag byte and, behind it, a varint. */
  method PutVarint(dAtA: array<byte>, end: nat, tag: byte, v: uint64) returns (i: nat)
    requires 1 + |Varint(v)| <= end <= dAtA.Length
    modifies dAtA
    ensures i == end - 1 - |Varint(v)| && Filled(dAtA, i, end, [tag] + Varint(v))
  {
    hide Sov, Varint;
    SovIsLength(v);
    i := EncodeVarint(dAtA, end, v);
    ghost var behind := dAtA[i..];
    i := i - 1;
    dAtA[i] := tag;
    assert dAtA[i..] == [tag] + behind;
  }

  /** A varint field, unless it is zero. */
  method PutNumberField(dAtA: array<byte>, end: nat, num: nat, v: uint64) returns (i: nat)
    requires 1 <= num <= 15 && |NumberField(num, v)| <= end <= dAtA.Length
    modifies dAtA
    ensures i == end - |NumberField(num, v)| && Filled(dAtA, i, end, NumberField(num, v))
  {
    hide Varint;
    i := end;
    if v != 0 { i := PutVarint(dAtA, end, 8 * num, v); }
  }

  /** A bool field, unless it is false: the one byte 1 in place of a varint. */
  method PutBoolField(dAtA: array<byte>, end: nat, num: nat, b: bool) returns (i: nat)
    requires 1 <= num <= 15 && |NumberField(num, if b then 1 else 0)| <= end <= dAtA.Length
    modifies dAtA
    ensures i == end - |NumberField(num, if b then 1 else 0)|
    ensures Filled(dAtA, i, end, NumberField(num, if b then 1 else 0))
  {
    i := end;
    if b {
      i := i - 1;
      dAtA[i] := 1;
      ghost var behind := dAtA[i..];
      assert behind == [1] + old(dAtA[end..]);
      i := i - 1;
      dAtA[i] := 8 * num;
      assert dAtA[i..] == [8 * num] + behind;
    }
  }

  /** The length and the tag in front of bytes that already stand at i. */
  method PutHeader(dAtA: array<byte>, i: nat, num: nat, n: uint64, ghost bytes: seq<byte>, ghost rest: seq<byte>)
    returns (j: nat)
    requires 1 <= num <= 15 && |bytes| == n && |ChunkField(num, bytes)| - n <= i <= dAtA.Length
    requires dAtA[i..] == bytes + rest
    modifies dAtA
    ensures j == i + n - |ChunkField(num, bytes)|
    ensures (forall k :: 0 <= k < j ==> dAtA[k] == old(dAtA[k])) && dAtA[j..] == ChunkField(num, bytes) + rest
  {
    hide Varint;
    j := PutVarint(dAtA, i, 8 * num + 2, n);
    assert [8 * num + 2] + Varint(n) + (bytes + rest) == ChunkField(num, bytes) + rest;
  }

  /** A length-prefixed field, unless it is empty: the bytes, then their length and a tag in front. */
  method PutBytesField(dAtA: array<byte>, end: nat, num: nat, bytes: Slice) returns (i: nat)
    requires 1 <= num <= 15 && |BytesField(num, bytes)| <= end <= dAtA.Length
    modifies dAtA
    ensures i == end - |BytesField(num, bytes)| && Filled(dAtA, i, end, BytesField(num, bytes))
  {
    hide Varint;
    i := end;
    if |bytes| > 0 {
      i := i - |bytes|;
      forall k | 0 <= k < |bytes| { dAtA[i + k] := bytes[k]; }
      i := PutHeader(dAtA, i, num, |bytes|, bytes, old(dAtA[end..]));
    }
  }

  /** The field just written stands in front of the fields written before it. */
  lemma Stack(a: seq<byte>, b: seq<byte>, rest: seq<byte>)
    ensures a + (b + rest) == (a + b) + rest
  {}

  class EntryMessage {
    var value: Slice
    var streamID: uint64

    function View(): Entry
      reads this
    {
      Entry(value, streamID)
    }

    constructor ()
      ensures View() == NO_ENTRY
    {
      value := [];
      streamID := 0;
    }

    method Size() returns (n: nat)
      ensures n == |EncodeEntry(View())|
    {
      EntrySizeExact(View());
      n := 0;
      if |value| > 0 { n := n + 1 + |value| + Sov(|value|); }
      if streamID != 0 { n := n + 1 + Sov(streamID); }
    }

    method MarshalToSizedBuffer(dAtA: array<byte>, end: nat) returns (n: nat)
      requires |EncodeEntry(View())| <= end <= dAtA.Length < TWO_63
      modifies dAtA
      ensures n == |EncodeEntry(View())| && Filled(dAtA, end - n, end, EncodeEntry(View()))
    {
      hide NumberField, BytesField, ChunkField;
      var i := end;
      ghost var rest := dAtA[end..];
      i := PutNumberField(dAtA, i, 2, streamID);
      assert dAtA[i..] == NumberField(2, streamID) + rest;
      i := PutBytesField(dAtA, i, 1, value);
      Stack(BytesField(1, value), NumberField(2, streamID), rest);
      assert dAtA[i..] == (BytesField(1, value) + NumberField(2, streamID)) + rest;
      n := end - i;
    }

    method Marshal() returns (bytes: seq<byte>)
      requires |EncodeEntry(View())| < TWO_63
      ensures bytes == EncodeEntry(View())
    {
      var size := Size();
      var dAtA := new byte[size](_ => 0);
      var n := MarshalToSizedBuffer(dAtA, size);
      bytes := dAtA[..n];
    }

    method Unmarshal(dAtA: Slice) returns (err: Option<Error>)
      modifies this
      ensures match DecodeEntry(old(View()), dAtA)
              case Ok(m) => err.None? && View() == m
              case Err(e) => err == Some(e)
    {
      hide NextField;
      var iNdEx := 0;
      while iNdEx < |dAtA|
        invariant iNdEx <= |dAtA|
        invariant DecodeEntry(old(View()), dAtA) == Decode(EntryKind, PutEntry, View(), dAtA, iNdEx)
        decreases |dAtA| - iNdEx
      {
        var field := ReadField(EntryKind, dAtA, iNdEx);
        if field.Err? { return Some(field.error); }
        var (token, next) := field.value;
        match token {
          case Blob(1, bytes) => value := bytes;
          case Num(2, v) => streamID := v;
          case _ =>
        }
        iNdEx := next;
      }
      return None;
    }
  }

  class PartitionEventMessage {
    var partition: uint32

    function View(): PartitionEvent
      reads this
    {
      PartitionEvent(partition)
    }

    constructor ()
      ensures View() == NO_PARTITION
    {
      partition := 0;
    }

    method Size() returns (n: nat)
      ensures n == |EncodePartition(View())|
    {
      PartitionSizeExact(View());
      n := 0;
      if partition != 0 { n := n + 1 + Sov(partition); }
    }

    method MarshalToSizedBuffer(dAtA: array<byte>, end: nat) returns (n: nat)
      requires |EncodePartition(View())| <= end <= dAtA.Length < TWO_63
      modifies dAtA
      ensures n == |EncodePartition(View())| && Filled(dAtA, end - n, end, EncodePartition(View()))
    {
      hide NumberField, BytesField, ChunkField;
      var i := end;
      ghost var rest := dAtA[end..];
      i := PutNumberField(dAtA, i, 1, partition);
      n := end - i;
    }

    method Marshal() returns (bytes: seq<byte>)
      requires |EncodePartition(View())| < TWO_63
      ensures bytes == EncodePartition(View())
    {
      var size := Size();
      var dAtA := new byte[size](_ => 0);
      var n := MarshalToSizedBuffer(dAtA, size);
      bytes := dAtA[..n];
    }

    method Unmarshal(dAtA: Slice) returns (err: Option<Error>)
      modifies this
      ensures match DecodePartition(old(View()), dAtA)
              case Ok(m) => err.None? && View() == m
              case Err(e) => err == Some(e)
    {
      hide NextField;
      var iNdEx := 0;
      while iNdEx < |dAtA|
        invariant iNdEx <= |dAtA|
        invariant DecodePartition(old(View()), dAtA) == Decode(PartitionKind, PutPartition, View(), dAtA, iNdEx)
        decreases |dAtA| - iNdEx
      {
        var field := ReadField(PartitionKind, dAtA, iNdEx);
        if field.Err? { return Some(field.error); }
        var (token, next) := field.value;
        match token {
          case Num(1, v) => partition := v % TWO_32;
          case _ =>
        }
        iNdEx := next;
      }
      return None;
    }
  }

  class LeaderEventMessage {
    const partitionEvent: PartitionEventMessage
    var term: uint64
    var leader: Slice

    function View(): LeaderEvent
      reads this, partitionEvent
    {
      LeaderEvent(partitionEvent.View(), term, leader)
    }

    constructor ()
      ensures View() == NO_LEADER
      ensures fresh(partitionEvent)
    {
      partitionEvent := new PartitionEventMessage();
      term := 0;
      leader := [];
    }

    method Size() returns (n: nat)
      ensures n == |EncodeLeader(View())|
    {
      LeaderSizeExact(View());
      n := 0;
      PartitionSizeExact(partitionEvent.View());
      var l := partitionEvent.Size();
      n := n + 1 + l + Sov(l);
      if term != 0 { n := n + 1 + Sov(term); }
      if |leader| > 0 { n := n + 1 + |leader| + Sov(|leader|); }
    }

    method MarshalToSizedBuffer(dAtA: array<byte>, end: nat) returns (n: nat)
      requires |EncodeLeader(View())| <= end <= dAtA.Length < TWO_63
      modifies dAtA
      ensures n == |EncodeLeader(View())| && Filled(dAtA, end - n, end, EncodeLeader(View()))
    {
      hide NumberField, BytesField, ChunkField;
      var i := end;
      ghost var rest := dAtA[end..];
      i := PutBytesField(dAtA, i, 3, leader);
      assert dAtA[i..] == BytesField(3, leader) + rest;
      i := PutNumberField(dAtA, i, 2, term);
      Stack(NumberField(2, term), BytesField(3, leader), rest);
      assert dAtA[i..] == (NumberField(2, term) + BytesField(3, leader)) + rest;
      ChunkFits(1, EncodePartition(partitionEvent.View()));
      ghost var behind := dAtA[i..];
      var size := partitionEvent.MarshalToSizedBuffer(dAtA, i);
      i := i - size;
      i := PutHeader(dAtA, i, 1, size, EncodePartition(partitionEvent.View()), behind);
      Stack(ChunkField(1, EncodePartition(partitionEvent.View())), NumberField(2, term) + BytesField(3, leader), rest);
      assert dAtA[i..] ==
             (ChunkField(1, EncodePartition(partitionEvent.View()))
              + (NumberField(2, term) + BytesField(3, leader))) + rest;
      Associate(ChunkField(1, EncodePartition(partitionEvent.View())), NumberField(2, term), BytesField(3, leader));
      n := end - i;
    }

    method Marshal() returns (bytes: seq<byte>)
      requires |EncodeLeader(View())| < TWO_63
      ensures bytes == EncodeLeader(View())
    {
      var size := Size();
      var dAtA := new byte[size](_ => 0);
      var n := MarshalToSizedBuffer(dAtA, size);
      bytes := dAtA[..n];
    }

    method Unmarshal(dAtA: Slice) returns (err: Option<Error>)
      modifies this, partitionEvent
      ensures match DecodeLeader(old(View()), dAtA)
              case Ok(m) => err.None? && View() == m
              case Err(e) => err == Some(e)
    {
      hide NextField;
      var iNdEx := 0;
      while iNdEx < |dAtA|
        invariant iNdEx <= |dAtA|
        invariant DecodeLeader(old(View()), dAtA) == Decode(LeaderKind, PutLeader, View(), dAtA, iNdEx)
        decreases |dAtA| - iNdEx
      {
        var field := ReadField(LeaderKind, dAtA, iNdEx);
        if field.Err? { return Some(field.error); }
        var (token, next) := field.value;
        match token {
          case Blob(1, bytes) =>
            var failed := partitionEvent.Unmarshal(bytes);
            if failed.Some? { return failed; }
          case Num(2, v) => term := v;
          case Blob(3, bytes) => leader := bytes;
          case _ =>
        }
        iNdEx := next;
      }
      return None;
    }
  }

  class LeaderUpdatedEventMessage {
    const leaderEvent: LeaderEventMessage

    function View(): LeaderUpdatedEvent
      reads this, leaderEvent, leaderEvent.partitionEvent
    {
      LeaderUpdatedEvent(leaderEvent.View())
    }

    constructor ()
      ensures View() == NO_LEADER_UPDATED
      ensures fresh(leaderEvent)
      ensures fresh(leaderEvent.partitionEvent)
    {
      leaderEvent := new LeaderEventMessage();
    }

    method Size() returns (n: nat)
      ensures n == |EncodeLeaderUpdated(View())|
    {
      LeaderUpdatedSizeExact(View());
      n := 0;
      LeaderSizeExact(leaderEvent.View());
      var l := leaderEvent.Size();
      n := n + 1 + l + Sov(l);
    }

    method MarshalToSizedBuffer(dAtA: array<byte>, end: nat) returns (n: nat)
      requires |EncodeLeaderUpdated(View())| <= end <= dAtA.Length < TWO_63
      modifies dAtA
      ensures n == |EncodeLeaderUpdated(View())| && Filled(dAtA, end - n, end, EncodeLeaderUpdated(View()))
    {
      hide NumberField, BytesField, ChunkField;
      var i := end;
      ghost var rest := dAtA[end..];
      ChunkFits(1, EncodeLeader(leaderEvent.View()));
      ghost var behind := dAtA[i..];
      var size := leaderEvent.MarshalToSizedBuffer(dAtA, i);
      i := i - size;
      i := PutHeader(dAtA, i, 1, size, EncodeLeader(leaderEvent.View()), behind);
      n := end - i;
    }

    method Marshal() returns (bytes: seq<byte>)
      requires |EncodeLeaderUpdated(View())| < TWO_63
      ensures bytes == EncodeLeaderUpdated(View())
    {
      var size := Size();
      var dAtA := new byte[size](_ => 0);
      var n := MarshalToSizedBuffer(dAtA, size);
      bytes := dAtA[..n];
    }

    method Unmarshal(dAtA: Slice) returns (err: Option<Error>)
      modifies this, leaderEvent, leaderEvent.partitionEvent
      ensures match DecodeLeaderUpdated(old(View()), dAtA)
              case Ok(m) => err.None? && View() == m
              case Err(e) => err == Some(e)
    {
      hide NextField;
      var iNdEx := 0;
      while iNdEx < |dAtA|
        invariant iNdEx <= |dAtA|
        invariant DecodeLeaderUpdated(old(View()), dAtA) ==
                  Decode(LeaderUpdatedKind, PutLeaderUpdated, View(), dAtA, iNdEx)
        decreases |dAtA| - iNdEx
      {
        var field := ReadField(LeaderUpdatedKind, dAtA, iNdEx);
        if field.Err? { return Some(field.error); }
        var (token, next) := field.value;
        match token {
          case Blob(1, bytes) =>
            var failed := leaderEvent.Unmarshal(bytes);
            if failed.Some? { return failed; }
          case _ =>
        }
        iNdEx := next;
      }
      return None;
    }
  }

  class SnapshotEventMessage {
    const partitionEvent: PartitionEventMessage
    var index: uint64

    function View(): SnapshotEvent
      reads this, partitionEvent
    {
      SnapshotEvent(partitionEvent.View(), index)
    }

    constructor ()
      ensures View() == NO_SNAPSHOT
      ensures fresh(partitionEvent)
    {
      partitionEvent := new PartitionEventMessage();
      index := 0;
    }

    method Size() returns (n: nat)
      ensures n == |EncodeSnapshot(View())|
    {
      SnapshotSizeExact(View());
      n := 0;
      PartitionSizeExact(partitionEvent.View());
      var l := partitionEvent.Size();
      n := n + 1 + l + Sov(l);
      if index != 0 { n := n + 1 + Sov(index); }
    }

    method MarshalToSizedBuffer(dAtA: array<byte>, end: nat) returns (n: nat)
      requires |EncodeSnapshot(View())| <= end <= dAtA.Length < TWO_63
      modifies dAtA
      ensures n == |EncodeSnapshot(View())| && Filled(dAtA, end - n, end, EncodeSnapshot(View()))
    {
      hide NumberField, BytesField, ChunkField;
      var i := end;
      ghost var rest := dAtA[end..];
      i := PutNumberField(dAtA, i, 2, index);
      assert dAtA[i..] == NumberField(2, index) + rest;
      ChunkFits(1, EncodePartition(partitionEvent.View()));
      ghost var behind := dAtA[i..];
      var size := partitionEvent.MarshalToSizedBuffer(dAtA, i);
      i := i - size;
      i := PutHeader(dAtA, i, 1, size, EncodePartition(partitionEvent.View()), behind);
      Stack(ChunkField(1, EncodePartition(partitionEvent.View())), NumberField(2, index), rest);
      assert dAtA[i..] == (ChunkField(1, EncodePartition(partitionEvent.View())) + NumberField(2, index)) + rest;
      n := end - i;
    }

    method Marshal() returns (bytes: seq<byte>)
      requires |EncodeSnapshot(View())| < TWO_63
      ensures bytes == EncodeSnapshot(View())
    {
      var size := Size();
      var dAtA := new byte[size](_ => 0);
      var n := MarshalToSizedBuffer(dAtA, size);
      bytes := dAtA[..n];
    }

    method Unmarshal(dAtA: Slice) returns (err: Option<Error>)
      modifies this, partitionEvent
      ensures match DecodeSnapshot(old(View()), dAtA)
              case Ok(m) => err.None? && View() == m
              case Err(e) => err == Some(e)
    {
      hide NextField;
      var iNdEx := 0;
      while iNdEx < |dAtA|
        invariant iNdEx <= |dAtA|
        invariant DecodeSnapshot(old(View()), dAtA) == Decode(SnapshotKind, PutSnapshot, View(), dAtA, iNdEx)
        decreases |dAtA| - iNdEx
      {
        var field := ReadField(SnapshotKind, dAtA, iNdEx);
        if field.Err? { return Some(field.error); }
        var (token, next) := field.value;
        match token {
          case Blob(1, bytes) =>
            var failed := partitionEvent.Unmarshal(bytes);
            if failed.Some? { return failed; }
          case Num(2, v) => index := v;
          case _ =>
        }
        iNdEx := next;
      }
      return None;
    }
  }

  class SendSnapshotStartedEventMessage {
    const snapshotEvent: SnapshotEventMessage
    var to: Slice

    function View(): SendSnapshotStartedEvent
      reads this, snapshotEvent, snapshotEvent.partitionEvent
    {
      SendSnapshotStartedEvent(snapshotEvent.View(), to)
    }

    constructor ()
      ensures View() == NO_SEND_SNAPSHOT_STARTED
      ensures fresh(snapshotEvent)
      ensures fresh(snapshotEvent.partitionEvent)
    {
      snapshotEvent := new SnapshotEventMessage();
      to := [];
    }

    method Size() returns (n: nat)
      ensures n == |EncodeSendSnapshotStarted(View())|
    {
      SendSnapshotStartedSizeExact(View());
      n := 0;
      SnapshotSizeExact(snapshotEvent.View());
      var l := snapshotEvent.Size();
      n := n + 1 + l + Sov(l);
      if |to| > 0 { n := n + 1 + |to| + Sov(|to|); }
    }

    method MarshalToSizedBuffer(dAtA: array<byte>, end: nat) returns (n: nat)
      requires |EncodeSendSnapshotStarted(View())| <= end <= dAtA.Length < TWO_63
      modifies dAtA
      ensures n == |EncodeSendSnapshotStarted(View())| && Filled(dAtA, end - n, end, EncodeSendSnapshotStarted(View()))
    {
      hide NumberField, BytesField, ChunkField;
      var i := end;
      ghost var rest := dAtA[end..];
      i := PutBytesField(dAtA, i, 2, to);
      assert dAtA[i..] == BytesField(2, to) + rest;
      ChunkFits(1, EncodeSnapshot(snapshotEvent.View()));
      ghost var behind := dAtA[i..];
      var size := snapshotEvent.MarshalToSizedBuffer(dAtA, i);
      i := i - size;
      i := PutHeader(dAtA, i, 1, size, EncodeSnapshot(snapshotEvent.View()), behind);
      Stack(ChunkField(1, EncodeSnapshot(snapshotEvent.View())), BytesField(2, to), rest);
      assert dAtA[i..] == (ChunkField(1, EncodeSnapshot(snapshotEvent.View())) + BytesField(2, to)) + rest;
      n := end - i;
    }

    method Marshal() returns (bytes: seq<byte>)
      requires |EncodeSendSnapshotStarted(View())| < TWO_63
      ensures bytes == EncodeSendSnapshotStarted(View())
    {
      var size := Size();
      var dAtA := new byte[size](_ => 0);
      var n := MarshalToSizedBuffer(dAtA, size);
      bytes := dAtA[..n];
    }

    method Unmarshal(dAtA: Slice) returns (err: Option<Error>)
      modifies this, snapshotEvent, snapshotEvent.partitionEvent
      ensures match DecodeSendSnapshotStarted(old(View()), dAtA)
              case Ok(m) => err.None? && View() == m
              case Err(e) => err == Some(e)
    {
      hide NextField;
      var iNdEx := 0;
      while iNdEx < |dAtA|
        invariant iNdEx <= |dAtA|
        invariant DecodeSendSnapshotStarted(old(View()), dAtA) ==
                  Decode(SendSnapshotStartedKind, PutSendSnapshotStarted, View(), dAtA, iNdEx)
        decreases |dAtA| - iNdEx
      {
        var field := ReadField(SendSnapshotStartedKind, dAtA, iNdEx);
        if field.Err? { return Some(field.error); }
        var (token, next) := field.value;
        match token {
          case Blob(1, bytes) =>
            var failed := snapshotEvent.Unmarshal(bytes);
            if failed.Some? { return failed; }
          case Blob(2, bytes) => to := bytes;
          case _ =>
        }
        iNdEx := next;
      }
      return None;
    }
  }

  class ConnectionEventMessage {
    var address: Slice
    var snapshot: bool

    function View(): ConnectionEvent
      reads this
    {
      ConnectionEvent(address, snapshot)
    }

    constructor ()
      ensures View() == NO_CONNECTION
    {
      address := [];
      snapshot := false;
    }

    method Size() returns (n: nat)
      ensures n == |EncodeConnection(View())|
    {
      ConnectionSizeExact(View());
      n := 0;
      if |address| > 0 { n := n + 1 + |address| + Sov(|address|); }
      if snapshot { n := n + 2; }
    }

    method MarshalToSizedBuffer(dAtA: array<byte>, end: nat) returns (n: nat)
      requires |EncodeConnection(View())| <= end <= dAtA.Length < TWO_63
      modifies dAtA
      ensures n == |EncodeConnection(View())| && Filled(dAtA, end - n, end, EncodeConnection(View()))
    {
      hide NumberField, BytesField, ChunkField;
      var i := end;
      ghost var rest := dAtA[end..];
      i := PutBoolField(dAtA, i, 2, snapshot);
      assert dAtA[i..] == NumberField(2, if snapshot then 1 else 0) + rest;
      i := PutBytesField(dAtA, i, 1, address);
      Stack(BytesField(1, address), NumberField(2, if snapshot then 1 else 0), rest);
      assert dAtA[i..] == (BytesField(1, address) + NumberField(2, if snapshot then 1 else 0)) + rest;
      n := end - i;
    }

    method Marshal() returns (bytes: seq<byte>)
      requires |EncodeConnection(View())| < TWO_63
      ensures bytes == EncodeConnection(View())
    {
      var size := Size();
      var dAtA := new byte[size](_ => 0);
      var n := MarshalToSizedBuffer(dAtA, size);
      bytes := dAtA[..n];
    }

    method Unmarshal(dAtA: Slice) returns (err: Option<Error>)
      modifies this
      ensures match DecodeConnection(old(View()), dAtA)
              case Ok(m) => err.None? && View() == m
              case Err(e) => err == Some(e)
    {
      hide NextField;
      var iNdEx := 0;
      while iNdEx < |dAtA|
        invariant iNdEx <= |dAtA|
        invariant DecodeConnection(old(View()), dAtA) == Decode(ConnectionKind, PutConnection, View(), dAtA, iNdEx)
        decreases |dAtA| - iNdEx
      {
        var field := ReadField(ConnectionKind, dAtA, iNdEx);
        if field.Err? { return Some(field.error); }
        var (token, next) := field.value;
        match token {
          case Blob(1, bytes) => address := bytes;
          case Num(2, v) => snapshot := v != 0;
          case _ =>
        }
        iNdEx := next;
      }
      return None;
    }
  }
}
