# Verification of the Raft storage driver

A Dafny model of the Raft storage driver: the wire codec every log entry and event goes through, the controller that places
partitions on pods and keeps their status, and the node's concurrent listeners and streams. `dafny verify dfyconfig.toml`
checks all of it.

## The codec

`Bits`, `Varints`, `Skipping` and `Decoding` hold the loops shared by all generated messages, and the grammar of fields that they
refine (Protocol Buffers Encoding, sections "Base 128 Varints", "Message Structure", "Last One Wins" and "Groups").
`Messages` says what each message means on the wire, `Codec` has the message types as objects that fill buffers backwards
and decode with a cursor, and `WireLaws` states the laws of whole messages.
`Meanings` says what arbitrary bytes mean to each message, and `WireForms` what each encoding consists of, both in terms of
fields alone. `ConfigCodec` is the twin in
`pkg/storage/config`, with the codec of durations, which is a library's, as a parameter. The only thing asked of that codec is
that it gives back every 64-bit duration; one in the format of google.protobuf.Duration does (`ConfigCodec.WellKnownIsFaithful`),
and with it the round trip has no hypothesis left (`ConfigCodec.WellKnownRoundTrip`).

Integers of the source are written out where their width matters: tags, lengths and numbers are taken modulo 2^64, field
numbers are cut to 32 bits, and cursor sums wrap around. The loops mask and or their bits with the operators of `Bits`, which
are defined bit by bit on numbers; shifts are products and quotients with powers of two.

## The controller

`Placement` has the round-robin formula in each of the places that compute it, and says exactly where they agree.
`GroupStatus`, `MemberStatus` and `Revisions` are the status reconcilers: each class method is proved equal to a pass of a
specification, and theorems about runs are proved of that pass. `Creation` is the creation of clusters, groups and members
against a store with atomic creates, by workers that look up and create in separate steps and may look at stale caches.

N is the number of pods, P of partitions, M of voting and R of read-only members of a partition.

## The node

`Watching`, `Publishing` and `Streams` model the concurrent parts as interleaved steps of threads, over every run of any
number of threads; `Locks` is the read-write lock they share. Every send to a listener is a step of its own, and so are the
read and the write of the listener id, which the source does without the lock. `NodeIDs` is the numbering of replicas and the
configuration made of a leader's name.

## What the code does not keep

Where the code falls short of what it is evidently for, it is modelled as it stands, and lemmas give an input and say exactly
when all is well; where that turns on a schedule, the rule that makes it so and what can happen without it.

- The node configuration writes read-only pods over voting ones (`pkg/controller/storage/v2beta2/cluster.go` line 276):
  `NodeConfigAgrees`, `NodeConfigDisagrees`; with R greater than M it panics: `NewNodePartition`.
- A RaftMember is created for pod (M g + j) mod N, while its group's status reads pod ((M + R) g + j) mod N
  (`pkg/controller/storage/v2beta2/group.go` line 154): `MemberPodAgrees`, `MemberPodDisagrees`.
- A group can publish the leader of an older term with a new one: `LeaderIsCurrent`, `StaleLeaderPublished`,
  `StaleLeaderPublishedLater`; over a run, `LeadersCurrentThroughout`. It is the only one it will publish with that term:
  `OneLeaderPerTerm`.
- A pod without a PodReady condition makes its member Ready and its group NotReady, and so does a pod that is deleted while
  its member is Ready: `MemberStateAgrees`, `MemberStateDisagrees`.
- An event that a partition has no leader leaves the leader of before in its configuration: `LeaderlessEvent`,
  `LeaderStays`; over a run, `AlwaysFollowed`.
- The loop over the partitions looks the pods up again, and can find a cluster NotReady whose pods were all ready:
  `PartitionsChangeAnswer`, `SteadyPodsDecide`, `PodsLostBetween`.
- A member's leader can be one from a term gone by when events arrive out of order: `LeaderCurrentThroughout`,
  `LateLeaderTaken`.
- Field numbers are cut to 32 bits: `NumberKept`, `TagNumberTruncated`.
- The protocol status does not notice a change of read replicas alone, as when the number of read-only members is changed by a
  multiple of the number of pods: `ReadReplicas`, `EditMissed`, `ReadReplicasMissed`.
- The ids of listeners are taken without the lock. Channels stay safe when two calls get the same id, but one of the watchers
  gets no more updates: `RaceLosesWatcher`, `SharedIDLosesOne`. All is well when no two calls take their ids at once,
  `UnracedWatchersSeeAll`; two that do can always come to share one: `OverlapCanShare`.
- Stream ids do not name the node they were given on, and an entry of another node can reach a stream here:
  `RoutingKept`, `ApplyRoutes`, `ForeignEntryReachesStream`.
- Group end tags are not matched with their start tags: `SkippedIsAllowed`, `EndTagNotMatched`; what is accepted is exactly
  the grammar without that match: `SkipRefinesGrammar`.

## Model

| member | source | states |
|---|---|---|
| Varints.VarintPayload | pkg/storage/protocol.pb.go:2481-2491 | The bytes of the encoding loop spell the number, seven bits a byte, and only the last byte has its top bit clear; for every number |
| Varints.VarintLength | pkg/storage/protocol.pb.go:2481-2491 | The loop writes at most n bytes exactly for the numbers below 128^n |
| Varints.CanonicalIsVarint | pkg/storage/protocol.pb.go:2481-2491 | Every 64-bit number is written as something the decoding loop accepts (1 to 10 bytes) |
| Varints.SovIsLength | pkg/storage/protocol.pb.go:2943-2945 | The size computed from the bit length is exactly the number of bytes the loop writes, for every number |
| Varints.SovBounds | pkg/storage/protocol.pb.go:2943-2945 | For every 64-bit number that size is between 1 and 10 |
| Varints.EncodeVarint | pkg/storage/protocol.pb.go:2481-2491 | In place: the canonical bytes end at the offset, everything in front of and behind them is as before, and the index of the first one is returned |
| Varints.AppendVarint | pkg/storage/config/config.pb.go:344-351 | The append-based loop adds byte for byte what the in-place one writes |
| Varints.DecodeVarint | pkg/storage/protocol.pb.go:2955-2968 | The shift-and-or loop is the reader: overflow at the eleventh byte, unexpected end, or the payload modulo 2^64 and the cursor behind it; no index out of range |
| Varints.OrAccumulates | pkg/storage/protocol.pb.go:2955-2968 | One turn of the loop, or-ing the seven bits shifted up in, keeps the accumulator equal to the payload modulo 2^64, the tenth byte, whose upper bits are lost, included |
| Bits.OrIsPlus | pkg/storage/protocol.pb.go:2964 | The or of a number below 2^n and a multiple of 2^n, bit by bit, is their sum; for all numbers and all n |
| Bits.MaskKeeps | pkg/storage/protocol.pb.go:2969-2970 | A mask of n bits, bit by bit, takes exactly the part of a number below 2^n |
| Bits.Continuation | pkg/storage/protocol.pb.go:2484-2488 | The byte the encoder writes for seven bits that others follow is their number plus 128 |
| Varints.ReadVarintExact | pkg/storage/protocol.pb.go:2955-2968 | The reader stops at e exactly when the bytes up to e are one varint (at most ten bytes, top bit clear on the last only), and then returns their payload modulo 2^64 |
| Varints.ReadCanonical | pkg/storage/protocol.pb.go:2955-2968 | Reading what the encoder wrote, anywhere in a string, gives the number and stops right behind it |
| Varints.ReadVarintFails | pkg/storage/protocol.pb.go:2955-2968 | The reader overflows exactly on ten bytes that all announce another one, and comes to the end exactly when fewer are left and all do |
| Varints.ThreeHundred | pkg/storage/protocol.pb.go:2481-2491 | The lowest seven bits come first: 300 is written as 0xac, 0x02 |
| Skipping.SkipField | pkg/storage/protocol.pb.go:5540-5617 | The depth-counter loop, with 64-bit wrap-around of the cursor, is the specification Skip on every byte string: it terminates, with the same value or the same error |
| Skipping.WireTypes | pkg/storage/protocol.pb.go:5546-5613 | What each wire type takes behind a tag of one byte: a varint, 8 bytes, a length and so many bytes, a group, 4 bytes; types 6 and 7 and an end tag with no group open are refused, each with its own error |
| Skipping.LengthRefused | pkg/storage/protocol.pb.go:5577-5596 | A length is refused exactly when where it ends does not fit a signed 64-bit number |
| Skipping.SkipRefinesGrammar | pkg/storage/protocol.pb.go:5540-5617 | On every byte string: n bytes are skipped exactly when they are one well-formed field of the recursive grammar, groups balanced |
| Skipping.SkipsField | pkg/storage/protocol.pb.go:5540-5617 | Completeness at any depth and cursor: a well-formed field in place is passed over with exactly its length |
| Skipping.SkipCloses | pkg/storage/protocol.pb.go:5540-5617 | Soundness with d groups open: the bytes consumed are fields and end tags that close exactly these d groups, innermost first |
| Skipping.SkipIsField | pkg/storage/protocol.pb.go:5540-5617 | Soundness from the top: whatever is skipped within the bytes parses as one field |
| Skipping.OneParse | pkg/storage/protocol.pb.go:5540-5617 | The grammar is unambiguous and prefix-free: two well-formed fields that begin in the same place are the same field |
| Skipping.SkippedIsAllowed | pkg/storage/protocol.pb.go:5540-5617 | What is skipped meets the rule of section "Groups" that end tags carry the number of their start tags exactly when the groups of its one parse do |
| Skipping.EndTagNotMatched | pkg/storage/protocol.pb.go:5597-5603 | A start tag of field 1 closed by an end tag of field 2 is accepted: end-tag numbers are not matched |
| Decoding.ReadField | pkg/storage/protocol.pb.go:2952-3053 | One turn of a generated field loop, with the truncation of field numbers to 32 bits, the sign checks and the wrap-around checks, is the specification NextField on every byte string and cursor |
| Decoding.TurnRefused | pkg/storage/protocol.pb.go:2969-3046 | What a turn refuses and with which error, in the order of the checks |
| Decoding.DecodeFolds | pkg/storage/protocol.pb.go:2949-3054 | If a decodes, decoding a followed by b into m is decoding a into m and then b into the result, failures included; for every message type |
| Decoding.NextFieldAppend | pkg/storage/protocol.pb.go:2952-3053 | A field that has been read is read the same when bytes are appended, the unknown ones skipped included |
| Decoding.NextFieldShift | pkg/storage/protocol.pb.go:2952-3053 | Bytes in front of the cursor play no part in whether a field is read, in which, and in where it ends |
| Decoding.DecodeRefinesGrammar | pkg/storage/protocol.pb.go:2949-3054 | On every byte string and for every message type: the loop returns a message exactly when the bytes parse as a list of well-formed fields that mean it; so success leaves the cursor exactly at the end |
| Decoding.ReadsField | pkg/storage/protocol.pb.go:2952-3053 | A well-formed field in place is read as its token with exactly its length, or refused when its number or wire type does not fit |
| Decoding.FieldRead | pkg/storage/protocol.pb.go:2952-3053 | Whatever one turn reads is one well-formed field that means the token returned |
| Decoding.UnknownFieldIgnored | pkg/storage/protocol.pb.go:3031-3046 | Any well-formed field the message does not know, groups included, put in at a field boundary of any decodable string, changes nothing |
| Decoding.NumberKept | pkg/storage/protocol.pb.go:2969 | The field number read is the one the tag carries exactly when that is below 2^31 |
| Decoding.NumberWraps | pkg/storage/protocol.pb.go:2969 | In general the number read is the signed 32-bit number that differs from the one carried by a multiple of 2^32 |
| Decoding.TagNumberTruncated | pkg/storage/protocol.pb.go:2969 | A tag whose field number is 2^32 too large is taken for the smaller number |
| Messages.EntrySizeExact | pkg/storage/protocol.pb.go:2492-2506 | The size added up field by field is the length of the encoding of every Entry |
| Messages.EntryMerges | pkg/storage/protocol.pb.go:2949-3054 | Decoding an encoded Entry into any message is the merge of the two, field by field: a set scalar wins, an unset one leaves the old value |
| Messages.EntryRoundTrip | pkg/storage/protocol.pb.go:2949-3054 | Decoding an encoded Entry into a zero message gives it back |
| Messages.PartitionSizeExact | pkg/storage/protocol.pb.go:2699-2709 | The size added up field by field is the length of the encoding of every PartitionEvent |
| Messages.PartitionMerges | pkg/storage/protocol.pb.go:3684-3755 | Decoding an encoded PartitionEvent into any message is the merge of the two, field by field: a set scalar wins, an unset one leaves the old value |
| Messages.PartitionRoundTrip | pkg/storage/protocol.pb.go:3684-3755 | Decoding an encoded PartitionEvent into a zero message gives it back |
| Messages.LeaderSizeExact | pkg/storage/protocol.pb.go:2733-2749 | The size added up field by field is the length of the encoding of every LeaderEvent |
| Messages.LeaderMerges | pkg/storage/protocol.pb.go:3928-4064 | Decoding an encoded LeaderEvent into any message is the merge of the two, field by field: a set scalar wins, an unset one leaves the old value, an embedded message merges in turn |
| Messages.LeaderRoundTrip | pkg/storage/protocol.pb.go:3928-4064 | Decoding an encoded LeaderEvent into a zero message gives it back |
| Messages.LeaderUpdatedSizeExact | pkg/storage/protocol.pb.go:2751-2760 | The size added up field by field is the length of the encoding of every LeaderUpdatedEvent |
| Messages.LeaderUpdatedMerges | pkg/storage/protocol.pb.go:4065-4150 | Decoding an encoded LeaderUpdatedEvent into any message is the merge of the two, field by field: a set scalar wins, an unset one leaves the old value, an embedded message merges in turn |
| Messages.LeaderUpdatedRoundTrip | pkg/storage/protocol.pb.go:4065-4150 | Decoding an encoded LeaderUpdatedEvent into a zero message gives it back, three levels deep |
| Messages.SnapshotSizeExact | pkg/storage/protocol.pb.go:2762-2774 | The size added up field by field is the length of the encoding of every SnapshotEvent |
| Messages.SnapshotMerges | pkg/storage/protocol.pb.go:4151-4255 | Decoding an encoded SnapshotEvent into any message is the merge of the two, field by field: a set scalar wins, an unset one leaves the old value, an embedded message merges in turn |
| Messages.SnapshotRoundTrip | pkg/storage/protocol.pb.go:4151-4255 | Decoding an encoded SnapshotEvent into a zero message gives it back |
| Messages.SendSnapshotStartedSizeExact | pkg/storage/protocol.pb.go:2776-2789 | The size added up field by field is the length of the encoding of every SendSnapshotStartedEvent |
| Messages.SendSnapshotStartedMerges | pkg/storage/protocol.pb.go:4256-4373 | Decoding an encoded SendSnapshotStartedEvent into any message is the merge of the two, field by field: a set scalar wins, an unset one leaves the old value, an embedded message merges in turn |
| Messages.SendSnapshotStartedRoundTrip | pkg/storage/protocol.pb.go:4256-4373 | Decoding an encoded SendSnapshotStartedEvent into a zero message gives it back, three levels deep |
| Messages.ConnectionSizeExact | pkg/storage/protocol.pb.go:2905-2919 | The size added up field by field is the length of the encoding of every ConnectionEvent |
| Messages.ConnectionMerges | pkg/storage/protocol.pb.go:5263-5367 | Decoding an encoded ConnectionEvent into any message is the merge of the two, field by field: a set scalar wins, an unset one leaves the old value |
| Messages.ConnectionRoundTrip | pkg/storage/protocol.pb.go:5263-5367 | Decoding an encoded ConnectionEvent into a zero message gives it back |
| Codec.EntryMessage.Size | pkg/storage/protocol.pb.go:2492-2506 | The number returned is the exact length of what will be written |
| Codec.EntryMessage.MarshalToSizedBuffer | pkg/storage/protocol.pb.go:1425-1443 | Filling the array backwards: the encoding ends where asked, as many bytes as returned, with the bytes in front of it and behind it untouched |
| Codec.EntryMessage.Marshal | pkg/storage/protocol.pb.go:1410-1418 | A buffer of the computed size is filled from its first byte to its last with the encoding |
| Codec.EntryMessage.Unmarshal | pkg/storage/protocol.pb.go:2949-3054 | On every byte string the cursor loop, setting fields as it goes, ends with the message that the fold of fields into the old value gives, or with the same error; it never indexes or slices out of range |
| Codec.PartitionEventMessage.Size | pkg/storage/protocol.pb.go:2699-2709 | The number returned is the exact length of what will be written |
| Codec.PartitionEventMessage.MarshalToSizedBuffer | pkg/storage/protocol.pb.go:1817-1828 | Filling the array backwards: the encoding ends where asked, as many bytes as returned, with the bytes in front of it and behind it untouched |
| Codec.PartitionEventMessage.Marshal | pkg/storage/protocol.pb.go:1802-1810 | A buffer of the computed size is filled from its first byte to its last with the encoding |
| Codec.PartitionEventMessage.Unmarshal | pkg/storage/protocol.pb.go:3684-3755 | On every byte string the cursor loop, setting fields as it goes, ends with the message that the fold of fields into the old value gives, or with the same error; it never indexes or slices out of range |
| Codec.LeaderEventMessage.Size | pkg/storage/protocol.pb.go:2733-2749 | The number returned is the exact length of what will be written |
| Codec.LeaderEventMessage.MarshalToSizedBuffer | pkg/storage/protocol.pb.go:1911-1939 | Filling the array backwards: the encoding ends where asked, as many bytes as returned, with the bytes in front of it and behind it untouched |
| Codec.LeaderEventMessage.Marshal | pkg/storage/protocol.pb.go:1896-1904 | A buffer of the computed size is filled from its first byte to its last with the encoding |
| Codec.LeaderEventMessage.Unmarshal | pkg/storage/protocol.pb.go:3928-4064 | On every byte string the cursor loop, setting fields as it goes, ends with the message that the fold of fields into the old value gives, or with the same error; it never indexes or slices out of range |
| Codec.LeaderUpdatedEventMessage.Size | pkg/storage/protocol.pb.go:2751-2760 | The number returned is the exact length of what will be written |
| Codec.LeaderUpdatedEventMessage.MarshalToSizedBuffer | pkg/storage/protocol.pb.go:1956-1972 | Filling the array backwards: the encoding ends where asked, as many bytes as returned, with the bytes in front of it and behind it untouched |
| Codec.LeaderUpdatedEventMessage.Marshal | pkg/storage/protocol.pb.go:1941-1949 | A buffer of the computed size is filled from its first byte to its last with the encoding |
| Codec.LeaderUpdatedEventMessage.Unmarshal | pkg/storage/protocol.pb.go:4065-4150 | On every byte string the cursor loop, setting fields as it goes, ends with the message that the fold of fields into the old value gives, or with the same error; it never indexes or slices out of range |
| Codec.SnapshotEventMessage.Size | pkg/storage/protocol.pb.go:2762-2774 | The number returned is the exact length of what will be written |
| Codec.SnapshotEventMessage.MarshalToSizedBuffer | pkg/storage/protocol.pb.go:1989-2010 | Filling the array backwards: the encoding ends where asked, as many bytes as returned, with the bytes in front of it and behind it untouched |
| Codec.SnapshotEventMessage.Marshal | pkg/storage/protocol.pb.go:1974-1982 | A buffer of the computed size is filled from its first byte to its last with the encoding |
| Codec.SnapshotEventMessage.Unmarshal | pkg/storage/protocol.pb.go:4151-4255 | On every byte string the cursor loop, setting fields as it goes, ends with the message that the fold of fields into the old value gives, or with the same error; it never indexes or slices out of range |
| Codec.SendSnapshotStartedEventMessage.Size | pkg/storage/protocol.pb.go:2776-2789 | The number returned is the exact length of what will be written |
| Codec.SendSnapshotStartedEventMessage.MarshalToSizedBuffer | pkg/storage/protocol.pb.go:2027-2050 | Filling the array backwards: the encoding ends where asked, as many bytes as returned, with the bytes in front of it and behind it untouched |
| Codec.SendSnapshotStartedEventMessage.Marshal | pkg/storage/protocol.pb.go:2012-2020 | A buffer of the computed size is filled from its first byte to its last with the encoding |
| Codec.SendSnapshotStartedEventMessage.Unmarshal | pkg/storage/protocol.pb.go:4256-4373 | On every byte string the cursor loop, setting fields as it goes, ends with the message that the fold of fields into the old value gives, or with the same error; it never indexes or slices out of range |
| Codec.ConnectionEventMessage.Size | pkg/storage/protocol.pb.go:2905-2919 | The number returned is the exact length of what will be written |
| Codec.ConnectionEventMessage.MarshalToSizedBuffer | pkg/storage/protocol.pb.go:2390-2413 | Filling the array backwards: the encoding ends where asked, as many bytes as returned, with the bytes in front of it and behind it untouched |
| Codec.ConnectionEventMessage.Marshal | pkg/storage/protocol.pb.go:2375-2383 | A buffer of the computed size is filled from its first byte to its last with the encoding |
| Codec.ConnectionEventMessage.Unmarshal | pkg/storage/protocol.pb.go:5263-5367 | On every byte string the cursor loop, setting fields as it goes, ends with the message that the fold of fields into the old value gives, or with the same error; it never indexes or slices out of range |
| WireForms.EntrySpelt | pkg/storage/protocol.pb.go:1425-1443 | The encoding of every Entry parses as fields in strictly ascending order of their numbers, each in its shortest form: exactly the fields that are set, with their values |
| Meanings.EntryDecoded | pkg/storage/protocol.pb.go:2949-3054 | On all bytes, without the decoder: a Entry is decoded exactly from fields that fit its numbers, and has the last value of each scalar |
| WireForms.PartitionSpelt | pkg/storage/protocol.pb.go:1817-1828 | The encoding of every PartitionEvent parses as fields in strictly ascending order of their numbers, each in its shortest form: exactly the fields that are set, with their values |
| Meanings.PartitionDecoded | pkg/storage/protocol.pb.go:3684-3755 | On all bytes, without the decoder: a PartitionEvent is decoded exactly from fields that fit its numbers, and has the last value of each scalar |
| WireForms.LeaderSpelt | pkg/storage/protocol.pb.go:1911-1939 | The encoding of every LeaderEvent parses as fields in strictly ascending order of their numbers, each in its shortest form: exactly the fields that are set, with their values, and the embedded message always |
| Meanings.LeaderDecoded | pkg/storage/protocol.pb.go:3928-4064 | On all bytes, without the decoder: a LeaderEvent is decoded exactly from fields that fit its numbers and whose embedded bodies decode in turn, and has the last value of each scalar, and the embedded message that its joined bodies make |
| WireForms.LeaderUpdatedSpelt | pkg/storage/protocol.pb.go:1956-1972 | The encoding of every LeaderUpdatedEvent parses as fields in strictly ascending order of their numbers, each in its shortest form: exactly the fields that are set, with their values, and the embedded message always |
| Meanings.LeaderUpdatedDecoded | pkg/storage/protocol.pb.go:4065-4150 | On all bytes, without the decoder: a LeaderUpdatedEvent is decoded exactly from fields that fit its numbers and whose embedded bodies decode in turn, and has the last value of each scalar, and the embedded message that its joined bodies make |
| WireForms.SnapshotSpelt | pkg/storage/protocol.pb.go:1989-2010 | The encoding of every SnapshotEvent parses as fields in strictly ascending order of their numbers, each in its shortest form: exactly the fields that are set, with their values, and the embedded message always |
| Meanings.SnapshotDecoded | pkg/storage/protocol.pb.go:4151-4255 | On all bytes, without the decoder: a SnapshotEvent is decoded exactly from fields that fit its numbers and whose embedded bodies decode in turn, and has the last value of each scalar, and the embedded message that its joined bodies make |
| WireForms.SendSnapshotStartedSpelt | pkg/storage/protocol.pb.go:2027-2050 | The encoding of every SendSnapshotStartedEvent parses as fields in strictly ascending order of their numbers, each in its shortest form: exactly the fields that are set, with their values, and the embedded message always |
| Meanings.SendSnapshotStartedDecoded | pkg/storage/protocol.pb.go:4256-4373 | On all bytes, without the decoder: a SendSnapshotStartedEvent is decoded exactly from fields that fit its numbers and whose embedded bodies decode in turn, and has the last value of each scalar, and the embedded message that its joined bodies make |
| WireForms.ConnectionSpelt | pkg/storage/protocol.pb.go:2390-2413 | The encoding of every ConnectionEvent parses as fields in strictly ascending order of their numbers, each in its shortest form: exactly the fields that are set, with their values |
| Meanings.ConnectionDecoded | pkg/storage/protocol.pb.go:5263-5367 | On all bytes, without the decoder: a ConnectionEvent is decoded exactly from fields that fit its numbers, and has the last value of each scalar |
| WireForms.EntryBytes | pkg/storage/protocol.pb.go:1425-1443 | The entry with value 7 and stream id 5 is the bytes 0x0a, 1, 7, 0x10, 5: the value stands in front |
| Meanings.NumberWins | pkg/storage/protocol.pb.go:2949-3054 | Last one wins: a field set from a varint is the last one of its number, or as it was; for every message |
| Meanings.BodiesMerge | pkg/storage/protocol.pb.go:3928-4064 | Embedded messages merge: the bodies of a number, joined, decode to the embedded message; for every message |
| Codec.PutHeader | pkg/storage/protocol.pb.go:1911-1939 | Length and tag go in front of bytes that already stand in the buffer, and nothing else changes |
| Codec.PutBytesField | pkg/storage/protocol.pb.go:1425-1443 | A length-prefixed field goes in front of what stands there, unless it is empty; nothing else changes |
| Codec.PutNumberField | pkg/storage/protocol.pb.go:1425-1443 | A varint field goes in front of what stands there, unless it is zero; nothing else changes |
| ConfigCodec.ConfigMerges | pkg/storage/config/config.pb.go:381-543 | With any codec of 64-bit durations that gives back what it is given, decoding an encoded configuration into any other is their merge |
| ConfigCodec.ConfigRoundTrip | pkg/storage/config/config.pb.go:381-543 | With any such duration codec, decoding an encoded configuration into a zero one gives it back |
| ConfigCodec.ConfigSpelt | pkg/storage/config/config.pb.go:216-252 | The encoding of every configuration parses as fields 1 to 4 in ascending order: each duration that is not nil, zero included, and each threshold that is not zero |
| ConfigCodec.ConfigDecoded | pkg/storage/config/config.pb.go:381-543 | On all bytes that decode, for any duration codec: the last field of each number counts, and what has none is as it was |
| ConfigCodec.ProtocolConfigMessage.MarshalToSizedBuffer | pkg/storage/config/config.pb.go:216-252 | The backward fill writes exactly the encoding and leaves the bytes around it untouched |
| ConfigCodec.ProtocolConfigMessage.Unmarshal | pkg/storage/config/config.pb.go:381-543 | On every byte string the cursor loop ends with the message that the fold gives, or with the same error, that of the duration codec included |
| WireLaws.EntryInjective | pkg/storage/protocol.pb.go:1425-1443 | Different entries have different encodings |
| WireLaws.LeaderUpdatedInjective | pkg/storage/protocol.pb.go:1956-1972 | Different leader updates, compared three levels deep, have different encodings |
| WireLaws.SendSnapshotStartedInjective | pkg/storage/protocol.pb.go:2027-2050 | Different snapshot sends, compared three levels deep, have different encodings |
| WireLaws.EntryConcatenation | pkg/storage/protocol.pb.go:2949-3054 | Two encoded entries, one after the other, decode to their merge |
| WireLaws.LeaderUpdatedConcatenation | pkg/storage/protocol.pb.go:4065-4150 | Two encoded leader updates, one after the other, decode to their merge at every level |
| WireLaws.SendSnapshotStartedConcatenation | pkg/storage/protocol.pb.go:4256-4373 | Two encoded snapshot sends, one after the other, decode to their merge at every level |
| WireLaws.LastStreamIDWins | pkg/storage/protocol.pb.go:3012-3030 | Whatever decodable bytes come before, a stream id at the end is the one the entry has |
| WireLaws.EmbeddedPiecesMerge | pkg/storage/protocol.pb.go:4094-4126 | A leader event sent in two embedded pieces, of any bytes, is the leader event of the pieces joined, failures included |
| WireLaws.EntryIgnoresUnknown | pkg/storage/protocol.pb.go:3031-3046 | A field with a number above 2, put in at a field boundary of an entry, changes nothing |
| WireLaws.NestedUnknownIgnored | pkg/storage/protocol.pb.go:3957-3989 | An unknown field inside an embedded partition event changes nothing of the message around it, though the lengths change |
| WireLaws.DeepUnknownIgnored | pkg/storage/protocol.pb.go:4094-4126 | Nor does one in the innermost of three messages, in a leader update |
| WireLaws.EntryRefinesGrammar | pkg/storage/protocol.pb.go:2949-3054 | On every byte string: an entry is returned exactly when the bytes parse as fields that mean it |
| Placement.IsReplicaReady | pkg/controller/storage/v2beta2/cluster.go:694-713 | A pod is ready exactly when its first PodReady condition is true; a missing pod is not ready, and any other failure is an error |
| Placement.ReadyIs | pkg/controller/storage/v2beta2/cluster.go:694-713 | A pod is ready exactly when it exists and its first condition of type PodReady is there and is true |
| Placement.StartingPod | pkg/controller/storage/v2beta2/cluster.go:706-712 | A pod whose PodReady condition is false, one without conditions and one that is missing are not ready; later conditions do not count |
| Placement.Defaults | pkg/controller/storage/v2beta2/cluster.go:717-743 | The numbers of partitions, replicas, members and read-only members, given or left out |
| Placement.ReadSlots | pkg/controller/storage/v2beta2/cluster.go:656-680 | The inner loops: the pods of consecutive slots of a partition, ready exactly when all are; an error exactly when one of them cannot be read |
| Placement.GetProtocolPartitions | pkg/controller/storage/v2beta2/cluster.go:648-692 | Every partition with its voting pods, its read-only pods and its readiness, in order; an error exactly when some pod of some partition cannot be read |
| Placement.PartitionsAre | pkg/controller/storage/v2beta2/cluster.go:648-692 | The partitions are numbered from 1 on, list M voting and R read-only pods by their slots, and are ready exactly when every slot is when looked up |
| Placement.GetProtocolReplicas | pkg/controller/storage/v2beta2/cluster.go:626-646 | The readiness of every pod of the cluster in order; an error exactly when one cannot be read |
| Placement.GetReplicas | pkg/controller/storage/v2beta2/group.go:223-266 | The pods of a group, voting ones first, at the slots the partition status gives them, with their readiness; each is the pod of its RaftMember exactly when N divides R times the group id |
| Placement.MultiRaftCluster.ReconcileStatus | pkg/controller/storage/v2beta2/cluster.go:591-624 | With every pod looked up at a time of its own: an error exactly when a lookup fails, Ready exactly when all pods are when first looked up and all slots are when looked up again; stored only when changed and accepted |
| Placement.TargetIs | pkg/controller/storage/v2beta2/cluster.go:602-614 | Ready exactly when every pod is, and the pod of every slot when it is looked up again, and otherwise NotReady |
| Placement.SteadyPodsDecide | pkg/controller/storage/v2beta2/cluster.go:602-614 | While the pods stay as they are, the loop over the partitions never changes the answer and never fails where the loop over the pods has not: the cluster is Ready exactly when all its pods are |
| Placement.PartitionsChangeAnswer | pkg/controller/storage/v2beta2/cluster.go:602-614 | In general the loop over the partitions changes the answer exactly when all pods were ready and the pod of some slot, looked up again, no longer is |
| Placement.PodsLostBetween | pkg/controller/storage/v2beta2/cluster.go:602-614 | A cluster of any size whose pods all go once the first loop has found them ready: the answer becomes NotReady, and no lookup fails |
| Placement.SlotsDistinct | pkg/controller/storage/v2beta2/cluster.go:658-680 | The voting and read-only pods of a partition are pairwise distinct exactly when M + R is at most N |
| Placement.SlotsAreWheel | pkg/controller/storage/v2beta2/cluster.go:648-692 | Partition by partition, the slots go round the pods in order without a gap |
| Placement.Balanced | pkg/controller/storage/v2beta2/cluster.go:648-692 | Every pod hosts P(M + R)/N slots rounded down or up, and exactly that number when it is whole; for all counts |
| Placement.Covered | pkg/controller/storage/v2beta2/cluster.go:648-692 | Every pod is used by some partition exactly when P(M + R) is at least N |
| Placement.MemberPodAgrees | pkg/controller/storage/v2beta2/group.go:154 | The pod named in a RaftMember is the one in the group status exactly when N divides R times the group id |
| Placement.MemberPodDisagrees | pkg/controller/storage/v2beta2/group.go:154 | Three pods, two voting and one read-only member: member 0 of group 1 is created for pod 2, and its status is read from pod 0 |
| Placement.NewNodePartition | pkg/controller/storage/v2beta2/cluster.go:265-287 | The node configuration of a partition, whose read-only names overwrite the first voting ones and are themselves left empty; it panics exactly when R exceeds M |
| Placement.NodeConfigAgrees | pkg/controller/storage/v2beta2/cluster.go:272-277 | The configured voting pods are those of the status exactly when R is 0 or N divides M, and the configured read-only pods exactly when R is 0 |
| Placement.NodeConfigDisagrees | pkg/controller/storage/v2beta2/cluster.go:276 | Four pods, three voting and one read-only member: the configuration lists pods 3, 1, 2 as voting and an empty read-only name, the status 0, 1, 2 and 3 |
| Placement.AllAgree | pkg/controller/storage/v2beta2/cluster.go:265-287 | Without read-only members the cluster status, the protocol status, the group status, the RaftMember and the node configuration name the same voting pods |
| Placement.VotersStay | pkg/controller/storage/v2beta2/protocol.go:304-315 | An edit of the number of read-only members leaves the voters of a partition where they are exactly when N divides the change times the partition id, or there are no voters |
| Placement.AllVotersStay | pkg/controller/storage/v2beta2/protocol.go:304-315 | It leaves the voters of all partitions where they are exactly when N divides the change, or there are no voters |
| Placement.NoOverflow | pkg/controller/storage/v2beta2/cluster.go:658-672 | With non-negative 32-bit fields no placement expression reaches 2^63 |
| GroupStatus.RaftGroup.ReconcileStatus | pkg/controller/storage/v2beta2/group.go:169-221 | One pass: the fold over the voting members in order, stored only when something has changed, every lookup has succeeded and the server accepts; otherwise the stored status is untouched |
| GroupStatus.FoldTerm | pkg/controller/storage/v2beta2/group.go:199-204 | The term ends at the maximum of the old one and those of all members |
| GroupStatus.FoldLeader | pkg/controller/storage/v2beta2/group.go:199-210 | The leader in closed form: the old one if the term stays; if it rises, the first one reported from the first member at the new term on |
| GroupStatus.PassTerm | pkg/controller/storage/v2beta2/group.go:169-221 | A pass never lowers the term, takes it to that maximum, and sets the state to Ready exactly when all replicas are |
| GroupStatus.SettledAfterOne | pkg/controller/storage/v2beta2/group.go:169-221 | With pods and members unchanged, a second pass does nothing exactly when the first left a leader or no member has one |
| GroupStatus.SettledAfterTwo | pkg/controller/storage/v2beta2/group.go:169-221 | With pods and members unchanged, the third pass changes nothing, whatever the status was |
| GroupStatus.NewTermSettles | pkg/controller/storage/v2beta2/group.go:169-221 | When the greatest member term is news and every member at it has a leader, one pass suffices and takes the leader of the lowest-numbered such member |
| GroupStatus.StaleLeaderPublished | pkg/controller/storage/v2beta2/group.go:206-210 | A member at term 3 can supply the leader published with term 5 by the pass that raises the term |
| GroupStatus.StaleLeaderPublishedLater | pkg/controller/storage/v2beta2/group.go:206-210 | It can also supply it to the pass after the one that has raised the term and found no leader |
| GroupStatus.LeaderIsCurrent | pkg/controller/storage/v2beta2/group.go:199-210 | Every pass that does not find a leader for its term publishes one reported at that term exactly when, from the first member at a raised term on, or from the first of all, no member behind the term reports one before a member at it does |
| GroupStatus.LeaderKept | pkg/controller/storage/v2beta2/group.go:206-210 | Every other pass keeps the leader it finds |
| GroupStatus.LeadersCurrentThroughout | pkg/controller/storage/v2beta2/group.go:169-221 | Over any run from a status without a leader, the published leader was reported at the published term at every point exactly when in every pass that published one no member behind the term came first |
| GroupStatus.RunKeepsLeader | pkg/controller/storage/v2beta2/group.go:169-221 | Over any run of passes and failures the term never decreases, and within a term a published leader stays |
| GroupStatus.OneLeaderPerTerm | pkg/controller/storage/v2beta2/group.go:169-221 | Over any run, whatever members report, any two leaders ever published with the same term are equal |
| MemberStatus.RaftMember.UpdateMemberStatus | pkg/controller/storage/v2beta2/member.go:600-635 | Field by field, a raised term clears the leader before an offered one is set, four fields only grow, the others take what is offered |
| MemberStatus.RaftMember.RecordPartitionReady | pkg/controller/storage/v2beta2/member.go:309-335 | The member is Ready, the time of its last update is the later one, and nothing else is touched |
| MemberStatus.RaftMember.RecordLeaderUpdated | pkg/controller/storage/v2beta2/member.go:337-380 | The role is Leader exactly when the event names this pod, even from a term gone by; the term ends at the higher one; a leader named is taken, and one known before is forgotten only when none is named and the term rises; nothing else is touched but the time of the update |
| MemberStatus.RaftMember.RecordSnapshot | pkg/controller/storage/v2beta2/member.go:434-548 | Index, snapshot time and update time each end at the greater of old and new, and nothing else is touched |
| MemberStatus.RaftMember.ReconcileStatus | pkg/controller/storage/v2beta2/member.go:101-137 | The state becomes NotReady exactly when the first PodReady condition is not true; written only when changed and accepted, and a pod that is missing is an error |
| MemberStatus.StateIs | pkg/controller/storage/v2beta2/member.go:110-118 | NotReady exactly when the first condition of type PodReady is there and is not true |
| MemberStatus.StartingPodNotReady | pkg/controller/storage/v2beta2/member.go:110-118 | A member whose pod is starting again becomes NotReady |
| MemberStatus.MemberStateAgrees | pkg/controller/storage/v2beta2/member.go:101-118 | Whatever the server answers for the pod, the member is Ready just when its group finds its pod ready, exactly when a pod that exists has a PodReady condition and one that cannot be read was not Ready before |
| MemberStatus.MemberStateDisagrees | pkg/controller/storage/v2beta2/member.go:101-118 | A pod without conditions makes its member Ready, and a ready pod that is deleted leaves its member Ready: neither pod is ready |
| MemberStatus.RunMaximum | pkg/controller/storage/v2beta2/member.go:600-635 | After any run, term, last update, last snapshot index and last snapshot time are each the greatest value ever known or offered |
| MemberStatus.OrderIrrelevant | pkg/controller/storage/v2beta2/member.go:600-635 | Two orders of the same updates leave these four fields the same |
| MemberStatus.LeaderNamesItself | pkg/controller/storage/v2beta2/member.go:357-376 | Over any run in any order, a member of a named pod in the role of leader has its own pod as the leader |
| MemberStatus.NamelessLeader | pkg/controller/storage/v2beta2/member.go:357-376 | With an empty pod name, an event without a leader makes the member leader of nothing |
| MemberStatus.StepKeepsLeaderCurrent | pkg/controller/storage/v2beta2/member.go:601-609 | One event leaves the leader one that was carried at the current term exactly when it is not a leader from a term gone by |
| MemberStatus.LeaderCurrentThroughout | pkg/controller/storage/v2beta2/member.go:357-376 | At every point of a run a set leader was carried by an event of exactly the current term, exactly when no leader arrives behind a later term |
| MemberStatus.LateLeaderTaken | pkg/controller/storage/v2beta2/member.go:601-609 | A leader of term 3 that arrives behind term 5 becomes the leader of term 5 |
| MemberStatus.TrackedIsRun | pkg/controller/storage/v2beta2/member.go:600-635 | The run with the history of the leader recorded is the run without it |
| Creation.Store.ReconcileCluster | pkg/controller/storage/v2beta2/protocol.go:103-130 | A pass creates the cluster exactly when it is missing |
| Creation.Store.ReconcileGroups | pkg/controller/storage/v2beta2/cluster.go:161-202 | A pass creates the first missing of the groups 1 to P, under its id, and no other object |
| Creation.Store.ReconcileMembers | pkg/controller/storage/v2beta2/group.go:118-167 | A pass creates the first missing of the M + R members and no other object: on pod (M g + id) mod N, and read-only exactly when its id is M or more |
| Creation.RunKeepsInv | pkg/controller/storage/v2beta2/group.go:118-167 | Over every interleaving with lagging lookups, whatever exists is desired, has the content its key calls for, and was created once |
| Creation.QuiescentIsComplete | pkg/controller/storage/v2beta2/cluster.go:161-202 | No reconciler that can start has a missing child exactly when everything desired exists |
| Creation.CreationConverges | pkg/controller/storage/v2beta2/protocol.go:103-130 | Over every interleaving of any number of workers: at most 1 + P + P(M + R) creates succeed, no name twice, nothing undesired, and nothing is left to do exactly when everything desired exists |
| Creation.PassCreates | pkg/controller/storage/v2beta2/group.go:118-167 | A pass of an idle worker that nobody disturbs leaves the store as the reconciler's loop does, with the first missing child created, and the worker idle |
| Creation.IdleWorkerCreates | pkg/controller/storage/v2beta2/group.go:118-167 | While something is missing, an idle worker has a way on that creates just one more object, with the content its key calls for: the reconcilers cannot get stuck |
| Creation.QuiescentForGood | pkg/controller/storage/v2beta2/protocol.go:103-130 | Once nothing is left to do, no further steps of any worker change the store |
| Creation.EndIsComplete | pkg/controller/storage/v2beta2/protocol.go:103-130 | With an idle worker, no continuation of a run changes the store exactly when everything desired exists |
| Creation.StoreHolds | pkg/controller/storage/v2beta2/group.go:118-167 | Over every run: a stored member is one of the M + R of a group of the P, on pod (M g + id) mod N, read-only exactly when its id is M or more; a stored group is one of the P and has its id |
| Creation.EndHolds | pkg/controller/storage/v2beta2/group.go:118-167 | At the end of a run there are the cluster, the groups 1 to P, and of each group exactly M voting and R read-only members |
| Revisions.IsReplicasSame | pkg/controller/storage/v2beta2/protocol.go:194-206 | True exactly when the replicas have the same ids in the same order |
| Revisions.IsReplicasChanged | pkg/controller/storage/v2beta2/protocol.go:208-223 | False exactly when ids and readiness are all the same |
| Revisions.IsPartitionsSame | pkg/controller/storage/v2beta2/protocol.go:225-245 | True exactly when ids and voting replicas are the same, partition by partition; read replicas are not looked at |
| Revisions.IsPartitionsChanged | pkg/controller/storage/v2beta2/protocol.go:247-270 | False exactly when ids, voting replicas and readiness are the same; read replicas are not looked at |
| Revisions.MultiRaftProtocol.ReconcileStatus | pkg/controller/storage/v2beta2/protocol.go:132-192 | A pass writes exactly when something compared differs, and moves the revision on exactly when a name does; a failed lookup or refused update stores nothing |
| Revisions.PassSettles | pkg/controller/storage/v2beta2/protocol.go:132-192 | After a pass a second one over the same observation does nothing |
| Revisions.PassIs | pkg/controller/storage/v2beta2/protocol.go:151-186 | A pass publishes all it observes unless nothing compared differs, and moves the revision on by one exactly when there was none or a name differs |
| Revisions.SameTopologyIs | pkg/controller/storage/v2beta2/protocol.go:157-164 | Two statuses have one topology exactly when replicas, partitions and voters have the same names in the same order |
| Revisions.ReadReplicas | pkg/controller/storage/v2beta2/protocol.go:151-154 | The partitions observed are published exactly when something compared differs or they were published already |
| Revisions.EditMissed | pkg/controller/storage/v2beta2/protocol.go:247-270 | Exactly which edits of a specification are never published: those that keep pods, partitions and voters in number, change the number of read-only members, if there are voters, by a multiple of the number of pods, and leave readiness as it was |
| Revisions.ReadReplicasMissed | pkg/controller/storage/v2beta2/protocol.go:247-270 | One pod, one partition and one voter: a read-only member is added, the placement lists it, and the status does not change |
| Revisions.RevisionCounts | pkg/controller/storage/v2beta2/protocol.go:151-164 | Over any run from the empty status, the revision is exactly the number of times the published names have changed |
| Revisions.RevisionFixesTopology | pkg/controller/storage/v2beta2/protocol.go:151-164 | Over any run, revisions never go back, and equal revisions mean equal names of replicas and voters |
| Locks.ThroughKeepsConsistent | pkg/storage/partition.go:74-116 | A well-used operation of the read-write lock keeps it consistent: it knows exactly who holds it, and a writer is alone |
| Watching.StepKeepsLock | pkg/storage/partition.go:74-116 | Every step of a watcher or an updater uses the lock well |
| Watching.ChannelsStayOpen | pkg/storage/partition.go:74-116 | Over every interleaving, raced ids included: no send on and no second close of a closed channel, and a listed channel is open unless its own goroutine holds the write lock |
| Watching.WatcherSeesAllInOrder | pkg/storage/partition.go:74-116 | Over every interleaving, a watcher whose id is its own has had every version behind its registration without a gap and in order, with one snapshot that is current where it stands; while it is registered and no update is being sent, what it had last is the current version |
| Watching.StepKeepsWatch | pkg/storage/partition.go:74-116 | The invariant behind it, step by step: what is pending for a watcher is exactly one version, while an update is being sent |
| Watching.CancelGoesThrough | pkg/storage/partition.go:105-114 | From every state in which the lock is free, a watcher that is done can close its channel and be unlisted, with nothing else changed |
| Watching.UnracedWatchersSeeAll | pkg/storage/partition.go:99-116 | The same of every watcher, whenever no two calls of WatchConfig take their ids at once |
| Watching.NoOverlapKeepsIDs | pkg/storage/partition.go:100-101 | Over such a run no id is given twice and the counter does not fall behind |
| Watching.OverlapCanShare | pkg/storage/partition.go:100-101 | Conversely, from any state in which two calls take an id at once there is a way on in which they share one |
| Watching.SharedIDLosesOne | pkg/storage/partition.go:99-116 | Of two registered watchers with one id, at least one is never sent an update again, over every continuation |
| Watching.RaceLosesWatcher | pkg/storage/partition.go:100-104 | Two calls that race to one id: one watcher stays subscribed and open, and an update passes it by |
| Publishing.NoSendOnClosed | pkg/storage/events.go:46-69 | Over every interleaving of listen, overlapping publishes and cancel, raced ids included: no send on a closed channel, no channel closed twice, and a listed channel is open unless its own goroutine holds the write lock |
| Publishing.PublishedOnceToAll | pkg/storage/events.go:62-69 | When a publish has gone through, every channel then listed has the event exactly once, even with other publishes in between |
| Publishing.DeliveredInOrder | pkg/storage/events.go:62-69 | Over every interleaving, every listener has the events of one publisher in the order in which it published them |
| Publishing.HistoryGrows | pkg/storage/events.go:62-69 | Over every run, what a listener has received is what it begins with at any later time |
| Publishing.StepGrows | pkg/storage/events.go:62-69 | A step changes what a listener has received only by a send to it, while it is listed and open, which puts the event at the end |
| Publishing.PublishGoesThrough | pkg/storage/events.go:62-69 | From every state a run comes to, a publisher that is sending can go on alone until it has sent to all |
| Publishing.TwoEvents | pkg/storage/events.go:46-69 | A listener listens, gets two events in the order in which they are published, and cancels: its channel is closed once and it is unlisted |
| Publishing.RunKeepsAll | pkg/storage/events.go:46-69 | The lock, the channels and the deliveries keep their invariants over every run |
| Streams.StreamManager.AddStream | pkg/storage/streams.go:29-36 | The id is the next one, with wrap-around at 2^64, and the stream is listed under it |
| Streams.StreamManager.RemoveStream | pkg/storage/streams.go:39-43 | The id is no longer listed, every other one is as before, and ids are not given back |
| Streams.StreamManager.GetStream | pkg/storage/streams.go:46-54 | The stream listed under the id, or the nil stream |
| Streams.StateMachine.Update | pkg/storage/fsm.go:35-47 | An entry that decodes is applied with its value and the stream its id looks up; one that does not changes nothing and is an error |
| Streams.EntriesReachTheirOwn | pkg/storage/partition.go:119-136 | With fewer than 2^64 calls, over every interleaving of add, propose, remove, commit, foreign proposals and apply: no id is given twice, what decodes is applied once and in the order of the log, an entry proposed here goes with its own input to its own stream exactly while its call waits and otherwise to the nil stream, and any entry goes to the stream of the call that waits under its id, if there is one |
| Streams.ApplyRoutes | pkg/storage/fsm.go:35-47 | Any bytes that decode, those of other nodes included, are applied to the stream of a call exactly when this call waits and its id is the one in the entry |
| Streams.LocalEntryRouted | pkg/storage/fsm.go:35-47 | An entry proposed here always decodes, and is handed to its own call exactly while this waits, and otherwise to nobody |
| Streams.RoutingKept | pkg/storage/fsm.go:44 | Over every run, streams here get nothing but entries proposed here exactly when no entry of another node was applied while a call here waited under its id |
| Streams.LocalEntryTwice | pkg/storage/partition.go:119-136 | An entry applied twice, while its call waits and after it has returned: first to its own stream, then to the nil stream |
| Streams.ForeignEntryReachesStream | pkg/storage/fsm.go:44 | An entry proposed by another node can reach the stream of a call of this one: ids do not say whose they are |
| NodeIDs.SortIsCanonical | pkg/storage/protocol.go:160-166 | Any two enumerations of the same distinct replicas sort to the same list |
| NodeIDs.LessIsPrecedes | pkg/storage/protocol.go:164-166 | The order of ids is that of strings: they agree up to a place where one ends or has the smaller character |
| NodeIDs.NodesAre | pkg/storage/protocol.go:73-147 | Node k is the replica at index k - 1, by its id and its address, and there is no other node |
| NodeIDs.AscendingUnique | pkg/storage/protocol.go:164-166 | There is only one ascending order of given replicas |
| NodeIDs.NodeIDsAre | pkg/storage/protocol.go:98-101 | With distinct ids, the node id of the i-th replica is i + 1, and nothing else has one |
| NodeIDs.IDsInverse | pkg/storage/protocol.go:73-101 | With distinct ids, the maps from node to member and from member to node are each other's inverse |
| NodeIDs.Protocol.SetReplicas | pkg/storage/protocol.go:160-170 | Whatever order the map hands the replicas out in, the same replicas are kept, each id before the next in the order of strings |
| NodeIDs.Protocol.GetMemberID | pkg/storage/protocol.go:59-82 | From the cache or not, the id of the replica so numbered, or the empty string; the caches stay right |
| NodeIDs.Protocol.GetNodeID | pkg/storage/protocol.go:84-107 | From the cache or not, the number of the replica of that id, or 0; the caches stay right |
| NodeIDs.Protocol.GetAPIAddresses | pkg/storage/protocol.go:130-149 | From the cache or not, the address of every node by number; the caches stay right |
| NodeIDs.Followers | pkg/storage/partition.go:82-87 | Whatever order the map is ranged over in, the addresses collected and the leader's are together the multiset of all addresses |
| NodeIDs.SortStrings | pkg/storage/partition.go:88-90 | The followers in the order of strings, none lost and none added |
| NodeIDs.Partition.UpdateConfig | pkg/storage/partition.go:74-92 | The configuration: the replica that is named leads with its address, and all others follow, in the order of strings, as often as they occur; where none is named so, nobody leads and all follow |
| NodeIDs.Partition.LeaderUpdated | pkg/storage/protocol.go:254-265 | A leader event for node k, through the listener, the loop in Start and both maps: with a term and a named node, k's address becomes the leader and all others followers; otherwise the configuration is as it was |
| NodeIDs.Partition.LeaderEvents | pkg/storage/protocol.go:254-265 | Over all events of a partition: the leader is that of the last event taken up, and the configuration is untouched when none was |
| NodeIDs.LastTakenUpIsSome | pkg/storage/protocol.go:255-256 | There is such an event exactly when some event has a term and names a node |
| NodeIDs.LeaderlessEvent | pkg/storage/protocol.go:255-256 | An event that says that nobody leads leaves nobody leading exactly when no event before it was taken up |
| NodeIDs.AlwaysFollowed | pkg/storage/protocol.go:254-265 | Over a run of events, the leader in force behind each is the one it tells of, exactly when every event is taken up or tells what the one before it told |
| NodeIDs.LeaderStays | pkg/storage/protocol.go:255-256 | Node 1 leads in term 1 and term 2 begins without a leader: node 1 stays the leader in the configuration |

## Left out

- Varints.DecodeVarint: is one method for the loops that the generated code repeats for every tag, length and number; the narrower accumulators (uint32 for a partition, int for a length or a bool) are taken from the 64-bit one where the field is set.
- Decoding.ReadField: likewise stands for the head of every generated field loop, with the switch on the field number as a parameter.
- Codec.EntryMessage.Unmarshal: says nothing of what the fields hold after an error, for a caller discards the message; the same goes for the other messages.
- Codec.EntryMessage.MarshalToSizedBuffer: takes the end of a buffer where the source takes a slice of it that ends there; the same goes for the other messages.
- Messages.EntryRoundTrip: takes a nil and an empty byte slice for the same value, and strings as byte sequences; the same goes for the other messages. Encodings of 2^63 bytes and more, which no Go slice holds, are excluded by the requires.
- RaftEvent with its oneof wrappers and timestamp, and the remaining event messages: their codecs repeat the shapes modelled.
- The Size, Marshal and Equal methods of ProtocolConfig: repeat the shapes modelled; the duration codec is a library's, and is a parameter.
- Placement.GetReplicas: runs the two loops over voting and read-only members as one over all slots.
- Pods are known by their ordinal, not by the name formatted from it; hosts, ports and labels of the statuses are not modelled.
- Negative fields of a cluster's specification: Go panics on the negative length, and NonNegative excludes them.
- MemberStatus.RaftMember.RecordLeaderUpdated: a member that cannot be read and the retries after a refused update are not modelled, only the update that is accepted; times are integers, without the whole seconds that the API server keeps.
- MemberStatus.RaftMember.UpdateMemberStatus: the source sets pointers that differ though they point to equal values, which leaves the same status.
- Creation.CreationConverges: is for one protocol object with a fixed specification and no deletions, and stale lookups that miss an object that exists, not ones that show an object that does not.
- Watching.WatcherSeesAllInOrder: is about watchers with an id of their own, which calls that do not overlap all have (`UnracedWatchersSeeAll`) and calls that race need not (`SharedIDLosesOne`).
- Decoding.NextFieldShift: does not say that the error is the same one behind a prefix, for a length can then run into the sign check instead of the end of the slice; nor does Decoding.DecodeFolds.
- NodeIDs.Partition.LeaderUpdated: takes an event through the channel at once, and is about the configuration, not about the partitions that Start counts before it returns; a partition without a client, where the source dereferences nil, is not part of it.
- Watching and Publishing are about safety: a send waits for nobody, and so says nothing of slow or departed receivers; every call brings a channel of its own.
- Streams.EntriesReachTheirOwn: is for one lifetime of the process, and promises an entry of another node, or of the time before a restart, no more than the stream that waits under its id; consensus is an arbitrary log of proposals.
- NodeIDs.Protocol.SetReplicas: is an insertion sort in place of the library's sort, which by `AscendingUnique` has the same result; getRaftAddresses repeats getAPIAddresses.
- The rest of Start, the server, queries, snapshots and Dragonboat itself.
- Kubernetes: watches, owner references, templates, event recording, and the monitoring streams of a member.
