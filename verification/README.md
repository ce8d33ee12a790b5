# Offset-topic record dispatch of kafka-minion

A Dafny model of how kafka-minion's offset consumer treats each record it reads from
Kafka's `__consumer_offsets` topic, and of the per-partition loop that feeds those
records through it. For each record the consumer, in order:

1. drops a record with an empty value as a tombstone, whatever its key;
2. reads a big-endian signed 16-bit key version from the first two key bytes, giving up
   with "no key version" when the key is shorter;
3. dispatches on the version: 0 or 1 decode an offset commit, and a successful decode
   sends exactly one entry to the storage channel; 2 decodes group metadata, which is
   never sent to the storage channel; any other version, negative ones included, is
   reported as unknown.

Modules, leaves first:

- `Results` (`results.dfy`): `Option` and `Result`, standing in for Go's possibly-nil
  results and `(value, error)` pairs.
- `Binary` (`binary.dfy`): bytes, `int16`/`int32`/`int64`, and `ReadInt16`, the
  big-endian read of `binary.Read` on a key buffer, with its inverse `Int16ToBE`.
- `Entries` (`entries.dfy`): the decoded entities and `Decoders`, the two body decoders
  `newOffsetEntry` and `newOffsetGroupMetadata`. Those decoders are not part of this
  model. They are passed in as function values, so every property holds for any
  decoders. Each decoder receives the key bytes after the version and the whole value.
- `OffsetConsumer` (`offset_consumer.dfy`): `ProcessMessage`, which classifies one record
  into an `Outcome`; `ProcessKeyAndOffset`; `Emitted`, what an outcome sends to the
  storage channel; and one lemma per dispatch branch.
- `PartitionFold` (`partition.dfy`): the partition loop as a fold over a sequence of
  records, and `PartitionConsumer`, the same loop written as a `while` loop. The
  ordering property is stated by `IsSourceOrderSelection`: the emitted entries are the
  decoded commits at strictly increasing record positions, and every record that decodes
  to a commit is among them.

Three points about the code itself. The group decoder's result is discarded
(kafka/offset_consumer.go:166-169), so the model keeps it in the `GroupMetadataRead`
outcome and never emits it. A key shorter than two bytes is logged as "no key version"
(kafka/offset_consumer.go:139), hence the outcome `NoKeyVersion`. The consumer has no
life-cycle state and no shutdown method, so neither is modelled.

## Model

| member | source | states |
|---|---|---|
| `Binary.ReadInt16` | kafka/offset_consumer.go:134-141 | the read fails exactly when the key has fewer than two bytes; otherwise the key is the two-byte big-endian encoding of the version read, followed by the rest of the buffer |
| `Binary.ReadInt16OfEncoded` | kafka/offset_consumer.go:135-137 | reading an encoded version gives that version and leaves exactly the bytes after it, so the decoders see the key with two bytes consumed |
| `Binary.Int16RoundTrip` | kafka/offset_consumer.go:135-137 | encoding an `int16` big-endian in two's complement and reading it back gives the same `int16` |
| `Binary.Int16BytesRoundTrip` | kafka/offset_consumer.go:135-137 | every pair of key bytes is the encoding of the version read from it, so no two byte pairs read as the same version |
| `Binary.ReadInt16Examples` | kafka/offset_consumer.go:135-141 | 0xFF 0xFF reads as -1, 0x80 0x00 as -32768, 0x00 0x02 as 2, and a one-byte key has no version |
| `OffsetConsumer.ProcessKeyAndOffset` | kafka/offset_consumer.go:156-164 | the entry is nil exactly when an error is returned; a present entry is the decoder's result and a present error is the decoder's error |
| `OffsetConsumer.ProcessMessage` | kafka/offset_consumer.go:125-154 | a record is a tombstone exactly when its value is empty; it has no key version exactly when the value is non-empty and the key shorter than two bytes; a commit or failed commit comes from a key whose first two bytes read as version 0 or 1 and carries the offset decoder's result on the key after those bytes; group metadata comes from version 2 and carries the group decoder's result on the same bytes; an unknown version is the version read from the key and is neither 0, 1 nor 2 |
| `OffsetConsumer.Emitted` | kafka/offset_consumer.go:142-148 | a record sends at most one entry to the storage channel, and sends one exactly when it decoded to an offset commit, namely that commit's entry |
| `OffsetConsumer.TombstoneIgnoresKey` | kafka/offset_consumer.go:128-132 | a record with an empty value is a tombstone and emits nothing whatever its key bytes are |
| `OffsetConsumer.ShortKeyHasNoVersion` | kafka/offset_consumer.go:135-141 | a non-empty record whose key is shorter than two bytes fails with no key version and emits nothing |
| `OffsetConsumer.DispatchOnEncodedVersion` | kafka/offset_consumer.go:142-153 | for a key made of an encoded version and a rest, version 0 or 1 gives the offset decoder's result on the rest, version 2 gives the group decoder's result on the rest, and any other version is reported unknown with that version |
| `OffsetConsumer.CommitEmitsDecodedEntry` | kafka/offset_consumer.go:143-148 | version 0 or 1 with a successful offset decode sends exactly the decoded entry |
| `OffsetConsumer.FailedCommitEmitsNothing` | kafka/offset_consumer.go:144-147 | version 0 or 1 with a failed offset decode yields that decoder error and sends nothing |
| `OffsetConsumer.GroupMetadataEmitsNothing` | kafka/offset_consumer.go:149-150 | version 2 hands the key rest and value to the group decoder and sends nothing, whatever that decoder returns |
| `OffsetConsumer.UnknownVersionReported` | kafka/offset_consumer.go:151-152 | any version outside 0, 1 and 2, negative ones included, is reported as unknown with the observed version and sends nothing |
| `OffsetConsumer.AllOnesKeyIsUnknown` | kafka/offset_consumer.go:135-152 | a key starting 0xFF 0xFF reads version -1 and is reported as an unknown version |
| `OffsetConsumer.EmitsIffDecodedCommit` | kafka/offset_consumer.go:128-154 | a record emits exactly when its value is non-empty, its key has a version, that version is 0 or 1, and the offset decoder succeeds on the rest of the key |
| `PartitionFold.Emissions` | kafka/offset_consumer.go:112-115 | processing a run of outcomes emits at most one entry per outcome |
| `PartitionFold.ProcessPartition` | kafka/offset_consumer.go:112-115 | processing a partition's records emits no more entries than there are records |
| `PartitionFold.ProcessPartitionAppend` | kafka/offset_consumer.go:112-115 | processing two batches one after the other emits the first batch's entries followed by the second's |
| `PartitionFold.PartitionConsumer` | kafka/offset_consumer.go:108-122 | the loop emits the fold's entries, and they are the decoded commits in strictly increasing record order, each from its own record and none missing |
| `PartitionFold.SelectionDeterminesEmissions` | kafka/offset_consumer.go:112-115 | any sequence of entries that is a source-order selection of all the partition's decoded commits is exactly what the partition emits |
| `PartitionFold.SelectionDeterminesFold` | kafka/offset_consumer.go:112-115 | a source-order selection of all decoded commits in a run of outcomes equals the entries that run sends at kafka/offset_consumer.go:148 |
| `PartitionFold.GroupDecoderNeverReachesStorage` | kafka/offset_consumer.go:166-169 | two decoder sets that agree on the offset decoder send the same entries for any partition, so the group metadata decoder never influences the storage channel |
| `PartitionFold.MixedPartitionExample` | kafka/offset_consumer.go:112-154 | a partition holding a tombstone, a commit, group metadata, version 5, a failing commit and another commit sends exactly the two decoded entries, in record order |

## Left out

- Cluster connection, consumer creation, partition enumeration and the panics on their
  failure (kafka/offset_consumer.go:33-105): I/O through the sarama client library.
- The goroutine per partition, the `sync.WaitGroup`, the `quitChannel` branch, the
  consume-error branch and `AsyncClose` (kafka/offset_consumer.go:98-99, 108-122): the
  model is the sequential per-message fold only, without interleavings or cancellation
  timing. Records are the messages a partition consumer delivers, in delivery order.
- The storage channel's blocking send: sending is appending to the emitted sequence.
- Logging through logrus, including the record's topic, partition and offset, which the
  code uses only in log fields.
- The byte layouts of `newOffsetEntry` and `newOffsetGroupMetadata`: they are not part
  of this model, so the decoders are parameters. A decoder that returns a nil entry
  with a nil error is not representable with `Result`. The code would dereference that
  nil entry at kafka/offset_consumer.go:161.
- The fields of the decoded entities beyond an offset commit's group, topic, partition
  and offset and a group snapshot's group. The code shown reads only those four offset
  fields (kafka/offset_consumer.go:161) and never reads the group snapshot, whose `group` field is
  assumed. The Go
  `OffsetEntry` type is not part of this model, so the `int32` partition and `int64`
  offset widths are assumed.
