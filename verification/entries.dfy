/**
 * The decoded entities of the `__consumer_offsets` topic and the body decoders that
 * produce them. The decoders' byte layouts belong to `newOffsetEntry` and
 * `newOffsetGroupMetadata`, which are not part of this model: they are carried as
 * function values so that every property below holds for whatever decoders are used.
 */
module Entries {
  import opened Results
  import opened Binary

  /** One consumer group's committed offset for one topic partition. */
  datatype OffsetEntry = OffsetEntry(group: string, topic: string, partition: int32, offset: int64)

  /**
   * A consumer group's membership snapshot. The offsets consumer discards it, so only
   * the group it belongs to is kept.
   */
  datatype GroupMetadata = GroupMetadata(group: string)

  /** The error a body decoder reports. */
  datatype DecodeError = DecodeError(reason: string)

  /**
   * The two body decoders. Each receives the key bytes that follow the 2-byte key
   * version, and the whole value.
   */
  datatype Decoders = Decoders(
    offsetEntry: (seq<byte>, seq<byte>) -> Result<OffsetEntry, DecodeError>,
    groupMetadata: (seq<byte>, seq<byte>) -> Result<GroupMetadata, DecodeError>)
}
