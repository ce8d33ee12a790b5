/**
 * Classification and dispatch of one record of the `__consumer_offsets` topic:
 * tombstones are dropped, the big-endian `int16` key version selects the body
 * decoder, and only a successfully decoded offset commit reaches the storage channel.
 */
module OffsetConsumer {
  import opened Results
  import opened Binary
  import opened Entries

  /** A raw record as delivered by the partition consumer. */
  datatype Record = Record(key: seq<byte>, value: seq<byte>)

  /** Everything that can become of one record. */
  datatype Outcome =
    | Tombstone
    | NoKeyVersion
    | OffsetCommit(entry: OffsetEntry)
    | OffsetDecodeFailed(error: DecodeError)
    | GroupMetadataRead(decoded: Result<GroupMetadata, DecodeError>)
    | UnknownVersion(version: int16)

  /** Key versions 0 and 1 carry offset commits, key version 2 carries group metadata. */
  predicate IsOffsetCommitVersion(v: int16) {
    v == 0 || v == 1
  }

  const GroupMetadataVersion: int16 := 2

  /**
   * Decodes an offset commit from the key bytes after the version and the value,
   * returning a Go-style pair in which exactly one side is present.
   */
  function ProcessKeyAndOffset(d: Decoders, keyRest: seq<byte>, value: seq<byte>)
    : (r: (Option<OffsetEntry>, Option<DecodeError>))
    ensures r.0.None? <==> r.1.Some?
    ensures r.0.Some? ==> d.offsetEntry(keyRest, value) == Success(r.0.value)
    ensures r.1.Some? ==> d.offsetEntry(keyRest, value) == Failure(r.1.value)
  {
    match d.offsetEntry(keyRest, value)
    case Failure(err) => (None, Some(err))
    case Success(entry) => (Some(entry), None)
  }

  /** The outcome of processing one record. */
  function ProcessMessage(d: Decoders, msg: Record): (o: Outcome)
    ensures o.Tombstone? <==> |msg.value| == 0
    ensures o.NoKeyVersion? <==> |msg.value| > 0 && |msg.key| < 2
    ensures o.UnknownVersion? ==>
      && |msg.key| >= 2 && o.version == Int16FromBE(msg.key[0], msg.key[1])
      && !IsOffsetCommitVersion(o.version) && o.version != GroupMetadataVersion
    ensures o.OffsetCommit? ==>
      && |msg.key| >= 2 && IsOffsetCommitVersion(Int16FromBE(msg.key[0], msg.key[1]))
      && d.offsetEntry(msg.key[2..], msg.value) == Success(o.entry)
    ensures o.OffsetDecodeFailed? ==>
      && |msg.key| >= 2 && IsOffsetCommitVersion(Int16FromBE(msg.key[0], msg.key[1]))
      && d.offsetEntry(msg.key[2..], msg.value) == Failure(o.error)
    ensures o.GroupMetadataRead? ==>
      && |msg.key| >= 2 && Int16FromBE(msg.key[0], msg.key[1]) == GroupMetadataVersion
      && o.decoded == d.groupMetadata(msg.key[2..], msg.value)
  {
    if |msg.value| == 0 then
      Tombstone
    else
      match ReadInt16(msg.key)
      case None => NoKeyVersion
      case Some((version, keyRest)) =>
        if IsOffsetCommitVersion(version) then
          var (entry, err) := ProcessKeyAndOffset(d, keyRest, msg.value);
          if err.Some? then OffsetDecodeFailed(err.value) else OffsetCommit(entry.value)
        else if version == GroupMetadataVersion then
          GroupMetadataRead(d.groupMetadata(keyRest, msg.value))
        else
          UnknownVersion(version)
  }

  /** What an outcome sends to the storage channel: at most one entry, and only for a decoded commit. */
  function Emitted(o: Outcome): (es: seq<OffsetEntry>)
    ensures |es| <= 1
    ensures es != [] <==> o.OffsetCommit?
    ensures o.OffsetCommit? ==> es == [o.entry]
  {
    if o.OffsetCommit? then [o.entry] else []
  }

  /** An empty value is a tombstone whatever the key, and emits nothing. */
  lemma TombstoneIgnoresKey(d: Decoders, key1: seq<byte>, key2: seq<byte>)
    ensures ProcessMessage(d, Record(key1, [])) == ProcessMessage(d, Record(key2, [])) == Tombstone
    ensures Emitted(ProcessMessage(d, Record(key1, []))) == []
  {
  }

  /** A non-empty record whose key is shorter than two bytes has no key version and emits nothing. */
  lemma ShortKeyHasNoVersion(d: Decoders, key: seq<byte>, value: seq<byte>)
    requires |value| > 0 && |key| < 2
    ensures ProcessMessage(d, Record(key, value)) == NoKeyVersion
    ensures Emitted(ProcessMessage(d, Record(key, value))) == []
  {
  }

  /**
   * For a key made of an encoded version followed by `rest`, the dispatch depends on
   * the version alone and the decoders receive exactly `rest`.
   */
  lemma DispatchOnEncodedVersion(d: Decoders, version: int16, rest: seq<byte>, value: seq<byte>)
    requires |value| > 0
    ensures var o := ProcessMessage(d, Record(Int16ToBE(version) + rest, value));
      && (IsOffsetCommitVersion(version) ==>
            match d.offsetEntry(rest, value)
            case Success(e) => o == OffsetCommit(e)
            case Failure(err) => o == OffsetDecodeFailed(err))
      && (version == GroupMetadataVersion ==> o == GroupMetadataRead(d.groupMetadata(rest, value)))
      && (!IsOffsetCommitVersion(version) && version != GroupMetadataVersion ==> o == UnknownVersion(version))
  {
    ReadInt16OfEncoded(version, rest);
  }

  /** A version 0 or 1 record whose offset decodes sends exactly the decoded entry. */
  lemma CommitEmitsDecodedEntry(d: Decoders, version: int16, rest: seq<byte>, value: seq<byte>, e: OffsetEntry)
    requires |value| > 0 && IsOffsetCommitVersion(version)
    requires d.offsetEntry(rest, value) == Success(e)
    ensures Emitted(ProcessMessage(d, Record(Int16ToBE(version) + rest, value))) == [e]
  {
    DispatchOnEncodedVersion(d, version, rest, value);
  }

  /** A version 0 or 1 record whose offset fails to decode sends nothing. */
  lemma FailedCommitEmitsNothing(d: Decoders, version: int16, rest: seq<byte>, value: seq<byte>)
    requires |value| > 0 && IsOffsetCommitVersion(version)
    requires d.offsetEntry(rest, value).Failure?
    ensures ProcessMessage(d, Record(Int16ToBE(version) + rest, value)) == OffsetDecodeFailed(d.offsetEntry(rest, value).error)
    ensures Emitted(ProcessMessage(d, Record(Int16ToBE(version) + rest, value))) == []
  {
    DispatchOnEncodedVersion(d, version, rest, value);
  }

  /** A group metadata record is handed to the group decoder and never sends anything. */
  lemma GroupMetadataEmitsNothing(d: Decoders, rest: seq<byte>, value: seq<byte>)
    requires |value| > 0
    ensures ProcessMessage(d, Record(Int16ToBE(GroupMetadataVersion) + rest, value))
         == GroupMetadataRead(d.groupMetadata(rest, value))
    ensures Emitted(ProcessMessage(d, Record(Int16ToBE(GroupMetadataVersion) + rest, value))) == []
  {
    DispatchOnEncodedVersion(d, GroupMetadataVersion, rest, value);
  }

  /** Any other version, negative ones included, is reported with the version seen and sends nothing. */
  lemma UnknownVersionReported(d: Decoders, version: int16, rest: seq<byte>, value: seq<byte>)
    requires |value| > 0
    requires !IsOffsetCommitVersion(version) && version != GroupMetadataVersion
    ensures ProcessMessage(d, Record(Int16ToBE(version) + rest, value)) == UnknownVersion(version)
    ensures Emitted(ProcessMessage(d, Record(Int16ToBE(version) + rest, value))) == []
  {
    DispatchOnEncodedVersion(d, version, rest, value);
  }

  /** The key bytes 0xFF 0xFF read as version -1, which is unknown. */
  lemma AllOnesKeyIsUnknown(d: Decoders, rest: seq<byte>, value: seq<byte>)
    requires |value| > 0
    ensures ProcessMessage(d, Record([0xFF, 0xFF] + rest, value)) == UnknownVersion(-1)
  {
    assert Int16ToBE(-1) == [0xFF, 0xFF];
    UnknownVersionReported(d, -1, rest, value);
  }

  /** A record emits something exactly when it is a non-tombstone with version 0 or 1 whose offset decodes. */
  lemma EmitsIffDecodedCommit(d: Decoders, msg: Record)
    ensures Emitted(ProcessMessage(d, msg)) != [] <==>
      && |msg.value| > 0
      && |msg.key| >= 2
      && IsOffsetCommitVersion(Int16FromBE(msg.key[0], msg.key[1]))
      && d.offsetEntry(msg.key[2..], msg.value).Success?
  {
  }
}
