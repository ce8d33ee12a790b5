/**
 * The per-partition loop: every record the partition consumer delivers is processed
 * in turn, and the storage channel receives the emitted entries in record order.
 */
module PartitionFold {
  import opened Results
  import opened Binary
  import opened Entries
  import opened OffsetConsumer

  /** The outcome of each record of a partition, position by position. */
  function Outcomes(d: Decoders, records: seq<Record>): (outs: seq<Outcome>)
    ensures |outs| == |records|
    ensures forall i :: 0 <= i < |records| ==> outs[i] == ProcessMessage(d, records[i])
  {
    seq(|records|, i requires 0 <= i < |records| => ProcessMessage(d, records[i]))
  }

  /** The entries a sequence of outcomes sends to the storage channel, in order. */
  function Emissions(outs: seq<Outcome>): (emitted: seq<OffsetEntry>)
    ensures |emitted| <= |outs|
  {
    if outs == [] then [] else Emitted(outs[0]) + Emissions(outs[1..])
  }

  /** The entries sent to the storage channel while processing `records` in order. */
  function ProcessPartition(d: Decoders, records: seq<Record>): (emitted: seq<OffsetEntry>)
    ensures |emitted| <= |records|
  {
    Emissions(Outcomes(d, records))
  }

  /**
   * `positions` lists, in increasing order, exactly the positions whose outcome is a
   * decoded offset commit, and `emitted[j]` is the entry decoded at `positions[j]`.
   */
  ghost predicate IsSourceOrderSelection(outs: seq<Outcome>, emitted: seq<OffsetEntry>, positions: seq<int>)
  {
    && |positions| == |emitted|
    && (forall j :: 0 <= j < |positions| ==>
          0 <= positions[j] < |outs| && outs[positions[j]] == OffsetCommit(emitted[j]))
    && (forall j, k :: 0 <= j < k < |positions| ==> positions[j] < positions[k])
    && (forall i :: 0 <= i < |outs| && outs[i].OffsetCommit? ==> i in positions)
  }

  /** Emissions of two runs of outcomes, one after the other, concatenate. */
  lemma {:induction false} EmissionsAppend(a: seq<Outcome>, b: seq<Outcome>)
    ensures Emissions(a + b) == Emissions(a) + Emissions(b)
    decreases |a|
  {
    if a == [] {
      assert a + b == b;
    } else {
      assert (a + b)[0] == a[0];
      assert (a + b)[1..] == a[1..] + b;
      EmissionsAppend(a[1..], b);
    }
  }

  /** Processing two batches of records one after the other emits the concatenation of their emissions. */
  lemma ProcessPartitionAppend(d: Decoders, a: seq<Record>, b: seq<Record>)
    ensures ProcessPartition(d, a + b) == ProcessPartition(d, a) + ProcessPartition(d, b)
  {
    assert Outcomes(d, a + b) == Outcomes(d, a) + Outcomes(d, b);
    EmissionsAppend(Outcomes(d, a), Outcomes(d, b));
  }

  /** One more outcome extends a selection by its position exactly when it is a decoded commit. */
  lemma SelectionStep(outs: seq<Outcome>, o: Outcome, emitted: seq<OffsetEntry>, positions: seq<int>)
    requires IsSourceOrderSelection(outs, emitted, positions)
    ensures o.OffsetCommit? ==> IsSourceOrderSelection(outs + [o], emitted + [o.entry], positions + [|outs|])
    ensures !o.OffsetCommit? ==> IsSourceOrderSelection(outs + [o], emitted, positions)
  {
  }

  /**
   * The per-message loop of one partition consumer: it returns the entries sent to the
   * storage channel and, as a proof witness, the position of the record each came from.
   */
  method PartitionConsumer(d: Decoders, records: seq<Record>) returns (emitted: seq<OffsetEntry>, ghost positions: seq<nat>)
    ensures emitted == ProcessPartition(d, records)
    ensures IsSourceOrderSelection(Outcomes(d, records), emitted, positions)
  {
    ghost var outs := Outcomes(d, records);
    emitted, positions := [], [];
    var i := 0;
    while i < |records|
      invariant 0 <= i <= |records|
      invariant emitted == Emissions(outs[..i])
      invariant IsSourceOrderSelection(outs[..i], emitted, positions)
    {
      var outcome := ProcessMessage(d, records[i]);
      assert outs[..i + 1] == outs[..i] + [outcome];
      EmissionsAppend(outs[..i], [outcome]);
      SelectionStep(outs[..i], outcome, emitted, positions);
      if outcome.OffsetCommit? {
        emitted := emitted + [outcome.entry];
        positions := positions + [i];
      }
      i := i + 1;
    }
    assert outs[..i] == outs;
  }

  /** Every position moved one place earlier. */
  function Shift(positions: seq<int>): (r: seq<int>)
    ensures |r| == |positions|
    ensures forall k :: 0 <= k < |r| ==> r[k] == positions[k] - 1
  {
    seq(|positions|, k requires 0 <= k < |positions| => positions[k] - 1)
  }

  /** A selection from outcomes that start with a commit starts with that commit's entry; its rest selects from the tail. */
  lemma SelectionAfterEmittingHead(outs: seq<Outcome>, emitted: seq<OffsetEntry>, positions: seq<int>)
    requires IsSourceOrderSelection(outs, emitted, positions)
    requires outs != [] && outs[0].OffsetCommit?
    ensures emitted != [] && emitted[0] == outs[0].entry
    ensures IsSourceOrderSelection(outs[1..], emitted[1..], Shift(positions[1..]))
  {
  }

  /** A selection from outcomes that start with a non-commit selects, shifted, from the tail. */
  lemma SelectionAfterSkippingHead(outs: seq<Outcome>, emitted: seq<OffsetEntry>, positions: seq<int>)
    requires IsSourceOrderSelection(outs, emitted, positions)
    requires outs != [] && !outs[0].OffsetCommit?
    ensures IsSourceOrderSelection(outs[1..], emitted, Shift(positions))
  {
  }

  /** A source-order selection of the decoded commits of a run of outcomes is exactly what the run emits. */
  lemma {:induction false} SelectionDeterminesFold(outs: seq<Outcome>, emitted: seq<OffsetEntry>, positions: seq<int>)
    requires IsSourceOrderSelection(outs, emitted, positions)
    ensures emitted == Emissions(outs)
    decreases |outs|
  {
    if outs == [] {
      // no outcome, so no position and nothing emitted
    } else if outs[0].OffsetCommit? {
      SelectionAfterEmittingHead(outs, emitted, positions);
      SelectionDeterminesFold(outs[1..], emitted[1..], Shift(positions[1..]));
      assert emitted == [emitted[0]] + emitted[1..];
    } else {
      SelectionAfterSkippingHead(outs, emitted, positions);
      SelectionDeterminesFold(outs[1..], emitted, Shift(positions));
    }
  }

  /**
   * The selection characterises the emissions completely: any sequence of entries that
   * is a source-order selection of the partition's decoded commits is what it emits.
   */
  lemma SelectionDeterminesEmissions(d: Decoders, records: seq<Record>, emitted: seq<OffsetEntry>, positions: seq<int>)
    requires IsSourceOrderSelection(Outcomes(d, records), emitted, positions)
    ensures emitted == ProcessPartition(d, records)
  {
    SelectionDeterminesFold(Outcomes(d, records), emitted, positions);
  }

  /** Runs of outcomes that emit the same entries position by position emit the same sequence. */
  lemma {:induction false} EmissionsPointwise(outs1: seq<Outcome>, outs2: seq<Outcome>)
    requires |outs1| == |outs2|
    requires forall i :: 0 <= i < |outs1| ==> Emitted(outs1[i]) == Emitted(outs2[i])
    ensures Emissions(outs1) == Emissions(outs2)
    decreases |outs1|
  {
    if outs1 != [] {
      assert Emitted(outs1[0]) == Emitted(outs2[0]);
      EmissionsPointwise(outs1[1..], outs2[1..]);
    }
  }

  /** Only the offset decoder influences the storage channel: replacing the group metadata decoder changes nothing. */
  lemma GroupDecoderNeverReachesStorage(d1: Decoders, d2: Decoders, records: seq<Record>)
    requires forall k, v :: d1.offsetEntry(k, v) == d2.offsetEntry(k, v)
    ensures ProcessPartition(d1, records) == ProcessPartition(d2, records)
  {
    var outs1, outs2 := Outcomes(d1, records), Outcomes(d2, records);
    forall i | 0 <= i < |records|
      ensures Emitted(outs1[i]) == Emitted(outs2[i])
    {
      var key, value := records[i].key, records[i].value;
      if |value| > 0 && |key| >= 2 {
        assert d1.offsetEntry(key[2..], value) == d2.offsetEntry(key[2..], value);
      }
    }
    EmissionsPointwise(outs1, outs2);
  }

  /**
   * A partition holding a tombstone, a committed offset, group metadata, a record of
   * version 5, a commit that fails to decode and another committed offset sends exactly
   * the two decoded entries, in order.
   */
  lemma MixedPartitionExample(
    d: Decoders, key: seq<byte>, value: seq<byte>, rest1: seq<byte>, rest2: seq<byte>, rest3: seq<byte>,
    e1: OffsetEntry, e2: OffsetEntry)
    requires |value| > 0
    requires d.offsetEntry(rest1, value) == Success(e1)
    requires d.offsetEntry(rest2, value).Failure?
    requires d.offsetEntry(rest3, value) == Success(e2)
    ensures ProcessPartition(d, [
        Record(key, []),
        Record(Int16ToBE(0) + rest1, value),
        Record(Int16ToBE(GroupMetadataVersion) + rest2, value),
        Record(Int16ToBE(5) + rest3, value),
        Record(Int16ToBE(1) + rest2, value),
        Record(Int16ToBE(1) + rest3, value)]) == [e1, e2]
  {
    var records := [
      Record(key, []),
      Record(Int16ToBE(0) + rest1, value),
      Record(Int16ToBE(GroupMetadataVersion) + rest2, value),
      Record(Int16ToBE(5) + rest3, value),
      Record(Int16ToBE(1) + rest2, value),
      Record(Int16ToBE(1) + rest3, value)];
    CommitEmitsDecodedEntry(d, 0, rest1, value, e1);
    GroupMetadataEmitsNothing(d, rest2, value);
    UnknownVersionReported(d, 5, rest3, value);
    FailedCommitEmitsNothing(d, 1, rest2, value);
    CommitEmitsDecodedEntry(d, 1, rest3, value, e2);
    var outs := Outcomes(d, records);
    assert Emissions(outs[5..]) == [e2];
    assert Emissions(outs[4..]) == [e2];
    assert Emissions(outs[3..]) == [e2];
    assert Emissions(outs[2..]) == [e2];
    assert Emissions(outs[1..]) == [e1, e2];
  }
}
