/** Fixed-width integers and the big-endian reading the offsets consumer applies to record keys. */
module Binary {
  import opened Results

  /** Go's `byte`. */
  newtype byte = x: int | 0 <= x < 0x100

  /** Go's `int16`, `int32` and `int64`. */
  newtype int16 = x: int | -0x8000 <= x < 0x8000
  newtype int32 = x: int | -0x8000_0000 <= x < 0x8000_0000
  newtype int64 = x: int | -0x8000_0000_0000_0000 <= x < 0x8000_0000_0000_0000

  /** The signed 16-bit integer whose two's-complement big-endian form is `hi, lo`. */
  function Int16FromBE(hi: byte, lo: byte): (v: int16)
    ensures v < 0 <==> hi as int >= 0x80
  {
    var u := hi as int * 0x100 + lo as int;
    (if u >= 0x8000 then u - 0x1_0000 else u) as int16
  }

  /** The two bytes that encode `v` in two's-complement big-endian form. */
  function Int16ToBE(v: int16): (bs: seq<byte>)
    ensures |bs| == 2
    ensures v < 0 <==> bs[0] as int >= 0x80
  {
    var u := if v < 0 then v as int + 0x1_0000 else v as int;
    [(u / 0x100) as byte, (u % 0x100) as byte]
  }

  /** Encoding a version and reading it back gives the version. */
  lemma Int16RoundTrip(v: int16)
    ensures Int16FromBE(Int16ToBE(v)[0], Int16ToBE(v)[1]) == v
  {
  }

  /** Every pair of bytes is the encoding of the version read from it. */
  lemma Int16BytesRoundTrip(hi: byte, lo: byte)
    ensures Int16ToBE(Int16FromBE(hi, lo)) == [hi, lo]
  {
  }

  /**
   * Reads a big-endian `int16` from the front of a buffer, returning it with the
   * rest of the buffer, or `None` when fewer than two bytes are available.
   */
  function ReadInt16(buf: seq<byte>): (r: Option<(int16, seq<byte>)>)
    ensures r.None? <==> |buf| < 2
    ensures r.Some? ==> buf == Int16ToBE(r.value.0) + r.value.1
  {
    if |buf| < 2 then None
    else
      Int16BytesRoundTrip(buf[0], buf[1]);
      assert buf == [buf[0], buf[1]] + buf[2..];
      Some((Int16FromBE(buf[0], buf[1]), buf[2..]))
  }

  /** A read consumes exactly the two bytes of an encoded version and leaves the rest untouched. */
  lemma ReadInt16OfEncoded(v: int16, rest: seq<byte>)
    ensures ReadInt16(Int16ToBE(v) + rest) == Some((v, rest))
  {
  }

  /** 0xFF 0xFF reads as -1, 0x80 0x00 as the least `int16`, 0x00 0x02 as 2, and a one-byte buffer has no `int16`. */
  lemma ReadInt16Examples()
    ensures ReadInt16([0xFF, 0xFF]) == Some((-1, []))
    ensures ReadInt16([0x80, 0x00, 0x07]) == Some((-0x8000, [0x07]))
    ensures ReadInt16([0x00, 0x02]) == Some((2, []))
    ensures ReadInt16([0x01]) == None
  {
  }
}
