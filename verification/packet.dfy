/** The 6-byte touch status packet read from register 0x01 and the touch
    record the driver decodes it into.

    Layout: byte 0 gesture code, byte 1 number of touch points, byte 2 the
    event in bits 6-7 and the top four bits of x in bits 0-3, byte 3 the low
    eight bits of x, byte 4 the top four bits of y in bits 0-3, byte 5 the
    low eight bits of y. Bits 4-5 of byte 2 and bits 4-7 of byte 4 are not
    read. */
module TouchPacket {

  /** The decoded touch record. Coordinates are 12-bit values held in
      16-bit words. */
  datatype TouchData = TouchData(gestureID: bv8, points: bv8, event: bv8, x: bv16, y: bv16)

  /** The record every decode produces: a 2-bit event and 12-bit coordinates. */
  predicate InRange(t: TouchData) {
    t.event < 4 && t.x < 0x1000 && t.y < 0x1000
  }

  /** A packet whose unread bits are all zero. */
  predicate Canonical(b: seq<bv8>)
    requires |b| == 6
  {
    b[2] & 0x30 == 0 && b[4] & 0xF0 == 0
  }

  /** The bits of the packet that decoding reads; unread bits cleared. */
  function ReadBits(b: seq<bv8>): (c: seq<bv8>)
    requires |b| == 6
    ensures |c| == 6 && Canonical(c)
    ensures Canonical(b) ==> c == b
  {
    [b[0], b[1], b[2] & 0xCF, b[3], b[4] & 0x0F, b[5]]
  }

  /** A 12-bit coordinate from the low nibble of `hi` and all of `lo`,
      added as the driver does. The two parts share no bit, so the sum is
      their bitwise or, and both parts can be read back from it. */
  function Coordinate(hi: bv8, lo: bv8): (c: bv16)
    ensures c < 0x1000
    ensures c == (((hi & 0x0F) as bv16) << 8) | lo as bv16
    ensures (c >> 8) as bv8 == hi & 0x0F && (c & 0xFF) as bv8 == lo
  {
    (((hi & 0x0F) as bv16) << 8) + lo as bv16
  }

  /** Decoding of a status packet (read_touch). */
  function Decode(b: seq<bv8>): (t: TouchData)
    requires |b| == 6
    ensures InRange(t)
    ensures t.gestureID == b[0] && t.points == b[1]
    ensures t.event == (b[2] & 0xC0) >> 6
  {
    TouchData(b[0], b[1], b[2] >> 6, Coordinate(b[2], b[3]), Coordinate(b[4], b[5]))
  }

  /** The canonical packet for a touch record: the unread bits are zero. */
  function Encode(t: TouchData): (b: seq<bv8>)
    requires InRange(t)
    ensures |b| == 6 && Canonical(b)
    ensures b[0] == t.gestureID && b[1] == t.points
  {
    [ t.gestureID,
      t.points,
      (t.event << 6) | (t.x >> 8) as bv8,
      (t.x & 0xFF) as bv8,
      (t.y >> 8) as bv8,
      (t.y & 0xFF) as bv8 ]
  }

  /** Encoding then decoding returns every field of an in-range record. */
  lemma DecodeEncode(t: TouchData)
    requires InRange(t)
    ensures Decode(Encode(t)) == t
  {
  }

  /** Decoding then encoding returns the packet with its unread bits
      cleared; so on canonical packets Decode and Encode are inverses. */
  lemma EncodeDecode(b: seq<bv8>)
    requires |b| == 6
    ensures Encode(Decode(b)) == ReadBits(b)
  {
  }

  /** Bits 4-5 of byte 2 and the high nibble of byte 4 have no effect on
      any decoded field: packets that agree on the read bits decode alike,
      and conversely packets that decode alike agree on the read bits. */
  lemma DecodeSeesOnlyReadBits(b: seq<bv8>, b': seq<bv8>)
    requires |b| == 6 && |b'| == 6
    ensures Decode(b) == Decode(b') <==> ReadBits(b) == ReadBits(b')
  {
    EncodeDecode(b);
    EncodeDecode(b');
  }

  /** A sample packet 02 01 C3 FF 41 10 decodes to gesture 2, one point,
      event 3, x = 0x3FF and y = 0x110. */
  lemma DecodeExample()
    ensures Decode([0x02, 0x01, 0xC3, 0xFF, 0x41, 0x10]) == TouchData(2, 1, 3, 0x3FF, 0x110)
  {
  }
}
