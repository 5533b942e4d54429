/** The 16-bit frame check sequence of HDLC framing (RFC 1662, appendix C).

`CrcByte` is the table-driven step of the sender and of the decoder.  It is proved equal to the
bit-serial CRC with reflected polynomial 0x8408, and the frame check sequence built from it is
proved to detect every error burst of at most sixteen bits, at every frame length.
 */
module Fcs16 {

  const INIT_FCS: bv16 := 0xffff
  const GOOD_FCS: bv16 := 0xf0b8

  //
  // The lookup table, eight entries to a row.
  //

  function Row(k: bv8, a: bv16, b: bv16, c: bv16, d: bv16, e: bv16, f: bv16, g: bv16, h: bv16): bv16 {
    if k < 4 then if k < 2 then if k == 0 then a else b else if k == 2 then c else d
    else if k < 6 then if k == 4 then e else f else if k == 6 then g else h
  }

  function Quarter0(i: bv8): bv16 {
    var k := i & 7;
    match (i >> 3) & 7
    case 0 => Row(k, 0x0000, 0x1189, 0x2312, 0x329b, 0x4624, 0x57ad, 0x6536, 0x74bf)
    case 1 => Row(k, 0x8c48, 0x9dc1, 0xaf5a, 0xbed3, 0xca6c, 0xdbe5, 0xe97e, 0xf8f7)
    case 2 => Row(k, 0x1081, 0x0108, 0x3393, 0x221a, 0x56a5, 0x472c, 0x75b7, 0x643e)
    case 3 => Row(k, 0x9cc9, 0x8d40, 0xbfdb, 0xae52, 0xdaed, 0xcb64, 0xf9ff, 0xe876)
    case 4 => Row(k, 0x2102, 0x308b, 0x0210, 0x1399, 0x6726, 0x76af, 0x4434, 0x55bd)
    case 5 => Row(k, 0xad4a, 0xbcc3, 0x8e58, 0x9fd1, 0xeb6e, 0xfae7, 0xc87c, 0xd9f5)
    case 6 => Row(k, 0x3183, 0x200a, 0x1291, 0x0318, 0x77a7, 0x662e, 0x54b5, 0x453c)
    case _ => Row(k, 0xbdcb, 0xac42, 0x9ed9, 0x8f50, 0xfbef, 0xea66, 0xd8fd, 0xc974)
  }

  function Quarter1(i: bv8): bv16 {
    var k := i & 7;
    match (i >> 3) & 7
    case 0 => Row(k, 0x4204, 0x538d, 0x6116, 0x709f, 0x0420, 0x15a9, 0x2732, 0x36bb)
    case 1 => Row(k, 0xce4c, 0xdfc5, 0xed5e, 0xfcd7, 0x8868, 0x99e1, 0xab7a, 0xbaf3)
    case 2 => Row(k, 0x5285, 0x430c, 0x7197, 0x601e, 0x14a1, 0x0528, 0x37b3, 0x263a)
    case 3 => Row(k, 0xdecd, 0xcf44, 0xfddf, 0xec56, 0x98e9, 0x8960, 0xbbfb, 0xaa72)
    case 4 => Row(k, 0x6306, 0x728f, 0x4014, 0x519d, 0x2522, 0x34ab, 0x0630, 0x17b9)
    case 5 => Row(k, 0xef4e, 0xfec7, 0xcc5c, 0xddd5, 0xa96a, 0xb8e3, 0x8a78, 0x9bf1)
    case 6 => Row(k, 0x7387, 0x620e, 0x5095, 0x411c, 0x35a3, 0x242a, 0x16b1, 0x0738)
    case _ => Row(k, 0xffcf, 0xee46, 0xdcdd, 0xcd54, 0xb9eb, 0xa862, 0x9af9, 0x8b70)
  }

  function Quarter2(i: bv8): bv16 {
    var k := i & 7;
    match (i >> 3) & 7
    case 0 => Row(k, 0x8408, 0x9581, 0xa71a, 0xb693, 0xc22c, 0xd3a5, 0xe13e, 0xf0b7)
    case 1 => Row(k, 0x0840, 0x19c9, 0x2b52, 0x3adb, 0x4e64, 0x5fed, 0x6d76, 0x7cff)
    case 2 => Row(k, 0x9489, 0x8500, 0xb79b, 0xa612, 0xd2ad, 0xc324, 0xf1bf, 0xe036)
    case 3 => Row(k, 0x18c1, 0x0948, 0x3bd3, 0x2a5a, 0x5ee5, 0x4f6c, 0x7df7, 0x6c7e)
    case 4 => Row(k, 0xa50a, 0xb483, 0x8618, 0x9791, 0xe32e, 0xf2a7, 0xc03c, 0xd1b5)
    case 5 => Row(k, 0x2942, 0x38cb, 0x0a50, 0x1bd9, 0x6f66, 0x7eef, 0x4c74, 0x5dfd)
    case 6 => Row(k, 0xb58b, 0xa402, 0x9699, 0x8710, 0xf3af, 0xe226, 0xd0bd, 0xc134)
    case _ => Row(k, 0x39c3, 0x284a, 0x1ad1, 0x0b58, 0x7fe7, 0x6e6e, 0x5cf5, 0x4d7c)
  }

  function Quarter3(i: bv8): bv16 {
    var k := i & 7;
    match (i >> 3) & 7
    case 0 => Row(k, 0xc60c, 0xd785, 0xe51e, 0xf497, 0x8028, 0x91a1, 0xa33a, 0xb2b3)
    case 1 => Row(k, 0x4a44, 0x5bcd, 0x6956, 0x78df, 0x0c60, 0x1de9, 0x2f72, 0x3efb)
    case 2 => Row(k, 0xd68d, 0xc704, 0xf59f, 0xe416, 0x90a9, 0x8120, 0xb3bb, 0xa232)
    case 3 => Row(k, 0x5ac5, 0x4b4c, 0x79d7, 0x685e, 0x1ce1, 0x0d68, 0x3ff3, 0x2e7a)
    case 4 => Row(k, 0xe70e, 0xf687, 0xc41c, 0xd595, 0xa12a, 0xb0a3, 0x8238, 0x93b1)
    case 5 => Row(k, 0x6b46, 0x7acf, 0x4854, 0x59dd, 0x2d62, 0x3ceb, 0x0e70, 0x1ff9)
    case 6 => Row(k, 0xf78f, 0xe606, 0xd49d, 0xc514, 0xb1ab, 0xa022, 0x92b9, 0x8330)
    case _ => Row(k, 0x7bc7, 0x6a4e, 0x58d5, 0x495c, 0x3de3, 0x2c6a, 0x1ef1, 0x0f78)
  }

  function Table(i: bv8): bv16 {
    if i < 0x80 then if i < 0x40 then Quarter0(i) else Quarter1(i)
    else if i < 0xc0 then Quarter2(i) else Quarter3(i)
  }

  function Xor(x: bv16, y: bv16): bv16 {
    x ^ y
  }

  function CrcByte(crc: bv16, c: bv8): bv16 {
    Xor(crc >> 8, Table((Xor(crc, c as bv16) & 0xff) as bv8))
  }

  function Crc(crc: bv16, data: seq<bv8>): bv16
    decreases data
  {
    if data == [] then crc else Crc(CrcByte(crc, data[0]), data[1..])
  }

  /** The two octets that follow the data: the complemented CRC, low octet first. */
  function Tail(crc: bv16): seq<bv8> {
    var fcs := crc ^ INIT_FCS;
    [(fcs & 0xff) as bv8, (fcs >> 8) as bv8]
  }

  //
  // The bit-serial reference: one shift per bit, least significant bit of each octet first.
  //

  function BitStep(crc: bv16): bv16 {
    if crc & 1 == 1 then (crc >> 1) ^ 0x8408 else crc >> 1
  }

  function SerialBit(crc: bv16, bit: bv16): bv16 {
    BitStep(Xor(crc, bit & 1))
  }

  function SerialByte(crc: bv16, c: bv8): bv16 {
    var b := c as bv16;
    var c4 := SerialBit(SerialBit(SerialBit(SerialBit(crc, b), b >> 1), b >> 2), b >> 3);
    SerialBit(SerialBit(SerialBit(SerialBit(c4, b >> 4), b >> 5), b >> 6), b >> 7)
  }

  function SerialCrc(crc: bv16, data: seq<bv8>): bv16
    decreases data
  {
    if data == [] then crc else SerialCrc(SerialByte(crc, data[0]), data[1..])
  }

  //
  // Table and bit-serial form agree.
  //

  function Shift8(crc: bv16): bv16 {
    BitStep(BitStep(BitStep(BitStep(BitStep(BitStep(BitStep(BitStep(crc))))))))
  }

  lemma QuarterIsShift8(i: bv8)
    ensures i < 0x40 ==> Quarter0(i) == Shift8(i as bv16)
    ensures 0x40 <= i < 0x80 ==> Quarter1(i) == Shift8(i as bv16)
  {
  }

  lemma UpperQuarterIsShift8(i: bv8)
    ensures 0x80 <= i < 0xc0 ==> Quarter2(i) == Shift8(i as bv16)
    ensures 0xc0 <= i ==> Quarter3(i) == Shift8(i as bv16)
  {
  }

  /** Each table entry is its own index shifted through the polynomial eight times. */
  lemma TableIsShift8(i: bv8)
    ensures Table(i) == Shift8(i as bv16)
  {
    QuarterIsShift8(i);
    UpperQuarterIsShift8(i);
  }

  lemma XorAssoc(x: bv16, y: bv16, z: bv16)
    ensures Xor(x, Xor(y, z)) == Xor(Xor(x, y), z)
  {
  }

  lemma XorShift(x: bv16, y: bv16)
    ensures (x ^ y) >> 1 == (x >> 1) ^ (y >> 1)
  {
  }

  lemma XorLowBit(x: bv16, y: bv16)
    ensures (x ^ y) & 1 == (x & 1) ^ (y & 1)
  {
  }

  lemma LowBit(x: bv16)
    ensures x & 1 == 0 || x & 1 == 1
  {
  }

  lemma XorCancel(x: bv16, y: bv16, z: bv16)
    ensures (x ^ z) ^ (y ^ z) == x ^ y
  {
  }

  lemma XorMoveLeft(x: bv16, y: bv16, z: bv16)
    ensures (x ^ z) ^ y == (x ^ y) ^ z
  {
  }

  lemma XorMoveRight(x: bv16, y: bv16, z: bv16)
    ensures x ^ (y ^ z) == (x ^ y) ^ z
  {
  }

  /** The shift register is linear over exclusive or. */
  lemma BitStepLinear(x: bv16, y: bv16)
    ensures BitStep(Xor(x, y)) == Xor(BitStep(x), BitStep(y))
  {
    XorShift(x, y);
    XorLowBit(x, y);
    LowBit(x);
    LowBit(y);
    XorCancel(x >> 1, y >> 1, 0x8408);
    XorMoveLeft(x >> 1, y >> 1, 0x8408);
    XorMoveRight(x >> 1, y >> 1, 0x8408);
  }

  lemma Shift8Linear(x: bv16, y: bv16)
    ensures Shift8(Xor(x, y)) == Xor(Shift8(x), Shift8(y))
  {
    BitStepLinear(x, y);
    var x1, y1 := BitStep(x), BitStep(y);
    BitStepLinear(x1, y1);
    var x2, y2 := BitStep(x1), BitStep(y1);
    BitStepLinear(x2, y2);
    var x3, y3 := BitStep(x2), BitStep(y2);
    BitStepLinear(x3, y3);
    var x4, y4 := BitStep(x3), BitStep(y3);
    BitStepLinear(x4, y4);
    var x5, y5 := BitStep(x4), BitStep(y4);
    BitStepLinear(x5, y5);
    var x6, y6 := BitStep(x5), BitStep(y5);
    BitStepLinear(x6, y6);
    BitStepLinear(BitStep(x6), BitStep(y6));
  }

  /** An octet in the upper half of the register only moves down: no feedback reaches it. */
  lemma Shift8HighOctet(b: bv16)
    requires b < 0x100
    ensures Shift8(b << 8) == b
  {
  }

  lemma SplitOctets(x: bv16)
    ensures x == Xor(x & 0xff, (x >> 8) << 8)
  {
  }

  lemma LowOctet(x: bv16)
    ensures ((x & 0xff) as bv8) as bv16 == x & 0xff
  {
  }

  lemma XorCommutes(x: bv16, y: bv16)
    ensures Xor(x, y) == Xor(y, x)
  {
  }

  lemma HighOctetUntouched(crc: bv16, c: bv8)
    ensures crc >> 8 == Xor(crc, c as bv16) >> 8
  {
  }

  /** One table step is eight polynomial shifts of the register with the octet mixed in. */
  lemma CrcByteIsShift8(crc: bv16, c: bv8)
    ensures CrcByte(crc, c) == Shift8(Xor(crc, c as bv16))
  {
    var x := Xor(crc, c as bv16);
    SplitOctets(x);
    Shift8Linear(x & 0xff, (x >> 8) << 8);
    Shift8HighOctet(x >> 8);
    XorCommutes(Shift8(x & 0xff), x >> 8);
    LowOctet(x);
    TableIsShift8((x & 0xff) as bv8);
    HighOctetUntouched(crc, c);
  }

  lemma SplitLowBit(b: bv16)
    ensures b == Xor(b & 1, (b >> 1) << 1)
  {
  }

  lemma BitStepEven(b: bv16)
    ensures BitStep((b >> 1) << 1) == b >> 1
  {
  }

  /** Feeding the low bit of `b` leaves the remaining bits of `b` waiting in the register. */
  lemma SerialBitOfMixed(crc: bv16, b: bv16)
    ensures BitStep(Xor(crc, b)) == Xor(SerialBit(crc, b), b >> 1)
  {
    SplitLowBit(b);
    XorAssoc(crc, b & 1, (b >> 1) << 1);
    BitStepLinear(Xor(crc, b & 1), (b >> 1) << 1);
    BitStepEven(b);
  }

  lemma ShiftTwice(b: bv16)
    ensures (b >> 1) >> 1 == b >> 2 && (b >> 2) >> 1 == b >> 3 && (b >> 3) >> 1 == b >> 4
    ensures (b >> 4) >> 1 == b >> 5 && (b >> 5) >> 1 == b >> 6 && (b >> 6) >> 1 == b >> 7
  {
  }

  lemma SerialByteIsShift8(crc: bv16, c: bv8)
    ensures SerialByte(crc, c) == Shift8(Xor(crc, c as bv16))
  {
    var b := c as bv16;
    ShiftTwice(b);
    SerialBitOfMixed(crc, b);
    var s1 := SerialBit(crc, b);
    SerialBitOfMixed(s1, b >> 1);
    var s2 := SerialBit(s1, b >> 1);
    SerialBitOfMixed(s2, b >> 2);
    var s3 := SerialBit(s2, b >> 2);
    SerialBitOfMixed(s3, b >> 3);
    var s4 := SerialBit(s3, b >> 3);
    SerialBitOfMixed(s4, b >> 4);
    var s5 := SerialBit(s4, b >> 4);
    SerialBitOfMixed(s5, b >> 5);
    var s6 := SerialBit(s5, b >> 5);
    SerialBitOfMixed(s6, b >> 6);
    var s7 := SerialBit(s6, b >> 6);
    SerialBitOfMixed(s7, b >> 7);
    OctetExhausted(c, SerialBit(s7, b >> 7));
  }

  lemma OctetExhausted(c: bv8, x: bv16)
    ensures Xor(x, ((c as bv16) >> 7) >> 1) == x
  {
  }

  /** The table-driven CRC is the bit-serial CRC on every octet string. */
  lemma {:induction false} TableMatchesSerial(crc: bv16, data: seq<bv8>)
    ensures Crc(crc, data) == SerialCrc(crc, data)
    decreases data
  {
    if data != [] {
      CrcByteIsShift8(crc, data[0]);
      SerialByteIsShift8(crc, data[0]);
      TableMatchesSerial(CrcByte(crc, data[0]), data[1..]);
    }
  }

  lemma {:induction false} CrcConcat(crc: bv16, a: seq<bv8>, b: seq<bv8>)
    ensures Crc(crc, a + b) == Crc(Crc(crc, a), b)
    decreases a
  {
    if a == [] {
      assert a + b == b;
    } else {
      assert (a + b)[1..] == a[1..] + b;
      CrcConcat(CrcByte(crc, a[0]), a[1..], b);
    }
  }

  lemma TailResidue(crc: bv16)
    ensures Crc(crc, Tail(crc)) == GOOD_FCS
  {
    var t := Tail(crc);
    assert Crc(crc, t) == Crc(CrcByte(crc, t[0]), t[1..]);
    assert t[1..] == [t[1]];
    assert CrcByte(CrcByte(crc, t[0]), t[1]) == GOOD_FCS;
  }

  /** Appending the frame check sequence to any data leaves the good residue. */
  lemma GoodResidue(data: seq<bv8>)
    ensures Crc(INIT_FCS, data + Tail(Crc(INIT_FCS, data))) == GOOD_FCS
  {
    CrcConcat(INIT_FCS, data, Tail(Crc(INIT_FCS, data)));
    TailResidue(Crc(INIT_FCS, data));
  }

  //
  // Error detection.
  //

  lemma BitStepInjective(x: bv16, y: bv16)
    requires BitStep(x) == BitStep(y)
    ensures x == y
  {
  }

  lemma Shift8Injective(x: bv16, y: bv16)
    requires Shift8(x) == Shift8(y)
    ensures x == y
  {
    var x1, y1 := BitStep(x), BitStep(y);
    var x2, y2 := BitStep(x1), BitStep(y1);
    var x3, y3 := BitStep(x2), BitStep(y2);
    var x4, y4 := BitStep(x3), BitStep(y3);
    var x5, y5 := BitStep(x4), BitStep(y4);
    var x6, y6 := BitStep(x5), BitStep(y5);
    BitStepInjective(BitStep(x6), BitStep(y6));
    BitStepInjective(x6, y6);
    BitStepInjective(x5, y5);
    BitStepInjective(x4, y4);
    BitStepInjective(x3, y3);
    BitStepInjective(x2, y2);
    BitStepInjective(x1, y1);
    BitStepInjective(x, y);
  }

  lemma XorInjective(x: bv16, y: bv16, z: bv16)
    requires Xor(x, z) == Xor(y, z)
    ensures x == y
  {
  }

  lemma CrcByteInjective(x: bv16, y: bv16, c: bv8)
    requires CrcByte(x, c) == CrcByte(y, c)
    ensures x == y
  {
    CrcByteIsShift8(x, c);
    CrcByteIsShift8(y, c);
    Shift8Injective(Xor(x, c as bv16), Xor(y, c as bv16));
    XorInjective(x, y, c as bv16);
  }

  /** The table step is injective in the register, and so the CRC is, over any common suffix. */
  lemma {:induction false} CrcInjectiveInState(x: bv16, y: bv16, data: seq<bv8>)
    requires Crc(x, data) == Crc(y, data)
    ensures x == y
    decreases data
  {
    if data != [] {
      CrcInjectiveInState(CrcByte(x, data[0]), CrcByte(y, data[0]), data[1..]);
      CrcByteInjective(x, y, data[0]);
    }
  }

  lemma CrcOfTwo(crc: bv16, a: bv8, b: bv8)
    ensures Crc(crc, [a, b]) == CrcByte(CrcByte(crc, a), b)
  {
    var t := [a, b];
    assert t[1..] == [b] && t[1..][1..] == [];
    assert Crc(crc, t) == Crc(CrcByte(crc, a), t[1..]) == Crc(CrcByte(CrcByte(crc, a), b), t[1..][1..]);
  }

  lemma CrcOfThree(crc: bv16, a: bv8, b: bv8, c: bv8)
    ensures Crc(crc, [a, b, c]) == CrcByte(CrcByte(CrcByte(crc, a), b), c)
  {
    assert [a, b, c][1..] == [b, c];
    CrcOfTwo(CrcByte(crc, a), b, c);
  }

  /** An octet fed after eight shifts is the same octet waiting in the upper half before them. */
  lemma FeedNext(x: bv16, c: bv16)
    requires c < 0x100
    ensures Xor(Shift8(x), c) == Shift8(Xor(x, c << 8))
  {
    Shift8Linear(x, c << 8);
    Shift8HighOctet(c);
  }

  lemma CrcByteAfterShift8(x: bv16, c: bv8)
    ensures CrcByte(Shift8(x), c) == Shift8(Shift8(Xor(x, (c as bv16) << 8)))
  {
    CrcByteIsShift8(Shift8(x), c);
    FeedNext(x, c as bv16);
  }

  /** The error pattern `x y z` over three octets spans at most sixteen bits: the first octet is
      intact on the low-order bits `m`, which are sent first, and the third beyond them. */
  predicate ShortBurst(x: bv8, z: bv8, m: bv8) {
    m & (m + 1) == 0 && x & m == 0 && z & (0xff ^ m) == 0
  }

  lemma ShortBurstIsZero(x: bv8, z: bv8, m: bv8)
    requires ShortBurst(x, z, m)
    requires Shift8(x as bv16) >> 8 == z as bv16
    ensures x == 0
  {
  }

  lemma HighOctetOfMixed(y: bv8, z: bv8)
    ensures Xor(y as bv16, (z as bv16) << 8) >> 8 == z as bv16
  {
  }

  lemma MixedIsZero(y: bv8, z: bv8)
    requires Xor(y as bv16, (z as bv16) << 8) == 0
    ensures y == 0 && z == 0
  {
  }

  function Xor8(x: bv8, y: bv8): bv8 {
    x ^ y
  }

  lemma XorWiden(a: bv8, x: bv8)
    ensures Xor8(a, x) as bv16 == Xor(a as bv16, x as bv16)
  {
  }

  lemma XorWidenHigh(a: bv8, x: bv8)
    ensures (Xor8(a, x) as bv16) << 8 == Xor((a as bv16) << 8, (x as bv16) << 8)
  {
  }

  lemma Interchange(a: bv16, b: bv16, c: bv16, d: bv16)
    ensures Xor(Xor(a, b), Xor(c, d)) == Xor(Xor(a, c), Xor(b, d))
  {
    XorAssoc(a, b, Xor(c, d));
    XorAssoc(b, c, d);
    XorCommutes(b, c);
    XorAssoc(c, b, d);
    XorAssoc(a, c, Xor(b, d));
  }

  lemma XorFixedPoint(x: bv16, y: bv16)
    requires x == Xor(x, y)
    ensures y == 0
  {
  }

  lemma XorZero(x: bv16, y: bv16)
    requires Xor(x, y) == 0
    ensures x == y
  {
  }

  lemma XorDifference(p: bv16, d: bv16, b: bv16, y: bv16, c: bv16, z: bv16)
    requires Xor(Xor(p, b), c) == Xor(Xor(Xor(p, d), Xor(b, y)), Xor(c, z))
    ensures d == Xor(y, z)
  {
    Interchange(p, d, b, y);
    Interchange(Xor(p, b), Xor(d, y), c, z);
    XorFixedPoint(Xor(Xor(p, b), c), Xor(Xor(d, y), z));
    XorAssoc(d, y, z);
    XorZero(d, Xor(y, z));
  }

  lemma CrcOfThreeIsShift8(crc: bv16, a: bv8, b: bv8, c: bv8)
    ensures Crc(crc, [a, b, c])
         == Shift8(Shift8(Xor(Xor(Shift8(Xor(crc, a as bv16)), b as bv16), (c as bv16) << 8)))
  {
    CrcOfThree(crc, a, b, c);
    CrcByteIsShift8(crc, a);
    var p := Shift8(Xor(crc, a as bv16));
    CrcByteIsShift8(p, b);
    CrcByteAfterShift8(Xor(p, b as bv16), c);
  }

  /** The register after three octets, with and without an error: what equality forces. */
  lemma EqualAfterError(crc: bv16, a: bv16, b: bv16, c: bv16, x: bv16, y: bv16, z: bv16)
    requires Shift8(Shift8(Xor(Xor(Shift8(Xor(crc, a)), b), c)))
          == Shift8(Shift8(Xor(Xor(Shift8(Xor(crc, Xor(a, x))), Xor(b, y)), Xor(c, z))))
    ensures Shift8(x) == Xor(y, z)
  {
    var p, p' := Shift8(Xor(crc, a)), Shift8(Xor(crc, Xor(a, x)));
    var q, q' := Xor(Xor(p, b), c), Xor(Xor(p', Xor(b, y)), Xor(c, z));
    Shift8Injective(Shift8(q), Shift8(q'));
    Shift8Injective(q, q');
    XorAssoc(crc, a, x);
    Shift8Linear(Xor(crc, a), x);
    XorDifference(p, Shift8(x), b, y, c, z);
  }

  lemma BurstIsZero(x: bv8, y: bv8, z: bv8, m: bv8)
    requires ShortBurst(x, z, m)
    requires Shift8(x as bv16) == Xor(y as bv16, (z as bv16) << 8)
    ensures x == 0 && y == 0 && z == 0
  {
    HighOctetOfMixed(y, z);
    ShortBurstIsZero(x, z, m);
    assert Shift8(0) == 0;
    MixedIsZero(y, z);
  }

  /** From any one register value, a short burst over three octets changes the register. */
  lemma BurstChangesCrc(crc: bv16, a: bv8, b: bv8, c: bv8, x: bv8, y: bv8, z: bv8, m: bv8)
    requires ShortBurst(x, z, m)
    requires Crc(crc, [a, b, c]) == Crc(crc, [Xor8(a, x), Xor8(b, y), Xor8(c, z)])
    ensures x == 0 && y == 0 && z == 0
  {
    CrcOfThreeIsShift8(crc, a, b, c);
    CrcOfThreeIsShift8(crc, Xor8(a, x), Xor8(b, y), Xor8(c, z));
    XorWiden(a, x);
    XorWiden(b, y);
    XorWidenHigh(c, z);
    EqualAfterError(crc, a as bv16, b as bv16, (c as bv16) << 8, x as bv16, y as bv16, (z as bv16) << 8);
    BurstIsZero(x, y, z, m);
  }

  lemma CrcAround(crc: bv16, f: seq<bv8>, i: nat, j: nat)
    requires i <= j <= |f|
    ensures Crc(crc, f) == Crc(Crc(Crc(crc, f[..i]), f[i..j]), f[j..])
  {
    assert f == f[..i] + f[i..j] + f[j..];
    CrcConcat(crc, f[..i] + f[i..j], f[j..]);
    CrcConcat(crc, f[..i], f[i..j]);
  }

  lemma Rejoin(f: seq<bv8>, g: seq<bv8>, i: nat, j: nat)
    requires i <= j <= |f| == |g|
    requires f[..i] == g[..i] && f[i..j] == g[i..j] && f[j..] == g[j..]
    ensures f == g
  {
    assert f == f[..i] + f[i..j] + f[j..] && g == g[..i] + g[i..j] + g[j..];
  }

  lemma WindowInjective(f: seq<bv8>, g: seq<bv8>, i: nat, j: nat)
    requires i <= j <= |f| == |g|
    requires f[..i] == g[..i] && f[j..] == g[j..]
    requires Crc(INIT_FCS, f) == Crc(INIT_FCS, g)
    ensures Crc(Crc(INIT_FCS, f[..i]), f[i..j]) == Crc(Crc(INIT_FCS, f[..i]), g[i..j])
  {
    CrcAround(INIT_FCS, f, i, j);
    CrcAround(INIT_FCS, g, i, j);
    var crc := Crc(INIT_FCS, f[..i]);
    CrcInjectiveInState(Crc(crc, f[i..j]), Crc(crc, g[i..j]), f[j..]);
  }

  lemma XorOfDifference(a: bv8, b: bv8)
    ensures Xor8(a, Xor8(a, b)) == b
  {
  }

  lemma NoDifference(a: bv8, b: bv8)
    requires Xor8(a, b) == 0
    ensures a == b
  {
  }

  lemma ThreeOctetsInjective(crc: bv16, a: bv8, b: bv8, c: bv8, a': bv8, b': bv8, c': bv8, m: bv8)
    requires Crc(crc, [a, b, c]) == Crc(crc, [a', b', c'])
    requires ShortBurst(Xor8(a, a'), Xor8(c, c'), m)
    ensures a == a' && b == b' && c == c'
  {
    XorOfDifference(a, a');
    XorOfDifference(b, b');
    XorOfDifference(c, c');
    BurstChangesCrc(crc, a, b, c, Xor8(a, a'), Xor8(b, b'), Xor8(c, c'), m);
    NoDifference(a, a');
    NoDifference(b, b');
    NoDifference(c, c');
  }

  lemma BurstInjective(crc: bv16, u: seq<bv8>, v: seq<bv8>, m: bv8)
    requires |u| == |v| == 3 && Crc(crc, u) == Crc(crc, v)
    requires ShortBurst(Xor8(u[0], v[0]), Xor8(u[2], v[2]), m)
    ensures u == v
  {
    hide Crc, ShortBurst, Xor8;
    assert u == [u[0], u[1], u[2]] && v == [v[0], v[1], v[2]];
    ThreeOctetsInjective(crc, u[0], u[1], u[2], v[0], v[1], v[2], m);
  }

  lemma SameCrcBurst(f: seq<bv8>, g: seq<bv8>, i: nat, m: bv8)
    requires i + 2 < |f| == |g|
    requires f[..i] == g[..i] && f[i + 3..] == g[i + 3..]
    requires ShortBurst(Xor8(f[i], g[i]), Xor8(f[i + 2], g[i + 2]), m)
    requires Crc(INIT_FCS, f) == Crc(INIT_FCS, g)
    ensures f == g
  {
    hide Crc, ShortBurst, Xor8;
    WindowInjective(f, g, i, i + 3);
    BurstInjective(Crc(INIT_FCS, f[..i]), f[i..i + 3], g[i..i + 3], m);
    Rejoin(f, g, i, i + 3);
  }

  /** An error burst of at most sixteen bits, wherever it falls against the octet boundaries and
      however long the frame is, makes a frame that passes the check fail it. */
  lemma BurstDetected(f: seq<bv8>, g: seq<bv8>, i: nat, m: bv8)
    requires i + 2 < |f| == |g|
    requires f[..i] == g[..i] && f[i + 3..] == g[i + 3..]
    requires ShortBurst(Xor8(f[i], g[i]), Xor8(f[i + 2], g[i + 2]), m)
    requires f != g && Crc(INIT_FCS, f) == GOOD_FCS
    ensures Crc(INIT_FCS, g) != GOOD_FCS
  {
    if Crc(INIT_FCS, g) == GOOD_FCS {
      SameCrcBurst(f, g, i, m);
    }
  }

  lemma XorSame(a: bv8)
    ensures Xor8(a, a) == 0
  {
  }

  lemma PairIsShortBurst(x: bv8)
    ensures ShortBurst(x, 0, 0) && ShortBurst(0, x, 0xff)
  {
  }

  /** Changing one octet, or two adjacent ones, of a frame that passes the check makes it fail. */
  lemma AdjacentOctetsDetected(f: seq<bv8>, g: seq<bv8>, i: nat)
    requires i + 1 < |f| == |g| && 2 < |f|
    requires f[..i] == g[..i] && f[i + 2..] == g[i + 2..]
    requires f != g && Crc(INIT_FCS, f) == GOOD_FCS
    ensures Crc(INIT_FCS, g) != GOOD_FCS
  {
    hide Crc, ShortBurst, Xor8;
    if i + 2 < |f| {
      assert f[i + 2] == f[i + 2..][0] == g[i + 2] && f[i + 3..] == f[i + 2..][1..] == g[i + 3..];
      XorSame(f[i + 2]);
      PairIsShortBurst(Xor8(f[i], g[i]));
      BurstDetected(f, g, i, 0);
    } else {
      assert f[i - 1] == f[..i][i - 1] == g[i - 1] && f[..i - 1] == f[..i][..i - 1] == g[..i - 1];
      XorSame(f[i - 1]);
      PairIsShortBurst(Xor8(f[i + 1], g[i + 1]));
      BurstDetected(f, g, i - 1, 0xff);
    }
  }

  /** The usual check value of this check sequence: the octets of "123456789" leave 0x6f91. */
  lemma CheckValue()
    ensures Crc(INIT_FCS, [0x31, 0x32, 0x33, 0x34, 0x35, 0x36, 0x37, 0x38, 0x39]) == 0x6f91
  {
    hide CrcByte, Crc;
    var digits: seq<bv8> := [0x31, 0x32, 0x33, 0x34, 0x35, 0x36, 0x37, 0x38, 0x39];
    CrcOfThree(0xffff, 0x31, 0x32, 0x33);
    CrcOfThree(0x634b, 0x34, 0x35, 0x36);
    CrcOfThree(0x198d, 0x37, 0x38, 0x39);
    CheckSteps();
    CrcConcat(0xffff, [0x31, 0x32, 0x33], [0x34, 0x35, 0x36]);
    CrcConcat(0xffff, [0x31, 0x32, 0x33] + [0x34, 0x35, 0x36], [0x37, 0x38, 0x39]);
    assert digits == [0x31, 0x32, 0x33] + [0x34, 0x35, 0x36] + [0x37, 0x38, 0x39];
  }

  lemma CheckSteps()
    ensures CrcByte(0xffff, 0x31) == 0x2f8d && CrcByte(0x2f8d, 0x32) == 0x4d53 && CrcByte(0x4d53, 0x33) == 0x634b
    ensures CrcByte(0x634b, 0x34) == 0x8b13 && CrcByte(0x8b13, 0x35) == 0x44bf && CrcByte(0x44bf, 0x36) == 0x198d
    ensures CrcByte(0x198d, 0x37) == 0x1ac8 && CrcByte(0x1ac8, 0x38) == 0xf795 && CrcByte(0xf795, 0x39) == 0x6f91
  {
  }
}
