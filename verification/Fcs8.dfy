/** The 8-bit header check sequence of the multiplexer (3GPP TS 27.010, section 5.2.1.6). */
module Fcs8 {

  //
  // The lookup table, eight entries to a row.
  //

  function Row(k: bv8, a: bv8, b: bv8, c: bv8, d: bv8, e: bv8, f: bv8, g: bv8, h: bv8): bv8 {
    if k < 4 then if k < 2 then if k == 0 then a else b else if k == 2 then c else d
    else if k < 6 then if k == 4 then e else f else if k == 6 then g else h
  }

  function Quarter0(i: bv8): bv8 {
    var k := i & 7;
    match (i >> 3) & 7
    case 0 => Row(k, 0x00, 0x91, 0xe3, 0x72, 0x07, 0x96, 0xe4, 0x75)
    case 1 => Row(k, 0x0e, 0x9f, 0xed, 0x7c, 0x09, 0x98, 0xea, 0x7b)
    case 2 => Row(k, 0x1c, 0x8d, 0xff, 0x6e, 0x1b, 0x8a, 0xf8, 0x69)
    case 3 => Row(k, 0x12, 0x83, 0xf1, 0x60, 0x15, 0x84, 0xf6, 0x67)
    case 4 => Row(k, 0x38, 0xa9, 0xdb, 0x4a, 0x3f, 0xae, 0xdc, 0x4d)
    case 5 => Row(k, 0x36, 0xa7, 0xd5, 0x44, 0x31, 0xa0, 0xd2, 0x43)
    case 6 => Row(k, 0x24, 0xb5, 0xc7, 0x56, 0x23, 0xb2, 0xc0, 0x51)
    case _ => Row(k, 0x2a, 0xbb, 0xc9, 0x58, 0x2d, 0xbc, 0xce, 0x5f)
  }

  function Quarter1(i: bv8): bv8 {
    var k := i & 7;
    match (i >> 3) & 7
    case 0 => Row(k, 0x70, 0xe1, 0x93, 0x02, 0x77, 0xe6, 0x94, 0x05)
    case 1 => Row(k, 0x7e, 0xef, 0x9d, 0x0c, 0x79, 0xe8, 0x9a, 0x0b)
    case 2 => Row(k, 0x6c, 0xfd, 0x8f, 0x1e, 0x6b, 0xfa, 0x88, 0x19)
    case 3 => Row(k, 0x62, 0xf3, 0x81, 0x10, 0x65, 0xf4, 0x86, 0x17)
    case 4 => Row(k, 0x48, 0xd9, 0xab, 0x3a, 0x4f, 0xde, 0xac, 0x3d)
    case 5 => Row(k, 0x46, 0xd7, 0xa5, 0x34, 0x41, 0xd0, 0xa2, 0x33)
    case 6 => Row(k, 0x54, 0xc5, 0xb7, 0x26, 0x53, 0xc2, 0xb0, 0x21)
    case _ => Row(k, 0x5a, 0xcb, 0xb9, 0x28, 0x5d, 0xcc, 0xbe, 0x2f)
  }

  function Quarter2(i: bv8): bv8 {
    var k := i & 7;
    match (i >> 3) & 7
    case 0 => Row(k, 0xe0, 0x71, 0x03, 0x92, 0xe7, 0x76, 0x04, 0x95)
    case 1 => Row(k, 0xee, 0x7f, 0x0d, 0x9c, 0xe9, 0x78, 0x0a, 0x9b)
    case 2 => Row(k, 0xfc, 0x6d, 0x1f, 0x8e, 0xfb, 0x6a, 0x18, 0x89)
    case 3 => Row(k, 0xf2, 0x63, 0x11, 0x80, 0xf5, 0x64, 0x16, 0x87)
    case 4 => Row(k, 0xd8, 0x49, 0x3b, 0xaa, 0xdf, 0x4e, 0x3c, 0xad)
    case 5 => Row(k, 0xd6, 0x47, 0x35, 0xa4, 0xd1, 0x40, 0x32, 0xa3)
    case 6 => Row(k, 0xc4, 0x55, 0x27, 0xb6, 0xc3, 0x52, 0x20, 0xb1)
    case _ => Row(k, 0xca, 0x5b, 0x29, 0xb8, 0xcd, 0x5c, 0x2e, 0xbf)
  }

  function Quarter3(i: bv8): bv8 {
    var k := i & 7;
    match (i >> 3) & 7
    case 0 => Row(k, 0x90, 0x01, 0x73, 0xe2, 0x97, 0x06, 0x74, 0xe5)
    case 1 => Row(k, 0x9e, 0x0f, 0x7d, 0xec, 0x99, 0x08, 0x7a, 0xeb)
    case 2 => Row(k, 0x8c, 0x1d, 0x6f, 0xfe, 0x8b, 0x1a, 0x68, 0xf9)
    case 3 => Row(k, 0x82, 0x13, 0x61, 0xf0, 0x85, 0x14, 0x66, 0xf7)
    case 4 => Row(k, 0xa8, 0x39, 0x4b, 0xda, 0xaf, 0x3e, 0x4c, 0xdd)
    case 5 => Row(k, 0xa6, 0x37, 0x45, 0xd4, 0xa1, 0x30, 0x42, 0xd3)
    case 6 => Row(k, 0xb4, 0x25, 0x57, 0xc6, 0xb3, 0x22, 0x50, 0xc1)
    case _ => Row(k, 0xba, 0x2b, 0x59, 0xc8, 0xbd, 0x2c, 0x5e, 0xcf)
  }

  function Table(i: bv8): bv8 {
    if i < 0x80 then if i < 0x40 then Quarter0(i) else Quarter1(i)
    else if i < 0xc0 then Quarter2(i) else Quarter3(i)
  }

  function Xor(x: bv8, y: bv8): bv8 {
    x ^ y
  }

  function Crc(crc: bv8, data: seq<bv8>): bv8
    decreases data
  {
    if data == [] then crc else Crc(Table(Xor(crc, data[0])), data[1..])
  }

  function Fcs(header: seq<bv8>): bv8 {
    0xff - Crc(0xff, header)
  }

  predicate CheckFcs(header: seq<bv8>, fcs: bv8) {
    Table(Xor(Crc(0xff, header), fcs)) == 0xcf
  }

  /** The loop over `len` octets of a buffer. */
  method ComputeCrc(buf: array<bv8>, start: nat, len: nat) returns (crc: bv8)
    requires start + len <= buf.Length
    ensures crc == Crc(0xff, buf[start..start + len])
  {
    crc := 0xff;
    hide Table, Xor;
    for i := 0 to len
      invariant Crc(0xff, buf[start..start + len]) == Crc(crc, buf[start + i..start + len])
    {
      assert buf[start + i..start + len][1..] == buf[start + i + 1..start + len];
      crc := Table(Xor(crc, buf[start + i]));
    }
  }

  method ComputeFcs(buf: array<bv8>, start: nat, len: nat) returns (fcs: bv8)
    requires start + len <= buf.Length
    ensures fcs == Fcs(buf[start..start + len])
  {
    var crc := ComputeCrc(buf, start, len);
    fcs := 0xff - crc;
  }

  method CheckHeader(buf: array<bv8>, start: nat, len: nat, fcs: bv8) returns (ok: bool)
    requires start + len <= buf.Length
    ensures ok == CheckFcs(buf[start..start + len], fcs)
  {
    var crc := ComputeCrc(buf, start, len);
    ok := Table(Xor(crc, fcs)) == 0xcf;
  }

  //
  // The table is the CRC with reflected polynomial 0xe0, and a permutation.
  //

  function BitStep(crc: bv8): bv8 {
    if crc & 1 == 1 then (crc >> 1) ^ 0xe0 else crc >> 1
  }

  function Shift8(crc: bv8): bv8 {
    BitStep(BitStep(BitStep(BitStep(BitStep(BitStep(BitStep(BitStep(crc))))))))
  }

  /** Each table entry is its own index shifted through the polynomial eight times. */
  lemma TableIsShift8(i: bv8)
    ensures Table(i) == Shift8(i)
  {
  }

  lemma BitStepInjective(x: bv8, y: bv8)
    requires BitStep(x) == BitStep(y)
    ensures x == y
  {
  }

  lemma TableInjective(x: bv8, y: bv8)
    requires Table(x) == Table(y)
    ensures x == y
  {
    TableIsShift8(x);
    TableIsShift8(y);
    hide Table, BitStep;
    var x1, y1 := BitStep(x), BitStep(y);
    var x2, y2 := BitStep(x1), BitStep(y1);
    var x3, y3 := BitStep(x2), BitStep(y2);
    var x4, y4 := BitStep(x3), BitStep(y3);
    var x5, y5 := BitStep(x4), BitStep(y4);
    var x6, y6 := BitStep(x5), BitStep(y5);
    BitStepInjective(BitStep(x6), BitStep(y6));
    BitStepInjective(x6, y6);
    BitStepInjective(x5, y5);
    BitStepInjective(x4, y4);
    BitStepInjective(x3, y3);
    BitStepInjective(x2, y2);
    BitStepInjective(x1, y1);
    BitStepInjective(x, y);
  }

  lemma Complement(crc: bv8, fcs: bv8)
    ensures Xor(crc, fcs) == 0xff <==> fcs == 0xff - crc
  {
  }

  lemma TableAtFf()
    ensures Table(0xff) == 0xcf
  {
  }

  /** A check sequence is accepted for a header exactly when it is the one computed for it. */
  lemma CheckAcceptsOnlyFcs(header: seq<bv8>, fcs: bv8)
    ensures CheckFcs(header, fcs) <==> fcs == Fcs(header)
  {
    hide Table, Crc, Xor;
    var crc := Crc(0xff, header);
    Complement(crc, fcs);
    TableAtFf();
    if CheckFcs(header, fcs) {
      TableInjective(Xor(crc, fcs), 0xff);
    }
  }

  lemma XorInjective(x: bv8, y: bv8, z: bv8)
    requires Xor(x, z) == Xor(y, z) || Xor(z, x) == Xor(z, y)
    ensures x == y
  {
  }

  lemma {:induction false} CrcInjective(x: bv8, y: bv8, data: seq<bv8>)
    requires Crc(x, data) == Crc(y, data)
    ensures x == y
    decreases data
  {
    hide Table, Xor;
    if data != [] {
      CrcInjective(Table(Xor(x, data[0])), Table(Xor(y, data[0])), data[1..]);
      TableInjective(Xor(x, data[0]), Xor(y, data[0]));
      XorInjective(x, y, data[0]);
    }
  }

  lemma {:induction false} CrcConcat(crc: bv8, a: seq<bv8>, b: seq<bv8>)
    ensures Crc(crc, a + b) == Crc(Crc(crc, a), b)
    decreases a
  {
    hide Table, Xor;
    if a == [] {
      assert a + b == b;
    } else {
      assert (a + b)[1..] == a[1..] + b;
      CrcConcat(Table(Xor(crc, a[0])), a[1..], b);
    }
  }

  lemma CrcOfOne(crc: bv8, c: bv8)
    ensures Crc(crc, [c]) == Table(Xor(crc, c))
  {
    assert [c][1..] == [];
  }

  lemma CrcWithOctet(a: seq<bv8>, c: bv8, b: seq<bv8>)
    ensures Crc(0xff, a + [c] + b) == Crc(Table(Xor(Crc(0xff, a), c)), b)
  {
    hide Table, Xor, Crc;
    CrcConcat(0xff, a + [c], b);
    CrcConcat(0xff, a, [c]);
    CrcOfOne(Crc(0xff, a), c);
  }

  /** A header with one octet changed never passes the check of the original header. */
  lemma ChangedOctetDetected(a: seq<bv8>, c: bv8, d: bv8, b: seq<bv8>)
    requires c != d
    ensures !CheckFcs(a + [d] + b, Fcs(a + [c] + b))
  {
    hide Table, Xor, Crc;
    CheckAcceptsOnlyFcs(a + [d] + b, Fcs(a + [c] + b));
    if Fcs(a + [c] + b) == Fcs(a + [d] + b) {
      CrcWithOctet(a, c, b);
      CrcWithOctet(a, d, b);
      var crc := Crc(0xff, a);
      CrcInjective(Table(Xor(crc, c)), Table(Xor(crc, d)), b);
      TableInjective(Xor(crc, c), Xor(crc, d));
      XorInjective(c, d, crc);
    }
  }
}
