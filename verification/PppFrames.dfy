/** The header of a PPP frame, with and without the compression of the Address and Control fields
and of the Protocol field (sections 6.5 and 6.6 of RFC 1661).
 */
module PppFrames {
  import opened Wrappers

  const ADDRESS: bv8 := 0xff
  const CONTROL: bv8 := 0x03

  /** A protocol number, high octet first. */
  datatype Protocol = Protocol(high: bv8, low: bv8)

  const LCP_NUMBER := Protocol(0xc0, 0x21)

  datatype Content = Content(protocol: Protocol, info: seq<bv8>)

  /** Whether the Protocol field goes out as one octet. */
  predicate Compressed(protocol: Protocol, pfc: bool) {
    pfc && protocol.high == 0
  }

  /** The frame a packet becomes. LCP is never compressed. */
  function FrameOf(c: Content, acfc: bool, pfc: bool): seq<bv8> {
    var full := [c.protocol.high, c.protocol.low] + c.info;
    if c.protocol == LCP_NUMBER then [ADDRESS, CONTROL] + full
    else
      (if acfc then [] else [ADDRESS, CONTROL])
      + (if Compressed(c.protocol, pfc) then [c.protocol.low] + c.info else full)
  }

  predicate IsOdd(octet: bv8) {
    octet & 1 == 1
  }

  /** Where the Protocol field starts. */
  function ProtocolOffset(buf: seq<bv8>): nat {
    if |buf| >= 2 && buf[0] == ADDRESS && buf[1] == CONTROL then 2 else 0
  }

  /** The Protocol field and what follows it. */
  function ParseField(buf: seq<bv8>): Option<Content> {
    if |buf| < 1 then None
    else if IsOdd(buf[0]) then Some(Content(Protocol(0, buf[0]), buf[1..]))
    else if |buf| < 2 then None
    else Some(Content(Protocol(buf[0], buf[1]), buf[2..]))
  }

  function Parse(buf: seq<bv8>): Option<Content> {
    ParseField(buf[ProtocolOffset(buf)..])
  }

  /** The receiver recovers protocol and information from a frame if and only if the protocol number
      follows the rule for its octets (the first even and, where it goes out alone, the second odd),
      and a doubly compressed frame does not happen to start like an uncompressed one. */
  predicate Recoverable(c: Content, acfc: bool, pfc: bool) {
    && !IsOdd(c.protocol.high)
    && (Compressed(c.protocol, pfc) ==>
          && IsOdd(c.protocol.low)
          && !(acfc && c.protocol.low == ADDRESS && |c.info| > 0 && c.info[0] == CONTROL))
  }

  lemma ParseInvertsFrame(c: Content, acfc: bool, pfc: bool)
    ensures Parse(FrameOf(c, acfc, pfc)) == Some(c) <==> Recoverable(c, acfc, pfc)
  {
    hide ParseField, IsOdd;
    var full := [c.protocol.high, c.protocol.low] + c.info;
    var field := if Compressed(c.protocol, pfc) then [c.protocol.low] + c.info else full;
    FieldReadsBack(c, pfc);
    ParityOfHeader();
    var buf := FrameOf(c, acfc, pfc);
    if c.protocol == LCP_NUMBER || !acfc {
      assert buf == [ADDRESS, CONTROL] + field;
      assert buf[2..] == field;
    } else {
      assert buf == field && buf[0..] == field;
      if ProtocolOffset(buf) == 2 { ShorterIsDifferent(buf[2..]); }
    }
  }

  lemma ParityOfHeader()
    ensures IsOdd(ADDRESS) && IsOdd(CONTROL) && !IsOdd(0) && !IsOdd(LCP_NUMBER.high)
  {
  }

  lemma FieldReadsBack(c: Content, pfc: bool)
    ensures !Compressed(c.protocol, pfc) ==>
      (ParseField([c.protocol.high, c.protocol.low] + c.info) == Some(c) <==> !IsOdd(c.protocol.high))
    ensures Compressed(c.protocol, pfc) ==>
      (ParseField([c.protocol.low] + c.info) == Some(c) <==> IsOdd(c.protocol.low))
  {
    var full, short := [c.protocol.high, c.protocol.low] + c.info, [c.protocol.low] + c.info;
    ParityOfHeader();
    assert full[2..] == c.info && short[1..] == c.info;
    assert |short| >= 2 ==> |short[2..]| < |c.info|;
  }

  /** What is parsed is shorter than the octets it is parsed from. */
  lemma ShorterIsDifferent(buf: seq<bv8>)
    ensures ParseField(buf).Some? ==> |ParseField(buf).value.info| < |buf|
  {
  }

  /** The protocols the program itself uses are recovered from a newly built packet whatever is
      compressed. */
  lemma OwnProtocolsRecoverable(protocol: Protocol, info: seq<bv8>, acfc: bool, pfc: bool)
    requires protocol == LCP_NUMBER || protocol == Protocol(0xc0, 0x23) || protocol == Protocol(0xc2, 0x23)
      || protocol == Protocol(0x80, 0x21) || protocol == IP_NUMBER
    ensures Parse(FrameOf(Content(protocol, info), acfc, pfc)) == Some(Content(protocol, info))
  {
    ParseInvertsFrame(Content(protocol, info), acfc, pfc);
  }

  /** What goes out of a newly built packet: LCP is never compressed; the other protocols lose the Address
      and Control fields if those are compressed, and IP the first octet of its number if that is. */
  lemma OwnFrames(info: seq<bv8>, acfc: bool, pfc: bool)
    ensures FrameOf(Content(Protocol(0xc0, 0x21), info), acfc, pfc) == [0xff, 0x03, 0xc0, 0x21] + info
    ensures FrameOf(Content(Protocol(0xc0, 0x23), info), acfc, pfc) ==
      (if acfc then [0xc0, 0x23] else [0xff, 0x03, 0xc0, 0x23]) + info
    ensures FrameOf(Content(Protocol(0xc2, 0x23), info), acfc, pfc) ==
      (if acfc then [0xc2, 0x23] else [0xff, 0x03, 0xc2, 0x23]) + info
    ensures FrameOf(Content(Protocol(0x80, 0x21), info), acfc, pfc) ==
      (if acfc then [0x80, 0x21] else [0xff, 0x03, 0x80, 0x21]) + info
    ensures FrameOf(Content(Protocol(0x00, 0x21), info), acfc, pfc) ==
      (if acfc && pfc then [0x21] else if acfc then [0x00, 0x21] else if pfc then [0xff, 0x03, 0x21]
       else [0xff, 0x03, 0x00, 0x21]) + info
  {
  }

  const IP_NUMBER := Protocol(0x00, 0x21)

  //
  // Transmission from a buffer.
  //

  /** Only the Protocol field is compressed: the Address and Control fields move up one octet in the
      buffer. */
  predicate Shuffles(high: bv8, acfc: bool, pfc: bool) {
    high == 0 && pfc && !acfc
  }

  /** What is sent of a buffer, whatever its first octets are. */
  function FrameFrom(buf: seq<bv8>, acfc: bool, pfc: bool): seq<bv8>
    requires |buf| >= 4
  {
    if Protocol(buf[2], buf[3]) == LCP_NUMBER then [ADDRESS, CONTROL] + buf[2..]
    else if Shuffles(buf[2], acfc, pfc) then [buf[0], buf[1]] + buf[3..]
    else if buf[2] == 0 && acfc && pfc then buf[3..]
    else if acfc then buf[2..]
    else buf
  }

  /** What the buffer holds afterwards. */
  function BufferAfter(buf: seq<bv8>, acfc: bool, pfc: bool): (after: seq<bv8>)
    requires |buf| >= 4
    ensures |after| == |buf|
  {
    if Protocol(buf[2], buf[3]) == LCP_NUMBER then [ADDRESS, CONTROL] + buf[2..]
    else if Shuffles(buf[2], acfc, pfc) then [buf[0], buf[0], buf[1]] + buf[3..]
    else buf
  }

  /** `ppp_transmit`. */
  method Transmit(packet: array<bv8>, acfc: bool, pfc: bool) returns (frame: seq<bv8>)
    requires packet.Length >= 4
    modifies packet
    ensures frame == FrameFrom(old(packet[..]), acfc, pfc)
    ensures packet[..] == BufferAfter(old(packet[..]), acfc, pfc)
  {
    var offset := 0;
    ghost var was := packet[..];
    if packet[2] == LCP_NUMBER.high && packet[3] == LCP_NUMBER.low {
      packet[0], packet[1] := ADDRESS, CONTROL;
      assert packet[..] == [ADDRESS, CONTROL] + was[2..];
    } else if packet[2] == 0 {
      if acfc && pfc {
        offset := 3;
      } else if acfc {
        offset := 2;
      } else if pfc {
        packet[2] := packet[1];
        packet[1] := packet[0];
        offset := 1;
        assert packet[..] == [was[0], was[0], was[1]] + was[3..];
        assert packet[..][1..] == [was[0], was[1]] + was[3..];
      }
    } else {
      offset := if acfc then 2 else 0;
    }
    frame := packet[offset..];
    assert frame == packet[..][offset..];
  }

  /** The header of a newly built packet. */
  function Header(protocol: Protocol): seq<bv8> {
    [ADDRESS, CONTROL, protocol.high, protocol.low]
  }

  /** From a newly built packet goes the frame of its protocol and information. */
  lemma NewPacketFrame(protocol: Protocol, info: seq<bv8>, acfc: bool, pfc: bool)
    ensures FrameFrom(Header(protocol) + info, acfc, pfc) == FrameOf(Content(protocol, info), acfc, pfc)
    ensures BufferAfter(Header(protocol) + info, acfc, pfc)[..4] ==
      if Shuffles(protocol.high, acfc, pfc) then Spoilt(protocol) else Header(protocol)
  {
    var buf := Header(protocol) + info;
    assert buf[2..] == [protocol.high, protocol.low] + info && buf[3..] == [protocol.low] + info;
    assert buf == [ADDRESS, CONTROL] + buf[2..];
  }

  /** What a shuffle makes of the header. */
  function Spoilt(protocol: Protocol): seq<bv8> {
    [ADDRESS, ADDRESS, CONTROL, protocol.low]
  }

  lemma SpoiltFrame(protocol: Protocol, info: seq<bv8>, acfc: bool, pfc: bool)
    ensures BufferAfter(Spoilt(protocol) + info, acfc, pfc)[..4] == Spoilt(protocol)
    ensures Parse(FrameFrom(Spoilt(protocol) + info, acfc, pfc)) ==
      if acfc then Some(Content(Protocol(0, CONTROL), [protocol.low] + info))
      else Some(Content(Protocol(0, ADDRESS), [ADDRESS, CONTROL, protocol.low] + info))
  {
    ParityOfHeader();
    var buf := Spoilt(protocol) + info;
    assert buf[2..] == [CONTROL, protocol.low] + info;
    assert buf[2..][1..] == [protocol.low] + info && buf[1..] == [ADDRESS, CONTROL, protocol.low] + info;
    assert buf[0..] == buf && buf[2..][0..] == buf[2..];
  }

  //
  // One buffer for many packets.
  //

  /** A transmission: the information written behind the header, and the compressions in force. */
  datatype Sending = Sending(info: seq<bv8>, acfc: bool, pfc: bool)

  /** The header before the `k`-th transmission. */
  function HeaderBefore(protocol: Protocol, ss: seq<Sending>, k: nat): (h: seq<bv8>)
    requires k <= |ss|
    ensures |h| == 4
  {
    if k == 0 then Header(protocol)
    else
      var s := ss[k - 1];
      BufferAfter(HeaderBefore(protocol, ss, k - 1) + s.info, s.acfc, s.pfc)[..4]
  }

  function SentFrame(protocol: Protocol, ss: seq<Sending>, k: nat): seq<bv8>
    requires k < |ss|
  {
    FrameFrom(HeaderBefore(protocol, ss, k) + ss[k].info, ss[k].acfc, ss[k].pfc)
  }

  predicate ShuffledBefore(protocol: Protocol, ss: seq<Sending>, k: nat)
    requires k <= |ss|
  {
    exists j :: 0 <= j < k && Shuffles(protocol.high, ss[j].acfc, ss[j].pfc)
  }

  lemma {:induction false} HeaderKept(protocol: Protocol, ss: seq<Sending>, k: nat)
    requires k <= |ss|
    ensures HeaderBefore(protocol, ss, k) ==
      if ShuffledBefore(protocol, ss, k) then Spoilt(protocol) else Header(protocol)
  {
    hide Parse, FrameFrom, BufferAfter, FrameOf, Spoilt, Header, Shuffles;
    if k > 0 {
      HeaderKept(protocol, ss, k - 1);
      var s := ss[k - 1];
      NewPacketFrame(protocol, s.info, s.acfc, s.pfc);
      SpoiltFrame(protocol, s.info, s.acfc, s.pfc);
    }
  }

  /** Of the packets sent from one buffer, the receiver recovers those it would recover from a new
      packet, up to and including the first that compresses the Protocol field alone, and none after
      it. */
  lemma ReusedBuffer(protocol: Protocol, ss: seq<Sending>, k: nat)
    requires k < |ss|
    ensures Parse(SentFrame(protocol, ss, k)) == Some(Content(protocol, ss[k].info)) <==>
      Recoverable(Content(protocol, ss[k].info), ss[k].acfc, ss[k].pfc) && !ShuffledBefore(protocol, ss, k)
  {
    hide Parse, FrameFrom, BufferAfter, HeaderBefore, FrameOf;
    var s := ss[k];
    HeaderKept(protocol, ss, k);
    NewPacketFrame(protocol, s.info, s.acfc, s.pfc);
    SpoiltFrame(protocol, s.info, s.acfc, s.pfc);
    ParseInvertsFrame(Content(protocol, s.info), s.acfc, s.pfc);
  }

  /** The network interface sends every IP packet from one buffer: each is recovered if and only if no
      packet before it went out with the Protocol field alone compressed. */
  lemma IpPackets(ss: seq<Sending>, k: nat)
    requires k < |ss|
    ensures Parse(SentFrame(IP_NUMBER, ss, k)) == Some(Content(IP_NUMBER, ss[k].info)) <==>
      forall j :: 0 <= j < k ==> !(ss[j].pfc && !ss[j].acfc)
  {
    ReusedBuffer(IP_NUMBER, ss, k);
    ParityOfHeader();
    assert IsOdd(IP_NUMBER.low);
    if ShuffledBefore(IP_NUMBER, ss, k) {
      var j :| 0 <= j < k && Shuffles(IP_NUMBER.high, ss[j].acfc, ss[j].pfc);
      assert ss[j].pfc && !ss[j].acfc;
    }
  }

  /** With the Protocol field alone compressed, the second IP packet already goes out behind the octets
      ff ff 03 21, and is taken for one of protocol 00ff. */
  lemma SecondIpPacket(first: seq<bv8>, second: seq<bv8>)
    ensures var ss := [Sending(first, false, true), Sending(second, false, true)];
      && Parse(SentFrame(IP_NUMBER, ss, 0)) == Some(Content(IP_NUMBER, first))
      && SentFrame(IP_NUMBER, ss, 1) == [0xff, 0xff, 0x03, 0x21] + second
      && Parse(SentFrame(IP_NUMBER, ss, 1)) == Some(Content(Protocol(0x00, 0xff), [0xff, 0x03, 0x21] + second))
  {
    hide Parse;
    var ss := [Sending(first, false, true), Sending(second, false, true)];
    IpPackets(ss, 0);
    HeaderKept(IP_NUMBER, ss, 1);
    assert Shuffles(IP_NUMBER.high, ss[0].acfc, ss[0].pfc);
    SpoiltFrame(IP_NUMBER, second, false, true);
  }
}
