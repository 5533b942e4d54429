/** What HDLC frames look like on the wire, and what single octets mean to the receiver, in the numbers of
sections 3.1 and 4.2 of RFC 1662.
 */
module HdlcTransparency {
  import opened Fcs16
  import opened HdlcCodec

  /** An octet that the map marks. */
  predicate Marked(accm: bv32, c: bv8) {
    c < 0x20 && (accm >> c) & 1 == 1
  }

  predicate GoesEscaped(accm: bv32, c: bv8) {
    c == 0x7d || c == 0x7e || Marked(accm, c)
  }

  /** The escape octet, the flag and the marked octets go out as an escape and the octet with bit 5
      inverted, every other octet as itself. */
  lemma OctetOnTheWire(accm: bv32, c: bv8)
    ensures Escaped(accm, [c]) == if GoesEscaped(accm, c) then [0x7d, c ^ 0x20] else [c]
  {
    assert [c][1..] == [];
    NeedEscapeIff(accm, c);
  }

  lemma NeedEscapeIff(accm: bv32, c: bv8)
    ensures NeedEscape(accm, c) <==> GoesEscaped(accm, c)
  {
    WordOf(c);
    if c < 0x20 { LowOctetWord(c); }
  }

  lemma WordOf(c: bv8)
    ensures c >> 5 == 0 <==> c < 0x20
    ensures c >> 5 == 3 <==> 0x60 <= c < 0x80
    ensures 0x60 <= c < 0x80 ==> (Bit(0x6000_0000, c & 0x1f) <==> c == 0x7d || c == 0x7e)
    ensures !Bit(0, c & 0x1f)
  {
  }

  /** No octet of escaped data is a flag or one that the map marks. */
  predicate Transparent(accm: bv32, octets: seq<bv8>) {
    forall k :: 0 <= k < |octets| ==> octets[k] != 0x7e && !Marked(accm, octets[k])
  }

  lemma InvertedIsPlain(accm: bv32, c: bv8)
    requires GoesEscaped(accm, c)
    ensures Transparent(accm, [0x7d, c ^ 0x20])
  {
    InvertedIsHigh(c);
  }

  lemma InvertedIsHigh(c: bv8)
    requires c < 0x20 || c == 0x7d || c == 0x7e
    ensures c ^ 0x20 >= 0x20 && c ^ 0x20 != 0x7e
  {
  }

  lemma {:induction false} EscapedIsTransparent(accm: bv32, data: seq<bv8>)
    ensures Transparent(accm, Escaped(accm, data))
    decreases data
  {
    hide Marked, EscapeOctet;
    if data != [] {
      OctetOnTheWire(accm, data[0]);
      EscapedConcat(accm, [data[0]], data[1..]);
      assert [data[0]] + data[1..] == data;
      if GoesEscaped(accm, data[0]) { InvertedIsPlain(accm, data[0]); }
      EscapedIsTransparent(accm, data[1..]);
    }
  }

  /** In an encoded frame flags are at its ends only, and no octet is one that the map marks. */
  lemma FrameOnTheWire(f: Frame, k: nat)
    requires k < |Encode(f)|
    ensures Encode(f)[k] == 0x7e <==> k == |Encode(f)| - 1 || (k == 0 && f.lead)
    ensures !Marked(f.accm, Encode(f)[k])
  {
    hide Escaped, Checked;
    EscapedIsTransparent(f.accm, Checked(f.payload));
  }

  /** The complement of a check sequence, low octet first. */
  function FcsOctets(crc: bv16): seq<bv8> {
    [(Xor(crc, 0xffff) & 0xff) as bv8, (Xor(crc, 0xffff) >> 8) as bv8]
  }

  /** Between the flags go the payload and its complemented check sequence. */
  lemma FrameContents(f: Frame)
    ensures Encode(f) == (if f.lead then [0x7e] else [])
      + Escaped(f.accm, f.payload + FcsOctets(SerialCrc(0xffff, f.payload))) + [0x7e]
  {
    hide Escaped, SerialCrc, Crc, Tail, FcsOctets;
    TableMatchesSerial(0xffff, f.payload);
    TailOctets(SerialCrc(0xffff, f.payload));
  }

  lemma TailOctets(crc: bv16)
    ensures Tail(crc) == FcsOctets(crc)
  {
  }

  //
  // The receiver.
  //

  /** After an escape every octet is data, a flag and an escape too, with bit 5 inverted. */
  lemma EscapedOctetIsData(d: Decoder, recv: bv32, a: seq<bv8>, c: bv8)
    requires Decode(d, recv, a).decoder.escape
    ensures var before := Decode(d, recv, a);
      var after := Decode(d, recv, a + [c]);
      && after.delivered == before.delivered
      && after.decoder.frame == before.decoder.frame + [c ^ 0x20]
      && !after.decoder.escape
  {
    DecodeSnoc(d, recv, a, c);
  }

  /** Elsewhere an octet that the receive map marks is as if it had not been there. */
  lemma MarkedOctetIgnored(d: Decoder, recv: bv32, a: seq<bv8>, c: bv8, b: seq<bv8>)
    requires !Decode(d, recv, a).decoder.escape && Marked(recv, c)
    ensures Decode(d, recv, a + [c] + b) == Decode(d, recv, a + b)
  {
    hide Decode;
    DecodeSnoc(d, recv, a, c);
    MarkedIsIgnored(recv, c);
    DecodeConcat(d, recv, a + [c], b);
    DecodeConcat(d, recv, a, b);
  }

  lemma MarkedIsIgnored(recv: bv32, c: bv8)
    requires Marked(recv, c)
    ensures Ignored(recv, c) && c != FLAG && c != ESCAPE
  {
  }

  /** Every other octet but the flag and the escape is data as it is. */
  lemma PlainOctetIsData(d: Decoder, recv: bv32, a: seq<bv8>, c: bv8)
    requires !Decode(d, recv, a).decoder.escape && !GoesEscaped(recv, c)
    ensures var before := Decode(d, recv, a);
      var after := Decode(d, recv, a + [c]);
      && after.delivered == before.delivered
      && after.decoder.frame == before.decoder.frame + [c]
      && !after.decoder.escape
  {
    DecodeSnoc(d, recv, a, c);
    PlainIsNotIgnored(recv, c);
  }

  lemma PlainIsNotIgnored(recv: bv32, c: bv8)
    requires !Marked(recv, c)
    ensures !Ignored(recv, c)
  {
  }

  lemma EscapeIsNoData(d: Decoder, recv: bv32, a: seq<bv8>)
    requires !Decode(d, recv, a).decoder.escape
    ensures var before := Decode(d, recv, a);
      Decode(d, recv, a + [0x7d]) == Decoded(before.decoder.(escape := true), before.delivered)
  {
    DecodeSnoc(d, recv, a, 0x7d);
  }

  /** The check sequence kept is that of the frame. */
  lemma {:induction false} FcsFollowsFrame(d: Decoder, recv: bv32, octets: seq<bv8>)
    requires d.fcs == SerialCrc(0xffff, d.frame)
    ensures var r := Decode(d, recv, octets).decoder; r.fcs == SerialCrc(0xffff, r.frame)
    decreases octets
  {
    hide SerialCrc, CrcByte, Ignored;
    if octets != [] {
      var next := DecodeOctet(d, recv, octets[0]).decoder;
      SerialEmpty();
      SerialSnoc(d.frame, octets[0]);
      SerialSnoc(d.frame, Xor8(octets[0], TRANS));
      FcsFollowsFrame(next, recv, octets[1..]);
    }
  }

  lemma SerialEmpty()
    ensures SerialCrc(0xffff, []) == 0xffff
  {
  }

  lemma SerialSnoc(frame: seq<bv8>, c: bv8)
    ensures SerialCrc(0xffff, frame + [c]) == CrcByte(SerialCrc(0xffff, frame), c)
  {
    hide CrcByte;
    TableMatchesSerial(0xffff, frame);
    TableMatchesSerial(0xffff, frame + [c]);
    CrcConcat(0xffff, frame, [c]);
    assert [c][1..] == [];
  }

  /** A flag delivers what came since the last one, without its two last octets, if and only if that is
      more than two octets whose check sequence is good; in any case the next frame begins. */
  lemma FlagDelivers(recv: bv32, a: seq<bv8>)
    requires !Decode(IDLE, recv, a).decoder.escape
    ensures var before := Decode(IDLE, recv, a);
      var frame := before.decoder.frame;
      Decode(IDLE, recv, a + [0x7e]) == Decoded(Decoder([], 0xffff, false),
        if |frame| > 2 && SerialCrc(0xffff, frame) == 0xf0b8 then before.delivered + [frame[..|frame| - 2]]
        else before.delivered)
  {
    hide SerialCrc, Decode;
    SerialEmpty();
    FcsFollowsFrame(IDLE, recv, a);
    DecodeSnoc(IDLE, recv, a, 0x7e);
  }
}
