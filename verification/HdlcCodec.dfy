/** HDLC framing as pure functions on octet sequences (RFC 1662, section 4.2): what the sender of
`gathdlc.c` puts on the wire for a frame, and what its decoder does with each received octet.
The class in module `Hdlc` is proved against these functions.
 */
module HdlcCodec {
  import opened Fcs16

  const FLAG: bv8 := 0x7e
  const ESCAPE: bv8 := 0x7d
  const TRANS: bv8 := 0x20

  //
  // Sending.
  //

  /** The eight words of the transmit map: the first is negotiable, the fourth marks 0x7d and 0x7e. */
  function XmitWord(accm: bv32, word: bv8): bv32 {
    if word == 0 then accm else if word == 3 then 0x6000_0000 else 0
  }

  predicate Bit(word: bv32, n: bv8)
    requires n < 32
  {
    (word >> n) & 1 == 1
  }

  predicate NeedEscape(accm: bv32, c: bv8) {
    Bit(XmitWord(accm, c >> 5), c & 0x1f)
  }

  function EscapeOctet(accm: bv32, c: bv8): seq<bv8> {
    if NeedEscape(accm, c) then [ESCAPE, Xor8(c, TRANS)] else [c]
  }

  function Escaped(accm: bv32, data: seq<bv8>): seq<bv8>
    decreases data
  {
    if data == [] then [] else EscapeOctet(accm, data[0]) + Escaped(accm, data[1..])
  }

  lemma {:induction false} EscapedConcat(accm: bv32, a: seq<bv8>, b: seq<bv8>)
    ensures Escaped(accm, a + b) == Escaped(accm, a) + Escaped(accm, b)
    decreases a
  {
    if a == [] {
      assert a + b == b;
    } else {
      assert (a + b)[1..] == a[1..] + b;
      EscapedConcat(accm, a[1..], b);
    }
  }

  /** A frame as sent: its payload, the transmit map in force, and whether a flag precedes it. */
  datatype Frame = Frame(payload: seq<bv8>, accm: bv32, lead: bool)

  function Checked(payload: seq<bv8>): seq<bv8> {
    payload + Tail(Crc(INIT_FCS, payload))
  }

  function Encode(f: Frame): seq<bv8> {
    (if f.lead then [FLAG] else []) + Escaped(f.accm, Checked(f.payload)) + [FLAG]
  }

  function Wire(frames: seq<Frame>): seq<bv8> {
    if frames == [] then [] else Wire(frames[..|frames| - 1]) + Encode(frames[|frames| - 1])
  }

  //
  // Receiving.
  //

  /** The decoder between two octets: the octets of the frame so far, their CRC, and whether the
      previous octet was an escape. */
  datatype Decoder = Decoder(frame: seq<bv8>, fcs: bv16, escape: bool)

  const IDLE := Decoder([], INIT_FCS, false)

  datatype Decoded = Decoded(decoder: Decoder, delivered: seq<seq<bv8>>)

  function Accept(d: Decoder, c: bv8): Decoder {
    Decoder(d.frame + [c], CrcByte(d.fcs, c), false)
  }

  /** What a flag delivers: the frame without its check sequence, if that is good. */
  function Delivery(d: Decoder): seq<seq<bv8>> {
    if |d.frame| > 2 && d.fcs == GOOD_FCS then [d.frame[..|d.frame| - 2]] else []
  }

  predicate Ignored(accm: bv32, c: bv8) {
    c < 0x20 && Bit(accm, c)
  }

  function DecodeOctet(d: Decoder, accm: bv32, c: bv8): Decoded {
    if d.escape then Decoded(Accept(d, Xor8(c, TRANS)), [])
    else if c == ESCAPE then Decoded(d.(escape := true), [])
    else if c == FLAG then Decoded(IDLE, Delivery(d))
    else if Ignored(accm, c) then Decoded(d, [])
    else Decoded(Accept(d, c), [])
  }

  function Decode(d: Decoder, accm: bv32, octets: seq<bv8>): Decoded
    decreases octets
  {
    if octets == [] then Decoded(d, [])
    else
      var first := DecodeOctet(d, accm, octets[0]);
      var rest := Decode(first.decoder, accm, octets[1..]);
      Decoded(rest.decoder, first.delivered + rest.delivered)
  }

  /** The unescaped frame never outgrows a buffer of `limit` octets while `octets` arrive. */
  predicate Fits(d: Decoder, accm: bv32, octets: seq<bv8>, limit: nat)
    decreases octets
  {
    && |d.frame| <= limit
    && (octets != [] ==> Fits(DecodeOctet(d, accm, octets[0]).decoder, accm, octets[1..], limit))
  }

  //
  // Chunking.
  //

  /** Decoding does not depend on how the stream is cut into chunks. */
  lemma {:induction false} DecodeConcat(d: Decoder, accm: bv32, a: seq<bv8>, b: seq<bv8>)
    ensures Decode(d, accm, a + b).decoder == Decode(Decode(d, accm, a).decoder, accm, b).decoder
    ensures Decode(d, accm, a + b).delivered
         == Decode(d, accm, a).delivered + Decode(Decode(d, accm, a).decoder, accm, b).delivered
    decreases a
  {
    if a == [] {
      assert a + b == b;
    } else {
      assert (a + b)[1..] == a[1..] + b;
      DecodeConcat(DecodeOctet(d, accm, a[0]).decoder, accm, a[1..], b);
    }
  }

  lemma {:induction false} FitsConcat(d: Decoder, accm: bv32, a: seq<bv8>, b: seq<bv8>, limit: nat)
    ensures Fits(d, accm, a + b, limit)
       <==> Fits(d, accm, a, limit) && Fits(Decode(d, accm, a).decoder, accm, b, limit)
    decreases a
  {
    if a == [] {
      assert a + b == b;
    } else {
      assert (a + b)[1..] == a[1..] + b;
      FitsConcat(DecodeOctet(d, accm, a[0]).decoder, accm, a[1..], b, limit);
    }
  }

  lemma DecodeSnoc(d: Decoder, accm: bv32, a: seq<bv8>, c: bv8)
    ensures Decode(d, accm, a + [c])
         == var p := Decode(d, accm, a); var q := DecodeOctet(p.decoder, accm, c);
            Decoded(q.decoder, p.delivered + q.delivered)
  {
    DecodeConcat(d, accm, a, [c]);
    var p := Decode(d, accm, a).decoder;
    assert [c][1..] == [];
    assert Decode(p, accm, [c]).delivered == DecodeOctet(p, accm, c).delivered + [];
  }

  //
  // Round trip.
  //

  /** Every octet the receiver would ignore is one the sender escapes. */
  predicate Covers(xmit: bv32, recv: bv32) {
    recv & !xmit == 0
  }

  lemma FlagsAreEscaped(accm: bv32)
    ensures NeedEscape(accm, FLAG) && NeedEscape(accm, ESCAPE)
  {
  }

  lemma BitCovered(xmit: bv32, recv: bv32, c: bv8)
    requires Covers(xmit, recv) && c < 32 && Bit(recv, c)
    ensures Bit(xmit, c)
  {
  }

  lemma LowOctetWord(c: bv8)
    requires c < 0x20
    ensures c >> 5 == 0 && c & 0x1f == c
  {
  }

  lemma IgnoredIsEscaped(xmit: bv32, recv: bv32, c: bv8)
    requires Covers(xmit, recv) && Ignored(recv, c)
    ensures NeedEscape(xmit, c)
  {
    LowOctetWord(c);
    BitCovered(xmit, recv, c);
  }

  lemma XorTwice(c: bv8)
    ensures Xor8(Xor8(c, TRANS), TRANS) == c
  {
  }

  lemma DecodeEscapeOctet(d: Decoder, recv: bv32, xmit: bv32, c: bv8)
    requires !d.escape && Covers(xmit, recv)
    ensures Decode(d, recv, EscapeOctet(xmit, c)) == Decoded(Accept(d, c), [])
  {
    FlagsAreEscaped(xmit);
    if NeedEscape(xmit, c) {
      var e := d.(escape := true);
      XorTwice(c);
      DecodeSnoc(d, recv, [ESCAPE], Xor8(c, TRANS));
      DecodeSnoc(d, recv, [], ESCAPE);
      assert [ESCAPE] + [Xor8(c, TRANS)] == EscapeOctet(xmit, c);
      assert [] + [ESCAPE] == [ESCAPE];
    } else {
      if Ignored(recv, c) {
        IgnoredIsEscaped(xmit, recv, c);
      }
      DecodeSnoc(d, recv, [], c);
      assert [] + [c] == [c];
    }
  }

  /** The decoder after accepting `data` unescaped. */
  function Accepted(d: Decoder, data: seq<bv8>): Decoder {
    Decoder(d.frame + data, Crc(d.fcs, data), d.escape)
  }

  /** Escaped data decodes to itself, delivering nothing before the closing flag. */
  lemma {:induction false} DecodeEscaped(d: Decoder, recv: bv32, xmit: bv32, data: seq<bv8>)
    requires !d.escape && Covers(xmit, recv)
    ensures Decode(d, recv, Escaped(xmit, data)) == Decoded(Accepted(d, data), [])
    decreases data
  {
    if data == [] {
      assert d.frame + data == d.frame;
    } else {
      DecodeEscapeOctet(d, recv, xmit, data[0]);
      DecodeConcat(d, recv, EscapeOctet(xmit, data[0]), Escaped(xmit, data[1..]));
      DecodeEscaped(Accept(d, data[0]), recv, xmit, data[1..]);
      AcceptedFirst(d, data);
    }
  }

  lemma AcceptedFirst(d: Decoder, data: seq<bv8>)
    requires !d.escape && data != []
    ensures Accepted(Accept(d, data[0]), data[1..]) == Accepted(d, data)
  {
    assert d.frame + [data[0]] + data[1..] == d.frame + data;
  }

  /** The content of a decoder that has just taken in `content` and a flag. */
  lemma DecodeClosed(recv: bv32, xmit: bv32, content: seq<bv8>)
    requires Covers(xmit, recv)
    ensures Decode(IDLE, recv, Escaped(xmit, content) + [FLAG])
         == Decoded(IDLE, Delivery(Decoder(content, Crc(INIT_FCS, content), false)))
  {
    hide Escaped, Crc, Decode, Covers;
    DecodeEscaped(IDLE, recv, xmit, content);
    assert [] + content == content;
    DecodeSnoc(IDLE, recv, Escaped(xmit, content), FLAG);
  }

  function Payload(f: Frame): seq<seq<bv8>> {
    if f.payload == [] then [] else [f.payload]
  }

  function Payloads(frames: seq<Frame>): seq<seq<bv8>> {
    if frames == [] then [] else Payloads(frames[..|frames| - 1]) + Payload(frames[|frames| - 1])
  }

  lemma FlagWhenIdle(recv: bv32)
    ensures Decode(IDLE, recv, [FLAG]) == Decoded(IDLE, [])
  {
    DecodeSnoc(IDLE, recv, [], FLAG);
    assert [] + [FLAG] == [FLAG];
  }

  /** One frame, received by an idle decoder, is delivered unchanged and leaves it idle. */
  lemma DecodeFrame(recv: bv32, f: Frame)
    requires Covers(f.accm, recv)
    ensures Decode(IDLE, recv, Encode(f)) == Decoded(IDLE, Payload(f))
  {
    hide Escaped, Crc, Covers;
    var content := Checked(f.payload);
    var body := Escaped(f.accm, content) + [FLAG];
    GoodResidue(f.payload);
    DecodeClosed(recv, f.accm, content);
    assert content[..|content| - 2] == f.payload;
    if f.lead {
      FlagWhenIdle(recv);
      DecodeConcat(IDLE, recv, [FLAG], body);
      assert Encode(f) == [FLAG] + body;
    } else {
      assert Encode(f) == body;
    }
  }

  /** Stream round trip: whatever frames are sent, each with its own transmit map as long as that
      covers the receive map, exactly their non-empty payloads are delivered, in order. */
  lemma {:induction false} StreamRoundTrip(recv: bv32, frames: seq<Frame>)
    requires forall i :: 0 <= i < |frames| ==> Covers(frames[i].accm, recv)
    ensures Decode(IDLE, recv, Wire(frames)) == Decoded(IDLE, Payloads(frames))
  {
    if frames != [] {
      var front, last := frames[..|frames| - 1], frames[|frames| - 1];
      StreamRoundTrip(recv, front);
      DecodeFrame(recv, last);
      DecodeConcat(IDLE, recv, Wire(front), Encode(last));
    }
  }

  lemma FitsEscapeOctet(d: Decoder, recv: bv32, xmit: bv32, c: bv8, limit: nat)
    requires !d.escape && |d.frame| < limit
    ensures Fits(d, recv, EscapeOctet(xmit, c), limit)
  {
    if NeedEscape(xmit, c) {
      assert EscapeOctet(xmit, c)[1..] == [Xor8(c, TRANS)];
      assert [Xor8(c, TRANS)][1..] == [];
    } else {
      assert [c][1..] == [];
    }
  }

  lemma {:induction false} FitsEscaped(d: Decoder, recv: bv32, xmit: bv32, data: seq<bv8>, limit: nat)
    requires !d.escape && Covers(xmit, recv) && |d.frame| + |data| <= limit
    ensures Fits(d, recv, Escaped(xmit, data), limit)
    decreases data
  {
    if data != [] {
      FitsEscapeOctet(d, recv, xmit, data[0], limit);
      DecodeEscapeOctet(d, recv, xmit, data[0]);
      FitsEscaped(Accept(d, data[0]), recv, xmit, data[1..], limit);
      FitsConcat(d, recv, EscapeOctet(xmit, data[0]), Escaped(xmit, data[1..]), limit);
    }
  }

  lemma FitsFlag(d: Decoder, recv: bv32, limit: nat)
    requires !d.escape && |d.frame| <= limit
    ensures Fits(d, recv, [FLAG], limit)
  {
    assert [FLAG][1..] == [];
  }

  lemma {:induction false} FitsEnd(d: Decoder, recv: bv32, octets: seq<bv8>, limit: nat)
    requires Fits(d, recv, octets, limit)
    ensures |Decode(d, recv, octets).decoder.frame| <= limit
    decreases octets
  {
    hide DecodeOctet;
    if octets != [] { FitsEnd(DecodeOctet(d, recv, octets[0]).decoder, recv, octets[1..], limit); }
  }

  /** Arbitrary octets fit if and only if after each of them the octets accepted since the last flag do. */
  lemma {:induction false} FitsIff(d: Decoder, recv: bv32, octets: seq<bv8>, limit: nat)
    ensures Fits(d, recv, octets, limit) <==>
      forall k :: 0 <= k <= |octets| ==> |Decode(d, recv, octets[..k]).decoder.frame| <= limit
    decreases octets
  {
    hide DecodeOctet;
    assert octets[..0] == [];
    if octets == [] {
      assert Decode(d, recv, octets[..0]).decoder == d;
    } else {
      var d', rest := DecodeOctet(d, recv, octets[0]).decoder, octets[1..];
      FitsIff(d', recv, rest, limit);
      forall k | 1 <= k <= |octets|
        ensures Decode(d, recv, octets[..k]).decoder == Decode(d', recv, rest[..k - 1]).decoder
      {
        assert octets[..k][0] == octets[0] && octets[..k][1..] == rest[..k - 1];
      }
      if forall k :: 0 <= k <= |octets| ==> |Decode(d, recv, octets[..k]).decoder.frame| <= limit {
        forall k | 0 <= k <= |rest| ensures |Decode(d', recv, rest[..k]).decoder.frame| <= limit {
          assert |Decode(d, recv, octets[..k + 1]).decoder.frame| <= limit;
        }
      }
    }
  }

  /** So a run of plain octets without a flag fits if and only if it is no longer than the buffer. */
  lemma {:induction false} PlainOctetsFit(d: Decoder, recv: bv32, octets: seq<bv8>, limit: nat)
    requires !d.escape && |d.frame| <= limit
    requires forall i :: 0 <= i < |octets| ==> octets[i] >= 0x20 && octets[i] != FLAG && octets[i] != ESCAPE
    ensures Fits(d, recv, octets, limit) <==> |d.frame| + |octets| <= limit
    decreases octets
  {
    if octets != [] {
      var d' := DecodeOctet(d, recv, octets[0]).decoder;
      assert d' == Accept(d, octets[0]);
      if |d'.frame| <= limit { PlainOctetsFit(d', recv, octets[1..], limit); }
    }
  }

  lemma ContentFits(recv: bv32, xmit: bv32, content: seq<bv8>, limit: nat)
    requires Covers(xmit, recv)
    ensures Fits(IDLE, recv, Escaped(xmit, content) + [FLAG], limit) <==> |content| <= limit
  {
    hide Escaped, Crc, Covers, DecodeOctet, Fits;
    var body := Escaped(xmit, content);
    DecodeEscaped(IDLE, recv, xmit, content);
    FitsConcat(IDLE, recv, body, [FLAG], limit);
    assert Accepted(IDLE, content).frame == content;
    if |content| <= limit {
      FitsEscaped(IDLE, recv, xmit, content, limit);
      FitsFlag(Accepted(IDLE, content), recv, limit);
    } else if Fits(IDLE, recv, body, limit) {
      FitsEnd(IDLE, recv, body, limit);
    }
  }

  lemma FrameFits(recv: bv32, f: Frame, limit: nat)
    requires Covers(f.accm, recv)
    ensures Fits(IDLE, recv, Encode(f), limit) <==> |f.payload| + 2 <= limit
  {
    hide Escaped, Crc, Covers, DecodeOctet, Fits;
    var content := Checked(f.payload);
    var body := Escaped(f.accm, content);
    ContentFits(recv, f.accm, content, limit);
    if f.lead {
      FitsFlag(IDLE, recv, limit);
      FlagWhenIdle(recv);
      FitsConcat(IDLE, recv, [FLAG], body + [FLAG], limit);
      assert Encode(f) == [FLAG] + (body + [FLAG]);
    } else {
      assert Encode(f) == body + [FLAG];
    }
  }

  /** A stream of frames stays within a decode buffer if and only if each payload does together with
      its check sequence. */
  lemma {:induction false} StreamFits(recv: bv32, frames: seq<Frame>, limit: nat)
    requires forall i :: 0 <= i < |frames| ==> Covers(frames[i].accm, recv)
    ensures Fits(IDLE, recv, Wire(frames), limit) <==>
      forall i :: 0 <= i < |frames| ==> |frames[i].payload| + 2 <= limit
  {
    hide Encode, Covers, DecodeOctet;
    if frames != [] {
      var front, last := frames[..|frames| - 1], frames[|frames| - 1];
      StreamFits(recv, front, limit);
      StreamRoundTrip(recv, front);
      FrameFits(recv, last, limit);
      FitsConcat(IDLE, recv, Wire(front), Encode(last), limit);
      assert forall i :: 0 <= i < |front| ==> frames[i] == front[i];
    }
  }

  //
  // Losses.
  //

  /** Two flags bring the decoder back to idle from any state, even after a dangling escape. */
  lemma TwoFlagsResynchronise(d: Decoder, recv: bv32)
    ensures Decode(d, recv, [FLAG, FLAG]).decoder == IDLE
  {
    DecodeSnoc(d, recv, [], FLAG);
    assert [] + [FLAG] == [FLAG];
    DecodeSnoc(d, recv, [FLAG], FLAG);
    assert [FLAG] + [FLAG] == [FLAG, FLAG];
  }

  /** After any garbage and two flags, the frames that follow are delivered as from the start. */
  lemma Resynchronisation(d: Decoder, recv: bv32, garbage: seq<bv8>, frames: seq<Frame>)
    requires forall i :: 0 <= i < |frames| ==> Covers(frames[i].accm, recv)
    ensures var noise := Decode(d, recv, garbage + [FLAG, FLAG]).delivered;
            Decode(d, recv, garbage + [FLAG, FLAG] + Wire(frames)) == Decoded(IDLE, noise + Payloads(frames))
  {
    var d' := Decode(d, recv, garbage).decoder;
    DecodeConcat(d, recv, garbage, [FLAG, FLAG]);
    TwoFlagsResynchronise(d', recv);
    DecodeConcat(d, recv, garbage + [FLAG, FLAG], Wire(frames));
    StreamRoundTrip(recv, frames);
  }

  /** A frame hit by an error burst of at most sixteen bits is dropped, not delivered changed. */
  lemma CorruptFrameDropped(recv: bv32, xmit: bv32, sent: seq<bv8>, received: seq<bv8>, i: nat, m: bv8)
    requires Covers(xmit, recv)
    requires i + 2 < |sent| == |received| && sent != received
    requires sent[..i] == received[..i] && sent[i + 3..] == received[i + 3..]
    requires ShortBurst(Xor8(sent[i], received[i]), Xor8(sent[i + 2], received[i + 2]), m)
    requires Crc(INIT_FCS, sent) == GOOD_FCS
    ensures Decode(IDLE, recv, Escaped(xmit, received) + [FLAG]) == Decoded(IDLE, [])
  {
    BurstDetected(sent, received, i, m);
    DecodeClosed(recv, xmit, received);
  }
}
