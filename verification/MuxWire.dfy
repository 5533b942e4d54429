/** What multiplexer frames look like on the wire, and which of them reach a channel, in the numbers of
3GPP TS 27.010.
 */
module MuxWire {
  import opened Wrappers
  import opened MuxFrames
  import opened MuxStream
  import opened Fcs8
  import opened AdvancedFraming
  import Basic = Gsm0710Basic
  import Advanced = Gsm0710Advanced

  //
  // The octets of a frame.
  //

  /** The address octet: the channel number above the two bits for a command and for the last octet. */
  lemma AddressOctet(dlc: bv8)
    requires dlc <= 63
    ensures Address(dlc) == 4 * dlc + 3
  {
  }

  lemma LengthOctets(len: nat)
    requires len < 0x8000
    ensures var l := Basic.LengthField(len);
      if len <= 127 then l == [l[0]] && l[0] as int == 2 * len + 1
      else l == [l[0], l[1]] && l[0] as int == 2 * (len % 128) && l[1] as int == len / 128
  {
    hide Basic.Octet;
    Basic.SplitLength(len);
    var l := Basic.LengthField(len);
    if len <= 127 {
      assert Basic.Value(l[0]) == 2 * len + 1;
    } else {
      assert Basic.Value(l[0]) == 2 * len % 256 && Basic.Value(l[1]) == len / 128 % 256;
    }
  }

  /** A basic frame: address, control, length and data, with the check octet of all but the data, between
      flags. The length takes one octet up to 127 and two from 128 on. */
  lemma BasicOnTheWire(dlc: bv8, kind: bv8, data: seq<bv8>)
    requires dlc <= 63 && |data| < 0x8000
    ensures var f := Basic.Frame(dlc, kind, data);
      var n := if |data| <= 127 then 1 else 2;
      && |f| == |data| + n + 5
      && f == [0xf9, 4 * dlc + 3, kind] + f[3..3 + n] + data + [Fcs([4 * dlc + 3, kind] + f[3..3 + n]), 0xf9]
      && (|data| <= 127 ==> f[3] as int == 2 * |data| + 1)
      && (|data| > 127 ==> f[3] as int == 2 * (|data| % 128) && f[4] as int == |data| / 128)
  {
    hide Fcs, Basic.Octet, Address, Basic.LengthField;
    AddressOctet(dlc);
    LengthOctets(|data|);
    var l, f := Basic.LengthField(|data|), Basic.Frame(dlc, kind, data);
    assert f[3..3 + |l|] == l;
    assert [0xf9, 4 * dlc + 3, kind] + l == [0xf9] + ([4 * dlc + 3, kind] + l);
  }

  /** In an advanced frame the flag and the escape octet go out as an escape and the octet with bit 5
      inverted, every other octet as itself. */
  lemma StuffedOctet(c: bv8)
    ensures Advanced.Escaped([c]) == if c == 0x7d || c == 0x7e then [0x7d, c ^ 0x20] else [c]
  {
    assert [c][1..] == [];
  }

  /** An advanced frame: address, control, data and the check octet of the first two, stuffed, between
      flags, and no other flag in it. */
  lemma AdvancedOnTheWire(dlc: bv8, kind: bv8, data: seq<bv8>)
    requires dlc <= 63
    ensures var f := Advanced.Frame(dlc, kind, data);
      var a := 4 * dlc + 3;
      && f == [0x7e] + Advanced.Escaped([a, kind] + data + [Fcs([a, kind])]) + [0x7e]
      && forall k :: 0 < k < |f| - 1 ==> f[k] != 0x7e
  {
    hide Fcs, Address, Advanced.Escaped, Advanced.Frame;
    AddressOctet(dlc);
    Advanced.FrameIsStuffedContent(dlc, kind, data);
    var u := Advanced.Content(dlc, kind, data);
    assert u == [4 * dlc + 3, kind] + data + [Fcs([4 * dlc + 3, kind])];
    Advanced.EscapedNoFlag(u);
    var stuffed := Advanced.Escaped(u);
    var f := [0x7e] + stuffed + [0x7e];
    forall k | 0 < k < |f| - 1 ensures f[k] != 0x7e { assert f[k] == stuffed[k - 1]; }
  }

  /** Writes go out in frames of unnumbered information with header check, control 0xef. */
  lemma WritesAreUih(mode: Mode, p: Piece)
    ensures FrameOf(mode, p) == TypedFrame(mode, Typed(p.dlc, 0xef, p.data))
  {
    hide TypedFrame;
  }

  /** A write is cut into as few frames as there can be: all full but the last, and none empty. */
  lemma {:induction false} FragmentSizes(p: Piece, n: nat, i: nat)
    requires n > 0 && i < |Fragments(p, n)|
    ensures var fs := Fragments(p, n);
      && fs[i].dlc == p.dlc
      && (i < |fs| - 1 ==> |fs[i].data| == n)
      && (i == |fs| - 1 ==> |fs[i].data| == |p.data| - n * i && 0 < |fs[i].data| <= n)
    decreases |p.data|
  {
    if |p.data| > n {
      var rest := Piece(p.dlc, p.data[n..]);
      SomeFragments(rest, n);
      if i > 0 {
        FragmentSizes(rest, n, i - 1);
        assert n * i == n * (i - 1) + n;
      }
    }
  }

  lemma SomeFragments(p: Piece, n: nat)
    requires n > 0 && p.data != []
    ensures Fragments(p, n) != []
  {
  }

  //
  // The poll/final bit.
  //

  /** The control octets are the same but for bit 4. */
  predicate SameButPoll(a: bv8, b: bv8) {
    a & 0xef == b & 0xef
  }

  lemma ControlBits(kind: bv8)
    ensures Control(kind) & 0x10 == 0 && SameButPoll(Control(kind), kind)
  {
  }

  lemma SameControl(a: bv8, b: bv8)
    ensures Control(a) == Control(b) <==> SameButPoll(a, b)
  {
  }

  /** Whatever was sent, the control that is reported has the poll bit clear and agrees with the octet sent
      in every other bit; so frames that differ in that bit only are extracted alike, and no others. */
  lemma PollBitStripped(mode: Mode, lead: seq<bv8>, f: Typed, kind: bv8, rest: seq<bv8>)
    requires Lead(mode, lead) && TypedSendable(mode, f)
    ensures var g := f.(kind := kind);
      var x, y := NextIn(mode, lead + TypedFrame(mode, f) + rest), NextIn(mode, lead + TypedFrame(mode, g) + rest);
      && x.NextFrame? && y.NextFrame?
      && x.frame.dlc == f.dlc && x.frame.data == f.data
      && x.frame.control & 0x10 == 0 && SameButPoll(x.frame.control, f.kind)
      && (x.frame == y.frame <==> SameButPoll(f.kind, kind))
  {
    hide TypedFrame, NextIn, Control;
    NextIsTyped(mode, lead, f, rest);
    NextIsTyped(mode, lead, f.(kind := kind), rest);
    ControlBits(f.kind);
    SameControl(f.kind, kind);
  }

  //
  // Delivery.
  //

  /** The control octets of data: UIH and UI, with the poll bit or without. */
  predicate CarriesData(kind: bv8) {
    kind == 0xef || kind == 0xff || kind == 0x03 || kind == 0x13
  }

  lemma CarriesDataIff(kind: bv8)
    ensures CarriesData(kind) <==> Control(kind) == DATA || Control(kind) == DATA_ALT
  {
  }

  /** Receiving one frame. */
  function ReceiveOne(mode: Mode, chs: Channels, f: Typed): Receiver
    requires WithinRoom(chs)
  {
    Receive(mode, Receiver([], chs, false), TypedFrame(mode, f))
  }

  lemma OneFrame(mode: Mode, chs: Channels, f: Typed)
    requires WithinRoom(chs) && TypedSendable(mode, f)
    ensures ReceiveOne(mode, chs, f).chs == Deliver(chs, MuxFrame(f.dlc, Control(f.kind), f.data))
  {
    hide TypedFrame, Feed, Control, Deliver, WithinRoom, TypedSendable;
    ExtractionInvertsFraming(mode, [], [f]);
    assert [f][1..] == [];
    assert TypedWire(mode, [f]) == TypedFrame(mode, f) + [];
    assert [] + TypedWire(mode, [f]) == TypedFrame(mode, f);
    var frame := MuxFrame(f.dlc, Control(f.kind), f.data);
    assert Extracted([f]) == [frame] + [];
    assert [] + TypedFrame(mode, f) == TypedFrame(mode, f);
    assert [frame][1..] == [];
    assert DeliverAll(chs, [frame]) == DeliverAll(Deliver(chs, frame), []);
  }

  /** In either option, a frame that carries data appends it to its channel, if that is one of the channels
      1 to 61 and open, as far as there is room for it; no other channel changes, and a frame of any other
      kind, or for any other number, changes none. */
  lemma DeliveredIff(mode: Mode, chs: Channels, f: Typed, i: nat)
    requires WithinRoom(chs) && TypedSendable(mode, f) && 1 <= i <= 61
    ensures ReceiveOne(mode, chs, f).chs[i - 1] ==
      if CarriesData(f.kind) && f.dlc as int == i && chs[i - 1].Some?
      then Some(Held(chs[i - 1].value + f.data))
      else chs[i - 1]
  {
    hide TypedFrame, ReceiveOne, Control, WithinRoom, TypedSendable, CarriesData;
    OneFrame(mode, chs, f);
    CarriesDataIff(f.kind);
  }

  //
  // Nothing but a frame is extracted.
  //

  /** A basic frame from `q` to its closing flag at `e`: flags at both ends, a length that is right, and the
      check octet of the header. */
  predicate BasicFrameAt(s: seq<bv8>, q: nat, e: nat, f: MuxFrame) {
    && q + 5 <= e < |s|
    && s[q] == 0xf9 && s[e] == 0xf9 && s[q + 1] & 1 == 1
    && var n := if s[q + 3] & 1 == 1 then 1 else 2;
    && e == q + n + 4 + |f.data|
    && |f.data| == (s[q + 3] >> 1) as int + (if n == 1 then 0 else 128 * s[q + 4] as int)
    && f.data == s[q + 3 + n..e - 1]
    && s[e - 1] == Fcs(s[q + 1..q + 3 + n])
    && f.dlc == s[q + 1] >> 2 && f.control == s[q + 2] & 0xef
  }

  lemma CompleteIsFrame(s: seq<bv8>, q: nat)
    requires Basic.Complete(s, q) && Basic.Good(s, q) && s[q] == Basic.FLAG && Basic.AddressOk(s[q + 1])
    ensures BasicFrameAt(s, q, Basic.End(s, q), Basic.Content(s, q))
  {
    hide Fcs, CheckFcs;
    var h := Basic.HeaderSize(s[q + 3]);
    CheckAcceptsOnlyFcs(s[q + 1..q + 1 + h], s[Basic.End(s, q) - 1]);
    LowBitSet(s[q + 3]);
    LowBitSet(s[q + 1]);
    assert Basic.Value(s[q + 3]) == s[q + 3] as int;
  }

  lemma LowBitSet(c: bv8)
    ensures c & 1 != 0 <==> c & 1 == 1
  {
  }

  /** Whatever the basic scan extracts from arbitrary octets is such a frame. */
  lemma {:induction false} BasicExtractsFrames(s: seq<bv8>, p: nat) returns (q: nat)
    requires p <= |s| && Basic.ScanFrom(s, p).frame.Some?
    ensures p <= q && BasicFrameAt(s, q, Basic.ScanFrom(s, p).pos, Basic.ScanFrom(s, p).frame.value)
    decreases |s| - p
  {
    hide BasicFrameAt, Basic.Complete, Basic.Good, Basic.Content, Basic.End, Basic.AddressOk;
    var t := Basic.Step(s, p);
    if t.GoOn? {
      q := BasicExtractsFrames(s, t.at);
    } else {
      q := Basic.SkipFlags(s, p);
      CompleteIsFrame(s, q);
    }
  }

  /** Unescaping: an escape stands for the next octet with bit 5 inverted, a last escape for nothing. */
  lemma UnstuffedOctet(c: bv8, t: seq<bv8>)
    ensures c != 0x7d ==> Advanced.Unescaped([c] + t) == [c] + Advanced.Unescaped(t)
    ensures Advanced.Unescaped([0x7d, c] + t) == [c ^ 0x20] + Advanced.Unescaped(t)
    ensures Advanced.Unescaped([0x7d]) == []
  {
    assert ([c] + t)[1..] == t && ([0x7d, c] + t)[2..] == t;
  }

  /** An advanced frame between the flags at `q` and `e`. */
  predicate AdvancedFrameAt(s: seq<bv8>, q: nat, e: nat, f: MuxFrame) {
    && Segment(s, q, e)
    && var u := Advanced.Unescaped(s[q + 1..e]);
    && |u| >= 3
    && u[|u| - 1] == Fcs(u[..2])
    && f == MuxFrame(u[0] >> 2, u[1] & 0xef, u[2..|u| - 1])
  }

  lemma JudgedIsFrame(b: seq<bv8>, q: nat, e: nat)
    requires q + 1 < e && Segment(b, q, e) && 4 <= e
    requires Advanced.Judge(b, q, e).Stop? && Advanced.Judge(b, q, e).outcome.Found?
    ensures AdvancedFrameAt(b, q, e, Advanced.Judge(b, q, e).outcome.frame)
  {
    hide Fcs, CheckFcs, Advanced.Unescaped;
    var u := Advanced.Unescaped(b[q + 1..e]);
    var c := Advanced.Overwrite(b, u);
    assert c[..2] == u[..2] && c[2..|u| - 1] == u[2..|u| - 1];
    CheckAcceptsOnlyFcs(u[..2], u[|u| - 1]);
  }

  lemma FrameAtSame(a: seq<bv8>, b: seq<bv8>, at: nat, q: nat, e: nat, f: MuxFrame)
    requires |a| == |b| && at <= |a| && a[at..] == b[at..] && at <= q && AdvancedFrameAt(a, q, e, f)
    ensures AdvancedFrameAt(b, q, e, f)
  {
    hide Fcs, Advanced.Unescaped;
    forall i | at <= i < |a| ensures a[i] == b[i] { assert a[at..][i - at] == b[at..][i - at]; }
    assert a[q + 1..e] == b[q + 1..e];
  }

  /** Whatever the advanced scan extracts, from octets it overwrites as it goes, is such a frame of the
      octets as they arrived. */
  lemma {:induction false} AdvancedExtractsFrames(s: seq<bv8>, p: nat) returns (q: nat)
    requires p <= |s| && Advanced.ScanFrom(s, p).outcome.Found?
    ensures p <= q && AdvancedFrameAt(s, q, Advanced.ScanFrom(s, p).outcome.pos, Advanced.ScanFrom(s, p).outcome.frame)
    decreases |s| - p
  {
    hide AdvancedFrameAt, Advanced.Judge;
    var t := Advanced.Step(s, p);
    if t.GoOn? {
      q := AdvancedExtractsFrames(t.buf, t.at);
      FrameAtSame(t.buf, s, t.at, q, Advanced.ScanFrom(s, p).outcome.pos, Advanced.ScanFrom(s, p).outcome.frame);
    } else {
      q := Advanced.SkipFlags(s, p);
      var e := Advanced.FindFlag(s, q + 1);
      assert Segment(s, q, e);
      JudgedIsFrame(s, q, e);
    }
  }
}
