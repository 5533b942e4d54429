/** Multiplexing and demultiplexing as functions on octet streams: what `gatmux.c` writes for a
sequence of channel writes, and what it delivers to the channels when the stream comes in, cut
into arbitrary chunks, in the basic or the advanced option.
 */
module MuxStream {
  import opened MuxFrames
  import Basic = Gsm0710Basic
  import Advanced = Gsm0710Advanced
  import opened Wrappers

  datatype Mode = BasicMode | AdvancedMode

  const DATA: bv8 := 0xef
  const DATA_ALT: bv8 := 0x03
  const MAX_CHANNELS: nat := 61
  const CHANNEL_BUFFER_SIZE: nat := 4096
  const MUX_BUFFER_SIZE: nat := 4096

  //
  // The wire.
  //

  /** Data for one channel: a write, or the fragment of one that a frame carries. */
  datatype Piece = Piece(dlc: bv8, data: seq<bv8>)

  function FlagOf(mode: Mode): bv8 {
    if mode.BasicMode? then Basic.FLAG else Advanced.FLAG
  }

  /** A frame of any type, with its control octet. */
  datatype Typed = Typed(dlc: bv8, kind: bv8, data: seq<bv8>)

  function TypedFrame(mode: Mode, f: Typed): (octets: seq<bv8>)
    ensures |octets| > 0 && octets[|octets| - 1] == FlagOf(mode)
  {
    if mode.BasicMode? then Basic.Frame(f.dlc, f.kind, f.data) else Advanced.Frame(f.dlc, f.kind, f.data)
  }

  /** The frame's fields fit their encoding: six bits of address and, in the basic option, fifteen of length. */
  predicate TypedSendable(mode: Mode, f: Typed) {
    f.dlc <= 63 && (mode.BasicMode? ==> |f.data| < 0x8000)
  }

  function AsTyped(p: Piece): Typed {
    Typed(p.dlc, DATA, p.data)
  }

  /** The data frame that carries a piece. */
  function FrameOf(mode: Mode, p: Piece): seq<bv8> {
    TypedFrame(mode, AsTyped(p))
  }

  function Wire(mode: Mode, pieces: seq<Piece>): seq<bv8> {
    if pieces == [] then [] else FrameOf(mode, pieces[0]) + Wire(mode, pieces[1..])
  }

  /** The frames a write is cut into. */
  function Fragments(p: Piece, n: nat): seq<Piece>
    requires n > 0
    decreases |p.data|
  {
    if |p.data| == 0 then []
    else if |p.data| <= n then [p]
    else [Piece(p.dlc, p.data[..n])] + Fragments(Piece(p.dlc, p.data[n..]), n)
  }

  function AllFragments(writes: seq<Piece>, n: nat): seq<Piece>
    requires n > 0
  {
    if writes == [] then [] else Fragments(writes[0], n) + AllFragments(writes[1..], n)
  }

  /** Everything meant for one channel, in order. */
  function DataFor(pieces: seq<Piece>, dlc: bv8): seq<bv8> {
    if pieces == [] then []
    else (if pieces[0].dlc == dlc then pieces[0].data else []) + DataFor(pieces[1..], dlc)
  }

  //
  // Receiving.
  //

  /** The next frame in a buffer.  `Fault` is where the advanced scan leaves defined behaviour. */
  datatype Next = NextFrame(pos: nat, frame: MuxFrame) | NoMore(pos: nat) | Fault

  function NextIn(mode: Mode, buf: seq<bv8>): (r: Next)
    ensures r.NextFrame? ==> 0 < r.pos <= |buf|
    ensures r.NoMore? ==> r.pos <= |buf|
  {
    if mode.BasicMode? then
      var r := Basic.ScanFrom(buf, 0);
      if r.frame.None? then NoMore(r.pos) else NextFrame(r.pos, r.frame.value)
    else
      FoundAfterStart(buf);
      match Advanced.ScanFrom(buf, 0).outcome
      case Found(pos, frame) => NextFrame(pos, frame)
      case NoFrame(pos) => NoMore(pos)
      case Short(_, _, _, _) => Fault
      case OutOfBounds => Fault
  }

  lemma FoundAfterStart(buf: seq<bv8>)
    ensures var o := Advanced.ScanFrom(buf, 0).outcome; o.Found? ==> 0 < o.pos
  {
    FoundAfter(buf, 0);
  }

  lemma {:induction false} FoundAfter(buf: seq<bv8>, p: nat)
    requires p <= |buf|
    ensures var o := Advanced.ScanFrom(buf, p).outcome; o.Found? ==> p < o.pos
    decreases |buf| - p
  {
    hide Advanced.Judge;
    if p < |buf| {
      var t := Advanced.Step(buf, p);
      if t.GoOn? {
        FoundAfter(t.buf, t.at);
      }
    }
  }

  datatype Feeding = Feeding(frames: seq<MuxFrame>, used: nat, fault: bool)

  /** Repeated extraction from the buffer. */
  function Feed(mode: Mode, buf: seq<bv8>): (r: Feeding)
    ensures r.used <= |buf|
    decreases |buf|
  {
    match NextIn(mode, buf)
    case NoMore(p) => Feeding([], p, false)
    case NextFrame(p, f) =>
      var r := Feed(mode, buf[p..]);
      Feeding([f] + r.frames, p + r.used, r.fault)
    case Fault => Feeding([], 0, true)
  }

  //
  // A stream of sent frames is read back frame by frame, however it is cut.
  //

  predicate Sendable(mode: Mode, p: Piece) {
    TypedSendable(mode, AsTyped(p))
  }

  predicate AllSendable(mode: Mode, pieces: seq<Piece>) {
    forall i :: 0 <= i < |pieces| ==> Sendable(mode, pieces[i])
  }

  function AsFrame(p: Piece): MuxFrame {
    MuxFrame(p.dlc, DATA, p.data)
  }

  function AsFrames(pieces: seq<Piece>): (r: seq<MuxFrame>)
    ensures |r| == |pieces|
  {
    if pieces == [] then [] else [AsFrame(pieces[0])] + AsFrames(pieces[1..])
  }

  /** At most one flag, left over from the previous frame. */
  predicate Lead(mode: Mode, lead: seq<bv8>) {
    lead == [] || lead == [FlagOf(mode)]
  }

  lemma NextIsTyped(mode: Mode, lead: seq<bv8>, f: Typed, rest: seq<bv8>)
    requires Lead(mode, lead) && TypedSendable(mode, f)
    ensures NextIn(mode, lead + TypedFrame(mode, f) + rest)
         == NextFrame(|lead| + |TypedFrame(mode, f)| - 1, MuxFrame(f.dlc, Control(f.kind), f.data))
  {
    hide Basic.Frame, Basic.ScanFrom, Advanced.Frame, Advanced.ScanFrom, Control;
    if mode.BasicMode? {
      Basic.ScanFindsFrame(lead, f.dlc, f.kind, f.data, rest);
    } else {
      Advanced.ScanFindsFrame(lead, f.dlc, f.kind, f.data, rest);
    }
  }

  lemma NextIsFrame(mode: Mode, lead: seq<bv8>, p: Piece, rest: seq<bv8>)
    requires Lead(mode, lead) && Sendable(mode, p)
    ensures NextIn(mode, lead + FrameOf(mode, p) + rest) == NextFrame(|lead| + |FrameOf(mode, p)| - 1, AsFrame(p))
  {
    hide TypedFrame, NextIn;
    assert Control(DATA) == DATA;
    NextIsTyped(mode, lead, AsTyped(p), rest);
  }

  lemma NextWaits(mode: Mode, lead: seq<bv8>, p: Piece, k: nat)
    requires Lead(mode, lead) && Sendable(mode, p) && k < |FrameOf(mode, p)|
    ensures NextIn(mode, lead + FrameOf(mode, p)[..k]) == NoMore(if k == 0 then 0 else |lead|)
  {
    hide Basic.Frame, Basic.ScanFrom, Advanced.Frame, Advanced.ScanFrom;
    if mode.BasicMode? {
      Basic.ScanWaitsForFrame(lead, p.dlc, DATA, p.data, k);
    } else {
      Advanced.ScanWaitsForFrame(lead, p.dlc, DATA, p.data, k);
    }
  }

  lemma FrameEndsInFlag(mode: Mode, p: Piece)
    ensures var f := FrameOf(mode, p); |f| > 0 && f[|f| - 1] == FlagOf(mode)
  {
  }

  lemma NextInLead(mode: Mode, lead: seq<bv8>)
    requires Lead(mode, lead)
    ensures NextIn(mode, lead) == NoMore(0)
  {
    var p := Piece(1, []);
    FrameEndsInFlag(mode, p);
    NextWaits(mode, lead, p, 0);
    assert lead + FrameOf(mode, p)[..0] == lead;
  }

  /** The first frame of the stream is all in the buffer. */
  lemma SplitBuffer(mode: Mode, lead: seq<bv8>, pieces: seq<Piece>, c: seq<bv8>, t: seq<bv8>)
    requires pieces != [] && c + t == lead + Wire(mode, pieces)
    ensures var n := |lead| + |FrameOf(mode, pieces[0])|;
            |c| >= n ==> c == lead + FrameOf(mode, pieces[0]) + c[n..] && c[n..] + t == Wire(mode, pieces[1..])
  {
    hide FrameOf;
    var f := FrameOf(mode, pieces[0]);
    var n, rest := |lead| + |f|, Wire(mode, pieces[1..]);
    var w := c + t;
    assert w == lead + f + rest;
    if |c| >= n {
      assert c[..n] == w[..n] == lead + f;
      assert c == c[..n] + c[n..];
      assert c[n..] + t == w[n..] == rest;
    }
  }

  /** The first frame of the stream is only partly in the buffer. */
  lemma CutBuffer(mode: Mode, lead: seq<bv8>, pieces: seq<Piece>, c: seq<bv8>, t: seq<bv8>)
    requires pieces != [] && c + t == lead + Wire(mode, pieces) && |lead| <= |c| < |lead| + |FrameOf(mode, pieces[0])|
    ensures var k := |c| - |lead|;
            c == lead + FrameOf(mode, pieces[0])[..k] && FrameOf(mode, pieces[0])[..k] + t == Wire(mode, pieces)
  {
    hide FrameOf;
    var f := FrameOf(mode, pieces[0]);
    var w, k := c + t, |c| - |lead|;
    assert w == lead + (f + Wire(mode, pieces[1..]));
    assert c == w[..|c|] == lead + f[..k];
    assert f[..k] + t == w[|lead|..] == Wire(mode, pieces);
  }

  /** What is kept of a stream: at most a flag, or the first octets of the next frame. */
  predicate KeptOf(mode: Mode, pieces: seq<Piece>, kept: seq<bv8>) {
    |kept| > 1 ==> pieces != [] && |kept| < |FrameOf(mode, pieces[0])| && kept == FrameOf(mode, pieces[0])[..|kept|]
  }

  /** What feeding leaves of a buffer is again the beginning of a stream of whole frames. */
  ghost predicate FedTo(mode: Mode, pieces: seq<Piece>, c: seq<bv8>, t: seq<bv8>, k: nat, lead: seq<bv8>) {
    var r := Feed(mode, c);
    && k <= |pieces| && Lead(mode, lead)
    && !r.fault && r.frames == AsFrames(pieces[..k])
    && c[r.used..] + t == lead + Wire(mode, pieces[k..])
    && (t == [] ==> k == |pieces|)
    && KeptOf(mode, pieces[k..], c[r.used..])
    && forall i :: 0 <= i < k ==> |FrameOf(mode, pieces[i])| <= |c|
  }

  lemma FedNothing(mode: Mode, pieces: seq<Piece>, c: seq<bv8>, t: seq<bv8>, p: nat, lead: seq<bv8>)
    requires NextIn(mode, c) == NoMore(p) && Lead(mode, lead) && KeptOf(mode, pieces, c[p..])
    requires c[p..] + t == lead + Wire(mode, pieces) && (t == [] ==> pieces == [])
    ensures FedTo(mode, pieces, c, t, 0, lead)
  {
    hide NextIn, Wire, KeptOf;
    assert pieces[..0] == [] && pieces[0..] == pieces;
  }

  lemma FedOne(mode: Mode, pieces: seq<Piece>, c: seq<bv8>, t: seq<bv8>, p: nat, k: nat, lead: seq<bv8>)
    requires pieces != [] && NextIn(mode, c) == NextFrame(p, AsFrame(pieces[0]))
    requires FedTo(mode, pieces[1..], c[p..], t, k, lead) && |FrameOf(mode, pieces[0])| <= |c|
    ensures FedTo(mode, pieces, c, t, k + 1, lead)
  {
    hide NextIn, Wire, AsFrame, KeptOf, FrameOf;
    var r := Feed(mode, c[p..]);
    assert pieces[..k + 1][1..] == pieces[1..][..k];
    assert pieces[1..][k..] == pieces[k + 1..];
    assert c[p..][r.used..] == c[p + r.used..];
    forall i | 0 <= i < k + 1 ensures |FrameOf(mode, pieces[i])| <= |c| {
      if i > 0 { assert pieces[i] == pieces[1..][i - 1]; }
    }
  }

  lemma FeedLead(mode: Mode, lead: seq<bv8>, pieces: seq<Piece>, c: seq<bv8>, t: seq<bv8>)
    requires Lead(mode, lead) && Lead(mode, c)
    requires c + t == lead + Wire(mode, pieces) && (t == [] ==> pieces == [])
    ensures FedTo(mode, pieces, c, t, 0, lead)
  {
    hide NextIn, Feed, FedTo;
    NextInLead(mode, c);
    assert c[0..] == c;
    FedNothing(mode, pieces, c, t, 0, lead);
  }

  lemma FeedCut(mode: Mode, lead: seq<bv8>, pieces: seq<Piece>, c: seq<bv8>, t: seq<bv8>)
    requires Lead(mode, lead) && pieces != [] && Sendable(mode, pieces[0])
    requires c + t == lead + Wire(mode, pieces) && |lead| < |c| < |lead| + |FrameOf(mode, pieces[0])|
    ensures FedTo(mode, pieces, c, t, 0, [])
  {
    hide FrameOf, Sendable, NextIn, Feed, FedTo;
    CutBuffer(mode, lead, pieces, c, t);
    NextWaits(mode, lead, pieces[0], |c| - |lead|);
    var kept := c[|lead|..];
    assert kept == FrameOf(mode, pieces[0])[..|c| - |lead|];
    assert kept + t == [] + Wire(mode, pieces);
    FedNothing(mode, pieces, c, t, |lead|, []);
  }

  lemma ShortBuffer(mode: Mode, lead: seq<bv8>, pieces: seq<Piece>, c: seq<bv8>, t: seq<bv8>)
    requires Lead(mode, lead) && c + t == lead + Wire(mode, pieces) && |c| <= |lead|
    ensures Lead(mode, c)
    ensures pieces != [] ==> t != []
  {
    hide FrameOf;
    assert c == (c + t)[..|c|] == lead[..|c|];
    if pieces != [] {
      FrameEndsInFlag(mode, pieces[0]);
    }
  }

  /** Feeding a buffer that holds the first octets of a stream extracts exactly the frames that are
      complete, and keeps exactly the octets of the next one. */
  lemma {:induction false} FeedStream(mode: Mode, lead: seq<bv8>, pieces: seq<Piece>, c: seq<bv8>, t: seq<bv8>)
    returns (k: nat, lead': seq<bv8>)
    requires Lead(mode, lead) && AllSendable(mode, pieces)
    requires c + t == lead + Wire(mode, pieces)
    ensures FedTo(mode, pieces, c, t, k, lead')
    decreases |pieces|
  {
    hide FrameOf, Sendable, NextIn, Feed, FedTo, Wire;
    if |c| <= |lead| {
      ShortBuffer(mode, lead, pieces, c, t);
      FeedLead(mode, lead, pieces, c, t);
      return 0, lead;
    }
    NoMoreThanStream(mode, lead, pieces, c, t);
    var f := FrameOf(mode, pieces[0]);
    var n := |lead| + |f|;
    if |c| < n {
      FeedCut(mode, lead, pieces, c, t);
      return 0, [];
    }
    FrameEndsInFlag(mode, pieces[0]);
    SplitBuffer(mode, lead, pieces, c, t);
    NextIsFrame(mode, lead, pieces[0], c[n..]);
    KeepFlag(mode, lead, f, c[n..]);
    assert [FlagOf(mode)] + c[n..] + t == [FlagOf(mode)] + (c[n..] + t);
    k, lead' := FeedStream(mode, [FlagOf(mode)], pieces[1..], c[n - 1..], t);
    FedOne(mode, pieces, c, t, n - 1, k, lead');
    k := k + 1;
  }

  lemma NoMoreThanStream(mode: Mode, lead: seq<bv8>, pieces: seq<Piece>, c: seq<bv8>, t: seq<bv8>)
    requires c + t == lead + Wire(mode, pieces) && |lead| < |c|
    ensures pieces != []
  {
    assert |c + t| == |c| + |t|;
  }

  lemma KeepFlag(mode: Mode, lead: seq<bv8>, f: seq<bv8>, rest: seq<bv8>)
    requires |f| > 0 && f[|f| - 1] == FlagOf(mode)
    ensures (lead + f + rest)[|lead| + |f| - 1..] == [FlagOf(mode)] + rest
  {
  }

  //
  // Channels.
  //

  /** What each channel holds; `None` for a channel that is not open. */
  type Channels = s: seq<Option<seq<bv8>>> | |s| == MAX_CHANNELS witness seq(MAX_CHANNELS, _ => None)

  function Index(dlc: bv8): nat {
    dlc as int
  }

  /** As much of the octets as a channel holds. */
  function Held(s: seq<bv8>): (r: seq<bv8>)
    ensures |r| <= CHANNEL_BUFFER_SIZE
  {
    if |s| <= CHANNEL_BUFFER_SIZE then s else s[..CHANNEL_BUFFER_SIZE]
  }

  lemma HeldConcat(a: seq<bv8>, b: seq<bv8>)
    ensures Held(Held(a) + b) == Held(a + b)
  {
  }

  /** A bounded append: what does not fit is dropped. */
  function Bounded4096(c: seq<bv8>, data: seq<bv8>): (r: seq<bv8>)
    requires |c| <= CHANNEL_BUFFER_SIZE
    ensures r == Held(c + data)
  {
    if |c| + |data| <= CHANNEL_BUFFER_SIZE then c + data else c + data[..CHANNEL_BUFFER_SIZE - |c|]
  }

  ghost predicate WithinRoom(chs: Channels) {
    forall i :: 0 <= i < MAX_CHANNELS && chs[i].Some? ==> |chs[i].value| <= CHANNEL_BUFFER_SIZE
  }

  /** Data for a channel number out of range, or for a channel that is not open, is dropped. */
  function FeedDlc(chs: Channels, dlc: bv8, data: seq<bv8>): (r: Channels)
    requires WithinRoom(chs)
    ensures WithinRoom(r)
  {
    var i := Index(dlc);
    if 1 <= i <= MAX_CHANNELS && chs[i - 1].Some?
    then chs[i - 1 := Some(Bounded4096(chs[i - 1].value, data))]
    else chs
  }

  /** Data frames go to their channel; other frames leave the channels' contents alone. */
  function Deliver(chs: Channels, f: MuxFrame): (r: Channels)
    requires WithinRoom(chs)
    ensures WithinRoom(r)
  {
    if f.control == DATA || f.control == DATA_ALT then FeedDlc(chs, f.dlc, f.data) else chs
  }

  function DeliverAll(chs: Channels, frames: seq<MuxFrame>): (r: Channels)
    requires WithinRoom(chs)
    ensures WithinRoom(r)
    decreases frames
  {
    if frames == [] then chs else DeliverAll(Deliver(chs, frames[0]), frames[1..])
  }

  /** The receiver between two reads: what it keeps of the stream, and the channels. */
  datatype Receiver = Receiver(carry: seq<bv8>, chs: Channels, fault: bool)

  function Receive(mode: Mode, r: Receiver, chunk: seq<bv8>): (r': Receiver)
    requires WithinRoom(r.chs)
    ensures WithinRoom(r'.chs)
  {
    var buf := r.carry + chunk;
    var f := Feed(mode, buf);
    Receiver(buf[f.used..], DeliverAll(r.chs, f.frames), r.fault || f.fault)
  }

  lemma {:induction false} DeliverAllConcat(chs: Channels, a: seq<MuxFrame>, b: seq<MuxFrame>)
    requires WithinRoom(chs)
    ensures DeliverAll(chs, a + b) == DeliverAll(DeliverAll(chs, a), b)
    decreases a
  {
    hide Deliver;
    if a == [] {
      assert a + b == b;
    } else {
      assert (a + b)[1..] == a[1..] + b;
      DeliverAllConcat(Deliver(chs, a[0]), a[1..], b);
    }
  }

  lemma {:induction false} AsFramesConcat(a: seq<Piece>, b: seq<Piece>)
    ensures AsFrames(a + b) == AsFrames(a) + AsFrames(b)
  {
    if a == [] {
      assert a + b == b;
    } else {
      assert (a + b)[1..] == a[1..] + b;
      AsFramesConcat(a[1..], b);
    }
  }

  //
  // Each channel gets its own data.
  //

  lemma IndexInjective(a: bv8, b: bv8)
    requires Index(a) == Index(b)
    ensures a == b
  {
    assert Index(a) as bv8 == a && Index(b) as bv8 == b;
  }

  /** A channel ends up with as much as it holds of what it held and what was meant for it. */
  lemma {:induction false} ChannelContents(chs: Channels, pieces: seq<Piece>, dlc: bv8)
    requires WithinRoom(chs) && 1 <= Index(dlc) <= MAX_CHANNELS && chs[Index(dlc) - 1].Some?
    ensures DeliverAll(chs, AsFrames(pieces))[Index(dlc) - 1] ==
      Some(Held(chs[Index(dlc) - 1].value + DataFor(pieces, dlc)))
    decreases pieces
  {
    hide Index, WithinRoom, Held;
    var i := Index(dlc) - 1;
    if pieces == [] {
      assert chs[i].value + [] == chs[i].value;
      HeldWhole(chs, i);
    } else {
      var p, rest := pieces[0], DataFor(pieces[1..], dlc);
      var mine: seq<bv8> := if p.dlc == dlc then p.data else [];
      var chs' := Deliver(chs, AsFrame(p));
      DeliverOne(chs, p, dlc);
      ChannelContents(chs', pieces[1..], dlc);
      HeldConcat(chs[i].value + mine, rest);
      assert chs[i].value + mine + rest == chs[i].value + (mine + rest);
      assert AsFrames(pieces)[1..] == AsFrames(pieces[1..]);
    }
  }

  lemma HeldWhole(chs: Channels, i: nat)
    requires WithinRoom(chs) && i < MAX_CHANNELS && chs[i].Some?
    ensures Held(chs[i].value) == chs[i].value
  {
  }

  lemma DeliverOne(chs: Channels, p: Piece, dlc: bv8)
    requires WithinRoom(chs) && 1 <= Index(dlc) <= MAX_CHANNELS && chs[Index(dlc) - 1].Some?
    ensures Deliver(chs, AsFrame(p))[Index(dlc) - 1] ==
      Some(Held(chs[Index(dlc) - 1].value + if p.dlc == dlc then p.data else []))
  {
    hide Index, Held;
    var i := Index(dlc) - 1;
    if p.dlc != dlc && Index(p.dlc) == Index(dlc) {
      IndexInjective(p.dlc, dlc);
    }
    HeldWhole(chs, i);
    assert chs[i].value + [] == chs[i].value;
  }

  /** A channel that is not open stays so. */
  lemma {:induction false} ClosedStaysClosed(chs: Channels, frames: seq<MuxFrame>, i: nat)
    requires WithinRoom(chs) && i < MAX_CHANNELS
    ensures DeliverAll(chs, frames)[i].Some? <==> chs[i].Some?
    decreases frames
  {
    hide Index, WithinRoom;
    if frames != [] {
      ClosedStaysClosed(Deliver(chs, frames[0]), frames[1..], i);
    }
  }

  //
  // Fragmentation.
  //

  lemma {:induction false} DataForConcat(a: seq<Piece>, b: seq<Piece>, dlc: bv8)
    ensures DataFor(a + b, dlc) == DataFor(a, dlc) + DataFor(b, dlc)
    decreases a
  {
    if a == [] {
      assert a + b == b;
    } else {
      assert (a + b)[1..] == a[1..] + b;
      DataForConcat(a[1..], b, dlc);
    }
  }

  /** The fragments of a write carry its data, in order, and none for another channel. */
  lemma {:induction false} FragmentsCarryData(p: Piece, n: nat, dlc: bv8)
    requires n > 0
    ensures DataFor(Fragments(p, n), dlc) == if p.dlc == dlc then p.data else []
    decreases |p.data|
  {
    if |p.data| > n {
      var head, tail := Piece(p.dlc, p.data[..n]), Piece(p.dlc, p.data[n..]);
      FragmentsCarryData(tail, n, dlc);
      assert ([head] + Fragments(tail, n))[1..] == Fragments(tail, n);
      assert p.data[..n] + p.data[n..] == p.data;
    } else if |p.data| > 0 {
      assert [p][1..] == [];
    }
  }

  lemma {:induction false} AllFragmentsCarryData(writes: seq<Piece>, n: nat, dlc: bv8)
    requires n > 0
    ensures DataFor(AllFragments(writes, n), dlc) == DataFor(writes, dlc)
  {
    if writes != [] {
      FragmentsCarryData(writes[0], n, dlc);
      AllFragmentsCarryData(writes[1..], n, dlc);
      DataForConcat(Fragments(writes[0], n), AllFragments(writes[1..], n), dlc);
    }
  }

  /** The size of the buffer allocated for a frame of `n` octets of data. */
  function FrameRoom(mode: Mode, n: nat): nat {
    if mode.BasicMode? then n + 7 else 2 * n + 7
  }

  lemma FrameFitsRoom(mode: Mode, p: Piece)
    ensures |FrameOf(mode, p)| <= FrameRoom(mode, |p.data|)
  {
    if mode.BasicMode? {
      Basic.FrameParts(p.dlc, DATA, p.data);
    } else {
      Advanced.FrameLength(p.dlc, DATA, p.data);
    }
  }

  predicate Fragment(f: Piece, dlc: bv8, n: nat) {
    f.dlc == dlc && 0 < |f.data| <= n
  }

  lemma {:induction false} FragmentsFit(p: Piece, n: nat)
    requires n > 0
    ensures forall i :: 0 <= i < |Fragments(p, n)| ==> Fragment(Fragments(p, n)[i], p.dlc, n)
    decreases |p.data|
  {
    if |p.data| > n {
      FragmentsFit(Piece(p.dlc, p.data[n..]), n);
    }
  }

  predicate Writable(p: Piece) {
    1 <= Index(p.dlc) <= MAX_CHANNELS
  }

  lemma WritableAddress(dlc: bv8)
    requires Index(dlc) <= MAX_CHANNELS
    ensures dlc <= 63
  {
  }

  lemma {:induction false} FragmentsWritable(writes: seq<Piece>, n: nat)
    requires n > 0 && forall i :: 0 <= i < |writes| ==> Writable(writes[i])
    ensures forall i :: 0 <= i < |AllFragments(writes, n)| ==> AllFragments(writes, n)[i].dlc <= 63
  {
    hide Index;
    if writes != [] {
      FragmentsWritable(writes[1..], n);
      FragmentsFit(writes[0], n);
      WritableAddress(writes[0].dlc);
      var a := Fragments(writes[0], n);
      forall i | 0 <= i < |a| ensures a[i].dlc <= 63 { assert Fragment(a[i], writes[0].dlc, n); }
    }
  }

  //
  // The basic option reads any octets, sent by a multiplexer or not, the same in any chunks.
  //

  lemma FeedNext(mode: Mode, buf: seq<bv8>)
    requires NextIn(mode, buf).NextFrame?
    ensures var n := NextIn(mode, buf); var r := Feed(mode, buf[n.pos..]);
      Feed(mode, buf) == Feeding([n.frame] + r.frames, n.pos + r.used, r.fault)
  {
    hide NextIn;
  }

  lemma FeedStop(mode: Mode, buf: seq<bv8>)
    requires NextIn(mode, buf).NoMore?
    ensures Feed(mode, buf) == Feeding([], NextIn(mode, buf).pos, false)
  {
    hide NextIn;
  }

  lemma FeedAfterStop(s: seq<bv8>, t: seq<bv8>)
    requires NextIn(BasicMode, s).NoMore?
    ensures var p := NextIn(BasicMode, s).pos; var b := Feed(BasicMode, s[p..] + t);
            Feed(BasicMode, s + t) == Feeding(b.frames, p + b.used, b.fault)
  {
    hide Basic.Step, Basic.ScanFrom;
    var p := Basic.ScanFrom(s, 0).pos;
    Basic.ScanExtend(s, t, 0);
    Basic.ScanShift(s + t, p, p);
    assert (s + t)[p..] == s[p..] + t;
    var r := Basic.ScanFrom(s + t, 0);
    if r.frame.Some? {
      assert (s + t)[p..][r.pos - p..] == (s + t)[r.pos..];
    }
  }

  lemma FeedAfterFrame(s: seq<bv8>, t: seq<bv8>)
    requires NextIn(BasicMode, s).NextFrame?
    ensures var n := NextIn(BasicMode, s); var f := Feed(BasicMode, s[n.pos..] + t);
            Feed(BasicMode, s + t) == Feeding([n.frame] + f.frames, n.pos + f.used, f.fault)
  {
    hide Basic.Step, Basic.ScanFrom;
    var n := NextIn(BasicMode, s);
    Basic.ScanExtend(s, t, 0);
    assert (s + t)[n.pos..] == s[n.pos..] + t;
  }

  /** Chunk independence: feeding a buffer, and then what was left of it with more octets behind,
      extracts the same frames and uses up the same octets as feeding everything at once. */
  lemma {:induction false} FeedInChunks(s: seq<bv8>, t: seq<bv8>)
    ensures var a := Feed(BasicMode, s); var b := Feed(BasicMode, s[a.used..] + t);
            && !a.fault
            && Feed(BasicMode, s + t) == Feeding(a.frames + b.frames, a.used + b.used, b.fault)
    decreases |s|
  {
    hide NextIn, Feed;
    BasicNeverFaults(s);
    var n := NextIn(BasicMode, s);
    var rest := s[n.pos..];
    if n.NoMore? {
      FeedStop(BasicMode, s);
      FeedAfterStop(s, t);
      assert [] + Feed(BasicMode, rest + t).frames == Feed(BasicMode, rest + t).frames;
    } else {
      FeedNext(BasicMode, s);
      FeedAfterFrame(s, t);
      FeedInChunks(rest, t);
      var a := Feed(BasicMode, rest);
      var b := Feed(BasicMode, rest[a.used..] + t);
      assert rest[a.used..] == s[n.pos + a.used..];
      assert [n.frame] + (a.frames + b.frames) == [n.frame] + a.frames + b.frames;
    }
  }

  lemma BasicNeverFaults(s: seq<bv8>)
    ensures !NextIn(BasicMode, s).Fault?
  {
  }

  /** Nothing more can be extracted from the octets kept. */
  ghost predicate Drained(carry: seq<bv8>) {
    Feed(BasicMode, carry) == Feeding([], 0, false)
  }

  lemma FeedDrains(s: seq<bv8>)
    ensures Drained(s[Feed(BasicMode, s).used..])
  {
    hide Feed;
    var a := Feed(BasicMode, s);
    var rest := s[a.used..];
    FeedInChunks(s, []);
    assert s + [] == s && rest + [] == rest;
    FeedInChunks(rest, []);
    assert a.frames + Feed(BasicMode, rest).frames == a.frames;
  }

  //
  // Frames of every type.
  //

  function TypedWire(mode: Mode, fs: seq<Typed>): seq<bv8> {
    if fs == [] then [] else TypedFrame(mode, fs[0]) + TypedWire(mode, fs[1..])
  }

  /** What is extracted: the poll/final bit is stripped. */
  function Extracted(fs: seq<Typed>): seq<MuxFrame> {
    if fs == [] then [] else [MuxFrame(fs[0].dlc, Control(fs[0].kind), fs[0].data)] + Extracted(fs[1..])
  }

  lemma FeedEmpty(mode: Mode, lead: seq<bv8>)
    requires Lead(mode, lead)
    ensures Feed(mode, lead) == Feeding([], 0, false)
  {
    hide NextIn;
    NextInLead(mode, lead);
  }

  /** Repeated extraction from `all` yields `frames` and leaves `left`. */
  ghost predicate Yields(mode: Mode, all: seq<bv8>, frames: seq<MuxFrame>, left: seq<bv8>) {
    var r := Feed(mode, all);
    r.frames == frames && !r.fault && all[r.used..] == left
  }

  lemma YieldsOne(mode: Mode, all: seq<bv8>, frames: seq<MuxFrame>, left: seq<bv8>)
    requires NextIn(mode, all).NextFrame?
    requires Yields(mode, all[NextIn(mode, all).pos..], frames, left)
    ensures Yields(mode, all, [NextIn(mode, all).frame] + frames, left)
  {
    hide NextIn, Feed;
    FeedNext(mode, all);
    var n := NextIn(mode, all);
    var r := Feed(mode, all[n.pos..]);
    assert all[n.pos + r.used..] == all[n.pos..][r.used..];
  }

  lemma YieldsNone(mode: Mode, lead: seq<bv8>)
    requires Lead(mode, lead)
    ensures Yields(mode, lead + [], [], lead)
  {
    hide Feed;
    assert lead + [] == lead && lead[0..] == lead;
    FeedEmpty(mode, lead);
  }

  /** Repeated extraction from the concatenation of any frames, of any types and data, gives them
      back in order and leaves only the last flag. */
  lemma {:induction false} ExtractionInvertsFraming(mode: Mode, lead: seq<bv8>, fs: seq<Typed>)
    requires Lead(mode, lead) && forall i :: 0 <= i < |fs| ==> TypedSendable(mode, fs[i])
    ensures Yields(mode, lead + TypedWire(mode, fs), Extracted(fs), if fs == [] then lead else [FlagOf(mode)])
    decreases |fs|
  {
    hide TypedFrame, TypedSendable, NextIn, Yields, Control;
    if fs == [] {
      YieldsNone(mode, lead);
    } else {
      var f, rest := TypedFrame(mode, fs[0]), TypedWire(mode, fs[1..]);
      var all := lead + f + rest;
      assert lead + TypedWire(mode, fs) == all;
      NextIsTyped(mode, lead, fs[0], rest);
      KeepFlag(mode, lead, f, rest);
      ExtractionInvertsFraming(mode, [FlagOf(mode)], fs[1..]);
      YieldsOne(mode, all, Extracted(fs[1..]), [FlagOf(mode)]);
    }
  }
}
