/** Reading the main channel through a buffer of 4096 octets: what is read is what there is room for, and a
buffer that is still full after its frames were taken out ends reading for good.
 */
module MuxReading {
  import opened Wrappers
  import opened MuxFrames
  import opened MuxStream
  import opened AdvancedFraming
  import Basic = Gsm0710Basic
  import Advanced = Gsm0710Advanced

  /** The receiver, and the octets that have not been read yet. */
  datatype Reading = Reading(receiver: Receiver, unread: seq<bv8>)

  predicate Full(carry: seq<bv8>) {
    |carry| >= MUX_BUFFER_SIZE
  }

  /** How much one read takes, when the channel is willing to give `size` octets. */
  function Taken(carry: seq<bv8>, unread: seq<bv8>, size: nat): (n: nat)
    requires !Full(carry)
    ensures n <= |unread| && |carry| + n <= MUX_BUFFER_SIZE
    ensures size > 0 && unread != [] ==> n > 0
  {
    var room := MUX_BUFFER_SIZE - |carry|;
    var n := if size < room then size else room;
    if n < |unread| then n else |unread|
  }

  /** Reads of any sizes, until everything is read, there are no more reads, or the buffer stays full. */
  function ReadOn(mode: Mode, x: Reading, sizes: seq<nat>): (y: Reading)
    requires WithinRoom(x.receiver.chs)
    ensures WithinRoom(y.receiver.chs)
    decreases |sizes|
  {
    if x.unread == [] || sizes == [] || Full(x.receiver.carry) then x
    else
      var n := Taken(x.receiver.carry, x.unread, sizes[0]);
      ReadOn(mode, Reading(Receive(mode, x.receiver, x.unread[..n]), x.unread[n..]), sizes[1..])
  }

  /** Enough reads, none of them empty, to read everything. */
  predicate Enough(sizes: seq<nat>, unread: seq<bv8>) {
    |sizes| >= |unread| && forall k :: 0 <= k < |sizes| ==> sizes[k] > 0
  }

  //
  // Which octets fill the buffer.
  //

  /** A frame opened at the first octet announces more than the buffer holds. */
  predicate BasicJam(s: seq<bv8>) {
    && |s| == MUX_BUFFER_SIZE
    && s[0] == Basic.FLAG && s[1] != Basic.FLAG && Basic.AddressOk(s[1])
    && Basic.HeaderSize(s[3]) + 3 + Basic.Len(s, 0) > MUX_BUFFER_SIZE
  }

  /** A flag, and none after it. */
  predicate AdvancedJam(s: seq<bv8>) {
    |s| == MUX_BUFFER_SIZE && s[0] == Advanced.FLAG && forall i :: 0 < i < |s| ==> s[i] != Advanced.FLAG
  }

  lemma SkipNone(s: seq<bv8>)
    requires |s| > 1 && s[0] == Basic.FLAG
    ensures Basic.SkipFlags(s, 0) == 0 <==> s[1] != Basic.FLAG
  {
  }

  /** On arbitrary octets, nothing of a full buffer is used up exactly when its first frame announces
      more than the buffer holds. */
  lemma BasicJamIff(s: seq<bv8>)
    requires |s| == MUX_BUFFER_SIZE
    ensures Feed(BasicMode, s).used == 0 <==> BasicJam(s)
  {
    hide Basic.Good, Basic.Content, Basic.HeaderSize, Basic.AddressOk, Basic.Len, Basic.SkipFlags;
    if s[0] == Basic.FLAG { SkipNone(s); }
    var t := Basic.Step(s, 0);
    assert Basic.ScanFrom(s, 0) == if t.GoOn? then Basic.ScanFrom(s, t.at) else t.result;
  }

  lemma AdvancedSkipNone(s: seq<bv8>)
    requires |s| > 1 && s[0] == Advanced.FLAG
    ensures Advanced.SkipFlags(s, 0) == 0 <==> s[1] != Advanced.FLAG
  {
  }

  /** In the advanced option, exactly when it holds one flag, at its beginning. */
  lemma AdvancedJamIff(s: seq<bv8>)
    requires |s| == MUX_BUFFER_SIZE && !Undefined(s)
    ensures Feed(AdvancedMode, s).used == 0 <==> AdvancedJam(s)
  {
    hide Advanced.Judge, Advanced.ScanFrom, Undefined, Feed;
    FaultIff(s);
    FoundAfterStart(s);
    NextIsStep(s);
    if NextIn(AdvancedMode, s).NoMore? { FeedStop(AdvancedMode, s); }
    if NextIn(AdvancedMode, s).NextFrame? { FeedNext(AdvancedMode, s); }
    if NextIn(AdvancedMode, s).Fault? { FeedFaults(s); }
    if s[0] == Advanced.FLAG {
      AdvancedSkipNone(s);
      var q := Advanced.SkipFlags(s, 0);
      if AdvancedJam(s) { Advanced.FindFlagAt(s, 1, |s|); }
    }
  }

  lemma FeedFaults(s: seq<bv8>)
    requires NextIn(AdvancedMode, s).Fault?
    ensures Feed(AdvancedMode, s).fault
  {
  }

  lemma NextIsStep(s: seq<bv8>)
    requires s != []
    ensures var t := Advanced.Step(s, 0); var o := Advanced.ScanFrom(s, 0).outcome;
      if t.GoOn? then !o.OutOfBounds? ==> o.pos >= t.at else o == t.outcome
  {
    hide Advanced.Step;
  }

  //
  // The basic option on arbitrary octets.
  //

  function UsedBy(all: seq<bv8>, n: nat): (u: nat)
    requires n <= |all|
    ensures u <= n
  {
    Feed(BasicMode, all[..n]).used
  }

  /** The receiver after it has read the first `n` octets. */
  function At(chs: Channels, all: seq<bv8>, n: nat): (r: Receiver)
    requires WithinRoom(chs) && n <= |all|
    ensures WithinRoom(r.chs)
  {
    Receiver(all[UsedBy(all, n)..n], DeliverAll(chs, Feed(BasicMode, all[..n]).frames), false)
  }

  /** The octets kept of the first `n` fill the buffer. */
  predicate Jams(all: seq<bv8>, n: nat)
    requires n <= |all|
  {
    n - UsedBy(all, n) >= MUX_BUFFER_SIZE
  }

  /** Where reading ends, from the `m`-th octet on: where the octets kept fill the buffer, or at the end. */
  function EndOfReading(all: seq<bv8>, m: nat): (n: nat)
    requires m <= |all|
    ensures m <= n <= |all|
    ensures n == |all| || Jams(all, n)
    ensures forall i :: m <= i < n ==> !Jams(all, i)
    decreases |all| - m
  {
    if m == |all| || Jams(all, m) then m else EndOfReading(all, m + 1)
  }

  lemma EndIs(all: seq<bv8>, m: nat, n: nat)
    requires m <= n <= |all| && (n == |all| || Jams(all, n)) && forall i :: m <= i < n ==> !Jams(all, i)
    ensures EndOfReading(all, m) == n
  {
    hide Jams;
  }

  lemma UsedGrows(all: seq<bv8>, m: nat, n: nat)
    requires m <= n <= |all|
    ensures UsedBy(all, m) <= UsedBy(all, n)
  {
    hide Feed;
    assert all[..n] == all[..m] + all[m..n];
    FeedInChunks(all[..m], all[m..n]);
  }

  /** Reading the octets from `m` to `n` takes the receiver from the one place to the other. */
  lemma ReadTo(chs: Channels, all: seq<bv8>, m: nat, n: nat)
    requires WithinRoom(chs) && m <= n <= |all|
    ensures Receive(BasicMode, At(chs, all, m), all[m..n]) == At(chs, all, n)
  {
    hide Feed, DeliverAll, WithinRoom;
    var s, t := all[..m], all[m..n];
    var a := Feed(BasicMode, s);
    var kept := s[a.used..];
    assert all[UsedBy(all, m)..m] == kept;
    FeedInChunks(s, t);
    assert s + t == all[..n];
    FeedInChunks(kept + t, []);
    var b := Feed(BasicMode, kept + t);
    DeliverAllConcat(chs, a.frames, b.frames);
    assert (kept + t)[b.used..] == all[a.used + b.used..n];
    FeedInChunks(all[..n], []);
  }

  lemma NoJamOnTheWay(all: seq<bv8>, m: nat, n: nat)
    requires m < n <= |all| && !Jams(all, m) && n - UsedBy(all, m) <= MUX_BUFFER_SIZE
    ensures EndOfReading(all, m) == EndOfReading(all, n)
  {
    hide UsedBy;
    forall i | m <= i < n ensures !Jams(all, i) { UsedGrows(all, m, i); }
    var e := EndOfReading(all, n);
    EndIs(all, m, e);
  }

  /** Chunk independence with the buffer: for arbitrary octets and reads of any sizes, reading ends at the
      same place, with the same octets delivered and kept, as taking the octets up to there at once. */
  lemma {:induction false} BasicChunkIndependence(chs: Channels, all: seq<bv8>, m: nat, sizes: seq<nat>)
    requires WithinRoom(chs) && m <= |all| && Enough(sizes, all[m..])
    ensures var n := EndOfReading(all, m);
      ReadOn(BasicMode, Reading(At(chs, all, m), all[m..]), sizes) == Reading(At(chs, all, n), all[n..])
    decreases |sizes|
  {
    hide At, EndOfReading, UsedBy, WithinRoom;
    var r := At(chs, all, m);
    AtSize(chs, all, m);
    if m == |all| || Jams(all, m) {
      EndIs(all, m, m);
    } else {
      var k := Taken(r.carry, all[m..], sizes[0]);
      var n := m + k;
      assert all[m..][..k] == all[m..n] && all[m..][k..] == all[n..];
      ReadTo(chs, all, m, n);
      NoJamOnTheWay(all, m, n);
      BasicChunkIndependence(chs, all, n, sizes[1..]);
    }
  }

  lemma AtSize(chs: Channels, all: seq<bv8>, n: nat)
    requires WithinRoom(chs) && n <= |all|
    ensures |At(chs, all, n).carry| == n - UsedBy(all, n) && (Full(At(chs, all, n).carry) <==> Jams(all, n))
  {
  }

  /** And the buffer is full then, so that nothing is ever read again, exactly when the octets kept begin
      with a frame that announces more than the buffer holds. */
  lemma StoppedIffJam(chs: Channels, all: seq<bv8>, m: nat)
    requires WithinRoom(chs) && m <= |all| && !Jams(all, m)
    ensures var kept := At(chs, all, EndOfReading(all, m)).carry; Full(kept) <==> BasicJam(kept)
  {
    hide Feed, DeliverAll, BasicJam, UsedBy;
    var n := EndOfReading(all, m);
    AtSize(chs, all, n);
    if Jams(all, n) {
      JamIsExact(all, n);
      KeptJams(chs, all, n);
    } else {
      ShortIsNoJam(At(chs, all, n).carry);
    }
  }

  lemma ShortIsNoJam(s: seq<bv8>)
    requires !Full(s)
    ensures !BasicJam(s)
  {
  }

  lemma KeptJams(chs: Channels, all: seq<bv8>, n: nat)
    requires WithinRoom(chs) && n <= |all| && n - UsedBy(all, n) == MUX_BUFFER_SIZE
    ensures BasicJam(At(chs, all, n).carry)
  {
    hide Feed, DeliverAll, BasicJam;
    var s := all[UsedBy(all, n)..n];
    assert s == all[..n][UsedBy(all, n)..];
    FeedDrains(all[..n]);
    BasicJamIff(s);
  }

  /** The buffer is filled octet by octet. */
  lemma JamIsExact(all: seq<bv8>, n: nat)
    requires 0 < n <= |all| && Jams(all, n) && !Jams(all, n - 1)
    ensures n - UsedBy(all, n) == MUX_BUFFER_SIZE
  {
    hide UsedBy;
    UsedGrows(all, n - 1, n);
  }

  /** Five octets that announce a frame of 8192, whatever they are followed by. */
  function JamOctets(kind: bv8): seq<bv8> {
    [0xf9, 0x03, kind, 0x00, 0x40]
  }

  lemma AnnouncesTooMuch(kind: bv8, w: seq<bv8>)
    requires |w| >= 5 && w[..5] == JamOctets(kind)
    ensures w[0] == Basic.FLAG && w[1] != Basic.FLAG && Basic.AddressOk(w[1])
    ensures Basic.HeaderSize(w[3]) + 3 + Basic.Len(w, 0) == 8199
  {
    assert w[0] == w[..5][0] && w[1] == w[..5][1] && w[3] == w[..5][3] && w[4] == w[..5][4];
    AnnouncedLength();
  }

  lemma AnnouncedLength()
    ensures !Basic.ShortLength(0x00) && Basic.Half(0x00) == 0 && Basic.Value(0x40) == 64 && Basic.AddressOk(0x03)
  {
  }

  /** They stop the basic receiver for good: with reads of any sizes it reads up to 4096 octets and nothing
      that comes after, and delivers nothing. */
  lemma JamInput(chs: Channels, kind: bv8, more: seq<bv8>, sizes: seq<nat>)
    requires WithinRoom(chs) && |more| >= MUX_BUFFER_SIZE - 5
    requires Enough(sizes, JamOctets(kind) + more)
    ensures var all := JamOctets(kind) + more;
      ReadOn(BasicMode, Reading(Receiver([], chs, false), all), sizes)
        == Reading(Receiver(all[..MUX_BUFFER_SIZE], chs, false), all[MUX_BUFFER_SIZE..])
  {
    hide Feed;
    var all := JamOctets(kind) + more;
    forall n | 0 <= n <= MUX_BUFFER_SIZE ensures Feed(BasicMode, all[..n]) == Feeding([], 0, false) {
      PrefixWaits(kind, all, n);
    }
    EndIs(all, 0, MUX_BUFFER_SIZE);
    assert all[0..] == all && all[0..0] == [];
    BasicChunkIndependence(chs, all, 0, sizes);
  }

  lemma PrefixWaits(kind: bv8, all: seq<bv8>, n: nat)
    requires |all| >= MUX_BUFFER_SIZE && all[..5] == JamOctets(kind) && n <= MUX_BUFFER_SIZE
    ensures Feed(BasicMode, all[..n]) == Feeding([], 0, false)
  {
    hide Basic.Good, Basic.Content, Basic.HeaderSize, Basic.AddressOk, Basic.Len, Basic.SkipFlags;
    var w := all[..n];
    if n >= 5 {
      assert w[..5] == all[..5];
      AnnouncesTooMuch(kind, w);
    }
    AnnouncedLength();
    if n == 4 { assert w[3] == all[..5][3] == 0x00; }
    if n > 0 {
      assert w[0] == all[..5][0] && (n > 1 ==> w[1] == all[..5][1]);
      WaitsAtStart(w);
    } else {
      Basic.EmptyScan();
    }
  }

  lemma WaitsAtStart(w: seq<bv8>)
    requires w != [] && w[0] == Basic.FLAG && (|w| > 1 ==> w[1] == 0x03)
    requires |w| >= 5 ==> Basic.AddressOk(w[1]) && Basic.HeaderSize(w[3]) + 3 + Basic.Len(w, 0) > |w|
    requires |w| == 4 ==> Basic.AddressOk(w[1]) && !Basic.ShortLength(w[3])
    ensures Feed(BasicMode, w) == Feeding([], 0, false)
  {
    hide Basic.Good, Basic.Content, Basic.HeaderSize, Basic.AddressOk, Basic.Len;
    assert Basic.SkipFlags(w, 0) == 0;
  }

  //
  // Streams of sent frames.
  //

  predicate TooLong(mode: Mode, p: Piece) {
    |FrameOf(mode, p)| > MUX_BUFFER_SIZE
  }

  /** The first frame that is longer than the buffer, or none. */
  function FirstTooLong(mode: Mode, pieces: seq<Piece>): (j: nat)
    ensures j <= |pieces|
  {
    if pieces == [] || TooLong(mode, pieces[0]) then 0 else 1 + FirstTooLong(mode, pieces[1..])
  }

  lemma {:induction false} FirstTooLongIs(mode: Mode, pieces: seq<Piece>)
    ensures var j := FirstTooLong(mode, pieces);
      && (j < |pieces| ==> TooLong(mode, pieces[j]))
      && (forall i :: 0 <= i < j ==> !TooLong(mode, pieces[i]))
  {
    hide TooLong;
    if pieces != [] && !TooLong(mode, pieces[0]) {
      FirstTooLongIs(mode, pieces[1..]);
      var j := FirstTooLong(mode, pieces);
      forall i | 0 <= i < j ensures !TooLong(mode, pieces[i]) {
        if i > 0 { assert pieces[i] == pieces[1..][i - 1]; }
      }
    }
  }

  lemma {:induction false} FirstTooLongAfter(mode: Mode, pieces: seq<Piece>, k: nat)
    requires k <= |pieces| && forall i :: 0 <= i < k ==> !TooLong(mode, pieces[i])
    ensures FirstTooLong(mode, pieces) == k + FirstTooLong(mode, pieces[k..])
    decreases k
  {
    hide TooLong;
    if k == 0 {
      assert pieces[0..] == pieces;
    } else {
      FirstTooLongAfter(mode, pieces[1..], k - 1);
      assert pieces[1..][k - 1..] == pieces[k..];
    }
  }

  /** What has been read and what has not is the rest of a stream, and the buffer is not full. */
  predicate InStream(mode: Mode, x: Reading, lead: seq<bv8>, pieces: seq<Piece>) {
    && !x.receiver.fault && Lead(mode, lead) && AllSendable(mode, pieces)
    && x.receiver.carry + x.unread == lead + Wire(mode, pieces)
    && (x.unread == [] ==> pieces == [])
    && KeptOf(mode, pieces, x.receiver.carry)
  }

  /** How reading a stream ends: with all its frames delivered if none is longer than the buffer, and
      otherwise with those before the first such frame, and a buffer full of its octets. */
  ghost predicate EndsWell(mode: Mode, chs: Channels, pieces: seq<Piece>, y: Reading)
    requires WithinRoom(chs)
  {
    var j := FirstTooLong(mode, pieces);
    && !y.receiver.fault
    && y.receiver.chs == DeliverAll(chs, AsFrames(pieces[..j]))
    && if j == |pieces| then y.unread == [] && !Full(y.receiver.carry)
       else |y.receiver.carry| == MUX_BUFFER_SIZE && y.receiver.carry <= FrameOf(mode, pieces[j])
  }

  /** One read within a stream. */
  lemma ReadStep(mode: Mode, x: Reading, lead: seq<bv8>, pieces: seq<Piece>, n: nat)
    returns (k: nat, lead': seq<bv8>)
    requires WithinRoom(x.receiver.chs) && InStream(mode, x, lead, pieces)
    requires n <= |x.unread| && |x.receiver.carry| + n <= MUX_BUFFER_SIZE
    ensures k <= |pieces| && forall i :: 0 <= i < k ==> !TooLong(mode, pieces[i])
    ensures var y := Reading(Receive(mode, x.receiver, x.unread[..n]), x.unread[n..]);
      && InStream(mode, y, lead', pieces[k..])
      && |y.receiver.carry| <= MUX_BUFFER_SIZE
      && y.receiver.chs == DeliverAll(x.receiver.chs, AsFrames(pieces[..k]))
  {
    hide Feed, Wire, Sendable, FrameOf, WithinRoom, DeliverAll;
    var c, t := x.receiver.carry + x.unread[..n], x.unread[n..];
    assert c + t == x.receiver.carry + x.unread;
    k, lead' := FeedStream(mode, lead, pieces, c, t);
    assert FedTo(mode, pieces, c, t, k, lead');
  }

  /** A full buffer in a stream holds the first octets of a frame that is longer than it. */
  lemma FullMeansTooLong(mode: Mode, x: Reading, lead: seq<bv8>, pieces: seq<Piece>)
    requires InStream(mode, x, lead, pieces) && |x.receiver.carry| == MUX_BUFFER_SIZE
    ensures pieces != [] && |FrameOf(mode, pieces[0])| > MUX_BUFFER_SIZE && FirstTooLong(mode, pieces) == 0
    ensures !x.receiver.fault
    ensures x.receiver.carry == FrameOf(mode, pieces[0])[..MUX_BUFFER_SIZE]
  {
    hide FrameOf, Wire, Sendable;
  }

  lemma {:induction false} ReadStream(mode: Mode, x: Reading, lead: seq<bv8>, pieces: seq<Piece>, sizes: seq<nat>)
    requires WithinRoom(x.receiver.chs) && InStream(mode, x, lead, pieces)
    requires |x.receiver.carry| <= MUX_BUFFER_SIZE && Enough(sizes, x.unread)
    ensures EndsWell(mode, x.receiver.chs, pieces, ReadOn(mode, x, sizes))
    decreases |sizes|
  {
    hide WithinRoom, InStream, DeliverAll, Receive, FrameOf, TooLong, FirstTooLong, EndsWell;
    if Full(x.receiver.carry) {
      FullMeansTooLong(mode, x, lead, pieces);
      EndNow(mode, x, pieces);
    } else if x.unread == [] {
      NoneLeft(mode, x, lead, pieces);
      EndNow(mode, x, pieces);
    } else {
      var n := Taken(x.receiver.carry, x.unread, sizes[0]);
      var k, lead' := ReadStep(mode, x, lead, pieces, n);
      var y := Reading(Receive(mode, x.receiver, x.unread[..n]), x.unread[n..]);
      ReadStream(mode, y, lead', pieces[k..], sizes[1..]);
      EndLater(mode, x.receiver.chs, y.receiver.chs, pieces, k, ReadOn(mode, x, sizes));
    }
  }

  lemma NoneLeft(mode: Mode, x: Reading, lead: seq<bv8>, pieces: seq<Piece>)
    requires InStream(mode, x, lead, pieces) && x.unread == []
    ensures pieces == [] && !x.receiver.fault
  {
    hide Wire, FrameOf;
  }

  lemma EndNow(mode: Mode, x: Reading, pieces: seq<Piece>)
    requires WithinRoom(x.receiver.chs) && !x.receiver.fault && FirstTooLong(mode, pieces) == 0
    requires pieces == [] ==> x.unread == [] && !Full(x.receiver.carry)
    requires pieces != [] ==> |FrameOf(mode, pieces[0])| > MUX_BUFFER_SIZE
    requires pieces != [] ==> x.receiver.carry == FrameOf(mode, pieces[0])[..MUX_BUFFER_SIZE]
    ensures EndsWell(mode, x.receiver.chs, pieces, x)
  {
    hide FrameOf, TooLong;
    assert pieces[..0] == [];
  }

  lemma EndLater(mode: Mode, chs: Channels, chs': Channels, pieces: seq<Piece>, k: nat, y: Reading)
    requires WithinRoom(chs) && WithinRoom(chs') && k <= |pieces|
    requires forall i :: 0 <= i < k ==> !TooLong(mode, pieces[i])
    requires chs' == DeliverAll(chs, AsFrames(pieces[..k])) && EndsWell(mode, chs', pieces[k..], y)
    ensures EndsWell(mode, chs, pieces, y)
  {
    hide FrameOf, TooLong, DeliverAll, FirstTooLong, WithinRoom;
    FirstTooLongAfter(mode, pieces, k);
    var j := FirstTooLong(mode, pieces[k..]);
    assert pieces[..k + j] == pieces[..k] + pieces[k..][..j];
    AsFramesConcat(pieces[..k], pieces[k..][..j]);
    DeliverAllConcat(chs, AsFrames(pieces[..k]), AsFrames(pieces[k..][..j]));
  }

  //
  // Multiplexing and demultiplexing.
  //

  /** A frame size whose fragments fit the length field of the basic option. */
  predicate FrameSizeOk(mode: Mode, n: nat) {
    n > 0 && (mode.BasicMode? ==> n < 0x8000)
  }

  lemma FragmentsSendable(mode: Mode, writes: seq<Piece>, n: nat)
    requires FrameSizeOk(mode, n) && forall i :: 0 <= i < |writes| ==> Writable(writes[i])
    ensures AllSendable(mode, AllFragments(writes, n))
  {
    var pieces := AllFragments(writes, n);
    FragmentsWritable(writes, n);
    FragmentsShort(writes, n);
  }

  lemma EmptyWire(mode: Mode, pieces: seq<Piece>)
    requires Wire(mode, pieces) == []
    ensures pieces == []
  {
    hide FrameOf;
    if pieces != [] {
      FrameEndsInFlag(mode, pieces[0]);
    }
  }

  /** The receiver at the beginning of a stream of writes. */
  function Opening(mode: Mode, n: nat, writes: seq<Piece>, chs: Channels): Reading
    requires n > 0
  {
    Reading(Receiver([], chs, false), Wire(mode, AllFragments(writes, n)))
  }

  /** For any interleaving of writes, reads of any sizes and either option: reading stops for good if and
      only if some frame is longer than the buffer. */
  lemma ReadingStopsIff(mode: Mode, n: nat, writes: seq<Piece>, chs: Channels, sizes: seq<nat>)
    requires FrameSizeOk(mode, n) && forall i :: 0 <= i < |writes| ==> Writable(writes[i])
    requires WithinRoom(chs) && Enough(sizes, Wire(mode, AllFragments(writes, n)))
    ensures var pieces := AllFragments(writes, n);
      var y := ReadOn(mode, Opening(mode, n, writes, chs), sizes);
      && EndsWell(mode, chs, pieces, y)
      && (Full(y.receiver.carry) <==> exists i :: 0 <= i < |pieces| && TooLong(mode, pieces[i]))
  {
    hide FrameOf, Wire, Sendable, DeliverAll, TooLong;
    var pieces := AllFragments(writes, n);
    FragmentsSendable(mode, writes, n);
    var x := Opening(mode, n, writes, chs);
    if x.unread == [] { EmptyWire(mode, pieces); }
    ReadStream(mode, x, [], pieces, sizes);
    FirstTooLongIs(mode, pieces);
  }

  /** Demultiplexing inverts multiplexing: if no frame is longer than the buffer, everything is read, and a
      channel ends up with what it held followed by exactly what was written to it, as far as it has room;
      otherwise with what was written to it before the first such frame. */
  lemma DemuxInvertsMux(mode: Mode, n: nat, writes: seq<Piece>, chs: Channels, sizes: seq<nat>, dlc: bv8)
    requires FrameSizeOk(mode, n) && forall i :: 0 <= i < |writes| ==> Writable(writes[i])
    requires WithinRoom(chs) && Enough(sizes, Wire(mode, AllFragments(writes, n)))
    requires 1 <= Index(dlc) <= MAX_CHANNELS && chs[Index(dlc) - 1].Some?
    ensures var pieces := AllFragments(writes, n);
      var j := FirstTooLong(mode, pieces);
      var y := ReadOn(mode, Opening(mode, n, writes, chs), sizes);
      var held := chs[Index(dlc) - 1].value;
      && !y.receiver.fault
      && (y.unread == [] && !Full(y.receiver.carry) <==> j == |pieces|)
      && y.receiver.chs[Index(dlc) - 1] == Some(Held(held + DataFor(pieces[..j], dlc)))
      && (j == |pieces| ==> DataFor(pieces[..j], dlc) == DataFor(writes, dlc))
  {
    hide Index, FrameOf, DeliverAll, Held, ReadOn, FirstTooLong, Wire, DataFor, TooLong;
    var pieces := AllFragments(writes, n);
    var j := FirstTooLong(mode, pieces);
    ReadingStopsIff(mode, n, writes, chs, sizes);
    ChannelContents(chs, pieces[..j], dlc);
    AllFragmentsCarryData(writes, n, dlc);
    assert pieces[..|pieces|] == pieces;
  }

  /** A frame size for which the buffer allocated for a frame is no larger than the receiver's never stops
      the reader. */
  lemma FrameSizeIsSafe(mode: Mode, n: nat, writes: seq<Piece>, chs: Channels, sizes: seq<nat>)
    requires n > 0 && FrameRoom(mode, n) <= MUX_BUFFER_SIZE
    requires forall i :: 0 <= i < |writes| ==> Writable(writes[i])
    requires WithinRoom(chs) && Enough(sizes, Wire(mode, AllFragments(writes, n)))
    ensures var y := ReadOn(mode, Opening(mode, n, writes, chs), sizes);
      y.unread == [] && !Full(y.receiver.carry) && !y.receiver.fault
  {
    hide FrameOf, Wire, ReadOn, DeliverAll;
    var pieces := AllFragments(writes, n);
    ReadingStopsIff(mode, n, writes, chs, sizes);
    FragmentsShort(writes, n);
    forall i | 0 <= i < |pieces| ensures !TooLong(mode, pieces[i]) { FrameFitsRoom(mode, pieces[i]); }
  }

  lemma {:induction false} FragmentsShort(writes: seq<Piece>, n: nat)
    requires n > 0
    ensures forall i :: 0 <= i < |AllFragments(writes, n)| ==> |AllFragments(writes, n)[i].data| <= n
  {
    if writes != [] {
      FragmentsShort(writes[1..], n);
      FragmentsFit(writes[0], n);
      var a := Fragments(writes[0], n);
      forall i | 0 <= i < |a| ensures |a[i].data| <= n { assert Fragment(a[i], writes[0].dlc, n); }
    }
  }
}
