/** Which octets the advanced scan can be given: a segment between two flags that unescapes to fewer than
three octets takes it out of its buffer or makes it report a negative length.
 */
module AdvancedFraming {
  import opened MuxFrames
  import opened Fcs8
  import opened Gsm0710Advanced
  import opened MuxStream

  /** Two flags with no other between them. */
  predicate Segment(buf: seq<bv8>, q: int, e: int) {
    0 <= q < e < |buf| && buf[q] == FLAG && buf[e] == FLAG && forall i :: q < i < e ==> buf[i] != FLAG
  }

  /** From `p` on, every segment that is not empty unescapes to at least an address, a control and a
      check octet. */
  ghost predicate WellFramedFrom(buf: seq<bv8>, p: nat) {
    forall q, e :: p <= q && q + 1 < e && Segment(buf, q, e) ==> |Unescaped(buf[q + 1..e])| >= 3
  }

  ghost predicate WellFramed(buf: seq<bv8>) {
    WellFramedFrom(buf, 0)
  }

  //
  // What goes wrong with a shorter segment.
  //

  /** A segment is reported with a negative length exactly when it unescapes to one or two octets and
      the last of them is the check octet of the first two octets of the buffer as it then stands. */
  lemma ShortIff(buf: seq<bv8>, q: nat, e: nat)
    requires q + 1 < e < |buf| && 4 <= e
    ensures var u := Unescaped(buf[q + 1..e]);
      var b := Overwrite(buf, u);
      Judge(buf, q, e).Stop? && Judge(buf, q, e).outcome.Short? <==>
      (|u| == 1 || |u| == 2) && u[|u| - 1] == Fcs(b[..2])
  {
    hide Unescaped, Fcs, CheckFcs, Control;
    var u := Unescaped(buf[q + 1..e]);
    if u != [] { CheckAcceptsOnlyFcs(Overwrite(buf, u)[..2], u[|u| - 1]); }
  }

  /** Five octets that are reported as a data frame of channel 3 with length minus one. */
  lemma ShortInput()
    ensures ScanFrom([0x7e, 0x7e, 0x0f, 0xef, 0x7e], 0).outcome == Short(4, 3, 0xef, -1)
  {
    hide CheckFcs;
    var w: seq<bv8> := [0x7e, 0x7e, 0x0f, 0xef, 0x7e];
    SkipLead(w, 1);
    FindFlagAt(w, 2, 4);
    assert w[2..4] == [0x0f, 0xef] && w[2..4][1..] == [0xef] && [0xef][1..] == [];
    var u: seq<bv8> := [0x0f, 0xef];
    assert Unescaped(w[2..4]) == u;
    assert Overwrite(w, u)[..2] == u;
    ShortHeader();
    StepOnce(w);
  }

  lemma ShortHeader()
    ensures CheckFcs([0x0f, 0xef], 0xef) && 0x0f as bv8 >> 2 == 3 && Control(0xef) == 0xef
  {
    hide Fcs8.Table;
    CheckAcceptsOnlyFcs([0x0f, 0xef], 0xef);
    ShortFcs();
  }

  lemma ShortFcs()
    ensures Fcs([0x0f, 0xef]) == 0xef
  {
    assert [0x0f, 0xef][1..] == [0xef] && [0xef][1..] == [];
  }

  /** Five octets on which the scan leaves its buffer. */
  lemma OutOfBoundsInput()
    ensures ScanFrom([0x7e, 0x7e, 0x7e, 0x7d, 0x7e], 0).outcome == OutOfBounds
  {
    var w: seq<bv8> := [0x7e, 0x7e, 0x7e, 0x7d, 0x7e];
    assert SkipFlags(w, 0) == SkipFlags(w, 1) == SkipFlags(w, 2) == 2;
    FindFlagAt(w, 3, 4);
    assert w[3..4] == [ESCAPE];
    StepOnce(w);
  }

  //
  // Well-framed octets are safe.
  //

  lemma KeepsFraming(buf: seq<bv8>, b: seq<bv8>, p: nat, at: nat)
    requires WellFramedFrom(buf, p) && |b| == |buf| && p <= at <= |buf| && b[at..] == buf[at..]
    ensures WellFramedFrom(b, at)
  {
    forall q, e | at <= q && q + 1 < e && Segment(b, q, e)
      ensures |Unescaped(b[q + 1..e])| >= 3
    {
      forall i | at <= i < |buf| ensures b[i] == buf[i] { assert b[at..][i - at] == buf[at..][i - at]; }
      assert Segment(buf, q, e);
      assert b[q + 1..e] == buf[q + 1..e];
    }
  }

  lemma StepIsSafe(buf: seq<bv8>, p: nat)
    requires p < |buf| && WellFramedFrom(buf, p)
    ensures Step(buf, p).Stop? ==> Step(buf, p).outcome.NoFrame? || Step(buf, p).outcome.Found?
  {
    hide Unescaped, CheckFcs, Control;
    if buf[p] == FLAG {
      var q := SkipFlags(buf, p);
      var e := FindFlag(buf, q + 1);
      if e < |buf| { assert Segment(buf, q, e); }
    }
  }

  lemma {:induction false} ScanIsSafe(buf: seq<bv8>, p: nat)
    requires p <= |buf| && WellFramedFrom(buf, p)
    ensures ScanFrom(buf, p).outcome.NoFrame? || ScanFrom(buf, p).outcome.Found?
    decreases |buf| - p
  {
    hide WellFramedFrom, Step;
    if p < |buf| {
      StepIsSafe(buf, p);
      var t := Step(buf, p);
      if t.GoOn? {
        KeepsFraming(buf, t.buf, p, t.at);
        ScanIsSafe(t.buf, t.at);
      }
    }
  }

  lemma DropFraming(buf: seq<bv8>, n: nat)
    requires WellFramed(buf) && n <= |buf|
    ensures WellFramed(buf[n..])
  {
    var b := buf[n..];
    forall q, e | 0 <= q && q + 1 < e && Segment(b, q, e)
      ensures |Unescaped(b[q + 1..e])| >= 3
    {
      assert Segment(buf, q + n, e + n) by {
        forall i | q + n < i < e + n ensures buf[i] != FLAG { assert buf[i] == b[i - n]; }
      }
      assert b[q + 1..e] == buf[q + n + 1..e + n];
    }
  }

  lemma PrefixFraming(buf: seq<bv8>, n: nat)
    requires WellFramed(buf) && n <= |buf|
    ensures WellFramed(buf[..n])
  {
    var b := buf[..n];
    forall q, e | 0 <= q && q + 1 < e && Segment(b, q, e)
      ensures |Unescaped(b[q + 1..e])| >= 3
    {
      assert Segment(buf, q, e) by {
        forall i | q < i < e ensures buf[i] != FLAG { assert buf[i] == b[i]; }
      }
      assert b[q + 1..e] == buf[q + 1..e];
    }
  }

  /** Whatever well-framed octets arrive, extraction never leaves defined behaviour. */
  lemma {:induction false} FeedIsSafe(buf: seq<bv8>)
    requires WellFramed(buf)
    ensures !Feed(AdvancedMode, buf).fault
    decreases |buf|
  {
    hide WellFramedFrom, ScanFrom;
    ScanIsSafe(buf, 0);
    FoundAfterStart(buf);
    var n := NextIn(AdvancedMode, buf);
    if n.NextFrame? {
      DropFraming(buf, n.pos);
      FeedIsSafe(buf[n.pos..]);
    }
  }

  //
  // Exactly which octets are.
  //

  /** What the scan comes to, read off the octets as they arrived: of all it writes into its buffer only
      the second octet matters later. */
  datatype Sight = Nothing | FrameTo(pos: nat) | Bad

  datatype Glance = Onward(at: nat, second: bv8) | Over(sight: Sight)

  /** One turn. */
  function Peek(buf: seq<bv8>, p: nat, second: bv8): (r: Glance)
    requires p < |buf|
    ensures r.Onward? ==> p < r.at <= |buf|
    ensures r.Over? && r.sight.FrameTo? ==> p < r.sight.pos < |buf|
  {
    if buf[p] != FLAG then Onward(p + 1, second)
    else
      var q := SkipFlags(buf, p);
      var e := FindFlag(buf, q + 1);
      if e == |buf| then Over(Nothing)
      else if e < 4 then Onward(e, second)
      else Weigh(Unescaped(buf[q + 1..e]), e, second)
  }

  /** A segment that ends at `e` and unescapes to `u`. */
  function Weigh(u: seq<bv8>, e: nat, second: bv8): Glance {
    if u == [] then Over(Bad)
    else
      var control := if |u| >= 2 then u[1] else second;
      if u[|u| - 1] != Fcs([u[0], control]) then Onward(e, control)
      else if |u| < 3 then Over(Bad)
      else Over(FrameTo(e))
  }

  function Look(buf: seq<bv8>, p: nat, second: bv8): (r: Sight)
    requires p <= |buf|
    ensures r.FrameTo? ==> p < r.pos < |buf|
    decreases |buf| - p
  {
    if p == |buf| then Nothing
    else
      match Peek(buf, p, second)
      case Onward(at, next) => Look(buf, at, next)
      case Over(sight) => sight
  }

  lemma {:induction false} SkipFlagsSame(a: seq<bv8>, b: seq<bv8>, p: nat)
    requires |a| == |b| && p < |a| && a[p..] == b[p..] && a[p] == FLAG
    ensures b[p] == FLAG && SkipFlags(a, p) == SkipFlags(b, p)
    decreases |a| - p
  {
    assert a[p] == a[p..][0] == b[p..][0];
    if p + 1 < |a| {
      assert a[p + 1] == a[p..][1] == b[p..][1];
      assert a[p + 1..] == a[p..][1..] == b[p..][1..] == b[p + 1..];
      if a[p + 1] == FLAG { SkipFlagsSame(a, b, p + 1); }
    }
  }

  lemma FindFlagSame(a: seq<bv8>, b: seq<bv8>, p: nat)
    requires |a| == |b| && p <= |a| && a[p..] == b[p..]
    ensures FindFlag(a, p) == FindFlag(b, p)
  {
    var e := FindFlag(a, p);
    forall i | p <= i < |a| ensures a[i] == b[i] { assert a[i] == a[p..][i - p] == b[p..][i - p]; }
    FindFlagAt(b, p, e);
  }

  lemma SuffixSame(a: seq<bv8>, b: seq<bv8>, p: nat, q: nat)
    requires |a| == |b| && p <= q <= |a| && a[p..] == b[p..]
    ensures a[q..] == b[q..]
  {
    assert a[q..] == a[p..][q - p..] == b[p..][q - p..] == b[q..];
  }

  predicate Agrees(o: Outcome, r: Sight) {
    match r
    case Nothing => o.NoFrame?
    case FrameTo(e) => o.Found? && o.pos == e
    case Bad => o.Short? || o.OutOfBounds?
  }

  predicate TurnAgrees(t: Gsm0710Advanced.Turn, g: Glance) {
    match g
    case Onward(at, second) => t.GoOn? && t.at == at && (|t.buf| >= 2 ==> t.buf[1] == second)
    case Over(sight) => t.Stop? && Agrees(t.outcome, sight)
  }

  lemma JudgeAgrees(b: seq<bv8>, q: nat, e: nat)
    requires q + 1 < e < |b| && 4 <= e
    ensures TurnAgrees(Judge(b, q, e), Weigh(Unescaped(b[q + 1..e]), e, b[1]))
  {
    hide Unescaped, Fcs, CheckFcs, Control;
    var u := Unescaped(b[q + 1..e]);
    if u != [] {
      var c := Overwrite(b, u);
      var control := if |u| >= 2 then u[1] else b[1];
      assert c[..2] == [u[0], control];
      CheckAcceptsOnlyFcs([u[0], control], u[|u| - 1]);
    }
  }

  lemma PeekAgrees(buf: seq<bv8>, b: seq<bv8>, p: nat, second: bv8)
    requires |b| == |buf| && p < |buf| && b[p..] == buf[p..] && (|b| >= 2 ==> b[1] == second)
    ensures TurnAgrees(Step(b, p), Peek(buf, p, second))
  {
    hide Unescaped, Weigh, Judge;
    assert b[p] == b[p..][0] == buf[p..][0] == buf[p];
    if buf[p] == FLAG {
      SkipFlagsSame(buf, b, p);
      var q := SkipFlags(buf, p);
      SuffixSame(buf, b, p, q + 1);
      FindFlagSame(buf, b, q + 1);
      var e := FindFlag(buf, q + 1);
      if 4 <= e < |buf| {
        assert b[q + 1..e] == b[q + 1..][..e - q - 1] == buf[q + 1..][..e - q - 1] == buf[q + 1..e];
        JudgeAgrees(b, q, e);
      }
    }
  }

  /** The scan in place comes to what the octets say, whatever it has written so far. */
  lemma {:induction false} LookIsScan(buf: seq<bv8>, b: seq<bv8>, p: nat, second: bv8)
    requires |b| == |buf| && p <= |buf| && b[p..] == buf[p..] && (|b| >= 2 ==> b[1] == second)
    ensures Agrees(ScanFrom(b, p).outcome, Look(buf, p, second))
    decreases |buf| - p
  {
    hide Peek, Step;
    if p < |buf| {
      PeekAgrees(buf, b, p, second);
      var t := Step(b, p);
      if t.GoOn? {
        SuffixSame(buf, b, p, t.at);
        LookIsScan(buf, t.buf, t.at, Peek(buf, p, second).second);
      }
    }
  }

  function LookAt(buf: seq<bv8>): (r: Sight)
    ensures r.FrameTo? ==> 0 < r.pos < |buf|
  {
    Look(buf, 0, if |buf| >= 2 then buf[1] else 0)
  }

  /** Somewhere in the octets extraction would leave defined behaviour. */
  predicate Undefined(buf: seq<bv8>)
    decreases |buf|
  {
    match LookAt(buf)
    case Nothing => false
    case FrameTo(e) => Undefined(buf[e..])
    case Bad => true
  }

  lemma NextAgrees(buf: seq<bv8>)
    ensures match LookAt(buf)
      case Nothing => NextIn(AdvancedMode, buf).NoMore?
      case FrameTo(e) => NextIn(AdvancedMode, buf).NextFrame? && NextIn(AdvancedMode, buf).pos == e
      case Bad => NextIn(AdvancedMode, buf).Fault?
  {
    hide ScanFrom, Look;
    FoundAfterStart(buf);
    LookIsScan(buf, buf, 0, if |buf| >= 2 then buf[1] else 0);
  }

  /** Extraction leaves defined behaviour if and only if the octets say so. */
  lemma {:induction false} FaultIff(buf: seq<bv8>)
    ensures Feed(AdvancedMode, buf).fault <==> Undefined(buf)
    decreases |buf|
  {
    hide NextIn, LookAt;
    NextAgrees(buf);
    if LookAt(buf).FrameTo? { FaultIff(buf[LookAt(buf).pos..]); }
  }

  /** Well-framed octets do not. */
  lemma WellFramedIsDefined(buf: seq<bv8>)
    requires WellFramed(buf)
    ensures !Undefined(buf)
  {
    hide WellFramed, Undefined, Feed;
    FeedIsSafe(buf);
    FaultIff(buf);
  }

  /** What either option can be given. */
  predicate Safe(mode: Mode, buf: seq<bv8>) {
    mode.AdvancedMode? ==> !Undefined(buf)
  }

  /** Where a scan found nothing, nothing is left that could go wrong. */
  lemma {:induction false} NothingLeft(buf: seq<bv8>, p: nat)
    requires p <= |buf| && ScanFrom(buf, p).outcome.NoFrame?
    ensures var r := buf[ScanFrom(buf, p).outcome.pos..]; forall i :: 0 < i < |r| ==> r[i] != FLAG
    decreases |buf| - p
  {
    hide Judge;
    if p < |buf| {
      var t := Step(buf, p);
      if t.GoOn? {
        NothingLeft(t.buf, t.at);
        var pos := ScanFrom(buf, p).outcome.pos;
        assert ScanFrom(buf, p) == ScanFrom(t.buf, t.at);
        SuffixSame(buf, t.buf, t.at, pos);
      } else {
        var q := SkipFlags(buf, p);
        var e := FindFlag(buf, q + 1);
        assert e == |buf|;
      }
    }
  }

  lemma {:induction false} OpenIsDefined(r: seq<bv8>, p: nat, second: bv8)
    requires p <= |r| && forall i :: 0 < i < |r| ==> r[i] != FLAG
    ensures Look(r, p, second) == Nothing
    decreases |r| - p
  {
    hide Weigh;
    if p < |r| {
      if r[p] != FLAG {
        OpenIsDefined(r, p + 1, second);
      } else {
        var q := SkipFlags(r, p);
        FindFlagAt(r, q + 1, |r|);
      }
    }
  }

  lemma {:induction false} RestIsDefined(buf: seq<bv8>)
    requires !Feed(AdvancedMode, buf).fault
    ensures !Undefined(buf[Feed(AdvancedMode, buf).used..])
    decreases |buf|
  {
    hide ScanFrom, Look;
    FoundAfterStart(buf);
    var n := NextIn(AdvancedMode, buf);
    if n.NextFrame? {
      RestIsDefined(buf[n.pos..]);
      var f := Feed(AdvancedMode, buf[n.pos..]);
      assert buf[n.pos..][f.used..] == buf[n.pos + f.used..];
    } else {
      NothingLeft(buf, 0);
      var r := buf[n.pos..];
      OpenIsDefined(r, 0, if |r| >= 2 then r[1] else 0);
    }
  }

  lemma SafeFeed(mode: Mode, buf: seq<bv8>)
    requires Safe(mode, buf)
    ensures !Feed(mode, buf).fault
    ensures Safe(mode, buf[Feed(mode, buf).used..])
  {
    hide Feed, Undefined;
    if mode.BasicMode? {
      FeedInChunks(buf, []);
    } else {
      FaultIff(buf);
      RestIsDefined(buf);
    }
  }

  //
  // What a multiplexer sends is well-framed, and so is every part of it.
  //

  lemma FirstSegment(w: seq<bv8>, n: nat)
    requires 0 < n < |w| && w[0] == FLAG && w[n] == FLAG && (forall i :: 0 < i < n ==> w[i] != FLAG)
    requires n == 1 || |Unescaped(w[1..n])| >= 3
    requires WellFramed(w[n..])
    ensures WellFramed(w)
  {
    var b := w[n..];
    forall q, e | 0 <= q && q + 1 < e && Segment(w, q, e)
      ensures |Unescaped(w[q + 1..e])| >= 3
    {
      if q == 0 {
        assert e == n;
      } else {
        assert q >= n;
        assert Segment(b, q - n, e - n);
        assert b[q - n + 1..e - n] == w[q + 1..e];
      }
    }
  }

  lemma NoSegment(w: seq<bv8>)
    requires w == [] || w == [FLAG]
    ensures WellFramed(w)
  {
  }

  lemma {:induction false} WireIsWellFramed(lead: seq<bv8>, fs: seq<Typed>)
    requires MuxStream.Lead(AdvancedMode, lead)
    ensures WellFramed(lead + TypedWire(AdvancedMode, fs))
    decreases |fs|, |lead| + 1
  {
    hide WellFramedFrom;
    if fs == [] {
      assert lead + [] == lead;
      NoSegment(lead);
    } else if lead == [] {
      FrameThenRest(fs);
    } else {
      WireIsWellFramed([], fs);
      var wire := TypedWire(AdvancedMode, fs);
      assert [] + wire == wire;
      var w := lead + wire;
      TypedStartsWithFlag(fs[0]);
      assert w[0] == FLAG && w[1] == wire[0] == FLAG && w[1..] == wire;
      FirstSegment(w, 1);
    }
  }

  lemma TypedStartsWithFlag(f: Typed)
    ensures TypedFrame(AdvancedMode, f)[0] == FLAG
  {
  }

  lemma StuffedSegment(stuffed: seq<bv8>, rest: seq<bv8>)
    requires FLAG !in stuffed && |Unescaped(stuffed)| >= 3 && WellFramed([FLAG] + rest)
    ensures WellFramed([FLAG] + stuffed + [FLAG] + rest)
  {
    hide WellFramedFrom, Unescaped;
    var octets := [FLAG] + stuffed + [FLAG];
    var w, n := octets + rest, |octets| - 1;
    FrameInBuffer([], octets, stuffed, rest);
    assert [] + octets + rest == w;
    assert w[n..] == [FLAG] + rest;
    FirstSegment(w, n);
  }

  lemma FrameThenRest(fs: seq<Typed>)
    requires fs != []
    ensures WellFramed([] + TypedWire(AdvancedMode, fs))
    decreases |fs|, 0
  {
    hide WellFramedFrom, Escaped, Unescaped, Gsm0710Advanced.Frame, HeaderFcs, Address;
    var f, rest := fs[0], TypedWire(AdvancedMode, fs[1..]);
    var u := Gsm0710Advanced.Content(f.dlc, f.kind, f.data);
    FrameIsStuffedContent(f.dlc, f.kind, f.data);
    EscapedNoFlag(u);
    UnescapeInvertsEscape(u);
    WireIsWellFramed([FLAG], fs[1..]);
    StuffedSegment(Escaped(u), rest);
    assert [] + TypedWire(AdvancedMode, fs) == TypedFrame(AdvancedMode, f) + rest;
  }

  /** Whatever part of a multiplexed stream has arrived, from the beginning or after a flag, is safe. */
  lemma SentIsSafe(mode: Mode, lead: seq<bv8>, fs: seq<Typed>, n: nat)
    requires MuxStream.Lead(mode, lead) && n <= |lead + TypedWire(mode, fs)|
    ensures Safe(mode, (lead + TypedWire(mode, fs))[..n])
  {
    hide WellFramed, Undefined;
    if mode.AdvancedMode? {
      WireIsWellFramed(lead, fs);
      PrefixFraming(lead + TypedWire(mode, fs), n);
      WellFramedIsDefined((lead + TypedWire(mode, fs))[..n]);
    }
  }
}
