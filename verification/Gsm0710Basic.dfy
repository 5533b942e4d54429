/** A frame of the multiplexer as `gsm0710.c` hands it to its caller. */
module MuxFrames {
  import opened Wrappers

  datatype MuxFrame = MuxFrame(dlc: bv8, control: bv8, data: seq<bv8>)

  /** Where a scan stopped, and the frame it found. */
  datatype Scan = Scan(pos: nat, frame: Option<MuxFrame>)

  /** The control field with the poll/final bit stripped. */
  function Control(kind: bv8): bv8 {
    kind & 0xef
  }

  function Address(dlc: bv8): bv8 {
    (dlc << 2) | 0x03
  }

  lemma AddressRoundTrip(dlc: bv8)
    requires dlc <= 63
    ensures Address(dlc) >> 2 == dlc && Address(dlc) & 1 != 0
  {
  }

  lemma SubSlice(w: seq<bv8>, p: nat, f: seq<bv8>, i: nat, j: nat)
    requires i <= j <= |f| && p + |f| <= |w| && w[p..p + |f|] == f
    ensures w[p + i..p + j] == f[i..j]
  {
    var x, y := w[p + i..p + j], f[i..j];
    forall k | 0 <= k < |x|
      ensures x[k] == y[k]
    {
      assert w[p + (i + k)] == w[p..p + |f|][i + k];
    }
  }

  lemma ArraySlice(buf: array<bv8>, base: nat, len: nat, i: nat, j: nat)
    requires base + len <= buf.Length && i <= j <= len
    ensures buf[base..base + len][i..j] == buf[base + i..base + j]
  {
    var x, y := buf[base..base + len][i..j], buf[base + i..base + j];
    forall k | 0 <= k < |x|
      ensures x[k] == y[k]
    {
      assert x[k] == buf[base..base + len][i + k] == buf[base + (i + k)];
    }
  }

  lemma SliceAt(w: seq<bv8>, p: nat, f: seq<bv8>, i: nat)
    requires i < |f| && p + |f| <= |w| && w[p..p + |f|] == f
    ensures w[p + i] == f[i]
  {
    assert w[p + i] == w[p..p + |f|][i];
  }
}

/** Frames of the basic option (3GPP TS 27.010, section 5.2): what is put on the wire, and the scan
that finds the next frame in a buffer of arbitrary octets.
 */
module Gsm0710Basic {
  import opened MuxFrames
  import opened Fcs8
  import opened Wrappers

  const FLAG: bv8 := 0xf9

  //
  // Building a frame.
  //

  function Value(c: bv8): nat {
    c as int
  }

  lemma ValueOfDouble(c: bv8)
    requires c < 128
    ensures Value(2 * c) == 2 * Value(c)
  {
  }

  lemma ValueOfNext(c: bv8)
    requires c < 255
    ensures Value(c + 1) == Value(c) + 1
  {
  }

  lemma ValueBelow(c: bv8)
    requires Value(c) < 128
    ensures c < 128
  {
  }

  /** The octet of value `k`, from its binary digits. */
  function Octet(k: nat): (c: bv8)
    requires k < 256
    ensures Value(c) == k
  {
    if k == 0 then 0
    else
      var c := Octet(k / 2);
      ValueBelow(c);
      ValueOfDouble(c);
      EvenBelow(c);
      ValueOfNext(2 * c);
      if k % 2 == 0 then 2 * c else 2 * c + 1
  }

  lemma EvenBelow(c: bv8)
    ensures 2 * c < 255
  {
  }

  function Half(c: bv8): nat {
    (c >> 1) as int
  }

  /** The length octets: seven bits and an end mark, or fifteen bits in two octets. */
  function LengthField(len: nat): (l: seq<bv8>)
    ensures |l| == if len <= 127 then 1 else 2
  {
    if len <= 127 then [Octet(2 * len + 1)] else [Octet(2 * len % 256), Octet(len / 128 % 256)]
  }

  function Header(dlc: bv8, kind: bv8, len: nat): seq<bv8> {
    [Address(dlc), kind] + LengthField(len)
  }

  function Frame(dlc: bv8, kind: bv8, data: seq<bv8>): seq<bv8> {
    var header := Header(dlc, kind, |data|);
    [FLAG] + header + data + [Fcs(header), FLAG]
  }

  //
  // Finding a frame.
  //

  /** The last flag of the run of flags that starts at `p`. */
  function SkipFlags(buf: seq<bv8>, p: nat): (q: nat)
    requires p < |buf| && buf[p] == FLAG
    ensures p <= q < |buf| && buf[q] == FLAG && (q + 1 < |buf| ==> buf[q + 1] != FLAG)
    decreases |buf| - p
  {
    if p + 1 < |buf| && buf[p + 1] == FLAG then SkipFlags(buf, p + 1) else p
  }

  predicate ShortLength(c: bv8) {
    c & 1 != 0
  }

  function HeaderSize(c: bv8): nat {
    if ShortLength(c) then 3 else 4
  }

  /** The length announced by the length octet `c`, with `d` the octet after it. */
  function FrameLen(c: bv8, d: bv8): nat {
    Half(c) + if ShortLength(c) then 0 else 128 * Value(d)
  }

  predicate AddressOk(c: bv8) {
    c & 1 != 0
  }

  /** The header and everything up to the closing flag of a frame opened at `p` are in the buffer. */
  predicate Complete(buf: seq<bv8>, p: nat) {
    && p + 4 <= |buf|
    && (ShortLength(buf[p + 3]) || p + 5 <= |buf|)
    && p + HeaderSize(buf[p + 3]) + 3 + Len(buf, p) <= |buf|
  }

  function Len(buf: seq<bv8>, p: nat): nat
    requires p + 4 <= |buf| && (ShortLength(buf[p + 3]) || p + 5 <= |buf|)
  {
    FrameLen(buf[p + 3], if ShortLength(buf[p + 3]) then 0 else buf[p + 4])
  }

  /** Index of the closing flag of a complete frame. */
  function End(buf: seq<bv8>, p: nat): (e: nat)
    requires Complete(buf, p)
    ensures p + 5 <= e < |buf|
  {
    p + HeaderSize(buf[p + 3]) + Len(buf, p) + 2
  }

  predicate Good(buf: seq<bv8>, p: nat)
    requires Complete(buf, p)
  {
    var h := HeaderSize(buf[p + 3]);
    CheckFcs(buf[p + 1..p + 1 + h], buf[End(buf, p) - 1]) && buf[End(buf, p)] == FLAG
  }

  function Content(buf: seq<bv8>, p: nat): MuxFrame
    requires Complete(buf, p)
  {
    MuxFrame(buf[p + 1] >> 2, Control(buf[p + 2]), buf[p + 1 + HeaderSize(buf[p + 3])..End(buf, p) - 1])
  }

  /** One turn of the scan loop: go on at a later position, or stop with a result. */
  datatype Turn = GoOn(at: nat) | Stop(result: Scan)

  function Step(buf: seq<bv8>, p: nat): (r: Turn)
    requires p < |buf|
    ensures r.GoOn? ==> p < r.at <= |buf|
    ensures r.Stop? ==> p <= r.result.pos < |buf| && (r.result.frame.Some? ==> p < r.result.pos)
  {
    if buf[p] != FLAG then GoOn(p + 1)
    else
      var q := SkipFlags(buf, p);
      if q + 4 > |buf| then Stop(Scan(q, None))
      else if !AddressOk(buf[q + 1]) then GoOn(q + 1)
      else if !Complete(buf, q) then Stop(Scan(q, None))
      else if !Good(buf, q) then GoOn(End(buf, q))
      else Stop(Scan(End(buf, q), Some(Content(buf, q))))
  }

  /** The scan of `gsm0710_basic_extract_frame` from position `p` on. */
  function ScanFrom(buf: seq<bv8>, p: nat): (r: Scan)
    requires p <= |buf|
    ensures p <= r.pos <= |buf| && (r.frame.Some? ==> p < r.pos)
    decreases |buf| - p
  {
    if p == |buf| then Scan(p, None)
    else
      match Step(buf, p)
      case GoOn(q) => ScanFrom(buf, q)
      case Stop(r) => r
  }

  //
  // Chunk independence, on arbitrary octets.
  //

  lemma {:induction false} SkipFlagsExtend(s: seq<bv8>, t: seq<bv8>, p: nat)
    requires p < |s| && s[p] == FLAG
    ensures SkipFlags(s + t, p) == SkipFlags(s + t, SkipFlags(s, p))
    ensures SkipFlags(s, p) + 1 < |s| ==> SkipFlags(s + t, p) == SkipFlags(s, p)
    decreases |s| - p
  {
    if p + 1 < |s| && s[p + 1] == FLAG {
      SkipFlagsExtend(s, t, p + 1);
    }
  }

  lemma CompleteExtend(s: seq<bv8>, t: seq<bv8>, p: nat)
    requires Complete(s, p)
    ensures Complete(s + t, p) && End(s + t, p) == End(s, p)
    ensures Good(s + t, p) == Good(s, p) && Content(s + t, p) == Content(s, p)
  {
    hide CheckFcs;
    var h := HeaderSize(s[p + 3]);
    assert (s + t)[p + 1..p + 1 + h] == s[p + 1..p + 1 + h];
    assert (s + t)[p + 1 + h..End(s, p) - 1] == s[p + 1 + h..End(s, p) - 1];
  }

  lemma StepExtend(s: seq<bv8>, t: seq<bv8>, p: nat)
    requires p < |s|
    ensures match Step(s, p)
            case GoOn(q) => Step(s + t, p) == GoOn(q)
            case Stop(r) => if r.frame.Some? then Step(s + t, p) == Stop(r) else Step(s + t, p) == Step(s + t, r.pos)
  {
    hide Complete, End, Good, Content, AddressOk;
    if s[p] == FLAG {
      var q := SkipFlags(s, p);
      SkipFlagsExtend(s, t, p);
      if q + 4 <= |s| && AddressOk(s[q + 1]) && Complete(s, q) {
        CompleteExtend(s, t, q);
      }
    }
  }

  /** More octets do not change the frame already found; when none is found, the scan of the
      longer buffer passes through the position the shorter one stopped at. */
  lemma {:induction false} ScanExtend(s: seq<bv8>, t: seq<bv8>, p: nat)
    requires p <= |s|
    ensures ScanFrom(s, p).frame.Some? ==> ScanFrom(s + t, p) == ScanFrom(s, p)
    ensures ScanFrom(s, p).frame.None? ==> ScanFrom(s + t, p) == ScanFrom(s + t, ScanFrom(s, p).pos)
    decreases |s| - p
  {
    hide Step;
    if p < |s| {
      StepExtend(s, t, p);
      match Step(s, p)
      case GoOn(q) => ScanExtend(s, t, q);
      case Stop(r) =>
    }
  }

  lemma {:induction false} SkipFlagsShift(s: seq<bv8>, k: nat, p: nat)
    requires k <= p < |s| && s[p] == FLAG
    ensures SkipFlags(s[k..], p - k) == SkipFlags(s, p) - k
    decreases |s| - p
  {
    if p + 1 < |s| && s[p + 1] == FLAG {
      SkipFlagsShift(s, k, p + 1);
    }
  }

  lemma CompleteShift(s: seq<bv8>, k: nat, p: nat)
    requires k <= p
    ensures k <= |s| && Complete(s, p) <==> k <= |s| && Complete(s[k..], p - k)
    ensures Complete(s, p) ==>
              && End(s[k..], p - k) == End(s, p) - k && Good(s[k..], p - k) == Good(s, p)
              && Content(s[k..], p - k) == Content(s, p)
  {
    hide CheckFcs;
    if Complete(s, p) {
      var h := HeaderSize(s[p + 3]);
      assert s[k..][p - k + 1..p - k + 1 + h] == s[p + 1..p + 1 + h];
      assert s[k..][p - k + 1 + h..End(s, p) - k - 1] == s[p + 1 + h..End(s, p) - 1];
    }
  }

  lemma StepShift(s: seq<bv8>, k: nat, p: nat)
    requires k <= p < |s|
    ensures Step(s, p) == match Step(s[k..], p - k)
                          case GoOn(q) => GoOn(q + k)
                          case Stop(r) => Stop(Scan(r.pos + k, r.frame))
  {
    hide Complete, End, Good, Content, AddressOk;
    if s[p] == FLAG {
      SkipFlagsShift(s, k, p);
      CompleteShift(s, k, SkipFlags(s, p));
    }
  }

  /** Dropping what lies before the scan position only shifts the result. */
  lemma {:induction false} ScanShift(s: seq<bv8>, k: nat, p: nat)
    requires k <= p <= |s|
    ensures ScanFrom(s, p) == var r := ScanFrom(s[k..], p - k); Scan(r.pos + k, r.frame)
    decreases |s| - p
  {
    hide Step;
    if p < |s| {
      StepShift(s, k, p);
      match Step(s, p)
      case GoOn(q) => ScanShift(s, k, q);
      case Stop(r) =>
    }
  }

  //
  // Round trip.
  //

  lemma SplitLength(len: nat)
    requires len < 0x8000
    ensures 2 * len % 256 == 2 * (len % 128) && len / 128 % 256 == len / 128
  {
  }

  lemma LowBitIsParity(c: bv8)
    ensures ShortLength(c) <==> Value(c) % 2 == 1
  {
  }

  lemma HalfOfValue(c: bv8)
    ensures Half(c) == Value(c) / 2
  {
  }

  /** The length octets say how long the data is. */
  lemma LengthRoundTrip(len: nat)
    requires len < 0x8000
    ensures var l := LengthField(len);
            && ShortLength(l[0]) == (len <= 127) && |l| == (if len <= 127 then 1 else 2)
            && FrameLen(l[0], if len <= 127 then 0 else l[1]) == len
  {
    hide ShortLength, Octet, Value, Half;
    var k := if len <= 127 then 2 * len + 1 else 2 * len % 256;
    LowBitIsParity(Octet(k));
    HalfOfValue(Octet(k));
    SplitLength(len);
  }

  lemma AddressIsNoFlag(dlc: bv8)
    ensures Address(dlc) != FLAG && AddressOk(Address(dlc))
  {
  }

  /** `w` holds the frame of `dlc`, `kind` and `data` at position `p`. */
  predicate HoldsFrame(w: seq<bv8>, p: nat, dlc: bv8, kind: bv8, data: seq<bv8>) {
    var f := Frame(dlc, kind, data);
    p + |f| <= |w| && w[p..p + |f|] == f
  }

  lemma FrameParts(dlc: bv8, kind: bv8, data: seq<bv8>)
    ensures var f := Frame(dlc, kind, data); var l := LengthField(|data|); var h := 2 + |l|;
            && |f| == h + |data| + 3
            && f[0] == FLAG && f[1..1 + h] == Header(dlc, kind, |data|) && f[1 + h..1 + h + |data|] == data
            && f[1] == Address(dlc) && f[2] == kind && f[3] == l[0] && (|l| == 2 ==> f[4] == l[1])
            && f[1 + h + |data|] == Fcs(Header(dlc, kind, |data|)) && f[h + |data| + 2] == FLAG
  {
    hide Fcs, Address, LengthField;
    var f := Frame(dlc, kind, data);
    var header := Header(dlc, kind, |data|);
    var h := |header|;
    assert f[1..1 + h] == header;
    assert header[0] == f[1] && header[1] == f[2] && header[2] == f[3];
  }

  lemma FrameInBuffer(w: seq<bv8>, p: nat, dlc: bv8, kind: bv8, data: seq<bv8>)
    requires HoldsFrame(w, p, dlc, kind, data)
    ensures var l := LengthField(|data|); var h := 2 + |l|;
            && |Frame(dlc, kind, data)| == h + |data| + 3 && p + h + |data| + 3 <= |w|
            && w[p] == FLAG && w[p + 1..p + 1 + h] == Header(dlc, kind, |data|)
            && w[p + 1] == Address(dlc) && w[p + 2] == kind && w[p + 3] == l[0] && (|l| == 2 ==> w[p + 4] == l[1])
            && w[p + 1 + h..p + 1 + h + |data|] == data
            && w[p + 1 + h + |data|] == Fcs(Header(dlc, kind, |data|)) && w[p + h + |data| + 2] == FLAG
  {
    hide Fcs, Address, LengthField, Frame, Header;
    FrameParts(dlc, kind, data);
    var f := Frame(dlc, kind, data);
    var h := 2 + |LengthField(|data|)|;
    SubSlice(w, p, f, 1, 1 + h);
    SubSlice(w, p, f, 1 + h, 1 + h + |data|);
    SliceAt(w, p, f, 0);
    SliceAt(w, p, f, 1);
    SliceAt(w, p, f, 2);
    SliceAt(w, p, f, 3);
    SliceAt(w, p, f, 4);
    SliceAt(w, p, f, 1 + h + |data|);
    SliceAt(w, p, f, h + |data| + 2);
  }

  /** A frame in the buffer is complete, passes the checks and reads back as sent. */
  lemma FrameReadsBack(w: seq<bv8>, p: nat, dlc: bv8, kind: bv8, data: seq<bv8>)
    requires HoldsFrame(w, p, dlc, kind, data) && dlc <= 63 && |data| < 0x8000
    ensures Complete(w, p) && Good(w, p) && End(w, p) == p + |Frame(dlc, kind, data)| - 1
    ensures Content(w, p) == MuxFrame(dlc, Control(kind), data)
  {
    hide Fcs, CheckFcs, Address, LengthField, FrameLen, Control, ShortLength, HoldsFrame, Frame, Header;
    FrameInBuffer(w, p, dlc, kind, data);
    LengthRoundTrip(|data|);
    AddressRoundTrip(dlc);
    CheckAcceptsOnlyFcs(Header(dlc, kind, |data|), Fcs(Header(dlc, kind, |data|)));
  }

  /** At most one flag, left over from the previous frame. */
  predicate Lead(lead: seq<bv8>) {
    lead == [] || lead == [FLAG]
  }

  lemma SkipLead(w: seq<bv8>, n: nat)
    requires n <= 1 && n < |w| && w[0] == FLAG && w[n] == FLAG && (n + 1 < |w| ==> w[n + 1] != FLAG)
    ensures SkipFlags(w, 0) == n
  {
    if n == 1 {
      assert SkipFlags(w, 0) == SkipFlags(w, 1);
    }
  }

  lemma StepOnce(w: seq<bv8>)
    requires w != [] && Step(w, 0).Stop?
    ensures ScanFrom(w, 0) == Step(w, 0).result
  {
  }

  /** The scan finds a frame that was sent, and stops on its closing flag. */
  lemma ScanFindsFrame(lead: seq<bv8>, dlc: bv8, kind: bv8, data: seq<bv8>, rest: seq<bv8>)
    requires Lead(lead) && dlc <= 63 && |data| < 0x8000
    ensures ScanFrom(lead + Frame(dlc, kind, data) + rest, 0)
         == Scan(|lead| + |Frame(dlc, kind, data)| - 1, Some(MuxFrame(dlc, Control(kind), data)))
  {
    hide Fcs, Address, Header, Frame, Control, Complete, Good, Content, AddressOk, LengthField;
    var n, f := |lead|, Frame(dlc, kind, data);
    var w := lead + f + rest;
    assert w[n..n + |f|] == f;
    FrameInBuffer(w, n, dlc, kind, data);
    FrameReadsBack(w, n, dlc, kind, data);
    AddressIsNoFlag(dlc);
    SkipLead(w, n);
    StepOnce(w);
  }

  lemma StopsAtFrame(c: seq<bv8>, q: nat)
    requires q <= 1 && q < |c| && c[0] == FLAG && c[q] == FLAG && (q + 1 < |c| ==> c[q + 1] != FLAG)
    requires q + 4 <= |c| ==> AddressOk(c[q + 1]) && !Complete(c, q)
    ensures ScanFrom(c, 0) == Scan(q, None)
  {
    hide Complete, Good, Content, AddressOk;
    SkipLead(c, q);
    StepOnce(c);
  }

  lemma CutIsIncomplete(c: seq<bv8>, x: seq<bv8>, q: nat)
    requires Complete(c + x, q) && |c| <= End(c + x, q)
    ensures !Complete(c, q)
  {
    if Complete(c, q) {
      CompleteExtend(c, x, q);
    }
  }

  lemma CutFrame(lead: seq<bv8>, dlc: bv8, kind: bv8, data: seq<bv8>, k: nat)
    requires Lead(lead) && dlc <= 63 && |data| < 0x8000 && 0 < k < |Frame(dlc, kind, data)|
    ensures var c := lead + Frame(dlc, kind, data)[..k];
            && c[0] == FLAG && c[|lead|] == FLAG && !Complete(c, |lead|)
            && (k > 1 ==> c[|lead| + 1] == Address(dlc))
  {
    hide Fcs, Address, Header, Frame, Control, Complete, Good, Content, LengthField;
    var n, f := |lead|, Frame(dlc, kind, data);
    var c, w := lead + f[..k], lead + f;
    assert c + f[k..] == w;
    assert w[n..n + |f|] == f;
    FrameInBuffer(w, n, dlc, kind, data);
    FrameReadsBack(w, n, dlc, kind, data);
    CutIsIncomplete(c, f[k..], n);
    assert c[n] == f[0] && (k > 1 ==> c[n + 1] == f[1]);
  }

  /** A frame cut short is not found; the scan stops where it begins. */
  lemma ScanWaitsForFrame(lead: seq<bv8>, dlc: bv8, kind: bv8, data: seq<bv8>, k: nat)
    requires Lead(lead) && dlc <= 63 && |data| < 0x8000 && k < |Frame(dlc, kind, data)|
    ensures ScanFrom(lead + Frame(dlc, kind, data)[..k], 0) == Scan(if k == 0 then 0 else |lead|, None)
  {
    hide Fcs, Address, Header, Frame, Complete, AddressOk, LengthField, ScanFrom;
    var c := lead + Frame(dlc, kind, data)[..k];
    AddressIsNoFlag(dlc);
    EmptyScan();
    if k > 0 {
      CutFrame(lead, dlc, kind, data, k);
      StopsAtFrame(c, |lead|);
    } else if c != [] {
      StopsAtFrame(c, 0);
    }
  }

  lemma EmptyScan()
    ensures ScanFrom([], 0) == Scan(0, None)
  {
  }

  //
  // The two procedures.
  //

  method FillHeader(frame: array<bv8>, dlc: bv8, kind: bv8, len: nat) returns (size: nat)
    requires 7 <= frame.Length
    modifies frame
    ensures size <= 5 && frame[..size] == [FLAG] + Header(dlc, kind, len)
  {
    hide Address, Octet;
    frame[0], frame[1], frame[2] := FLAG, Address(dlc), kind;
    size := 4;
    if len <= 127 {
      frame[3] := Octet(2 * len + 1);
    } else {
      frame[3], frame[4] := Octet(2 * len % 256), Octet(len / 128 % 256);
      size := 5;
    }
  }

  /** Builds a frame in `frame`, which the caller allocates with seven octets to spare. */
  method FillFrame(frame: array<bv8>, dlc: bv8, kind: bv8, data: seq<bv8>) returns (size: nat)
    requires |data| + 7 <= frame.Length
    modifies frame
    ensures size <= frame.Length && frame[..size] == Frame(dlc, kind, data)
  {
    hide Fcs, Header;
    size := FillHeader(frame, dlc, kind, |data|);
    ghost var header := Header(dlc, kind, |data|);
    assert frame[1..size] == frame[..size][1..] == header;
    var fcs := ComputeFcs(frame, 1, size - 1);
    size := CopyTail(frame, size, data, fcs);
  }

  /** Appends the data, the check sequence and the closing flag. */
  method CopyTail(frame: array<bv8>, start: nat, data: seq<bv8>, fcs: bv8) returns (size: nat)
    requires start + |data| + 2 <= frame.Length
    modifies frame
    ensures size == start + |data| + 2 && frame[..size] == old(frame[..start]) + data + [fcs, FLAG]
  {
    forall i | 0 <= i < |data| {
      frame[start + i] := data[i];
    }
    size := start + |data|;
    frame[size], frame[size + 1] := fcs, FLAG;
    size := size + 2;
  }

  method SkipRun(buf: array<bv8>, base: nat, len: nat, start: nat) returns (posn: nat)
    requires base + len <= buf.Length && start < len && buf[base + start] == FLAG
    ensures posn == SkipFlags(buf[base..base + len], start)
  {
    ghost var s := buf[base..base + len];
    posn := start;
    while posn + 1 < len && buf[base + posn + 1] == FLAG
      invariant posn < len && buf[base + posn] == FLAG
      invariant SkipFlags(s, start) == SkipFlags(s, posn)
    {
      posn := posn + 1;
    }
  }

  /** What the header of a frame opened at `q` announces, if it is all there. */
  method ReadHeader(buf: array<bv8>, base: nat, len: nat, q: nat)
    returns (complete: bool, headerSize: nat, frameLen: nat)
    requires base + len <= buf.Length && q + 4 <= len
    ensures var s := buf[base..base + len];
            && complete == Complete(s, q)
            && (complete ==> headerSize == HeaderSize(s[q + 3]) && frameLen == Len(s, q))
  {
    hide Half, Value;
    complete, headerSize, frameLen := false, 3, Half(buf[base + q + 3]);
    if buf[base + q + 3] & 1 == 0 {
      if q + 5 > len {
        return;
      }
      headerSize, frameLen := 4, frameLen + 128 * Value(buf[base + q + 4]);
    }
    complete := q + headerSize + 3 + frameLen <= len;
  }

  /** Where a complete frame ends, and whether its header check and closing flag are right. */
  method CheckFrame(buf: array<bv8>, base: nat, len: nat, q: nat, headerSize: nat, frameLen: nat)
    returns (end: nat, good: bool)
    requires base + len <= buf.Length && Complete(buf[base..base + len], q)
    requires headerSize == HeaderSize(buf[base + q + 3]) && frameLen == Len(buf[base..base + len], q)
    ensures var s := buf[base..base + len]; end == End(s, q) && good == Good(s, q)
  {
    hide CheckFcs, Control, Len, HeaderSize;
    end := q + headerSize + frameLen + 2;
    ArraySlice(buf, base, len, q + 1, q + 1 + headerSize);
    good := CheckHeader(buf, base + q + 1, headerSize, buf[base + end - 1]);
    good := good && buf[base + end] == FLAG;
  }

  /** Checks a complete frame and reads its fields; the data is reported by its index. */
  method ReadFrame(buf: array<bv8>, base: nat, len: nat, q: nat, headerSize: nat, frameLen: nat)
    returns (end: nat, good: bool, dlc: bv8, control: bv8, start: nat)
    requires base + len <= buf.Length && Complete(buf[base..base + len], q)
    requires headerSize == HeaderSize(buf[base + q + 3]) && frameLen == Len(buf[base..base + len], q)
    ensures base <= start && start + frameLen <= base + len
    ensures var s := buf[base..base + len];
            && end == End(s, q) && good == Good(s, q)
            && Content(s, q) == MuxFrame(dlc, control, buf[start..start + frameLen])
  {
    hide CheckFcs, Control, Len, HeaderSize, Good;
    end, good := CheckFrame(buf, base, len, q, headerSize, frameLen);
    dlc, control, start := buf[base + q + 1] >> 2, Control(buf[base + q + 2]), base + q + 1 + headerSize;
    ArraySlice(buf, base, len, q + 1 + headerSize, end - 1);
  }

  /** What the out-parameters of the scan stand for. */
  ghost function Reported(buf: array<bv8>, posn: nat, found: bool, dlc: bv8, control: bv8, start: nat, size: nat): Scan
    reads buf
    requires found ==> start + size <= buf.Length
  {
    Scan(posn, if found then Some(MuxFrame(dlc, control, buf[start..start + size])) else None)
  }

  /** One turn of the scan loop. */
  method TakeTurn(buf: array<bv8>, base: nat, len: nat, p: nat)
    returns (goOn: bool, posn: nat, found: bool, dlc: bv8, control: bv8, start: nat, size: nat)
    requires base + len <= buf.Length && p < len
    ensures found ==> !goOn && base <= start && start + size <= base + len
    ensures var s := buf[base..base + len];
            Step(s, p) == if goOn then GoOn(posn) else Stop(Reported(buf, posn, found, dlc, control, start, size))
  {
    hide Complete, Good, Content, End, Len, HeaderSize, SkipFlags;
    goOn, posn, found, dlc, control, start, size := true, p + 1, false, 0, 0, base, 0;
    if buf[base + p] == FLAG {
      var q := SkipRun(buf, base, len, p);
      goOn, posn := false, q;
      if q + 4 <= len {
        var complete, headerSize, frameLen := ReadHeader(buf, base, len, q);
        if buf[base + q + 1] & 1 == 0 {
          goOn, posn := true, q + 1;
        } else if complete {
          size := frameLen;
          posn, found, dlc, control, start := ReadFrame(buf, base, len, q, headerSize, frameLen);
          goOn := !found;
        }
      }
    }
  }

  /** Scans `len` octets of `buf` from `base` on. */
  method ExtractFrame(buf: array<bv8>, base: nat, len: nat)
    returns (posn: nat, found: bool, dlc: bv8, control: bv8, start: nat, size: nat)
    requires base + len <= buf.Length
    ensures found ==> base <= start && start + size <= base + len
    ensures ScanFrom(buf[base..base + len], 0) == Reported(buf, posn, found, dlc, control, start, size)
  {
    hide Step;
    ghost var s := buf[base..base + len];
    posn, found, dlc, control, start, size := 0, false, 0, 0, base, 0;
    var goOn := true;
    while goOn && posn < len
      invariant posn <= len && (found ==> !goOn && base <= start && start + size <= base + len)
      invariant ScanFrom(s, 0) ==
        if goOn then ScanFrom(s, posn) else Reported(buf, posn, found, dlc, control, start, size)
      decreases goOn, len - posn
    {
      goOn, posn, found, dlc, control, start, size := TakeTurn(buf, base, len, posn);
    }
  }
}
