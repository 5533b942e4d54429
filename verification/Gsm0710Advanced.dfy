/** Frames of the advanced option (3GPP TS 27.010, section 5.3): octet stuffing between flags, and an
extraction that undoes the stuffing in place, at the beginning of the buffer it scans.
 */
module Gsm0710Advanced {
  import opened MuxFrames
  import opened Fcs8

  const FLAG: bv8 := 0x7e
  const ESCAPE: bv8 := 0x7d
  const TRANS: bv8 := 0x20

  //
  // Building a frame.
  //

  predicate NeedEscape(c: bv8) {
    c == FLAG || c == ESCAPE
  }

  function EscapeOctet(c: bv8): seq<bv8> {
    if NeedEscape(c) then [ESCAPE, Xor(c, TRANS)] else [c]
  }

  function Escaped(data: seq<bv8>): seq<bv8> {
    if data == [] then [] else EscapeOctet(data[0]) + Escaped(data[1..])
  }

  function HeaderFcs(dlc: bv8, kind: bv8): bv8 {
    Fcs([Address(dlc), kind])
  }

  function Frame(dlc: bv8, kind: bv8, data: seq<bv8>): seq<bv8> {
    [FLAG, Address(dlc)] + EscapeOctet(kind) + Escaped(data) + EscapeOctet(HeaderFcs(dlc, kind)) + [FLAG]
  }

  //
  // Finding a frame.
  //

  function SkipFlags(buf: seq<bv8>, p: nat): (q: nat)
    requires p < |buf| && buf[p] == FLAG
    ensures p <= q < |buf| && buf[q] == FLAG && (q + 1 < |buf| ==> buf[q + 1] != FLAG)
    decreases |buf| - p
  {
    if p + 1 < |buf| && buf[p + 1] == FLAG then SkipFlags(buf, p + 1) else p
  }

  /** The first flag at or after `p`, or the end of the buffer. */
  function FindFlag(buf: seq<bv8>, p: nat): (q: nat)
    requires p <= |buf|
    ensures p <= q <= |buf| && (q < |buf| ==> buf[q] == FLAG)
    ensures forall i :: p <= i < q ==> buf[i] != FLAG
    decreases |buf| - p
  {
    if p < |buf| && buf[p] != FLAG then FindFlag(buf, p + 1) else p
  }

  /** Undoes the stuffing; an escape with nothing behind it is dropped. */
  function Unescaped(s: seq<bv8>): (u: seq<bv8>)
    ensures |u| <= |s|
  {
    if s == [] then []
    else if s[0] != ESCAPE then [s[0]] + Unescaped(s[1..])
    else if |s| == 1 then []
    else [Xor(s[1], TRANS)] + Unescaped(s[2..])
  }

  /** How a scan ended.  `Short` is a frame of fewer than three octets that passes the check all the
      same, reported with a negative length; `OutOfBounds` a read before the buffer. */
  datatype Outcome =
    | NoFrame(pos: nat)
    | Found(pos: nat, frame: MuxFrame)
    | Short(pos: nat, dlc: bv8, control: bv8, size: int)
    | OutOfBounds

  /** One turn of the scan loop, with the buffer it leaves behind. */
  datatype Turn = GoOn(buf: seq<bv8>, at: nat) | Stop(buf: seq<bv8>, outcome: Outcome)

  /** The buffer after `u` was written over its beginning. */
  function Overwrite(buf: seq<bv8>, u: seq<bv8>): (b: seq<bv8>)
    requires |u| <= |buf|
    ensures |b| == |buf|
  {
    u + buf[|u|..]
  }

  /** A frame between the flags at `q` and `e` is unescaped to the beginning of the buffer and judged there. */
  function Judge(buf: seq<bv8>, q: nat, e: nat): (r: Turn)
    requires q < e < |buf| && 4 <= e
    ensures |r.buf| == |buf| && r.buf[e..] == buf[e..]
    ensures r.GoOn? ==> r.at == e
    ensures r.Stop? && !r.outcome.OutOfBounds? ==> !r.outcome.NoFrame? && r.outcome.pos == e
  {
    var u := Unescaped(buf[q + 1..e]);
    var b := Overwrite(buf, u);
    if u == [] then Stop(b, OutOfBounds)
    else if !CheckFcs(b[..2], u[|u| - 1]) then GoOn(b, e)
    else if |u| < 3 then Stop(b, Short(e, b[0] >> 2, Control(b[1]), |u| - 3))
    else Stop(b, Found(e, MuxFrame(b[0] >> 2, Control(b[1]), b[2..|u| - 1])))
  }

  function Step(buf: seq<bv8>, p: nat): (r: Turn)
    requires p < |buf|
    ensures |r.buf| == |buf| && (r.GoOn? ==> p < r.at <= |buf| && r.buf[r.at..] == buf[r.at..])
    ensures r.Stop? && !r.outcome.OutOfBounds? ==>
              p <= r.outcome.pos < |buf| && r.buf[r.outcome.pos..] == buf[r.outcome.pos..]
  {
    if buf[p] != FLAG then GoOn(buf, p + 1)
    else
      var q := SkipFlags(buf, p);
      var e := FindFlag(buf, q + 1);
      if e == |buf| then Stop(buf, NoFrame(q))
      else if e < 4 then GoOn(buf, e)
      else Judge(buf, q, e)
  }

  /** The scan of `gsm0710_advanced_extract_frame` from position `p` on: it never changes an octet
      at or after the position it reports, which are the octets still to be read. */
  function ScanFrom(buf: seq<bv8>, p: nat): (r: Turn)
    requires p <= |buf|
    ensures r.Stop? && |r.buf| == |buf|
    ensures !r.outcome.OutOfBounds? ==>
              p <= r.outcome.pos <= |buf| && r.buf[r.outcome.pos..] == buf[r.outcome.pos..]
    decreases |buf| - p
  {
    if p == |buf| then Stop(buf, NoFrame(p))
    else
      var t := Step(buf, p);
      if t.Stop? then t else
        var r := ScanFrom(t.buf, t.at);
        TailKept(buf, t.buf, r.buf, t.at, if r.outcome.OutOfBounds? then |buf| else r.outcome.pos);
        r
  }

  lemma TailKept(a: seq<bv8>, b: seq<bv8>, c: seq<bv8>, i: nat, j: nat)
    requires |a| == |b| == |c| && i <= j <= |a| && a[i..] == b[i..] && b[j..] == c[j..]
    ensures a[j..] == c[j..]
  {
    assert a[j..] == a[i..][j - i..] == b[i..][j - i..] == b[j..];
  }

  //
  // Round trip.
  //

  lemma EscapeOctetNoFlag(c: bv8)
    ensures FLAG !in EscapeOctet(c)
  {
  }

  /** Stuffed data holds no flag. */
  lemma {:induction false} EscapedNoFlag(data: seq<bv8>)
    ensures FLAG !in Escaped(data)
  {
    hide EscapeOctet;
    if data != [] {
      EscapeOctetNoFlag(data[0]);
      EscapedNoFlag(data[1..]);
    }
  }

  lemma {:induction false} EscapedConcat(a: seq<bv8>, b: seq<bv8>)
    ensures Escaped(a + b) == Escaped(a) + Escaped(b)
  {
    hide EscapeOctet;
    if a == [] {
      assert a + b == b;
    } else {
      assert (a + b)[1..] == a[1..] + b;
      EscapedConcat(a[1..], b);
    }
  }

  lemma EscapedOne(c: bv8)
    ensures Escaped([c]) == EscapeOctet(c)
  {
    assert [c][1..] == [];
  }

  lemma XorTwice(c: bv8)
    ensures Xor(Xor(c, TRANS), TRANS) == c
  {
  }

  lemma UnescapeOctet(c: bv8, t: seq<bv8>)
    ensures Unescaped(EscapeOctet(c) + t) == [c] + Unescaped(t)
  {
    var s := EscapeOctet(c) + t;
    XorTwice(c);
    if NeedEscape(c) {
      assert s[0] == ESCAPE && s[1] == Xor(c, TRANS) && s[2..] == t;
    } else {
      assert s[0] == c && s[1..] == t;
    }
  }

  /** Undoing the stuffing gives back the data. */
  lemma {:induction false} UnescapeInvertsEscape(data: seq<bv8>)
    ensures Unescaped(Escaped(data)) == data
  {
    hide EscapeOctet;
    if data != [] {
      UnescapeOctet(data[0], Escaped(data[1..]));
      UnescapeInvertsEscape(data[1..]);
    }
  }

  lemma {:induction false} EscapedLength(data: seq<bv8>)
    ensures |data| <= |Escaped(data)| <= 2 * |data|
  {
    if data != [] {
      EscapedLength(data[1..]);
    }
  }

  /** The octets between the flags, before stuffing. */
  function Content(dlc: bv8, kind: bv8, data: seq<bv8>): seq<bv8> {
    [Address(dlc), kind] + data + [HeaderFcs(dlc, kind)]
  }

  lemma AddressNeedsNoEscape(dlc: bv8)
    ensures !NeedEscape(Address(dlc)) && Address(dlc) != FLAG
  {
  }

  lemma FrameIsStuffedContent(dlc: bv8, kind: bv8, data: seq<bv8>)
    ensures Frame(dlc, kind, data) == [FLAG] + Escaped(Content(dlc, kind, data)) + [FLAG]
  {
    hide Address, HeaderFcs, Escaped, NeedEscape;
    var a, f := Address(dlc), HeaderFcs(dlc, kind);
    AddressNeedsNoEscape(dlc);
    EscapedConcat([a, kind] + data, [f]);
    EscapedConcat([a, kind], data);
    EscapedConcat([a], [kind]);
    EscapedOne(a);
    EscapedOne(kind);
    EscapedOne(f);
    assert [a] + [kind] == [a, kind];
    assert [FLAG] + ([a] + EscapeOctet(kind) + Escaped(data) + EscapeOctet(f)) + [FLAG] == Frame(dlc, kind, data);
  }

  /** A frame of `n` octets of data takes at most 2n + 7 octets. */
  lemma FrameLength(dlc: bv8, kind: bv8, data: seq<bv8>)
    ensures 5 <= |Frame(dlc, kind, data)| <= 2 * |data| + 7
  {
    EscapedLength(data);
  }

  lemma {:induction false} FindFlagAt(w: seq<bv8>, p: nat, e: nat)
    requires p <= e <= |w| && (forall i :: p <= i < e ==> w[i] != FLAG) && (e < |w| ==> w[e] == FLAG)
    ensures FindFlag(w, p) == e
    decreases e - p
  {
    if p < e {
      FindFlagAt(w, p + 1, e);
    }
  }

  predicate Lead(lead: seq<bv8>) {
    lead == [] || lead == [FLAG]
  }

  lemma SkipLead(w: seq<bv8>, n: nat)
    requires n <= 1 && n < |w| && w[0] == FLAG && w[n] == FLAG && (n + 1 < |w| ==> w[n + 1] != FLAG)
    ensures SkipFlags(w, 0) == n
  {
    if n == 1 {
      assert SkipFlags(w, 0) == SkipFlags(w, 1);
    }
  }

  lemma JudgeFindsFrame(w: seq<bv8>, q: nat, e: nat, dlc: bv8, kind: bv8, data: seq<bv8>)
    requires q < e < |w| && 4 <= e && w[q + 1..e] == Escaped(Content(dlc, kind, data)) && dlc <= 63
    ensures Judge(w, q, e).Stop? && Judge(w, q, e).outcome == Found(e, MuxFrame(dlc, Control(kind), data))
  {
    hide Escaped, Unescaped, Address, Control, Fcs, CheckFcs;
    var u := Content(dlc, kind, data);
    UnescapeInvertsEscape(u);
    var b := Overwrite(w, u);
    assert b[..2] == [Address(dlc), kind];
    assert b[2..|u| - 1] == data;
    CheckAcceptsOnlyFcs([Address(dlc), kind], HeaderFcs(dlc, kind));
    AddressRoundTrip(dlc);
  }

  lemma StepOnce(w: seq<bv8>)
    requires w != [] && Step(w, 0).Stop?
    ensures ScanFrom(w, 0) == Step(w, 0)
  {
  }

  /** The stuffed octets of a frame inside a longer buffer. */
  lemma FrameInBuffer(lead: seq<bv8>, f: seq<bv8>, stuffed: seq<bv8>, rest: seq<bv8>)
    requires f == [FLAG] + stuffed + [FLAG] && FLAG !in stuffed
    ensures var w := lead + f + rest; var e := |lead| + |f| - 1;
            && w[|lead|] == FLAG && w[|lead| + 1..e] == stuffed && w[e] == FLAG
            && (forall i :: |lead| < i < e ==> w[i] != FLAG)
  {
    var w, n := lead + f + rest, |lead|;
    assert forall i :: n <= i < n + |f| ==> w[i] == f[i - n];
    assert forall i :: 0 <= i < |stuffed| ==> f[1 + i] == stuffed[i];
    assert w[n + 1..n + |f| - 1] == stuffed;
  }

  /** The scan finds a frame that was sent, unstuffs it in place and stops on its closing flag. */
  lemma ScanFindsFrame(lead: seq<bv8>, dlc: bv8, kind: bv8, data: seq<bv8>, rest: seq<bv8>)
    requires Lead(lead) && dlc <= 63
    ensures ScanFrom(lead + Frame(dlc, kind, data) + rest, 0).outcome
         == Found(|lead| + |Frame(dlc, kind, data)| - 1, MuxFrame(dlc, Control(kind), data))
  {
    hide Escaped, Address, Control, Frame, Content, Judge;
    var n, f := |lead|, Frame(dlc, kind, data);
    var u := Content(dlc, kind, data);
    var w, e := lead + f + rest, n + |f| - 1;
    FrameIsStuffedContent(dlc, kind, data);
    FrameLength(dlc, kind, data);
    EscapedNoFlag(u);
    FrameInBuffer(lead, f, Escaped(u), rest);
    FindFlagAt(w, n + 1, e);
    SkipLead(w, n);
    JudgeFindsFrame(w, n, e, dlc, kind, data);
    StepOnce(w);
  }

  lemma StopsAtFrame(c: seq<bv8>, q: nat)
    requires q <= 1 && q < |c| && c[0] == FLAG && c[q] == FLAG && (forall i :: q < i < |c| ==> c[i] != FLAG)
    ensures ScanFrom(c, 0) == Stop(c, NoFrame(q))
  {
    SkipLead(c, q);
    FindFlagAt(c, q + 1, |c|);
    StepOnce(c);
  }

  /** A frame cut short is not found; the scan stops where it begins and changes nothing. */
  lemma ScanWaitsForFrame(lead: seq<bv8>, dlc: bv8, kind: bv8, data: seq<bv8>, k: nat)
    requires Lead(lead) && dlc <= 63 && k < |Frame(dlc, kind, data)|
    ensures var c := lead + Frame(dlc, kind, data)[..k];
            ScanFrom(c, 0) == Stop(c, NoFrame(if k == 0 then 0 else |lead|))
  {
    hide Escaped, Address, Frame, Content, ScanFrom;
    var n, f := |lead|, Frame(dlc, kind, data);
    var u := Content(dlc, kind, data);
    var c := lead + f[..k];
    FrameIsStuffedContent(dlc, kind, data);
    EscapedNoFlag(u);
    if c == [] {
      EmptyScan();
    } else if k == 0 {
      StopsAtFrame(c, 0);
    } else {
      FrameInBuffer(lead, f, Escaped(u), []);
      var w := lead + f + [];
      assert forall i :: 0 <= i < |c| ==> c[i] == w[i];
      StopsAtFrame(c, n);
    }
  }

  lemma EmptyScan()
    ensures ScanFrom([], 0) == Stop([], NoFrame(0))
  {
  }

  /** The scan reads before its buffer exactly when a frame consists of an escape and nothing else. */
  lemma OutOfBoundsIffLoneEscape(buf: seq<bv8>, q: nat, e: nat)
    requires q + 1 < e < |buf| && 4 <= e
    ensures Judge(buf, q, e) == Stop(buf, OutOfBounds) <==> buf[q + 1..e] == [ESCAPE]
  {
    hide CheckFcs, Control, Xor;
    var s := buf[q + 1..e];
    assert Overwrite(buf, []) == buf;
    assert s != [];
    if s == [ESCAPE] {
      assert Unescaped(s) == [];
    } else {
      assert s[0] != ESCAPE || |s| > 1;
      assert |Unescaped(s)| > 0;
    }
  }

  //
  // The two procedures.
  //

  method PutOctet(frame: array<bv8>, start: nat, c: bv8) returns (size: nat)
    requires start + 2 <= frame.Length
    modifies frame
    ensures size <= start + 2 && frame[..size] == old(frame[..start]) + EscapeOctet(c)
    ensures size == start + |EscapeOctet(c)|
  {
    hide Xor;
    size := start;
    if c != FLAG && c != ESCAPE {
      frame[size] := c;
      size := size + 1;
    } else {
      frame[size], frame[size + 1] := ESCAPE, Xor(c, TRANS);
      size := size + 2;
    }
  }

  method PutData(frame: array<bv8>, start: nat, data: seq<bv8>) returns (size: nat)
    requires start + 2 * |data| <= frame.Length
    modifies frame
    ensures size <= start + 2 * |data| && frame[..size] == old(frame[..start]) + Escaped(data)
  {
    hide EscapeOctet;
    size := start;
    ghost var before := frame[..start];
    for i := 0 to |data|
      invariant size <= start + 2 * i
      invariant frame[..size] + Escaped(data[i..]) == before + Escaped(data)
    {
      ghost var done := frame[..size];
      assert data[i..][1..] == data[i + 1..];
      size := PutOctet(frame, size, data[i]);
      assert done + (EscapeOctet(data[i]) + Escaped(data[i + 1..]))
          == done + EscapeOctet(data[i]) + Escaped(data[i + 1..]);
    }
  }

  /** Builds a frame in `frame`, which the caller allocates with 2n + 7 octets for n octets of data. */
  method FillFrame(frame: array<bv8>, dlc: bv8, kind: bv8, data: seq<bv8>) returns (size: nat)
    requires 2 * |data| + 7 <= frame.Length
    modifies frame
    ensures size <= frame.Length && frame[..size] == Frame(dlc, kind, data)
  {
    hide EscapeOctet, Escaped, Address, Fcs;
    frame[0], frame[1], frame[2] := FLAG, Address(dlc), kind;
    assert frame[1..3] == [Address(dlc), kind] && frame[..2] == [FLAG, Address(dlc)];
    var crc := ComputeFcs(frame, 1, 2);
    size := PutOctet(frame, 2, kind);
    size := PutData(frame, size, data);
    size := PutOctet(frame, size, crc);
    frame[size] := FLAG;
    size := size + 1;
  }

  lemma OverwriteStep(s: seq<bv8>, done: seq<bv8>, x: bv8)
    requires |done| < |s|
    ensures Overwrite(s, done)[|done| := x] == Overwrite(s, done + [x])
    ensures forall i :: |done| <= i < |s| ==> Overwrite(s, done)[i] == s[i]
  {
  }

  lemma UnescapeStep(s: seq<bv8>, posn: nat, e: nat)
    requires posn < e <= |s|
    ensures s[posn] != ESCAPE ==> Unescaped(s[posn..e]) == [s[posn]] + Unescaped(s[posn + 1..e])
    ensures s[posn] == ESCAPE && posn + 1 == e ==> Unescaped(s[posn..e]) == []
    ensures s[posn] == ESCAPE && posn + 1 < e ==>
              Unescaped(s[posn..e]) == [Xor(s[posn + 1], TRANS)] + Unescaped(s[posn + 2..e])
  {
    hide Xor;
    var rest := s[posn..e];
    assert rest[1..] == s[posn + 1..e];
    if posn + 1 < e {
      assert rest[1] == s[posn + 1] && rest[2..] == s[posn + 2..e];
    }
  }

  lemma StoreInRegion(before: seq<bv8>, after: seq<bv8>, base: nat, len: nat, i: nat, x: bv8)
    requires base + len <= |before| && i < len && after == before[base + i := x]
    ensures after[base..base + len] == before[base..base + len][i := x]
  {
  }

  /** Undoes the stuffing of the octets between `q` and `e`, writing over the beginning of the buffer. */
  method UnescapeInPlace(buf: array<bv8>, base: nat, len: nat, q: nat, e: nat) returns (posn2: nat)
    requires base + len <= buf.Length && q < e <= len
    modifies buf
    ensures var s := old(buf[base..base + len]); var u := Unescaped(s[q + 1..e]);
            posn2 == |u| && buf[base..base + len] == Overwrite(s, u)
    ensures forall i :: 0 <= i < buf.Length && !(base <= i < base + len) ==> buf[i] == old(buf[i])
  {
    hide Xor, Unescaped, Overwrite;
    ghost var s := buf[base..base + len];
    ghost var done: seq<bv8> := [];
    NothingWritten(s);
    var posn := q + 1;
    posn2 := 0;
    while posn < e
      invariant |done| == posn2 < posn <= e
      invariant buf[base..base + len] == Overwrite(s, done)
      invariant forall i :: 0 <= i < buf.Length && !(base <= i < base + len) ==> buf[i] == old(buf[i])
      invariant done + Unescaped(s[posn..e]) == Unescaped(s[q + 1..e])
    {
      UnescapeStep(s, posn, e);
      var x := buf[base + posn];
      OverwriteStep(s, done, x);
      assert x == buf[base..base + len][posn] == s[posn];
      posn := posn + 1;
      if x == ESCAPE {
        if posn >= e {
          break;
        }
        assert buf[base + posn] == buf[base..base + len][posn] == s[posn];
        x := Xor(buf[base + posn], TRANS);
        posn := posn + 1;
      }
      OverwriteStep(s, done, x);
      ghost var before := buf[..];
      buf[base + posn2] := x;
      StoreInRegion(before, buf[..], base, len, posn2, x);
      assert buf[..][base..base + len] == buf[base..base + len] && before[base..base + len] == Overwrite(s, done);
      MoveAcross(done, x, Unescaped(s[posn..e]));
      done, posn2 := done + [x], posn2 + 1;
    }
    NothingLeft(s, e);
    assert done + [] == done;
  }

  lemma NothingWritten(s: seq<bv8>)
    ensures Overwrite(s, []) == s
  {
  }

  lemma NothingLeft(s: seq<bv8>, e: nat)
    requires e <= |s|
    ensures Unescaped(s[e..e]) == []
  {
  }

  lemma MoveAcross(a: seq<bv8>, c: bv8, b: seq<bv8>)
    ensures a + [c] + b == a + ([c] + b)
  {
  }

  method SkipRun(buf: array<bv8>, base: nat, len: nat, start: nat) returns (posn: nat)
    requires base + len <= buf.Length && start < len && buf[base + start] == FLAG
    ensures posn == SkipFlags(buf[base..base + len], start)
  {
    ghost var s := buf[base..base + len];
    posn := start;
    while posn + 1 < len && buf[base + posn + 1] == FLAG
      invariant posn < len && buf[base + posn] == FLAG
      invariant SkipFlags(s, start) == SkipFlags(s, posn)
    {
      posn := posn + 1;
    }
  }

  method FindEnd(buf: array<bv8>, base: nat, len: nat, start: nat) returns (e: nat)
    requires base + len <= buf.Length && start <= len
    ensures e == FindFlag(buf[base..base + len], start)
  {
    ghost var s := buf[base..base + len];
    e := start;
    while e < len && buf[base + e] != FLAG
      invariant e <= len
      invariant FindFlag(s, start) == FindFlag(s, e)
    {
      e := e + 1;
    }
  }

  /** Everything outside the scanned octets is left alone. */
  twostate predicate Outside(buf: array<bv8>, base: nat, len: nat)
    reads buf
  {
    forall i :: 0 <= i < buf.Length && !(base <= i < base + len) ==> buf[i] == old(buf[i])
  }

  method JudgeFrame(buf: array<bv8>, base: nat, len: nat, q: nat, e: nat) returns (goOn: bool, o: Outcome)
    requires base + len <= buf.Length && q < e < len && 4 <= e
    modifies buf
    ensures var s := buf[base..base + len];
            Judge(old(buf[base..base + len]), q, e) == if goOn then GoOn(s, e) else Stop(s, o)
    ensures Outside(buf, base, len)
  {
    hide CheckFcs, Control, Unescaped;
    ghost var u := Unescaped(buf[base..base + len][q + 1..e]);
    var n := UnescapeInPlace(buf, base, len, q, e);
    ghost var b := buf[base..base + len];
    if n == 0 {
      return false, OutOfBounds;
    }
    assert b[n - 1] == u[n - 1] && b[..2] == buf[base..base + 2];
    var ok := CheckHeader(buf, base, 2, buf[base + n - 1]);
    goOn, o := !ok, OutOfBounds;
    var size := n as int - 3;
    if size < 0 {
      o := Short(e, buf[base] >> 2, Control(buf[base + 1]), size);
    } else {
      ArraySlice(buf, base, len, 2, n - 1);
      o := Found(e, MuxFrame(buf[base] >> 2, Control(buf[base + 1]), buf[base + 2..base + n - 1]));
    }
  }

  /** One turn of the scan loop. */
  method TakeTurn(buf: array<bv8>, base: nat, len: nat, p: nat) returns (goOn: bool, posn: nat, o: Outcome)
    requires base + len <= buf.Length && p < len
    modifies buf
    ensures var s := buf[base..base + len];
            Step(old(buf[base..base + len]), p) == if goOn then GoOn(s, posn) else Stop(s, o)
    ensures posn <= len && Outside(buf, base, len)
  {
    hide Judge, SkipFlags, FindFlag;
    goOn, posn, o := true, p + 1, NoFrame(p);
    if buf[base + p] == FLAG {
      var q := SkipRun(buf, base, len, p);
      var e := FindEnd(buf, base, len, q + 1);
      posn := e;
      if e >= len {
        goOn, o := false, NoFrame(q);
      } else if e >= 4 {
        goOn, o := JudgeFrame(buf, base, len, q, e);
      }
    }
  }

  /** Scans `len` octets of `buf` from `base` on, unstuffing in place. */
  method ExtractFrame(buf: array<bv8>, base: nat, len: nat) returns (o: Outcome)
    requires base + len <= buf.Length
    modifies buf
    ensures ScanFrom(old(buf[base..base + len]), 0) == Stop(buf[base..base + len], o)
    ensures Outside(buf, base, len)
  {
    hide Step;
    ghost var s := buf[base..base + len];
    var goOn, posn := true, 0;
    o := NoFrame(len);
    while goOn && posn < len
      invariant posn <= len && (goOn ==> o == NoFrame(len)) && Outside(buf, base, len)
      invariant ScanFrom(s, 0) == if goOn then ScanFrom(buf[base..base + len], posn) else Stop(buf[base..base + len], o)
      decreases goOn, len - posn
    {
      goOn, posn, o := TakeTurn(buf, base, len, posn);
      if goOn {
        o := NoFrame(len);
      }
    }
  }
}
