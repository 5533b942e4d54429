/** The queue of write buffers of `gathdlc.c` by what each buffer holds: what a send and the write handler
make of it, and when the handler stops although there is something left to write.
 */
module HdlcQueue {
  import opened Fcs16
  import opened HdlcCodec

  const BUFFER_SIZE: nat := 4096
  const MAX_BUFFERS: nat := 64
  const HDLC_OVERHEAD: nat := 256

  lemma Assoc(a: seq<bv8>, b: seq<bv8>, c: seq<bv8>)
    ensures a + b + c == a + (b + c)
  {
  }

  function Flatten(chunks: seq<seq<bv8>>): seq<bv8> {
    if chunks == [] then [] else chunks[0] + Flatten(chunks[1..])
  }

  lemma {:induction false} FlattenExtend(chunks: seq<seq<bv8>>, more: seq<bv8>)
    requires chunks != []
    ensures var n := |chunks| - 1;
            Flatten(chunks[n := chunks[n] + more]) == Flatten(chunks) + more
  {
    var n := |chunks| - 1;
    if n == 0 {
      assert chunks[n := chunks[n] + more] == [chunks[0] + more];
      assert chunks[1..] == [];
    } else {
      FlattenExtend(chunks[1..], more);
      assert chunks[n := chunks[n] + more][1..] == chunks[1..][n - 1 := chunks[n] + more];
    }
  }

  lemma {:induction false} FlattenPush(chunks: seq<seq<bv8>>)
    ensures Flatten(chunks + [[]]) == Flatten(chunks)
  {
    if chunks == [] {
      assert chunks + [[]] == [[]];
    } else {
      assert (chunks + [[]])[1..] == chunks[1..] + [[]];
      FlattenPush(chunks[1..]);
    }
  }

  lemma FlattenDrain(chunks: seq<seq<bv8>>, n: nat)
    requires chunks != [] && n <= |chunks[0]|
    ensures chunks[0][..n] + Flatten(chunks[0 := chunks[0][n..]]) == Flatten(chunks)
  {
    assert chunks[0 := chunks[0][n..]][1..] == chunks[1..];
    Assoc(chunks[0][..n], chunks[0][n..], Flatten(chunks[1..]));
    assert chunks[0][..n] + chunks[0][n..] == chunks[0];
  }

  //
  // Sending and writing.
  //

  function Avail(c: seq<seq<bv8>>): int
    requires c != []
  {
    BUFFER_SIZE - |c[|c| - 1]|
  }

  /** The frame finds the last buffer short, and there may be another. */
  predicate Pushes(c: seq<seq<bv8>>, size: nat)
    requires c != []
  {
    Avail(c) < size + HDLC_OVERHEAD && |c| <= MAX_BUFFERS
  }

  function MadeRoom(c: seq<seq<bv8>>, size: nat): (d: seq<seq<bv8>>)
    requires c != []
    ensures d != []
  {
    if Pushes(c, size) then c + [[]] else c
  }

  /** There is a buffer to try: the last one, or another. */
  predicate Tried(c: seq<seq<bv8>>, size: nat)
    requires c != []
  {
    |c| <= MAX_BUFFERS || Avail(c) >= size + HDLC_OVERHEAD
  }

  /** The frame of `size` octets, encoded as `e`, is queued. */
  predicate Queued(c: seq<seq<bv8>>, size: nat, e: seq<bv8>)
    requires c != []
  {
    Tried(c, size) && |e| <= Avail(MadeRoom(c, size))
  }

  /** The last buffer takes some more. */
  function Extended(c: seq<seq<bv8>>, e: seq<bv8>): (d: seq<seq<bv8>>)
    requires c != []
    ensures d != []
  {
    c[|c| - 1 := c[|c| - 1] + e]
  }

  /** A send, successful or not: a buffer that was added for it stays. */
  function AfterSend(c: seq<seq<bv8>>, size: nat, e: seq<bv8>): (d: seq<seq<bv8>>)
    requires c != []
    ensures d != []
  {
    var m := MadeRoom(c, size);
    if Queued(c, size, e) then Extended(m, e) else m
  }

  lemma SendIs(c: seq<seq<bv8>>, size: nat, e: seq<bv8>, ok: bool, d: seq<seq<bv8>>)
    requires c != []
    requires ok <==> (|c| <= MAX_BUFFERS || Avail(c) >= size + HDLC_OVERHEAD) && |e| <= Avail(MadeRoom(c, size))
    requires d == if ok then Extended(MadeRoom(c, size), e) else MadeRoom(c, size)
    ensures d == AfterSend(c, size, e)
  {
  }

  /** A send adds a buffer exactly when the last one has less room than 256 octets more than the payload
      and there are at most 64; so there are never more than 65. */
  lemma NewBufferIff(c: seq<seq<bv8>>, size: nat, e: seq<bv8>)
    requires c != []
    ensures |AfterSend(c, size, e)| == |c| + if |c| <= 64 && 4096 - |c[|c| - 1]| < size + 256 then 1 else 0
    ensures |c| <= 65 ==> |AfterSend(c, size, e)| <= 65
  {
  }

  /** The write handler, when the channel takes `n` octets. */
  function AfterWrite(c: seq<seq<bv8>>, n: nat): (d: seq<seq<bv8>>)
    requires c != [] && n <= |c[0]|
    ensures d != []
  {
    var d := c[0 := c[0][n..]];
    if d[0] == [] && |d| > 1 then d[1..] else d
  }

  //
  // When the handler stops too early.
  //

  /** Behind the first buffer, no empty one stands before one that is not. */
  predicate Gapless(c: seq<seq<bv8>>) {
    forall i, j :: 1 <= i < j < |c| && c[i] == [] ==> c[j] == []
  }

  lemma {:induction false} AllEmpty(c: seq<seq<bv8>>)
    requires forall i :: 0 <= i < |c| ==> c[i] == []
    ensures Flatten(c) == []
  {
    if c != [] { AllEmpty(c[1..]); }
  }

  lemma {:induction false} SomeLeft(c: seq<seq<bv8>>, j: nat)
    requires j < |c| && c[j] != []
    ensures Flatten(c) != []
  {
    if j > 0 { SomeLeft(c[1..], j - 1); }
  }

  lemma WriteKeepsGapless(c: seq<seq<bv8>>, n: nat)
    requires c != [] && n <= |c[0]| && Gapless(c)
    ensures Gapless(AfterWrite(c, n))
  {
    var d := AfterWrite(c, n);
    forall i, j | 1 <= i < j < |d| && d[i] == [] ensures d[j] == [] {
      if |d| < |c| {
        assert d[i] == c[i + 1] && d[j] == c[j + 1];
      } else {
        assert d[i] == c[i] && d[j] == c[j];
      }
    }
  }

  /** Without a gap the handler stops only when nothing is left. */
  lemma GaplessStops(c: seq<seq<bv8>>, n: nat)
    requires c != [] && n <= |c[0]| && Gapless(c)
    ensures AfterWrite(c, n)[0] == [] ==> Flatten(AfterWrite(c, n)) == []
  {
    var d := AfterWrite(c, n);
    if d[0] == [] {
      forall i | 0 <= i < |d| ensures d[i] == [] {
        if |d| < |c| { assert d[i] == c[i + 1] && d[0] == c[1]; }
      }
      AllEmpty(d);
    }
  }

  /** A run of the handler, each call taking some of the first buffer. */
  predicate Writable(c: seq<seq<bv8>>, ns: seq<nat>)
    requires c != []
    decreases |ns|
  {
    ns == [] || (ns[0] <= |c[0]| && Writable(AfterWrite(c, ns[0]), ns[1..]))
  }

  function Writes(c: seq<seq<bv8>>, ns: seq<nat>): (d: seq<seq<bv8>>)
    requires c != [] && Writable(c, ns)
    ensures d != []
    decreases |ns|
  {
    if ns == [] then c else Writes(AfterWrite(c, ns[0]), ns[1..])
  }

  lemma {:induction false} GaplessRun(c: seq<seq<bv8>>, ns: seq<nat>)
    requires c != [] && Writable(c, ns) && ns != [] && Gapless(c)
    ensures Writes(c, ns)[0] == [] ==> Flatten(Writes(c, ns)) == []
    decreases |ns|
  {
    hide Gapless, AfterWrite;
    var d := AfterWrite(c, ns[0]);
    WriteKeepsGapless(c, ns[0]);
    if |ns| == 1 {
      GaplessStops(c, ns[0]);
      assert Writes(d, ns[1..]) == d;
    } else {
      GaplessRun(d, ns[1..]);
    }
  }

  function Total(c: seq<seq<bv8>>): nat {
    |Flatten(c)| + |c|
  }

  lemma WriteCons(c: seq<seq<bv8>>, n: nat, ns: seq<nat>)
    requires c != [] && n <= |c[0]| && Writable(AfterWrite(c, n), ns)
    ensures Writable(c, [n] + ns) && Writes(c, [n] + ns) == Writes(AfterWrite(c, n), ns)
  {
    assert ([n] + ns)[1..] == ns;
  }

  lemma WriteOne(c: seq<seq<bv8>>, n: nat)
    requires c != [] && n <= |c[0]|
    ensures Writable(c, [n]) && Writes(c, [n]) == AfterWrite(c, n)
  {
    WriteCons(c, n, []);
    assert [n] + [] == [n];
  }

  /** With a gap, a channel that takes one octet at a time brings the handler to a stop with octets left. */
  lemma {:induction false} GapStops(c: seq<seq<bv8>>) returns (ns: seq<nat>)
    requires c != [] && !Gapless(c)
    ensures ns != [] && Writable(c, ns) && forall k :: 0 <= k < |ns| ==> ns[k] <= 1
    ensures Writes(c, ns)[0] == [] && Flatten(Writes(c, ns)) != []
    decreases Total(c)
  {
    hide Writable, Writes;
    var i, j :| 1 <= i < j < |c| && c[i] == [] && c[j] != [];
    var n := if c[0] == [] then 0 else 1;
    var d := AfterWrite(c, n);
    if |c[0]| > 1 {
      assert d[i] == [] && d[j] != [];
      FlattenDrain(c, 1);
      var ms := GapStops(d);
      WriteCons(c, n, ms);
      ns := [n] + ms;
    } else {
      assert d == c[1..] && Total(d) < Total(c);
      if c[1] == [] {
        SomeLeft(d, j - 1);
        WriteOne(c, n);
        ns := [n];
      } else {
        assert d[i - 1] == [] && d[j - 1] != [];
        var ms := GapStops(d);
        WriteCons(c, n, ms);
        ns := [n] + ms;
      }
    }
  }

  /** However much the channel takes at a time, a stop means that everything has been written. */
  ghost predicate StopsWhenDone(c: seq<seq<bv8>>)
    requires c != []
  {
    forall ns :: ns != [] && Writable(c, ns) && Writes(c, ns)[0] == [] ==> Flatten(Writes(c, ns)) == []
  }

  /** That is so if and only if there is no gap. */
  lemma StopsWhenDoneIff(c: seq<seq<bv8>>)
    requires c != []
    ensures StopsWhenDone(c) <==> Gapless(c)
  {
    if Gapless(c) {
      forall ns | ns != [] && Writable(c, ns) && Writes(c, ns)[0] == [] ensures Flatten(Writes(c, ns)) == [] {
        GaplessRun(c, ns);
      }
    } else {
      var ns := GapStops(c);
    }
  }

  //
  // Which sends leave a gap.
  //

  /** A send opens a gap exactly when it succeeds behind an empty buffer that is not the first. */
  lemma SendKeepsGapless(c: seq<seq<bv8>>, size: nat, e: seq<bv8>)
    requires c != [] && e != [] && Gapless(c)
    ensures Gapless(AfterSend(c, size, e)) <==>
      !(Queued(c, size, e) && exists i :: 1 <= i < |MadeRoom(c, size)| - 1 && MadeRoom(c, size)[i] == [])
  {
    var m, d := MadeRoom(c, size), AfterSend(c, size, e);
    var n := |m| - 1;
    if Queued(c, size, e) {
      assert d[n] != [];
      if i :| 1 <= i < n && m[i] == [] {
        assert d[i] == [];
      }
    }
  }

  /** Behind the first buffer every one holds something. */
  predicate Filled(c: seq<seq<bv8>>) {
    forall i :: 1 <= i < |c| ==> c[i] != []
  }

  lemma FilledIsGapless(c: seq<seq<bv8>>)
    requires Filled(c)
    ensures Gapless(c)
  {
  }

  lemma WriteKeepsFilled(c: seq<seq<bv8>>, n: nat)
    requires c != [] && n <= |c[0]| && Filled(c)
    ensures Filled(AfterWrite(c, n))
  {
    var d := AfterWrite(c, n);
    forall i | 1 <= i < |d| ensures d[i] != [] {
      if |d| < |c| { assert d[i] == c[i + 1]; } else { assert d[i] == c[i]; }
    }
  }

  /** A send leaves an empty buffer behind exactly when it adds one and its encoding does not fit even
      that; a frame whose encoding fits an empty buffer never does. */
  lemma SendKeepsFilled(c: seq<seq<bv8>>, size: nat, e: seq<bv8>)
    requires c != [] && e != [] && Filled(c)
    ensures Filled(AfterSend(c, size, e)) <==> !(Pushes(c, size) && |e| > BUFFER_SIZE)
  {
    var m, d := MadeRoom(c, size), AfterSend(c, size, e);
    var n := |m| - 1;
    if Pushes(c, size) {
      assert m[n] == [];
      assert Queued(c, size, e) <==> |e| <= BUFFER_SIZE;
      assert d[n] == if |e| <= BUFFER_SIZE then e else [];
      assert [] + e == e;
      forall i | 1 <= i < n ensures d[i] != [] { assert d[i] == c[i]; }
    } else {
      forall i | 1 <= i < |d| ensures d[i] != [] { assert c[i] != []; }
    }
  }

  //
  // Runs of sends and writes.
  //

  datatype Op = SendOp(size: nat, octets: seq<bv8>) | WriteOp(taken: nat)

  predicate CanDo(c: seq<seq<bv8>>, op: Op)
    requires c != []
  {
    match op
    case SendOp(_, e) => e != []
    case WriteOp(n) => n <= |c[0]|
  }

  function Do(c: seq<seq<bv8>>, op: Op): (d: seq<seq<bv8>>)
    requires c != [] && CanDo(c, op)
    ensures d != []
  {
    match op
    case SendOp(size, e) => AfterSend(c, size, e)
    case WriteOp(n) => AfterWrite(c, n)
  }

  predicate CanDoAll(c: seq<seq<bv8>>, ops: seq<Op>)
    requires c != []
    decreases |ops|
  {
    ops == [] || (CanDo(c, ops[0]) && CanDoAll(Do(c, ops[0]), ops[1..]))
  }

  function DoAll(c: seq<seq<bv8>>, ops: seq<Op>): (d: seq<seq<bv8>>)
    requires c != [] && CanDoAll(c, ops)
    ensures d != []
    decreases |ops|
  {
    if ops == [] then c else DoAll(Do(c, ops[0]), ops[1..])
  }

  /** If every frame's encoding fits an empty buffer, there is never a gap, and the write handler never
      stops with octets left, whatever is sent and however it is written. */
  lemma {:induction false} FittingSendsAreSafe(c: seq<seq<bv8>>, ops: seq<Op>)
    requires c != [] && Filled(c) && CanDoAll(c, ops)
    requires forall k :: 0 <= k < |ops| && ops[k].SendOp? ==> |ops[k].octets| <= BUFFER_SIZE
    ensures Filled(DoAll(c, ops)) && StopsWhenDone(DoAll(c, ops))
    decreases |ops|
  {
    hide Filled, StopsWhenDone, AfterSend, AfterWrite, Pushes;
    if ops == [] {
      FilledIsGapless(c);
      StopsWhenDoneIff(c);
    } else {
      match ops[0] {
        case SendOp(size, e) => SendKeepsFilled(c, size, e);
        case WriteOp(n) => WriteKeepsFilled(c, n);
      }
      FittingSendsAreSafe(Do(c, ops[0]), ops[1..]);
    }
  }

  //
  // A run that leaves a gap.
  //

  lemma {:induction false} FlagsDouble(accm: bv32, data: seq<bv8>)
    requires forall i :: 0 <= i < |data| ==> data[i] == FLAG
    ensures |Escaped(accm, data)| == 2 * |data|
    decreases |data|
  {
    FlagsAreEscaped(accm);
    if data != [] { FlagsDouble(accm, data[1..]); }
  }

  /** A payload of flags that no buffer can take. */
  lemma TooLong(payload: seq<bv8>, accm: bv32, lead: bool)
    requires |payload| == 3841 && forall i :: 0 <= i < |payload| ==> payload[i] == FLAG
    ensures |Encode(Frame(payload, accm, lead))| > BUFFER_SIZE
  {
    FlagsDouble(accm, payload);
    EscapedConcat(accm, payload, Tail(Crc(INIT_FCS, payload)));
  }

  /** A short frame, two sends of such a payload, which fail, and another short frame leave the second
      short frame behind an empty buffer; once the first is written the handler stops, and the second
      is not. */
  lemma GapIsReachable(x: seq<bv8>, payload: seq<bv8>, accm: bv32, lead: bool, y: seq<bv8>)
    requires 0 < |x| <= 200 && 0 < |y| <= 200
    requires |payload| == 3841 && forall i :: 0 <= i < |payload| ==> payload[i] == FLAG
    ensures var e := Encode(Frame(payload, accm, lead));
      var ops := [SendOp(100, x), SendOp(3841, e), SendOp(3841, e), SendOp(100, y)];
      && CanDoAll([[]], ops)
      && DoAll([[]], ops) == [x, [], y]
      && AfterWrite([x, [], y], |x|) == [[], y]
  {
    TooLong(payload, accm, lead);
    hide Encode;
    var e := Encode(Frame(payload, accm, lead));
    var s1, s2, s4 := SendOp(100, x), SendOp(3841, e), SendOp(100, y);
    assert Do([[]], s1) == [x] by { assert [] + x == x; }
    assert Do([x], s2) == [x, []];
    assert Do([x, []], s2) == [x, [], []];
    assert Do([x, [], []], s4) == [x, [], y] by { assert [] + y == y; }
    assert [s1, s2, s2, s4][1..] == [s2, s2, s4] && [s2, s2, s4][1..] == [s2, s4];
    assert [s2, s4][1..] == [s4] && [s4][1..] == [];
    assert CanDoAll([x, [], y], []) && DoAll([x, [], y], []) == [x, [], y];
    assert CanDoAll([x, [], []], [s4]) && DoAll([x, [], []], [s4]) == [x, [], y];
    assert CanDoAll([x, []], [s2, s4]) && DoAll([x, []], [s2, s4]) == [x, [], y];
    assert CanDoAll([x], [s2, s2, s4]) && DoAll([x], [s2, s2, s4]) == [x, [], y];
  }
}
