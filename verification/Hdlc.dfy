/** The HDLC endpoint of `gathdlc.c`: an incremental decoder that reads a ring buffer through raw
pointers, and a sender that escapes frames into a queue of ring buffers which a write handler
empties.  Both sides are proved against the functions of `HdlcCodec`.
 */
module Hdlc {
  import opened Fcs16
  import opened HdlcCodec
  import opened HdlcQueue
  import opened RingBuffers

  /** What is still to be stored of the escaped form of `octets`, when the first `i` are done and
      the escape octet of the next one may be. */
  function Rest(accm: bv32, octets: seq<bv8>, i: nat, escape: bool): seq<bv8>
    requires i <= |octets|
    requires escape ==> i < |octets| && NeedEscape(accm, octets[i])
  {
    var e := Escaped(accm, octets[i..]);
    if escape then e[1..] else e
  }

  lemma RestStep(accm: bv32, octets: seq<bv8>, i: nat)
    requires i < |octets|
    ensures NeedEscape(accm, octets[i]) ==>
              && Rest(accm, octets, i, false) == [ESCAPE] + Rest(accm, octets, i, true)
              && Rest(accm, octets, i, true) == [Xor8(octets[i], TRANS)] + Rest(accm, octets, i + 1, false)
    ensures !NeedEscape(accm, octets[i]) ==>
              Rest(accm, octets, i, false) == [octets[i]] + Rest(accm, octets, i + 1, false)
  {
    hide NeedEscape, Xor8;
    assert octets[i..][0] == octets[i] && octets[i..][1..] == octets[i + 1..];
  }

  lemma StartOut(accm: bv32, octets: seq<bv8>)
    ensures Rest(accm, octets, 0, false) == Escaped(accm, octets)
    ensures Crc(INIT_FCS, octets[..0]) == INIT_FCS
  {
    assert octets[0..] == octets;
  }

  lemma EndOut(accm: bv32, octets: seq<bv8>, i: nat, escape: bool)
    requires i <= |octets| && (escape ==> i < |octets| && NeedEscape(accm, octets[i]))
    ensures i == |octets| ==> octets[..i] == octets && Rest(accm, octets, i, escape) == []
    ensures i < |octets| ==> |Rest(accm, octets, i, escape)| > 0
  {
    if i < |octets| {
      RestStep(accm, octets, i);
    }
  }

  lemma CrcSnoc(crc: bv16, data: seq<bv8>, i: nat)
    requires i < |data|
    ensures Crc(crc, data[..i + 1]) == CrcByte(Crc(crc, data[..i]), data[i])
  {
    assert data[..i + 1] == data[..i] + [data[i]];
    CrcConcat(crc, data[..i], [data[i]]);
    assert [data[i]][1..] == [];
  }

  lemma WireSnoc(frames: seq<Frame>, f: Frame)
    ensures Wire(frames + [f]) == Wire(frames) + Encode(f)
  {
    assert (frames + [f])[..|frames|] == frames;
  }

  lemma MoveAcross(a: seq<bv8>, c: bv8, b: seq<bv8>)
    ensures a + [c] + b == a + ([c] + b)
  {
  }

  /** Stores one octet through the write pointer and steps the pointer. */
  method StoreNext(ring: RingBuffer, buf: nat, pos: nat, c: bv8) returns (next: nat)
    requires ring.Valid() && pos < ring.Avail() && buf == Wrap(ring.Tail() + pos, ring.size)
    modifies ring.buffer
    ensures ring.Valid() && ring.Contents() == old(ring.Contents())
    ensures ring.Free()[..pos + 1] == old(ring.Free())[..pos] + [c]
    ensures next == Wrap(ring.Tail() + pos + 1, ring.size)
  {
    var wrap := ring.AvailNoWrap();
    NextPtr(ring.Tail(), pos, ring.Avail(), wrap, ring.size);
    ring.Store(buf, c, pos);
    assert ring.Free()[..pos + 1] == old(ring.Free())[..pos] + [c];
    next := buf + 1;
    if pos + 1 == wrap {
      next := ring.WritePtr(pos + 1);
    }
  }

  /** The next octet to store: an escape, an escaped octet, or a plain one. */
  method NextOut(accm: bv32, octets: seq<bv8>, i: nat, escape: bool, fcs: bv16)
    returns (c: bv8, i': nat, escape': bool, fcs': bv16)
    requires i < |octets| && (escape ==> NeedEscape(accm, octets[i])) && fcs == Crc(INIT_FCS, octets[..i])
    ensures i' <= |octets| && (escape' ==> i' < |octets| && NeedEscape(accm, octets[i']))
    ensures Rest(accm, octets, i, escape) == [c] + Rest(accm, octets, i', escape')
    ensures fcs' == Crc(INIT_FCS, octets[..i'])
  {
    RestStep(accm, octets, i);
    CrcSnoc(INIT_FCS, octets, i);
    c, i', escape', fcs' := octets[i], i, false, fcs;
    if escape {
      fcs' := CrcByte(fcs, octets[i]);
      c, i' := Xor8(octets[i], TRANS), i + 1;
    } else if NeedEscape(accm, octets[i]) {
      c, escape' := ESCAPE, true;
    } else {
      fcs' := CrcByte(fcs, octets[i]);
      i' := i + 1;
    }
  }

  /** Stores the escaped form of `octets` in the free slots from `start` on, as far as there is
      room, and computes their CRC. */
  method PutEscaped(ring: RingBuffer, accm: bv32, octets: seq<bv8>, start: nat, startPtr: nat)
    returns (pos: nat, buf: nat, complete: bool, fcs: bv16)
    requires ring.Valid() && start <= ring.Avail() && startPtr == Wrap(ring.Tail() + start, ring.size)
    modifies ring.buffer
    ensures ring.Valid() && ring.Contents() == old(ring.Contents())
    ensures start <= pos <= ring.Avail() && buf == Wrap(ring.Tail() + pos, ring.size)
    ensures complete <==> start + |Escaped(accm, octets)| <= ring.Avail()
    ensures complete ==> ring.Free()[..pos] == old(ring.Free())[..start] + Escaped(accm, octets)
    ensures complete ==> fcs == Crc(INIT_FCS, octets)
  {
    hide Escaped, Crc, NeedEscape, Rest, RingBuffer.Contents, RingBuffer.Free;
    var avail, escape := ring.Avail(), false;
    var i: nat := 0;
    pos, buf, fcs := start, startPtr, INIT_FCS;
    ghost var contents, before := ring.Contents(), ring.Free()[..start];
    StartOut(accm, octets);
    while pos < avail && i < |octets|
      invariant ring.Valid() && ring.Contents() == contents && ring.Avail() == avail
      invariant start <= pos <= avail && buf == Wrap(ring.Tail() + pos, ring.size)
      invariant i <= |octets| && (escape ==> i < |octets| && NeedEscape(accm, octets[i]))
      invariant ring.Free()[..pos] + Rest(accm, octets, i, escape) == before + Escaped(accm, octets)
      invariant fcs == Crc(INIT_FCS, octets[..i])
      decreases avail - pos
    {
      ghost var done := ring.Free()[..pos];
      var c;
      c, i, escape, fcs := NextOut(accm, octets, i, escape, fcs);
      buf := StoreNext(ring, buf, pos, c);
      pos := pos + 1;
      MoveAcross(done, c, Rest(accm, octets, i, escape));
    }
    complete := i == |octets|;
    EndOut(accm, octets, i, escape);
  }

  /** The flag before a frame.  The wakeup flag is stored without looking for the end of the array,
      so it must not be the last slot. */
  method PutLead(ring: RingBuffer, marker: bool, wakeup: bool) returns (pos: nat, buf: nat, ok: bool)
    requires ring.Valid()
    requires !marker && wakeup ==> ring.AvailNoWrap() > 1
    modifies ring.buffer
    ensures ring.Valid() && ring.Contents() == old(ring.Contents())
    ensures ok <==> marker || wakeup ==> ring.Avail() > 0
    ensures ok ==> pos <= ring.Avail() && buf == Wrap(ring.Tail() + pos, ring.size)
    ensures ok ==> ring.Free()[..pos] == if marker || wakeup then [FLAG] else []
  {
    pos, buf, ok := 0, ring.WritePtr(0), true;
    if marker {
      if ring.Avail() < 1 {
        return pos, buf, false;
      }
      buf := StoreNext(ring, buf, pos, FLAG);
      pos := 1;
    } else if wakeup {
      ring.Store(buf, FLAG, pos);
      buf, pos := buf + 1, 1;
    }
  }

  /** The check sequence and the closing flag. */
  method PutTail(ring: RingBuffer, fcs: bv16, accm: bv32, start: nat, startPtr: nat) returns (pos: nat, ok: bool)
    requires ring.Valid() && start <= ring.Avail() && startPtr == Wrap(ring.Tail() + start, ring.size)
    modifies ring.buffer
    ensures ring.Valid() && ring.Contents() == old(ring.Contents()) && pos <= ring.Avail()
    ensures ok <==> start + |Escaped(accm, Tail(fcs))| + 1 <= ring.Avail()
    ensures ok ==> ring.Free()[..pos] == old(ring.Free())[..start] + Escaped(accm, Tail(fcs)) + [FLAG]
  {
    var buf, unused;
    pos, buf, ok, unused := PutEscaped(ring, accm, Tail(fcs), start, startPtr);
    if ok {
      ok := pos + 1 <= ring.Avail();
    }
    if ok {
      buf := StoreNext(ring, buf, pos, FLAG);
      pos := pos + 1;
    }
  }

  /** The frame after its lead: payload, check sequence and closing flag. */
  method PutBody(ring: RingBuffer, payload: seq<bv8>, accm: bv32, start: nat, startPtr: nat)
    returns (pos: nat, ok: bool)
    requires ring.Valid() && start <= ring.Avail() && startPtr == Wrap(ring.Tail() + start, ring.size)
    modifies ring.buffer
    ensures ring.Valid() && ring.Contents() == old(ring.Contents()) && pos <= ring.Avail()
    ensures ok <==> start + |Body(payload, accm)| <= ring.Avail()
    ensures ok ==> ring.Free()[..pos] == old(ring.Free())[..start] + Body(payload, accm)
  {
    var buf, fcs;
    Reassociate(ring.Free()[..start], Escaped(accm, payload), Escaped(accm, Tail(Crc(INIT_FCS, payload))));
    pos, buf, ok, fcs := PutEscaped(ring, accm, payload, start, startPtr);
    if ok {
      pos, ok := PutTail(ring, fcs, accm, pos, buf);
    }
  }

  lemma Reassociate(lead: seq<bv8>, data: seq<bv8>, tail: seq<bv8>)
    ensures lead + (data + tail + [FLAG]) == lead + data + tail + [FLAG]
  {
  }

  function Body(payload: seq<bv8>, accm: bv32): seq<bv8> {
    Escaped(accm, payload) + Escaped(accm, Tail(Crc(INIT_FCS, payload))) + [FLAG]
  }

  /** Builds a whole frame in the free slots of `ring`, and claims them only if it is complete. */
  method FillFrame(ring: RingBuffer, payload: seq<bv8>, accm: bv32, marker: bool, wakeup: bool, ghost e: seq<bv8>)
    returns (ok: bool)
    requires ring.Valid() && e == Encode(Frame(payload, accm, marker || wakeup))
    requires !marker && wakeup ==> ring.AvailNoWrap() > 1
    modifies ring, ring.buffer
    ensures ring.Valid()
    ensures ok <==> |e| <= old(ring.Avail())
    ensures ring.Contents() == if ok then old(ring.Contents()) + e else old(ring.Contents())
  {
    EncodedParts(payload, accm, marker || wakeup);
    var pos, buf;
    pos, buf, ok := PutLead(ring, marker, wakeup);
    if ok {
      pos, ok := PutBody(ring, payload, accm, pos, buf);
      if ok {
        pos := ring.WriteAdvance(pos);
      }
    }
  }

  lemma EncodeNonEmpty(f: Frame)
    ensures |Encode(f)| > 0
  {
  }

  lemma EncodedParts(payload: seq<bv8>, accm: bv32, lead: bool)
    ensures Encode(Frame(payload, accm, lead)) == (if lead then [FLAG] else []) + Body(payload, accm)
  {
    EscapedConcat(accm, payload, Tail(Crc(INIT_FCS, payload)));
  }

  //
  // The queue of write buffers.
  //

  /** The queue of write buffers: frames go into the last one, octets leave from the first. */
  class WriteQueue {
    var rings: seq<RingBuffer>
    /** What the IO channel has accepted so far. */
    var written: seq<bv8>
    /** What each buffer holds, and everything ever queued. */
    ghost var chunks: seq<seq<bv8>>
    ghost var wire: seq<bv8>
    ghost var Repr: set<object>

    ghost predicate Holds(r: RingBuffer, c: seq<bv8>)
      reads r, r.buffer
    {
      r.Valid() && r.size == BUFFER_SIZE && r.Contents() == c
    }

    /** The buffers are distinct and hold `chunks`. */
    ghost predicate Shape()
      reads this, Repr
    {
      && this in Repr && 1 <= |rings| <= MAX_BUFFERS + 1 && |chunks| == |rings|
      && (forall i :: 0 <= i < |rings| ==> rings[i] in Repr && rings[i].buffer in Repr && Holds(rings[i], chunks[i]))
      && (forall i, j :: 0 <= i < j < |rings| ==> rings[i] != rings[j] && rings[i].buffer != rings[j].buffer)
    }

    /** What the channel accepted, followed by what is held, is what was ever queued. */
    ghost predicate Valid()
      reads this, Repr
    {
      Shape() && written + Flatten(chunks) == wire
    }

    function Last(): RingBuffer
      reads this
      requires rings != []
    {
      rings[|rings| - 1]
    }

    /** Nothing was ever written: a single buffer that starts at its first slot. */
    ghost predicate Untouched()
      reads this, Repr
      requires Valid()
    {
      |rings| == 1 && rings[0].inp == 0 && rings[0].outp == 0
    }

    /** The room a frame of `size` octets will find: the last buffer's, or a fresh one's if that is short. */
    ghost function Room(size: nat): (n: nat)
      reads this, Repr
      requires Valid()
    {
      var avail := Last().Avail();
      if avail >= size + HDLC_OVERHEAD then avail else if |rings| > MAX_BUFFERS then 0 else BUFFER_SIZE
    }

    constructor ()
      ensures Valid() && fresh(Repr) && written == wire == [] && Untouched()
    {
      var ring := new RingBuffer(BUFFER_SIZE);
      BufferSizeIsPower(ring.size);
      rings, chunks := [ring], [[]];
      written, wire := [], [];
      Repr := {this, ring, ring.buffer};
    }

    method Push()
      requires Valid() && |rings| <= MAX_BUFFERS
      modifies this`rings, this`chunks, this`Repr
      ensures Valid() && fresh(Repr - old(Repr))
      ensures chunks == old(chunks) + [[]]
      ensures Last().Avail() == BUFFER_SIZE && Last().inp == 0 && Last().outp == 0
    {
      var ring := new RingBuffer(BUFFER_SIZE);
      BufferSizeIsPower(ring.size);
      FlattenPush(chunks);
      rings, chunks := rings + [ring], chunks + [[]];
      Repr := Repr + {ring, ring.buffer};
    }

    /** Makes sure the last buffer has room for a frame, appending a fresh one if it is short. */
    method MakeRoom(size: nat) returns (ok: bool)
      requires Valid()
      modifies this
      ensures Valid() && fresh(Repr - old(Repr)) && wire == old(wire) && written == old(written)
      ensures chunks == MadeRoom(old(chunks), size)
      ensures Avail(chunks) == Last().Avail()
      ensures ok ==> Last().Avail() == old(Room(size))
      ensures ok <==> |old(chunks)| <= MAX_BUFFERS || Avail(old(chunks)) >= size + HDLC_OVERHEAD
      ensures !ok ==> old(Room(size)) == 0 && !old(Untouched())
      ensures old(Untouched()) ==> Last().inp == 0 && Last().outp == 0
    {
      assert Holds(Last(), chunks[|chunks| - 1]);
      if Last().Avail() < size + HDLC_OVERHEAD {
        if |rings| > MAX_BUFFERS {
          return false;
        }
        Push();
      }
      assert Holds(Last(), chunks[|chunks| - 1]);
      ok := true;
    }

    /** Encodes a frame into the last buffer, leaving the others alone. */
    method FillLast(data: seq<bv8>, accm: bv32, marker: bool, wakeup: bool, ghost e: seq<bv8>) returns (ok: bool)
      requires Shape() && e == Encode(Frame(data, accm, marker || wakeup))
      requires !marker && wakeup ==> Last().inp == 0 && Last().outp == 0
      modifies this`chunks, Last(), Last().buffer
      ensures Shape()
      ensures ok <==> |e| <= old(Last().Avail())
      ensures var n := |rings| - 1; chunks == if ok then old(chunks)[n := old(chunks)[n] + e] else old(chunks)
    {
      hide Encode;
      ghost var n := |rings| - 1;
      var ring := Last();
      assert Holds(ring, chunks[n]);
      ok := FillFrame(ring, data, accm, marker, wakeup, e);
      ghost var now := ring.Contents();
      chunks := chunks[n := now];
      assert ring.Contents() == now;
    }

    method Append(data: seq<bv8>, accm: bv32, marker: bool, wakeup: bool, ghost e: seq<bv8>) returns (ok: bool)
      requires Valid() && e == Encode(Frame(data, accm, marker || wakeup))
      requires !marker && wakeup ==> Last().inp == 0 && Last().outp == 0
      modifies this`chunks, this`wire, Last(), Last().buffer
      ensures Valid()
      ensures ok <==> |e| <= old(Last().Avail())
      ensures wire == if ok then old(wire) + e else old(wire)
      ensures chunks == if ok then Extended(old(chunks), e) else old(chunks)
    {
      hide Encode, Flatten, Holds;
      FlattenExtend(chunks, e);
      Assoc(written, Flatten(chunks), e);
      ok := FillLast(data, accm, marker, wakeup, e);
      wire := written + Flatten(chunks);
    }

    /** Queues a frame, whole or not at all; `tried` says whether there was a buffer to try. */
    method Enqueue(data: seq<bv8>, accm: bv32, marker: bool, wakeup: bool, ghost e: seq<bv8>)
      returns (ok: bool, tried: bool)
      requires Valid() && (!marker && wakeup ==> Untouched())
      requires e == Encode(Frame(data, accm, marker || wakeup))
      modifies Repr
      ensures Valid() && fresh(Repr - old(Repr)) && written == old(written)
      ensures !tried ==> old(Room(|data|)) == 0 && (marker || !wakeup)
      ensures tried <==> Tried(old(chunks), |data|)
      ensures ok <==> |e| <= old(Room(|data|))
      ensures wire == if ok then old(wire) + e else old(wire)
      ensures chunks == AfterSend(old(chunks), |data|, e)
    {
      EncodeNonEmpty(Frame(data, accm, marker || wakeup));
      hide Encode, Holds, MadeRoom, AfterSend, Flatten, Extended, Avail;
      ghost var was := chunks;
      tried := MakeRoom(|data|);
      ok := tried;
      if tried {
        ok := Append(data, accm, marker, wakeup, e);
      }
      SendIs(was, |data|, e, ok, chunks);
    }

    method DrainFirst(accepted: nat)
      requires Valid()
      modifies this`chunks, this`written, rings[0]
      ensures Valid() && old(written) <= written
      ensures |written| == |old(written)| + Min(accepted, old(rings[0].LenNoWrap()))
      ensures rings[0].Len() == old(rings[0].Len()) - Min(accepted, old(rings[0].LenNoWrap()))
      ensures Min(accepted, old(rings[0].LenNoWrap())) <= |old(chunks)[0]|
      ensures chunks == old(chunks)[0 := old(chunks)[0][Min(accepted, old(rings[0].LenNoWrap()))..]]
      ensures old(Untouched()) ==> Untouched()
    {
      assert Holds(rings[0], chunks[0]);
      var n := Min(accepted, rings[0].LenNoWrap());
      var out := rings[0].CopyOut(n);
      FlattenDrain(chunks, n);
      Assoc(written, out, Flatten(chunks[0 := chunks[0][n..]]));
      n := rings[0].Drain(n);
      chunks, written := chunks[0 := chunks[0][n..]], written + out;
    }

    /** The write handler: hands up to `accepted` octets of the first buffer to the channel, and
        drops the buffer when it is empty and not the only one. */
    method WriteOut(accepted: nat) returns (more: bool)
      requires Valid()
      modifies this, rings[0]
      ensures Valid() && Repr == old(Repr)
      ensures wire == old(wire) && old(written) <= written
      ensures |written| == |old(written)| + Min(accepted, old(rings[0].LenNoWrap()))
      ensures rings ==
        if Min(accepted, old(rings[0].LenNoWrap())) == old(rings[0].Len()) && |old(rings)| > 1
        then old(rings)[1..] else old(rings)
      ensures more <==> rings[0].Len() > 0
      ensures Min(accepted, old(rings[0].LenNoWrap())) <= |old(chunks)[0]|
      ensures chunks == AfterWrite(old(chunks), Min(accepted, old(rings[0].LenNoWrap())))
      ensures more <==> chunks[0] != []
      ensures old(Untouched()) ==> Untouched()
    {
      DrainFirst(accepted);
      assert Holds(rings[0], chunks[0]);
      if rings[0].Len() == 0 && |rings| > 1 {
        DropFirst();
      }
      assert Holds(rings[0], chunks[0]);
      more := rings[0].Len() > 0;
    }

    method DropFirst()
      requires Valid() && |rings| > 1 && rings[0].Len() == 0
      modifies this`rings, this`chunks
      ensures Valid() && rings == old(rings)[1..] && chunks == old(chunks)[1..]
    {
      assert chunks[0] == [];
      rings, chunks := rings[1..], chunks[1..];
    }
  }

  lemma BufferSizeIsPower(size: nat)
    requires PowerOfTwo(size) && BUFFER_SIZE <= size < 2 * BUFFER_SIZE
    ensures size == BUFFER_SIZE
  {
    assert PowerOfTwo(BUFFER_SIZE) by { assert PowerOfTwo(16); assert PowerOfTwo(256); }
    if BUFFER_SIZE < size {
      NextPower(BUFFER_SIZE, size);
    }
  }

  class Endpoint {
    const queue: WriteQueue
    var xmitAccm: bv32
    var wakeupSent: bool
    const startFrameMarker: bool
    /** The frames successfully sent. */
    ghost var sent: seq<Frame>

    const decodeBuffer: array<bv8>
    var decodeOffset: nat
    var decodeFcs: bv16
    var decodeEscape: bool
    var recvAccm: bv32
    var received: seq<seq<bv8>>

    constructor (marker: bool)
      ensures ValidSend() && ValidReceive() && fresh(queue.Repr) && fresh(decodeBuffer)
      ensures startFrameMarker == marker && xmitAccm == 0xffff_ffff && recvAccm == 0xffff_ffff
      ensures Dec() == IDLE && sent == [] && received == []
    {
      queue := new WriteQueue();
      xmitAccm, recvAccm := 0xffff_ffff, 0xffff_ffff;
      wakeupSent, startFrameMarker := false, marker;
      sent, received := [], [];
      decodeBuffer := new bv8[BUFFER_SIZE];
      decodeOffset, decodeFcs, decodeEscape := 0, INIT_FCS, false;
      new;
      assert decodeBuffer[..0] == [];
    }

    ghost predicate ValidReceive()
      reads this
    {
      decodeBuffer.Length == BUFFER_SIZE && decodeOffset <= BUFFER_SIZE
    }

    ghost function Dec(): (d: Decoder)
      reads this, decodeBuffer
      requires ValidReceive()
    {
      Decoder(decodeBuffer[..decodeOffset], decodeFcs, decodeEscape)
    }

    method AcceptOctet(c: bv8)
      requires ValidReceive() && decodeOffset < BUFFER_SIZE
      modifies this`decodeOffset, this`decodeFcs, this`decodeEscape, decodeBuffer
      ensures ValidReceive() && Dec() == Accept(old(Dec()), c)
    {
      decodeBuffer[decodeOffset] := c;
      decodeOffset := decodeOffset + 1;
      decodeFcs := CrcByte(decodeFcs, c);
      decodeEscape := false;
    }

    /** An octet the decoder accepts is stored, unless the buffer has no more room; the code does not
        look, and `overrun` says that it went beyond. */
    method StoreOctet(c: bv8) returns (overrun: bool)
      requires ValidReceive()
      modifies this`decodeOffset, this`decodeFcs, this`decodeEscape, decodeBuffer
      ensures ValidReceive()
      ensures overrun <==> |Accept(old(Dec()), c).frame| > BUFFER_SIZE
      ensures !overrun ==> Dec() == Accept(old(Dec()), c)
    {
      overrun := decodeOffset == BUFFER_SIZE;
      if !overrun {
        AcceptOctet(c);
      }
    }

    /** One octet of the decode loop. */
    method TakeOctet(c: bv8) returns (overrun: bool)
      requires ValidReceive()
      modifies this`decodeOffset, this`decodeFcs, this`decodeEscape, this`received, decodeBuffer
      ensures ValidReceive()
      ensures overrun <==> |DecodeOctet(old(Dec()), recvAccm, c).decoder.frame| > BUFFER_SIZE
      ensures !overrun ==> Dec() == DecodeOctet(old(Dec()), recvAccm, c).decoder
      ensures !overrun ==> received == old(received) + DecodeOctet(old(Dec()), recvAccm, c).delivered
    {
      overrun := false;
      if decodeEscape {
        overrun := StoreOctet(Xor8(c, TRANS));
      } else if c == ESCAPE {
        decodeEscape := true;
      } else if c == FLAG {
        if decodeOffset > 2 && decodeFcs == GOOD_FCS {
          received := received + [decodeBuffer[..decodeOffset - 2]];
          assert decodeBuffer[..decodeOffset - 2] == decodeBuffer[..decodeOffset][..decodeOffset - 2];
        }
        decodeFcs := INIT_FCS;
        decodeOffset := 0;
        assert decodeBuffer[..decodeOffset] == [];
      } else if c >= 0x20 || !Bit(recvAccm, c) {
        overrun := StoreOctet(c);
      }
    }

    method TakeNext(c: bv8, ghost start: Decoder, ghost input: seq<bv8>, ghost pos: nat, ghost before: seq<seq<bv8>>)
      returns (overrun: bool)
      requires ValidReceive() && pos < |input| && c == input[pos] && before <= received
      requires Progress(start, input, pos, received[|before|..])
      modifies this`decodeOffset, this`decodeFcs, this`decodeEscape, this`received, decodeBuffer
      ensures ValidReceive()
      ensures overrun ==> !Fits(start, recvAccm, input, BUFFER_SIZE)
      ensures !overrun ==> before <= received && Progress(start, input, pos + 1, received[|before|..])
    {
      ghost var out := received[|before|..];
      NextOctet(start, input, pos, out);
      ghost var more := DecodeOctet(Dec(), recvAccm, c).delivered;
      overrun := TakeOctet(c);
      if !overrun {
        assert received[|before|..] == out + more;
      }
    }

    /** The decode loop: reads the receive ring through a pointer that is reset where the ring wraps. */
    method DecodeRing(rbuf: RingBuffer) returns (overrun: bool)
      requires ValidReceive() && rbuf.Valid() && rbuf.buffer != decodeBuffer
      modifies this`decodeOffset, this`decodeFcs, this`decodeEscape, this`received, decodeBuffer
      ensures ValidReceive()
      ensures overrun <==> !Fits(old(Dec()), recvAccm, rbuf.Contents(), BUFFER_SIZE)
      ensures !overrun ==> old(received) <= received
      ensures !overrun ==> Decode(old(Dec()), recvAccm, rbuf.Contents()) == Decoded(Dec(), received[|old(received)|..])
    {
      hide Decode, Fits, Progress, Dec, RingBuffer.Contents;
      var len, wrap := rbuf.Len(), rbuf.LenNoWrap();
      var buf, pos := rbuf.ReadPtr(0), 0;
      ghost var input, start, before := rbuf.Contents(), Dec(), received;
      assert received[|before|..] == [];
      StartProgress(input);
      overrun := false;
      while pos < len
        invariant pos <= len && ValidReceive()
        invariant buf == Wrap(rbuf.Head() + pos, rbuf.size)
        invariant before <= received && Progress(start, input, pos, received[|before|..])
      {
        rbuf.ByteAt(pos);
        NextPtr(rbuf.Head(), pos, len, wrap, rbuf.size);
        overrun := TakeNext(rbuf.buffer[buf], start, input, pos, before);
        if overrun {
          return;
        }
        buf, pos := buf + 1, pos + 1;
        if pos == wrap {
          buf := rbuf.ReadPtr(pos);
        }
      }
      EndProgress(start, input, received[|before|..]);
    }

    lemma StartProgress(input: seq<bv8>)
      requires ValidReceive()
      ensures Progress(Dec(), input, 0, [])
    {
      assert input[..0] == [] && input[0..] == input;
    }

    lemma EndProgress(start: Decoder, input: seq<bv8>, out: seq<seq<bv8>>)
      requires ValidReceive() && Progress(start, input, |input|, out)
      ensures Decode(start, recvAccm, input) == Decoded(Dec(), out) && Fits(start, recvAccm, input, BUFFER_SIZE)
    {
      assert input[..|input|] == input;
    }

    /** Decodes everything in the receive ring, wherever it wraps, and drains it, unless the octets do not
        fit the decode buffer. */
    method NewBytes(rbuf: RingBuffer) returns (overrun: bool)
      requires ValidReceive() && rbuf.Valid() && rbuf.buffer != decodeBuffer
      modifies this`decodeOffset, this`decodeFcs, this`decodeEscape, this`received, decodeBuffer, rbuf
      ensures ValidReceive() && rbuf.Valid()
      ensures overrun <==> !Fits(old(Dec()), recvAccm, old(rbuf.Contents()), BUFFER_SIZE)
      ensures !overrun ==> rbuf.Contents() == [] && old(received) <= received
      ensures !overrun ==>
        Decode(old(Dec()), recvAccm, old(rbuf.Contents())) == Decoded(Dec(), received[|old(received)|..])
    {
      overrun := DecodeRing(rbuf);
      if !overrun {
        var n := rbuf.Drain(rbuf.Len());
      }
    }

    /** The first `pos` octets of `input` are decoded, delivering `out`; they fit, and the rest decides
        whether all do. */
    ghost predicate Progress(start: Decoder, input: seq<bv8>, pos: nat, out: seq<seq<bv8>>)
      reads this, decodeBuffer
      requires pos <= |input| && ValidReceive()
    {
      && Decode(start, recvAccm, input[..pos]) == Decoded(Dec(), out)
      && (Fits(start, recvAccm, input, BUFFER_SIZE) <==> Fits(Dec(), recvAccm, input[pos..], BUFFER_SIZE))
    }

    lemma NextOctet(start: Decoder, input: seq<bv8>, pos: nat, out: seq<seq<bv8>>)
      requires pos < |input| && ValidReceive() && Progress(start, input, pos, out)
      ensures var step := DecodeOctet(Dec(), recvAccm, input[pos]);
              && Decode(start, recvAccm, input[..pos + 1]) == Decoded(step.decoder, out + step.delivered)
              && (Fits(start, recvAccm, input, BUFFER_SIZE) <==>
                    Fits(step.decoder, recvAccm, input[pos + 1..], BUFFER_SIZE))
              && (|step.decoder.frame| > BUFFER_SIZE ==> !Fits(start, recvAccm, input, BUFFER_SIZE))
    {
      assert input[pos..][1..] == input[pos + 1..] && input[..pos + 1] == input[..pos] + [input[pos]];
      assert input[pos..][0] == input[pos];
      assert |Dec().frame| <= BUFFER_SIZE;
      DecodeSnoc(start, recvAccm, input[..pos], input[pos]);
    }

    /** What was ever queued is exactly the encoding of the frames sent, in order. */
    ghost predicate ValidSend()
      reads this, queue, queue.Repr
    {
      && this !in queue.Repr && queue.Valid()
      && queue.wire == Wire(sent)
      && (!startFrameMarker && !wakeupSent ==> queue.Untouched())
    }

    /** Queues a frame, whole or not at all.  Without a start marker, the first frame for which there is a
        buffer to try is led by a flag, and no other is. */
    method Send(data: seq<bv8>) returns (ok: bool)
      requires ValidSend()
      modifies this`wakeupSent, this`sent, queue.Repr
      ensures ValidSend() && queue.written == old(queue.written)
      ensures var f := Frame(data, xmitAccm, startFrameMarker || !old(wakeupSent));
              && queue.chunks == AfterSend(old(queue.chunks), |data|, Encode(f))
              && (ok <==> |Encode(f)| <= old(queue.Room(|data|)))
              && sent == if ok then old(sent) + [f] else old(sent)
      ensures wakeupSent <==> old(wakeupSent) || (!startFrameMarker && Tried(old(queue.chunks), |data|))
    {
      ghost var f := Frame(data, xmitAccm, startFrameMarker || !wakeupSent);
      hide Encode, Wire, WriteQueue.Shape, WriteQueue.Room, Tried, AfterSend;
      WireSnoc(sent, f);
      var tried;
      ok, tried := queue.Enqueue(data, xmitAccm, startFrameMarker, !wakeupSent, Encode(f));
      wakeupSent := wakeupSent || (tried && !startFrameMarker);
      sent := if ok then sent + [f] else sent;
    }

    /** The write handler.  When it stops, everything queued has been written, provided that no empty
        buffer stands before one that is not. */
    method CanWriteData(accepted: nat) returns (more: bool)
      requires ValidSend()
      modifies queue.Repr
      ensures ValidSend() && old(queue.written) <= queue.written
      ensures |queue.written| == |old(queue.written)| + Min(accepted, old(queue.rings[0].LenNoWrap()))
      ensures Min(accepted, old(queue.rings[0].LenNoWrap())) <= |old(queue.chunks)[0]|
      ensures queue.chunks == AfterWrite(old(queue.chunks), Min(accepted, old(queue.rings[0].LenNoWrap())))
      ensures more <==> queue.chunks[0] != []
      ensures Gapless(old(queue.chunks)) ==> Gapless(queue.chunks) && (!more ==> queue.written == queue.wire)
    {
      hide Gapless, AfterWrite, Flatten;
      assert queue.Holds(queue.rings[0], queue.chunks[0]);
      ghost var was, n := queue.chunks, Min(accepted, queue.rings[0].LenNoWrap());
      more := queue.WriteOut(accepted);
      if Gapless(was) {
        WriteKeepsGapless(was, n);
        GaplessStops(was, n);
      }
      assert queue.written + [] == queue.written;
    }

    /** End to end: whatever part of the queue has been written, the receiver has been delivered a
        prefix of the payloads sent, and all of them once everything is written. */
    lemma DeliveredInOrder(recv: bv32)
      requires ValidSend()
      requires forall i :: 0 <= i < |sent| ==> Covers(sent[i].accm, recv)
      ensures Decode(IDLE, recv, queue.written).delivered <= Payloads(sent)
      ensures queue.written == queue.wire ==> Decode(IDLE, recv, queue.written) == Decoded(IDLE, Payloads(sent))
    {
      hide Decode, Wire, Payloads;
      var rest :| queue.wire == queue.written + rest;
      StreamRoundTrip(recv, sent);
      DecodeConcat(IDLE, recv, queue.written, rest);
    }
  }
}
