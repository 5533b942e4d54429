/** The multiplexer object of `gatmux.c`: the buffer on the main channel, the table of channel
buffers, and the drivers' write and feed loops.  Its methods are proved against `MuxStream`.
 */
module Mux {
  import opened MuxFrames
  import opened MuxStream
  import opened AdvancedFraming
  import opened MuxReading
  import opened RingBuffers
  import Basic = Gsm0710Basic
  import Advanced = Gsm0710Advanced
  import opened Wrappers

  class Multiplexer {
    const mode: Mode
    const frameSize: nat
    const buf: array<bv8>
    var bufUsed: nat
    var dlcs: seq<RingBuffer?>
    /** What was written to the main channel. */
    var raw: seq<bv8>
    /** What each channel buffer holds. */
    ghost var chs: Channels
    ghost var Repr: set<object>

    ghost predicate Holds(r: RingBuffer, c: seq<bv8>)
      reads r, r.buffer
    {
      r.Valid() && r.size == CHANNEL_BUFFER_SIZE && r.Contents() == c
    }

    /** A closed channel has no buffer; the buffers of open ones are distinct and hold `chs`. */
    ghost predicate Valid()
      reads this, Repr
    {
      && this in Repr && buf in Repr && buf.Length == MUX_BUFFER_SIZE && bufUsed <= MUX_BUFFER_SIZE
      && frameSize > 0 && |dlcs| == MAX_CHANNELS
      && (forall i :: 0 <= i < MAX_CHANNELS ==> (dlcs[i] == null <==> chs[i].None?))
      && (forall i :: 0 <= i < MAX_CHANNELS && dlcs[i] != null ==>
            dlcs[i] in Repr && dlcs[i].buffer in Repr && dlcs[i].buffer != buf && Holds(dlcs[i], chs[i].value))
      && (forall i, j :: 0 <= i < j < MAX_CHANNELS && dlcs[i] != null && dlcs[j] != null ==>
            dlcs[i] != dlcs[j] && dlcs[i].buffer != dlcs[j].buffer)
    }

    ghost function Kept(): seq<bv8>
      reads this, buf
      requires buf.Length == MUX_BUFFER_SIZE && bufUsed <= MUX_BUFFER_SIZE
    {
      buf[..bufUsed]
    }

    lemma RoomInChannels()
      requires Valid()
      ensures WithinRoom(chs)
    {
      forall i | 0 <= i < MAX_CHANNELS && chs[i].Some?
        ensures |chs[i].value| <= CHANNEL_BUFFER_SIZE
      {
        assert Holds(dlcs[i], chs[i].value);
      }
    }

    constructor (mode: Mode, frameSize: nat)
      requires frameSize > 0
      ensures Valid() && fresh(Repr)
      ensures this.mode == mode && this.frameSize == frameSize && raw == [] && Kept() == []
      ensures forall i :: 0 <= i < MAX_CHANNELS ==> chs[i] == None
    {
      this.mode, this.frameSize := mode, frameSize;
      buf := new bv8[MUX_BUFFER_SIZE];
      bufUsed, raw := 0, [];
      dlcs := seq(MAX_CHANNELS, _ => null);
      chs := seq(MAX_CHANNELS, _ => None);
      Repr := {this, buf};
    }

    /** Appends to the buffer of an open channel. */
    method Store(i: nat, data: seq<bv8>)
      requires Valid() && i < MAX_CHANNELS && dlcs[i] != null
      modifies this`chs, dlcs[i], dlcs[i].buffer
      ensures Valid() && |old(chs)[i].value| <= CHANNEL_BUFFER_SIZE
      ensures chs == old(chs)[i := Some(Bounded4096(old(chs)[i].value, data))]
    {
      var ring := dlcs[i];
      assert Holds(ring, chs[i].value);
      ghost var held := ring.Contents();
      var n := ring.Write(data);
      assert n == |data| ==> data[..n] == data;
      ghost var now := ring.Contents();
      assert now == Bounded4096(held, data);
      chs := chs[i := Some(now)];
      assert ring.Contents() == now;
    }

    method FeedDlcData(dlc: bv8, data: seq<bv8>)
      requires Valid()
      modifies Repr
      ensures Valid() && Repr == old(Repr) && WithinRoom(old(chs)) && chs == FeedDlc(old(chs), dlc, data)
      ensures dlcs == old(dlcs) && bufUsed == old(bufUsed) && raw == old(raw) && buf[..] == old(buf[..])
    {
      hide Holds, Bounded4096, WithinRoom;
      RoomInChannels();
      var i := Index(dlc);
      if i < 1 || i > MAX_CHANNELS {
        return;
      }
      if dlcs[i - 1] == null {
        return;
      }
      Store(i - 1, data);
    }

    /** Data frames on channels 1 to 63 go to the channel buffer. */
    method Packet(f: MuxFrame)
      requires Valid()
      modifies Repr
      ensures Valid() && Repr == old(Repr) && WithinRoom(old(chs)) && chs == Deliver(old(chs), f)
      ensures dlcs == old(dlcs) && bufUsed == old(bufUsed) && raw == old(raw) && buf[..] == old(buf[..])
    {
      RoomInChannels();
      if (f.control == DATA || f.control == DATA_ALT) && 1 <= Index(f.dlc) <= 63 {
        FeedDlcData(f.dlc, f.data);
      }
    }

    /** The next frame in the octets kept from `base` on.  The advanced option unstuffs it in place;
        what follows the frame is left as it was. */
    method TakeFrame(base: nat) returns (r: Next)
      requires Valid() && base <= bufUsed && !NextIn(mode, buf[base..bufUsed]).Fault?
      modifies buf
      ensures Valid() && r == NextIn(mode, old(buf[base..bufUsed]))
      ensures !r.Fault? && base + r.pos <= bufUsed && buf[base + r.pos..bufUsed] == old(buf[base + r.pos..bufUsed])
    {
      hide Basic.ScanFrom, Advanced.ScanFrom, Holds;
      ghost var s := buf[base..bufUsed];
      if mode.BasicMode? {
        var posn, found, dlc, control, start, size := Basic.ExtractFrame(buf, base, bufUsed - base);
        r := if found then NextFrame(posn, MuxFrame(dlc, control, buf[start..start + size])) else NoMore(posn);
      } else {
        var o := Advanced.ExtractFrame(buf, base, bufUsed - base);
        match o {
          case Found(pos, frame) => r := NextFrame(pos, frame);
          case NoFrame(pos) => r := NoMore(pos);
          case _ => r := Fault;
        }
        SameTail(s, base, r.pos);
      }
    }

    lemma SameTail(s: seq<bv8>, base: nat, pos: nat)
      requires base <= bufUsed <= buf.Length && |s| == bufUsed - base && pos <= |s|
      requires buf[base..bufUsed][pos..] == s[pos..]
      ensures buf[base + pos..bufUsed] == s[pos..]
    {
      ArraySlice(buf, base, bufUsed - base, pos, bufUsed - base);
    }

    /** `total` octets are used up and their frames delivered; `rest` is still to be fed. */
    ghost predicate Fed(all: Feeding, start: Channels, total: nat, rest: seq<bv8>, more: bool)
      reads this
    {
      && WithinRoom(start) && WithinRoom(chs)
      && if more then
           var f := Feed(mode, rest);
           !f.fault && all.used == total + f.used && DeliverAll(start, all.frames) == DeliverAll(chs, f.frames)
         else
           all.used == total && chs == DeliverAll(start, all.frames)
    }

    lemma FedStep(all: Feeding, start: Channels, total: nat, rest: seq<bv8>)
      requires Fed(all, start, total, rest, true)
      ensures match NextIn(mode, rest)
              case NoMore(p) => all.used == total + p && DeliverAll(start, all.frames) == chs
              case NextFrame(p, f) =>
                var g := Feed(mode, rest[p..]);
                && !g.fault && all.used == total + p + g.used
                && DeliverAll(start, all.frames) == DeliverAll(Deliver(chs, f), g.frames)
              case Fault => false
    {
      hide NextIn, Deliver, WithinRoom;
      match NextIn(mode, rest)
      case NoMore(p) =>
      case NextFrame(p, f) =>
        var g := Feed(mode, rest[p..]);
        assert ([f] + g.frames)[1..] == g.frames;
      case Fault =>
    }

    /** One turn of the feed loop. */
    method FeedNext(base: nat, ghost all: Feeding, ghost start: Channels) returns (more: bool, total: nat)
      requires Valid() && base <= bufUsed && Fed(all, start, base, buf[base..bufUsed], true)
      modifies Repr
      ensures Valid() && Repr == old(Repr) && dlcs == old(dlcs) && bufUsed == old(bufUsed) && raw == old(raw)
      ensures base <= total <= bufUsed && (more ==> base < total)
      ensures buf[total..bufUsed] == old(buf[total..bufUsed])
      ensures Fed(all, start, total, if more then buf[total..bufUsed] else [], more)
    {
      hide Feed, DeliverAll, NextIn, Holds, Deliver;
      ghost var rest := buf[base..bufUsed];
      FedStep(all, start, base, rest);
      var r := TakeFrame(base);
      total := base + r.pos;
      more := r.NextFrame?;
      assert buf[total..bufUsed] == rest[r.pos..];
      if more {
        ghost var tail := buf[total..bufUsed];
        Packet(r.frame);
        assert buf[total..bufUsed] == buf[..][total..bufUsed] == tail;
      }
    }

    /** Extracts and delivers every complete frame; returns how many octets were used up. */
    method FeedData() returns (total: nat)
      requires Valid() && Safe(mode, Kept())
      modifies Repr
      ensures Valid() && Repr == old(Repr) && WithinRoom(old(chs))
      ensures dlcs == old(dlcs) && bufUsed == old(bufUsed) && raw == old(raw)
      ensures var f := Feed(mode, old(Kept())); total == f.used && chs == DeliverAll(old(chs), f.frames)
      ensures total <= bufUsed && buf[total..bufUsed] == old(buf[total..bufUsed])
    {
      hide Feed, DeliverAll, NextIn, Fed, Holds, Safe;
      RoomInChannels();
      SafeFeed(mode, Kept());
      ghost var all, start := Feed(mode, Kept()), chs;
      total := 0;
      assert buf[0..bufUsed] == Kept();
      FedStart();
      var more := true;
      while more
        invariant Valid() && Repr == old(Repr) && dlcs == old(dlcs) && bufUsed == old(bufUsed) && raw == old(raw)
        invariant total <= bufUsed && buf[total..bufUsed] == old(buf[total..bufUsed])
        invariant Fed(all, start, total, if more then buf[total..bufUsed] else [], more)
        decreases more, bufUsed - total
      {
        more, total := FeedNext(total, all, start);
      }
      FedEnd(all, start, total);
    }

    lemma FedStart()
      requires Valid() && !Feed(mode, Kept()).fault && buf[0..bufUsed] == Kept() && WithinRoom(chs)
      ensures Fed(Feed(mode, Kept()), chs, 0, buf[0..bufUsed], true)
    {
    }

    lemma FedEnd(all: Feeding, start: Channels, total: nat)
      requires Fed(all, start, total, [], false)
      ensures WithinRoom(start) && all.used == total && chs == DeliverAll(start, all.frames)
    {
    }

    /** Appends what was read to the octets kept. */
    method Read(chunk: seq<bv8>)
      requires Valid() && |chunk| <= MUX_BUFFER_SIZE - bufUsed
      modifies this`bufUsed, buf
      ensures Valid() && Kept() == old(Kept()) + chunk
    {
      hide Holds;
      forall i | 0 <= i < |chunk| {
        buf[bufUsed + i] := chunk[i];
      }
      bufUsed := bufUsed + |chunk|;
    }

    /** Moves what is left to the beginning of the buffer. */
    method Compact(total: nat)
      requires Valid() && total <= bufUsed
      modifies this`bufUsed, buf
      ensures Valid() && Kept() == old(buf[total..bufUsed])
    {
      hide Holds;
      ghost var rest := buf[total..bufUsed];
      bufUsed := bufUsed - total;
      forall i | 0 <= i < bufUsed {
        buf[i] := buf[i + total];
      }
      assert buf[..bufUsed] == rest;
    }

    /** A read from the main channel, of no more octets than there is room for: every frame completed
        by it is delivered, and what is left is kept for the next read.  In the advanced option the
        octets must not take the scan out of defined behaviour, and what is kept of them does not.  A
        buffer that is full all the same ends reading: the method is not called again. */
    method ReceivedData(chunk: seq<bv8>) returns (goOn: bool)
      requires Valid() && |chunk| <= MUX_BUFFER_SIZE - bufUsed
      requires Safe(mode, Kept() + chunk)
      modifies Repr
      ensures Valid() && Repr == old(Repr) && dlcs == old(dlcs) && raw == old(raw) && WithinRoom(old(chs))
      ensures Safe(mode, Kept())
      ensures goOn <==> chunk == [] || !Full(Kept())
      ensures Receiver(Kept(), chs, false) == var r := Receiver(old(Kept()), old(chs), false);
                                              if chunk == [] then r else Receive(mode, r, chunk)
    {
      hide Feed, DeliverAll, Holds, Safe;
      RoomInChannels();
      ghost var all := Kept() + chunk;
      SafeFeed(mode, all);
      if chunk == [] {
        assert all == Kept();
        return true;
      }
      Read(chunk);
      ghost var used := Feed(mode, all).used;
      assert buf[used..bufUsed] == all[used..];
      var nread := FeedData();
      Compact(nread);
      goOn := bufUsed != MUX_BUFFER_SIZE;
    }

    /** One frame, built in a buffer of `FrameRoom` octets and written to the main channel. */
    method WriteFrame(frame: array<bv8>, dlc: bv8, data: seq<bv8>)
      requires frame.Length == FrameRoom(mode, frameSize) && |data| <= frameSize && frame !in Repr && Valid()
      modifies this`raw, frame
      ensures Valid() && raw == old(raw) + FrameOf(mode, Piece(dlc, data))
    {
      hide Basic.Frame, Advanced.Frame, Holds;
      var size;
      if mode.BasicMode? {
        size := Basic.FillFrame(frame, dlc, DATA, data);
      } else {
        size := Advanced.FillFrame(frame, dlc, DATA, data);
      }
      raw := raw + frame[..size];
    }

    /** Writes data for a channel, cut into frames of at most `frameSize` octets. */
    method Write(dlc: bv8, data: seq<bv8>)
      requires Valid()
      modifies this`raw
      ensures Valid() && raw == old(raw) + Wire(mode, Fragments(Piece(dlc, data), frameSize))
    {
      hide FrameOf, Holds, Wire;
      var frame := new bv8[FrameRoom(mode, frameSize)];
      var rest := data;
      ghost var all := Wire(mode, Fragments(Piece(dlc, data), frameSize));
      while rest != []
        invariant Valid() && frame !in Repr
        invariant raw + Wire(mode, Fragments(Piece(dlc, rest), frameSize)) == old(raw) + all
        decreases |rest|
      {
        var max := Min(|rest|, frameSize);
        FirstFragment(dlc, rest, max, raw);
        WriteFrame(frame, dlc, rest[..max]);
        rest := rest[max..];
      }
      NoFragment(dlc, raw);
    }

    lemma FirstFragment(dlc: bv8, rest: seq<bv8>, max: nat, sofar: seq<bv8>)
      requires frameSize > 0 && rest != [] && max == Min(|rest|, frameSize)
      ensures sofar + Wire(mode, Fragments(Piece(dlc, rest), frameSize))
           == sofar + FrameOf(mode, Piece(dlc, rest[..max])) + Wire(mode, Fragments(Piece(dlc, rest[max..]), frameSize))
    {
      hide FrameOf;
      var head, tail := Piece(dlc, rest[..max]), Piece(dlc, rest[max..]);
      if |rest| <= frameSize {
        assert rest[..max] == rest && rest[max..] == [];
        assert [head] + Fragments(tail, frameSize) == [head];
      }
      assert ([head] + Fragments(tail, frameSize))[1..] == Fragments(tail, frameSize);
    }

    lemma NoFragment(dlc: bv8, sofar: seq<bv8>)
      requires frameSize > 0
      ensures sofar + Wire(mode, Fragments(Piece(dlc, []), frameSize)) == sofar
    {
    }

    /** Opens the first free channel, if there is one. */
    method CreateChannel() returns (i: nat)
      requires Valid()
      modifies this`dlcs, this`chs, this`Repr
      ensures Valid() && fresh(Repr - old(Repr))
      ensures forall j :: 0 <= j < i && j < MAX_CHANNELS ==> old(chs)[j].Some?
      ensures i == MAX_CHANNELS ==> chs == old(chs)
      ensures i < MAX_CHANNELS ==> old(chs)[i].None? && chs == old(chs)[i := Some([])]
      ensures i <= MAX_CHANNELS
    {
      hide Holds;
      i := 0;
      while i < MAX_CHANNELS && dlcs[i] != null
        invariant i <= MAX_CHANNELS
        invariant forall j :: 0 <= j < i ==> dlcs[j] != null
      {
        i := i + 1;
      }
      if i == MAX_CHANNELS {
        return;
      }
      var ring := new RingBuffer(CHANNEL_BUFFER_SIZE);
      ChannelSize(ring);
      dlcs, chs := dlcs[i := ring], chs[i := Some([])];
      Repr := Repr + {ring, ring.buffer};
      EmptyRing(ring);
    }

    lemma ChannelSize(ring: RingBuffer)
      requires ring.Valid() && CHANNEL_BUFFER_SIZE <= ring.size < 2 * CHANNEL_BUFFER_SIZE
      ensures ring.size == CHANNEL_BUFFER_SIZE
    {
      assert PowerOfTwo(16) && PowerOfTwo(256);
      if CHANNEL_BUFFER_SIZE < ring.size {
        NextPower(CHANNEL_BUFFER_SIZE, ring.size);
      }
    }

    lemma EmptyRing(ring: RingBuffer)
      requires ring.Valid() && ring.size == CHANNEL_BUFFER_SIZE && ring.inp == ring.outp
      ensures Holds(ring, [])
    {
    }
  }
}
