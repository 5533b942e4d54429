/** `struct _GAtPPP`: the object that owns both automata and receives their signals. Each method is
proved to do what the corresponding function of module PppLink says, and each external event to keep
the invariant of module PppLinkInvariants.
 */
module Ppp {
  import opened ControlProtocol
  import opened ControlProtocolMachine
  import opened PppLink
  import opened PppLinkInvariants
  import opened PppLinkRuns
  import opened Wrappers

  class Connection {
    var phase: Phase
    const lcp: Machine
    const ipcp: Machine
    var net: bool
    var interfaces: int
    var chap: bool
    var pap: Option<Pap>
    var staPending: bool
    var idles: nat
    var notified: nat
    var reason: Reason
    var traffic: Traffic
    var wire: seq<PppLink.Frame>

    ghost predicate Valid() {
      lcp != ipcp
    }

    ghost function Value(): Link
      reads this, lcp, ipcp
    {
      Link(phase, lcp.Value(), ipcp.Value(), net, interfaces, chap, pap, staPending, idles, notified, reason,
           traffic, wire)
    }

    /** The object between external events, once it has been opened or listens: the phase mirrors the
        automata, an interface exists exactly while IPCP is Opened, and the disconnect function has
        been called, or is about to be, once and in phase Dead only. */
    ghost predicate Running()
      reads this, lcp, ipcp
    {
      Valid() && Settled(Value())
    }

    constructor (server: bool, lcpOptions: seq<bv8>, ipcpOptions: seq<bv8>)
      ensures Valid() && fresh(lcp) && fresh(ipcp)
      ensures Value() == NewLink(server, lcpOptions, ipcpOptions)
    {
      phase, net, interfaces, chap, pap, staPending := Dead, false, 0, false, None, false;
      idles, notified, reason, traffic, wire := 0, 0, Unknown, Traffic(0, 0), [];
      lcp := new Machine(server, 0, lcpOptions);
      ipcp := new Machine(false, 100, ipcpOptions);
    }

    method EnterPhase(p: Phase)
      requires Valid()
      modifies this`phase, this`idles
      ensures Value() == PppLink.EnterPhase(old(Value()), p)
    {
      phase := p;
      if p == Dead && !staPending {
        idles := idles + 1;
      }
    }

    /** The packets of one event reach the framing layer; a Terminate-Ack of LCP that is queued asks
        for a notice when it has been written. */
    method Transmit(which: Which, sent: seq<Sent>, env: Env)
      modifies this`wire, this`staPending
      ensures wire == old(wire) + FramesOf(which, sent)
      ensures staPending == (old(staPending) || (which == LCP && env.sendOk && AcksTermination(sent)))
    {
      var k := 0;
      while k < |sent|
        invariant 0 <= k <= |sent|
        invariant wire == old(wire) + FramesOf(which, sent[..k])
        invariant staPending == (old(staPending) || (which == LCP && env.sendOk && AcksTermination(sent[..k])))
      {
        var frame := if which == LCP then LcpFrame(sent[k]) else IpcpFrame(sent[k]);
        ghost var before, after := sent[..k], sent[..k + 1];
        assert after == before + [sent[k]];
        assert FramesOf(which, after) == FramesOf(which, before) + [frame];
        AcksExtend(before, sent[k]);
        wire := wire + [frame];
        if which == LCP && sent[k].TerminateAck? && env.sendOk {
          staPending := true;
        }
        k := k + 1;
      }
      assert sent[..k] == sent;
    }

    /** An event up to its signal. */
    method Move(which: Which, e: Event, p: Packet, env: Env) returns (layer: Layer)
      requires Valid()
      modifies this`wire, this`staPending, lcp, ipcp
      ensures Value() == Moved(old(Value()), which, Fire(CpOf(old(Value()), which), e, p), env)
      ensures layer == Fire(CpOf(old(Value()), which), e, p).layer
    {
      hide Fire, FramesOf, AcksTermination;
      var sent;
      if which == LCP {
        sent, layer := lcp.GenerateEvent(e, p);
      } else {
        sent, layer := ipcp.GenerateEvent(e, p);
      }
      Transmit(which, sent, env);
    }

    /** `pppcp_generate_event`, signals included. */
    method Generate(which: Which, e: Event, p: Packet, env: Env)
      requires Valid()
      modifies this, lcp, ipcp
      ensures Value() == PppLink.Generate(old(Value()), which, e, p, env)
      decreases Depth(Value(), which, e), 0
    {
      hide Fire, FramesOf, AcksTermination, PppLink.EnterPhase;
      hide PppLink.LcpUpNotify, PppLink.LcpDownNotify, PppLink.IpcpUpNotify, PppLink.IpcpFinishedNotify;
      SignalsGoDown(Value(), which, e, p);
      var layer := Move(which, e, p, env);
      if which == LCP {
        match layer {
          case LayerUp => LcpUpNotify(env);
          case LayerDown =>
            lcp.localOptions := env.lcpOptions;
            LcpDownNotify(env);
          case LayerFinished => EnterPhase(Dead);
          case _ =>
        }
      } else {
        match layer {
          case LayerUp => IpcpUpNotify(env);
          case LayerDown =>
            ipcp.localOptions := env.ipcpOptions;
            IpcpDownNotify();
          case LayerFinished => IpcpFinishedNotify(env);
          case _ =>
        }
      }
    }

    method Raise(which: Which, e: Event, env: Env)
      requires Valid()
      modifies this, lcp, ipcp
      ensures Value() == PppLink.Raise(old(Value()), which, e, env)
      decreases Depth(Value(), which, e), 1
    {
      Generate(which, e, NO_PACKET, env);
    }

    method AuthNotify(success: bool, env: Env)
      requires Valid()
      modifies this, lcp, ipcp
      ensures Value() == PppLink.AuthNotify(old(Value()), success, env)
      decreases 3, 0
    {
      hide PppLink.Raise;
      if !success {
        reason := AuthFail;
        Raise(LCP, Close, env);
      } else {
        EnterPhase(Network);
        Raise(IPCP, Event.Open, env);
        Raise(IPCP, Up, env);
      }
    }

    method LcpUpNotify(env: Env)
      requires Valid()
      modifies this, lcp, ipcp
      ensures Value() == PppLink.LcpUpNotify(old(Value()), env)
      decreases 4, 0
    {
      hide PppLink.AuthNotify;
      if chap {
        EnterPhase(Authentication);
      } else if pap.Some? {
        if env.papStarts {
          wire, pap := wire + [PapRequest], Some(Pap(pap.value.timers + 1, true, 0));
          EnterPhase(Authentication);
        } else {
          AuthNotify(false, env);
        }
      } else {
        AuthNotify(true, env);
      }
    }

    method LcpDownNotify(env: Env)
      requires Valid()
      modifies this, lcp, ipcp
      ensures Value() == PppLink.LcpDownNotify(old(Value()), env)
      decreases 1, 0
    {
      hide PppLink.Raise;
      if phase == Network || phase == LinkUp {
        Raise(IPCP, Down, env);
      }
      if reason == Unknown {
        reason := PeerClosed;
      }
      EnterPhase(Termination);
    }

    method IpcpUpNotify(env: Env)
      requires Valid()
      modifies this, lcp, ipcp
      ensures Value() == PppLink.IpcpUpNotify(old(Value()), env)
      decreases 3, 0
    {
      hide PppLink.Raise;
      net := env.netCreated;
      if !net {
        reason := NetFail;
        Raise(LCP, Close, env);
      } else {
        interfaces := interfaces + 1;
        EnterPhase(LinkUp);
      }
    }

    method IpcpDownNotify()
      modifies this`net, this`interfaces
      ensures Value() == PppLink.IpcpDownNotify(old(Value()))
      ensures !net && (old(interfaces) == (if old(net) then 1 else 0) ==> interfaces == 0)
    {
      if net {
        net, interfaces := false, interfaces - 1;
      }
    }

    method IpcpFinishedNotify(env: Env)
      requires Valid()
      modifies this, lcp, ipcp
      ensures Value() == PppLink.IpcpFinishedNotify(old(Value()), env)
      decreases if ipcp.state == Starting then 5 else 3, 0
    {
      hide PppLink.Raise;
      if phase == Network {
        reason := IpcpFail;
        Raise(IPCP, Close, env);
        Raise(LCP, Close, env);
      }
    }

    //
    // External events.
    //

    /** The event behind an LCP packet; an accepted request may set up authentication. */
    method InterpretLcp(packet: Packet, j: Judgement) returns (e: Option<Event>)
      requires Valid()
      modifies this`chap, this`pap, lcp
      ensures var s := Stimulus.Receive(LCP_CODES, packet, j.verdict, j.options);
        && (lcp.Value(), e) == Cause(old(lcp.Value()), s)
        && Value() == SetAuth(old(Value()), s, j).(lcp := lcp.Value())
    {
      hide Classify;
      e := lcp.Interpret(LCP_CODES, packet, j.verdict, j.options);
      if e == Some(RcrPlus) {
        chap, pap := j.chap.UnwrapOr(chap), NewPap(pap, j.pap);
      }
    }

    /** A control packet for one of the automata. */
    method ProcessPacket(which: Which, length: nat, packet: Packet, j: Judgement, env: Env)
      requires Valid()
      modifies this, lcp, ipcp
      ensures Value() == PppLink.ProcessPacket(old(Value()), which, length, packet, j, env)
    {
      hide Classify, PppLink.Generate;
      if length < 4 {
        return;
      }
      var e;
      if which == LCP {
        e := InterpretLcp(packet, j);
      } else {
        e := ipcp.Interpret(IPCP_CODES, packet, j.verdict, j.options);
      }
      if e.Some? {
        Generate(which, e.value, packet, env);
      }
    }

    method SendProtocolReject()
      modifies this`wire
      ensures Value() == PppLink.SendProtocolReject(old(Value()))
    {
      if lcp.state == Opened {
        wire := wire + [ProtocolReject];
      }
    }

    /** An IP packet for the interface; none is there when `net` is unset. */
    method ProcessIp(length: nat)
      modifies this`traffic
      ensures Value() == PppLink.ProcessIp(old(Value()), length)
    {
      if length >= 4 {
        if net {
          traffic := traffic.(delivered := traffic.delivered + 1);
        } else {
          traffic := traffic.(strayed := traffic.strayed + 1);
        }
      }
    }

    /** The dispatch of a received frame. */
    method Dispatch(protocol: nat, length: nat, packet: Packet, j: Judgement, env: Env)
      requires Valid()
      modifies this, lcp, ipcp
      ensures Value() == ReceiveFrame(old(Value()), protocol, length, packet, j, env)
    {
      hide PppLink.ProcessPacket, PppLink.AuthNotify, PppLink.ProcessIp;
      if DropPacket(phase, protocol) {
        return;
      }
      if protocol == PPP_IP_PROTO {
        ProcessIp(length);
      } else if protocol == LCP_PROTOCOL {
        ProcessPacket(LCP, length, packet, j, env);
      } else if protocol == IPCP_PROTO {
        ProcessPacket(IPCP, length, packet, j, env);
      } else if protocol == PAP_PROTOCOL && pap.Some? {
        if length >= 4 && (packet.code == 2 || packet.code == 3) {
          pap := Some(Replied(pap.value));
          AuthNotify(packet.code == 2, env);
        }
      } else if protocol == CHAP_PROTOCOL && chap {
        if length >= 4 {
          if packet.code == 1 {
            wire := wire + [ChapResponse];
          } else if packet.code == 3 || packet.code == 4 {
            AuthNotify(packet.code == 3, env);
          }
        }
      } else {
        SendProtocolReject();
      }
    }

    /** A received frame. An IP packet finds its interface unless IPCP has left Opened. */
    method Receive(protocol: nat, length: nat, packet: Packet, j: Judgement, env: Env)
      requires Running()
      modifies this, lcp, ipcp
      ensures Value() == Step(old(Value()), PppLink.Happening.Frame(protocol, length, packet, j), env)
      ensures Running()
      ensures traffic.strayed != old(traffic.strayed) <==>
        protocol == PPP_IP_PROTO && length >= 4 && old(phase) == LinkUp && old(ipcp.state) != Opened
      ensures old(phase) == Dead ==> Value() == old(Value())
    {
      hide ReceiveFrame, Settled;
      ghost var was, h := Value(), PppLink.Happening.Frame(protocol, length, packet, j);
      StepSettled(was, h, env);
      StraysIff(was, h, env);
      DeadDrops(was, protocol, length, packet, j, env);
      Dispatch(protocol, length, packet, j, env);
    }

    method Expire(which: Which, timer: Stimulus, env: Env)
      requires Valid() && (timer.ConfigExpires? || timer.TerminateExpires?)
      modifies this, lcp, ipcp
      ensures Value() == Stimulate(old(Value()), which, timer, env)
    {
      hide PppLink.Generate;
      var machine := if which == LCP then lcp else ipcp;
      var counter;
      if timer.ConfigExpires? {
        machine.configTimer := 0;
        counter := machine.configCounter;
      } else {
        machine.terminateTimer := 0;
        counter := machine.terminateCounter;
      }
      Generate(which, if counter > 0 then TimeoutPlus else TimeoutMinus, NO_PACKET, env);
    }

    /** A restart timer of one of the automata that is armed expires: the link is not dead. */
    method Timeout(which: Which, timer: Stimulus, env: Env)
      requires Running() && CanHappen(Value(), Expires(which, timer))
      modifies this, lcp, ipcp
      ensures Value() == Step(old(Value()), Expires(which, timer), env)
      ensures Running() && old(phase) != Dead
    {
      hide Stimulate, Settled, Step;
      StepSettled(Value(), Expires(which, timer), env);
      ExpiryMeansWaiting(Value(), which, timer);
      ExpiryStep(Value(), which, timer, env);
      Expire(which, timer, env);
    }

    method RetryPap(env: Env)
      requires Valid() && pap.Some? && pap.value.timers > 0
      modifies this, lcp, ipcp
      ensures Value() == PapExpires(old(Value()), env)
    {
      hide PppLink.AuthNotify;
      var retries := pap.value.retries + 1;
      if retries >= PAP_MAX_RETRY {
        pap := Some(Pap(pap.value.timers - 1, false, retries));
        AuthNotify(false, env);
      } else {
        pap, wire := Some(pap.value.(retries := retries)), wire + [PapRequest];
      }
    }

    /** A retry timer of PAP that is running expires: a dead link stays dead. */
    method AuthTimeout(env: Env)
      requires Running() && CanHappen(Value(), PapTimeout)
      modifies this, lcp, ipcp
      ensures Value() == Step(old(Value()), PapTimeout, env)
      ensures Running() && (old(phase) == Dead ==> phase == Dead)
    {
      hide PapExpires, Settled, Step;
      ghost var was := Value();
      StepSettled(was, PapTimeout, env);
      PapStep(was, env);
      RetryPap(env);
      if was.phase == Dead { DeadStep(was, PapTimeout, env); }
    }

    method Shutdown(env: Env)
      requires Running()
      modifies this, lcp, ipcp
      ensures Value() == Step(old(Value()), PppLink.Happening.Shutdown, env)
      ensures Running()
    {
      hide PppLink.Raise, Settled;
      StepSettled(Value(), PppLink.Happening.Shutdown, env);
      if phase != Dead && phase != Termination {
        reason := LocalClose;
        Raise(LCP, Close, env);
      }
    }

    /** The line is gone. The link is dead now, unless LCP was on its way down already. */
    method IoDisconnect(env: Env)
      requires Running()
      modifies this, lcp, ipcp
      ensures Value() == Step(old(Value()), Disconnect, env)
      ensures Running()
      ensures phase == Dead <==>
        old(phase) == Dead || (old(lcp.state) != Initial && old(lcp.state) != Closed && old(lcp.state) != Closing)
    {
      hide PppLink.Raise, Settled;
      DisconnectSettled(Value(), env);
      if phase != Dead {
        reason := LinkDead;
        Raise(LCP, Down, env);
        Raise(LCP, Close, env);
      }
    }

    /** The queued Terminate-Ack has been written: on a dead link that is the one call of the
        disconnect function, and nothing is left pending. */
    method StaSent(env: Env)
      requires Running() && CanHappen(Value(), WriteDone)
      modifies this`staPending, this`notified
      ensures Value() == Step(old(Value()), WriteDone, env)
      ensures Running() && !staPending
      ensures phase == Dead ==> old(notified) == 0 && notified == 1 && idles == 0
      ensures phase != Dead ==> notified == 0
    {
      staPending := false;
      if phase == Dead {
        notified := notified + 1;
      }
    }

    /** The idle call: it finds the link dead, and is the one call of the disconnect function. */
    method PppDead(env: Env)
      requires Running() && CanHappen(Value(), Idle)
      modifies this`idles, this`notified
      ensures Value() == Step(old(Value()), Idle, env)
      ensures Running() && phase == Dead
      ensures old(notified) == 0 && notified == 1 && idles == 0 && !staPending
    {
      idles, notified := idles - 1, notified + 1;
    }

    /** `g_at_ppp_open`, on a new client. */
    method Open(ghost lcpOptions: seq<bv8>, ghost ipcpOptions: seq<bv8>, env: Env)
      requires Valid() && Value() == NewLink(false, lcpOptions, ipcpOptions)
      modifies this, lcp, ipcp
      ensures Value() == Start(false, lcpOptions, ipcpOptions, env)
      ensures Running()
    {
      hide PppLink.Raise, Settled;
      StartSettled(false, lcpOptions, ipcpOptions, env);
      Raise(LCP, Event.Up, env);
      Raise(LCP, Event.Open, env);
      EnterPhase(Establishment);
    }

    /** `g_at_ppp_listen`, on a new server. */
    method Listen(ghost lcpOptions: seq<bv8>, ghost ipcpOptions: seq<bv8>, env: Env)
      requires Valid() && Value() == NewLink(true, lcpOptions, ipcpOptions)
      modifies this`phase, this`idles
      ensures Value() == Start(true, lcpOptions, ipcpOptions, env)
      ensures Running()
    {
      hide Settled;
      StartSettled(true, lcpOptions, ipcpOptions, env);
      EnterPhase(Establishment);
    }
  }

  lemma ExpiryStep(l: Link, which: Which, timer: Stimulus, env: Env)
    ensures Step(l, Expires(which, timer), env) == Stimulate(l, which, timer, env)
  {
    hide Stimulate;
  }

  lemma PapStep(l: Link, env: Env)
    requires l.pap.Some?
    ensures Step(l, PapTimeout, env) == PapExpires(l, env)
  {
    hide PapExpires;
  }

  lemma DeadDrops(l: Link, protocol: nat, length: nat, packet: Packet, j: Judgement, env: Env)
    ensures l.phase == Dead ==> ReceiveFrame(l, protocol, length, packet, j, env) == l
  {
  }

  lemma AcksExtend(sent: seq<Sent>, s: Sent)
    ensures AcksTermination(sent + [s]) <==> AcksTermination(sent) || s.TerminateAck?
  {
    var more := sent + [s];
    assert more[|sent|] == s;
    if AcksTermination(sent) {
      var k :| 0 <= k < |sent| && sent[k].TerminateAck?;
      assert more[k] == sent[k];
    }
  }
}
