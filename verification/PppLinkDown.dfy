/** A layer that goes down while the link lives on: when phase LinkUp is left without IPCP Opened, and
what becomes of the request that goes out as the layer goes down.
 */
module PppLinkDown {
  import opened Wrappers
  import opened ControlProtocol
  import opened PppLink
  import opened PppLinkInvariants
  import opened PppLinkRuns

  function ProtocolOf(which: Which): nat {
    if which == LCP then LCP_PROTOCOL else IPCP_PROTO
  }

  function CodesOf(which: Which): set<nat> {
    if which == LCP then LCP_CODES else IPCP_CODES
  }

  function ResetOptions(which: Which, env: Env): seq<bv8> {
    if which == LCP then env.lcpOptions else env.ipcpOptions
  }

  /** The stimulus a control frame is to its automaton. */
  function StimulusOf(which: Which, packet: Packet, j: Judgement): Stimulus {
    Stimulus.Receive(CodesOf(which), packet, j.verdict, j.options)
  }

  //
  // Phase LinkUp without IPCP.
  //

  /** The packets that take an Opened automaton out of Opened. */
  predicate LeavesOpened(cp: Cp, packet: Packet) {
    || packet.code == 1 || packet.code == 5 || packet.code == 6 || packet.code == 7
    || ((packet.code == 3 || packet.code == 4) && packet.id == cp.configId)
    || (packet.code == 2 && packet.id == cp.configId && packet.data == cp.localOptions)
  }

  lemma TableLeavesOpened(e: Event)
    requires e != Up && !IsTimeout(e)
    ensures var t := Transition(e, Opened);
      && t.Go?
      && (t.next != Opened <==> e != Open && e != Ruc && e != RxjPlus && e != Rxr)
      && (t.layer == NoSignal || t.layer == LayerDown)
  {
  }

  lemma IpcpLeavesOpened(cp: Cp, packet: Packet, j: Judgement)
    requires cp.state == Opened
    ensures Next(cp, StimulusOf(IPCP, packet, j)).cp.state != Opened <==> LeavesOpened(cp, packet)
    ensures var f := Next(cp, StimulusOf(IPCP, packet, j));
      f.layer == if f.cp.state == Opened then NoSignal else LayerDown
  {
    hide Transition, TimersAfter, Transmitted, NewConfigId, NewTerminateId, RefusalsAfter;
    var s := StimulusOf(IPCP, packet, j);
    ClassifyKeeps(cp, s);
    PacketRaises(cp, s);
    var (c, e) := Cause(cp, s);
    if e.Some? {
      TableLeavesOpened(e.value);
      TableAlternates(e.value, Opened);
    }
  }

  lemma IpcpFrameInLinkUp(l: Link, length: nat, packet: Packet, j: Judgement, env: Env)
    requires Settled(l) && l.phase == LinkUp && l.ipcp.state == Opened && length >= 4
    ensures var m := ProcessPacket(l, IPCP, length, packet, j, env);
      m.phase == LinkUp && m.ipcp.state == Next(l.ipcp, StimulusOf(IPCP, packet, j)).cp.state
  {
    hide Fire, Cause, FramesOf, AcksTermination;
    IpcpLeavesOpened(l.ipcp, packet, j);
    CauseReady(l.ipcp, StimulusOf(IPCP, packet, j));
  }

  lemma LcpFrameInLinkUp(l: Link, s: Stimulus, env: Env)
    requires Settled(l) && l.phase == LinkUp && l.ipcp.state == Opened && s.Receive?
    ensures var m := Stimulate(l, LCP, s, env); m.phase == LinkUp ==> m.ipcp.state == Opened
  {
    hide Transition, TimersAfter, Transmitted, NewConfigId, NewTerminateId, RefusalsAfter, FramesOf, AcksTermination;
    hide Cause, LcpUpNotify, LcpDownNotify, Inv, Ready;
    CauseReady(l.lcp, s);
    PacketRaises(l.lcp, s);
    var (c, e) := Cause(l.lcp, s);
    if e.Some? {
      ReceiveIsNoTimeout(l.lcp, s);
      TableLeavesOpened(e.value);
      ReadyFire(c, e.value, s.packet);
      var f := Fire(c, e.value, s.packet);
      var m := Moved(l.(lcp := c), LCP, f, env);
      if f.layer == LayerDown {
        TableAlternates(e.value, Opened);
        OptionsKeepInv(f.cp, env.lcpOptions);
        LcpGoesDown(m.(lcp := m.lcp.(localOptions := env.lcpOptions)), env);
      }
    }
  }

  lemma ReceiveIsNoTimeout(cp: Cp, s: Stimulus)
    requires s.Receive? && Cause(cp, s).1.Some?
    ensures !IsTimeout(Cause(cp, s).1.value)
  {
    hide Classify;
    ClassifyKeeps(cp, s);
  }

  /** Phase LinkUp is kept while IPCP leaves Opened exactly on an IPCP packet, long enough, that is a
      Configure-Request, a Terminate-Request, a Terminate-Ack or a Code-Reject, a Nak or Reject with
      the current identifier, or an acknowledgement with the current identifier and options. Nothing
      else that can happen to the link does it. */
  lemma LinkUpWithoutIpcp(l: Link, h: Happening, env: Env)
    requires Settled(l) && CanHappen(l, h) && l.phase == LinkUp && l.ipcp.state == Opened
    ensures var m := Step(l, h, env);
      m.phase == LinkUp && m.ipcp.state != Opened <==>
      h.Frame? && h.protocol == IPCP_PROTO && h.length >= 4 && LeavesOpened(l.ipcp, h.packet)
  {
    hide ProcessPacket, AuthNotify, Raise, Stimulate, Inv, LeavesOpened, Cause;
    match h {
      case Frame(protocol, length, packet, j) => FrameInLinkUp(l, protocol, length, packet, j, env);
      case Expires(which, timer) => ExpiryMeansWaiting(l, which, timer);
      case PapTimeout => Authenticated(l.(pap := Some(GivenUp(l.pap.value))), false, env);
      case Shutdown => LcpCloses(l.(reason := LocalClose), env);
      case Disconnect => DisconnectSettled(l, env);
      case _ =>
    }
  }

  lemma FrameInLinkUp(l: Link, protocol: nat, length: nat, packet: Packet, j: Judgement, env: Env)
    requires Settled(l) && l.phase == LinkUp && l.ipcp.state == Opened
    ensures var m := ReceiveFrame(l, protocol, length, packet, j, env);
      m.phase == LinkUp && m.ipcp.state != Opened <==>
      protocol == IPCP_PROTO && length >= 4 && LeavesOpened(l.ipcp, packet)
  {
    hide AuthNotify, Stimulate, Inv, LeavesOpened, Cause, Next;
    if protocol == LCP_PROTOCOL && length >= 4 {
      var s := StimulusOf(LCP, packet, j);
      LcpFrameInLinkUp(SetAuth(l, s, j), s, env);
    } else if protocol == IPCP_PROTO && length >= 4 {
      IpcpFrameInLinkUp(l, length, packet, j, env);
      IpcpLeavesOpened(l.ipcp, packet, j);
    } else if protocol == PAP_PROTOCOL && l.pap.Some? {
      Authenticated(l.(pap := Some(Replied(l.pap.value))), packet.code == 2, env);
    } else if protocol == CHAP_PROTOCOL {
      Authenticated(l, packet.code == 3, env);
    }
  }

  //
  // The request that goes out as a layer goes down.
  //

  /** The receipt of a request, of a reply, or of a Terminate-Ack. */
  predicate AsksAgain(e: Event) {
    e == RcrPlus || e == RcrMinus || e == Rca || e == Rcn || e == Rta
  }

  /** These are the events on which an Opened automaton sends a Configure-Request. */
  lemma AsksAgainIff(e: Event)
    ensures AsksAgain(e) <==> Transition(e, Opened).Go? && SCR in Transition(e, Opened).actions
  {
  }

  lemma TableAsksAgain(e: Event)
    requires AsksAgain(e)
    ensures var t := Transition(e, Opened); t.layer == LayerDown && t.next == if e == RcrPlus then AckSent else ReqSent
    ensures IRC !in Transition(e, Opened).actions && ZRC !in Transition(e, Opened).actions
  {
  }

  lemma DownSendsOptions(cp: Cp, e: Event, p: Packet)
    requires cp.state == Opened && cp.timers.config.counter == MAX_CONFIGURE && AsksAgain(e)
    ensures var f := Fire(cp, e, p);
      && f.layer == LayerDown
      && f.cp.state == (if e == RcrPlus then AckSent else ReqSent)
      && f.cp.configId == cp.configId + 1
      && f.cp.localOptions == cp.localOptions
      && |f.sent| > 0 && f.sent[0] == ConfigureRequest(cp.configId + 1, cp.localOptions)
  {
    hide Transition, TimersAfter, NewTerminateId, RefusalsAfter, AsksAgain;
    AsksAgainIff(e);
    TableAsksAgain(e);
  }

  /** The event a frame raises in an automaton, and the automaton as the event finds it. */
  function Raised(l: Link, which: Which, packet: Packet, j: Judgement): (Cp, Option<Event>) {
    Cause(CpOf(l, which), StimulusOf(which, packet, j))
  }

  /** A frame that makes the Opened automaton `which` ask again. */
  predicate GoesDownAsking(l: Link, which: Which, length: nat, packet: Packet, j: Judgement) {
    && Settled(l) && CpOf(l, which).state == Opened && length >= 4
    && Raised(l, which, packet, j).1.Some? && AsksAgain(Raised(l, which, packet, j).1.value)
  }

  function AfterFrame(l: Link, which: Which, length: nat, packet: Packet, j: Judgement, env: Env): Link {
    Step(l, Frame(ProtocolOf(which), length, packet, j), env)
  }

  /** What such a frame leaves behind: the request carries the options that were in force, and the
      options the layer returns to are in force now. */
  lemma ResetAfterRequest(l: Link, which: Which, length: nat, packet: Packet, j: Judgement, env: Env)
    requires GoesDownAsking(l, which, length, packet, j)
    ensures var m := AfterFrame(l, which, length, packet, j, env);
      var (c, e) := Raised(l, which, packet, j);
      && CpOf(m, which).state == (if e == Some(RcrPlus) then AckSent else ReqSent)
      && CpOf(m, which).configId == CpOf(l, which).configId + 1
      && CpOf(m, which).localOptions == ResetOptions(which, env)
      && |m.wire| > |l.wire|
      && m.wire[|l.wire|] == FramesOf(which, [ConfigureRequest(CpOf(l, which).configId + 1, c.localOptions)])[0]
      && (if which == LCP then m.phase == Termination else NetPhase(m.phase))
  {
    hide Cause, AsksAgain, Fire, FramesOf, AfterFrame, Inv, Settled;
    OpenedWhere(l, which);
    ReceiveKeeps(CpOf(l, which), StimulusOf(which, packet, j));
    var (c, e) := Raised(l, which, packet, j);
    DownSendsOptions(c, e.value, packet);
    FrameResets(l, which, length, packet, j, env);
    FirstFrame(which, Fire(c, e.value, packet).sent, l.wire, AfterFrame(l, which, length, packet, j, env).wire);
  }

  /** The same by the automaton's own step. */
  lemma FrameResets(l: Link, which: Which, length: nat, packet: Packet, j: Judgement, env: Env)
    requires length >= 4 && if which == LCP then l.phase != Dead else NetPhase(l.phase)
    requires var (c, e) := Raised(l, which, packet, j); e.Some? && Fire(c, e.value, packet).layer == LayerDown
    ensures var (c, e) := Raised(l, which, packet, j);
      var f := Fire(c, e.value, packet);
      var m := AfterFrame(l, which, length, packet, j, env);
      && CpOf(m, which) == f.cp.(localOptions := ResetOptions(which, env))
      && l.wire + FramesOf(which, f.sent) <= m.wire
      && m.phase == if which == LCP then Termination else l.phase
  {
    hide Cause, Fire, FramesOf, AfterFrame, Stimulate, SetAuth;
    var s := StimulusOf(which, packet, j);
    FrameIsStimulus(l, which, length, packet, j, env);
    AuthKeeps(l, s, j);
    Resets(if which == LCP then SetAuth(l, s, j) else l, which, s, env);
  }

  /** The options are replaced after the packets of the event have gone out. */
  lemma Resets(l: Link, which: Which, s: Stimulus, env: Env)
    requires s.Receive? && Cause(CpOf(l, which), s).1.Some?
    requires var (c, e) := Cause(CpOf(l, which), s); Fire(c, e.value, s.packet).layer == LayerDown
    ensures var (c, e) := Cause(CpOf(l, which), s);
      var f := Fire(c, e.value, s.packet);
      var m := Stimulate(l, which, s, env);
      && CpOf(m, which) == f.cp.(localOptions := ResetOptions(which, env))
      && l.wire + FramesOf(which, f.sent) <= m.wire
      && m.phase == if which == LCP then Termination else l.phase
  {
    hide Cause, Fire, FramesOf, Stimulate;
    if which == LCP { LcpResets(l, s, env); } else { IpcpResets(l, s, env); }
  }

  lemma OpenedWhere(l: Link, which: Which)
    requires Settled(l) && CpOf(l, which).state == Opened
    ensures Inv(CpOf(l, which)) && if which == LCP then l.phase != Dead else NetPhase(l.phase)
  {
  }

  lemma AuthKeeps(l: Link, s: Stimulus, j: Judgement)
    ensures var m := SetAuth(l, s, j); m.lcp == l.lcp && m.wire == l.wire && m.phase == l.phase
  {
  }

  lemma FirstFrame(which: Which, sent: seq<Sent>, before: seq<PppLink.Frame>, after: seq<PppLink.Frame>)
    requires |sent| > 0 && before + FramesOf(which, sent) <= after
    ensures |after| > |before| && after[|before|] == FramesOf(which, [sent[0]])[0]
  {
  }

  /** A control frame that is not dropped reaches its automaton. */
  lemma FrameIsStimulus(l: Link, which: Which, length: nat, packet: Packet, j: Judgement, env: Env)
    requires length >= 4 && if which == LCP then l.phase != Dead else NetPhase(l.phase)
    ensures var s := StimulusOf(which, packet, j);
      AfterFrame(l, which, length, packet, j, env) ==
        Stimulate(if which == LCP then SetAuth(l, s, j) else l, which, s, env)
  {
    hide Stimulate, SetAuth;
  }

  lemma ReceiveKeeps(cp: Cp, s: Stimulus)
    requires s.Receive? && Inv(cp)
    ensures var c := Cause(cp, s).0; c.state == cp.state && c.timers == cp.timers && c.configId == cp.configId
    ensures cp.state == Opened ==> cp.timers.config.counter == MAX_CONFIGURE
  {
    hide Classify;
    ClassifyKeeps(cp, s);
  }

  lemma IpcpResets(l: Link, s: Stimulus, env: Env)
    requires s.Receive? && Cause(l.ipcp, s).1.Some?
    requires var (c, e) := Cause(l.ipcp, s); Fire(c, e.value, s.packet).layer == LayerDown
    ensures var (c, e) := Cause(l.ipcp, s);
      var f := Fire(c, e.value, s.packet);
      var m := Stimulate(l, IPCP, s, env);
      && m.ipcp == f.cp.(localOptions := env.ipcpOptions)
      && m.wire == l.wire + FramesOf(IPCP, f.sent)
      && m.phase == l.phase
  {
    hide Cause, Fire, FramesOf;
  }

  lemma LcpResets(l: Link, s: Stimulus, env: Env)
    requires s.Receive? && Cause(l.lcp, s).1.Some?
    requires var (c, e) := Cause(l.lcp, s); Fire(c, e.value, s.packet).layer == LayerDown
    ensures var (c, e) := Cause(l.lcp, s);
      var f := Fire(c, e.value, s.packet);
      var m := Stimulate(l, LCP, s, env);
      && m.lcp == f.cp.(localOptions := env.lcpOptions)
      && l.wire + FramesOf(LCP, f.sent) <= m.wire
      && m.phase == Termination
  {
    hide Cause, Fire, FramesOf, AcksTermination, LcpDownNotify;
    var (c, e) := Cause(l.lcp, s);
    var f := Fire(c, e.value, s.packet);
    var m := Moved(l.(lcp := c), LCP, f, env);
    DownNotifyKeeps(m.(lcp := m.lcp.(localOptions := env.lcpOptions)), env);
  }

  lemma DownNotifyKeeps(l: Link, env: Env)
    ensures var m := LcpDownNotify(l, env); m.lcp == l.lcp && m.phase == Termination && l.wire <= m.wire
  {
    hide Raise;
    IpcpDownKeepsLcp(l, env);
    IpcpDownKeepsWire(l, env);
  }

  lemma IpcpDownKeepsWire(l: Link, env: Env)
    ensures l.wire <= Raise(l, IPCP, Down, env).wire
  {
    hide Transition, TimersAfter, Transmitted, NewConfigId, NewTerminateId, RefusalsAfter, FramesOf, AcksTermination;
    TableDown(l.ipcp.state);
  }

  /** Hence the acknowledgement of that very request is discarded without a trace if and only if the
      layer returned to other options: for either protocol, and for every event by which a layer goes
      down and asks again. */
  lemma AckAfterReset(l: Link, which: Which, length: nat, packet: Packet, j: Judgement, env: Env,
                      length': nat, j': Judgement, env': Env)
    requires GoesDownAsking(l, which, length, packet, j) && length' >= 4
    ensures var m := AfterFrame(l, which, length, packet, j, env);
      var sent := Raised(l, which, packet, j).0.localOptions;
      var ack := Packet(2, CpOf(l, which).configId + 1, sent);
      AfterFrame(m, which, length', ack, j', env') == m <==> sent != ResetOptions(which, env)
  {
    hide Cause, AfterFrame, GoesDownAsking, Generate;
    ResetAfterRequest(l, which, length, packet, j, env);
    var m := AfterFrame(l, which, length, packet, j, env);
    var ack := Packet(2, CpOf(l, which).configId + 1, Raised(l, which, packet, j).0.localOptions);
    StepStaysSettled(l, which, length, packet, j, env);
    AckDiscardedIff(m, which, length', ack, j', env');
  }

  lemma StepStaysSettled(l: Link, which: Which, length: nat, packet: Packet, j: Judgement, env: Env)
    requires GoesDownAsking(l, which, length, packet, j)
    ensures Settled(AfterFrame(l, which, length, packet, j, env))
  {
    hide Step, AsksAgain, Cause;
    StepSettled(l, Frame(ProtocolOf(which), length, packet, j), env);
  }

  /** An acknowledgement with the current identifier, in a link where it is not dropped. */
  lemma AckDiscardedIff(m: Link, which: Which, length: nat, ack: Packet, j: Judgement, env: Env)
    requires Settled(m) && length >= 4
    requires CpOf(m, which).state == ReqSent || CpOf(m, which).state == AckSent
    requires if which == LCP then m.phase == Termination else NetPhase(m.phase)
    requires ack.code == 2 && ack.id == CpOf(m, which).configId
    ensures AfterFrame(m, which, length, ack, j, env) == m <==> ack.data != CpOf(m, which).localOptions
  {
    hide Cause, Generate, Inv;
    var s := StimulusOf(which, ack, j);
    AckCauses(CpOf(m, which), s);
    if ack.data == CpOf(m, which).localOptions {
      AckMoves(m, which, ack, env);
    }
  }

  lemma AckCauses(cp: Cp, s: Stimulus)
    requires s.Receive? && s.packet.code == 2 && 2 in s.supported && s.packet.id == cp.configId
    ensures Cause(cp, s) == (cp, if s.packet.data == cp.localOptions then Some(Rca) else None)
  {
  }

  /** An acknowledgement that counts changes the automaton's state or the phase. */
  lemma AckMoves(m: Link, which: Which, ack: Packet, env: Env)
    requires Settled(m)
    requires CpOf(m, which).state == ReqSent || CpOf(m, which).state == AckSent
    requires if which == LCP then m.phase == Termination else NetPhase(m.phase)
    ensures Generate(m, which, Rca, ack, env) != m
  {
    hide Fire, FramesOf, AcksTermination, LcpUpNotify, IpcpUpNotify, Inv, Ready;
    var cp := CpOf(m, which);
    AckEvent(cp, ack);
    var n := Moved(m, which, Fire(cp, Rca, ack), env);
    if cp.state == AckSent && which == LCP {
      ReadyNow(cp);
      ReadyFire(cp, Rca, ack);
      LcpComesUp(n, env);
      UpLeavesAckSent(n, env);
    } else if cp.state == AckSent {
      UpNotifyMoves(n, env);
      ReadyNow(cp);
      ReadyFire(cp, Rca, ack);
    }
  }

  lemma ReadyNow(cp: Cp)
    requires Inv(cp)
    ensures Ready(cp, Rca)
  {
  }

  lemma AckEvent(cp: Cp, ack: Packet)
    requires cp.state == ReqSent || cp.state == AckSent
    ensures var f := Fire(cp, Rca, ack);
      f.cp.state == (if cp.state == ReqSent then AckRcvd else Opened)
      && f.layer == if cp.state == ReqSent then NoSignal else LayerUp
  {
    hide TimersAfter, Transmitted, NewConfigId, NewTerminateId, RefusalsAfter;
  }

  lemma UpLeavesAckSent(l: Link, env: Env)
    requires l.lcp.state == Opened
    ensures LcpUpNotify(l, env).lcp.state != AckSent
  {
    hide Raise;
    CloseState(l.(reason := AuthFail), env);
    LcpUpKeeps(l, env);
  }

  lemma LcpUpKeeps(l: Link, env: Env)
    ensures var m := EnterPhase(l, Network); Raise(Raise(m, IPCP, Open, env), IPCP, Up, env).lcp == l.lcp
  {
    hide Transition, TimersAfter, Transmitted, NewConfigId, NewTerminateId, RefusalsAfter, FramesOf, AcksTermination;
    var m := EnterPhase(l, Network);
    TableOpen(m.ipcp.state);
    QuietEvent(m, IPCP, Open, NO_PACKET, env);
    var n := Raise(m, IPCP, Open, env);
    TableUp(n.ipcp.state);
    QuietEvent(n, IPCP, Up, NO_PACKET, env);
  }

  lemma UpNotifyMoves(l: Link, env: Env)
    requires l.ipcp.state == Opened && l.lcp.state == Opened && NetPhase(l.phase)
    ensures var m := IpcpUpNotify(l, env); m.ipcp.state == Opened || m.phase == Termination
  {
    hide Raise;
    CloseEndsInTermination(l.(net := false, reason := NetFail), env);
  }

  lemma CloseEndsInTermination(l: Link, env: Env)
    requires l.lcp.state == Opened
    ensures Raise(l, LCP, Close, env).phase == Termination
  {
    hide Transition, TimersAfter, Transmitted, NewConfigId, NewTerminateId, RefusalsAfter, FramesOf, AcksTermination;
    hide LcpDownNotify;
    TableClose(Opened);
    var m := Moved(l, LCP, Fire(l.lcp, Close, NO_PACKET), env);
    DownNotifyKeeps(m.(lcp := m.lcp.(localOptions := env.lcpOptions)), env);
  }
}
