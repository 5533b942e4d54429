/** What every run of the link keeps: the phase mirrors the two automata, an interface exists exactly
while IPCP is Opened, and the disconnect function is called at most once.
 */
module PppLinkInvariants {
  import opened ControlProtocol
  import opened PppLink
  import opened Wrappers

  /** The phases in which LCP is Opened, and those in which IPCP runs. */
  predicate OpenPhase(p: Phase) {
    p == Authentication || p == Network || p == LinkUp
  }

  predicate NetPhase(p: Phase) {
    p == Network || p == LinkUp
  }

  /** The lower layer of the automaton is down. */
  predicate Below(s: State) {
    s == Initial || s == Starting
  }

  predicate Mirrored(l: Link) {
    && (l.lcp.state == Opened <==> OpenPhase(l.phase))
    && (!Below(l.ipcp.state) <==> NetPhase(l.phase))
    && (l.phase == Dead ==> l.lcp.state == Initial || l.lcp.state == Closed || l.lcp.state == Stopped)
  }

  predicate Interfaced(l: Link) {
    && (l.net <==> l.ipcp.state == Opened)
    && l.interfaces == if l.net then 1 else 0
  }

  /** In phase Dead the disconnect function has been called, or one call is pending; before, neither. */
  predicate Noticed(l: Link) {
    if l.phase == Dead then l.notified + l.idles + (if l.staPending then 1 else 0) == 1
    else l.notified == 0 && l.idles == 0
  }

  predicate Timed(l: Link) {
    Inv(l.lcp) && Inv(l.ipcp)
  }

  /** The invariant, between the nested events too. */
  predicate Steady(l: Link) {
    Mirrored(l) && Interfaced(l) && Noticed(l) && Timed(l)
  }

  /** The invariant between external events. */
  predicate Settled(l: Link) {
    Steady(l) && l.lcp.state != Starting
  }

  //
  // Nested events.
  //

  /** Everything about LCP and the notifications is the same. */
  predicate SameBelow(l: Link, m: Link) {
    && m.lcp == l.lcp
    && m.phase == l.phase
    && m.staPending == l.staPending
    && m.idles == l.idles
    && m.notified == l.notified
  }

  lemma SignalKeepsInv(cp: Cp, e: Event, p: Packet)
    requires Inv(cp) && !IsTimeout(e)
    ensures Inv(Fire(cp, e, p).cp)
  {
    hide Fire;
    DisciplinedFire(cp, e, p);
    CoveredFire(cp, e, p);
  }

  lemma OptionsKeepInv(cp: Cp, options: seq<bv8>)
    ensures Inv(cp.(localOptions := options)) == Inv(cp)
  {
  }

  /** An event without a signal that matters moves its automaton and nothing else. */
  lemma QuietEvent(l: Link, which: Which, e: Event, p: Packet, env: Env)
    requires var layer := Fire(CpOf(l, which), e, p).layer; layer == NoSignal || layer == LayerStarted
    ensures Generate(l, which, e, p, env) == Moved(l, which, Fire(CpOf(l, which), e, p), env)
  {
    hide Fire, Moved;
  }

  /** An event with a signal hands the moved link to the handler of the signal. */
  lemma SignalledEvent(l: Link, which: Which, e: Event, p: Packet, env: Env)
    ensures var f := Fire(CpOf(l, which), e, p);
      var m := Moved(l, which, f, env);
      var g := Generate(l, which, e, p, env);
      && (which == LCP && f.layer == LayerUp ==> g == LcpUpNotify(m, env))
      && (which == LCP && f.layer == LayerDown ==>
            g == LcpDownNotify(m.(lcp := m.lcp.(localOptions := env.lcpOptions)), env))
      && (which == LCP && f.layer == LayerFinished ==> g == EnterPhase(m, Dead))
      && (which == IPCP && f.layer == LayerUp ==> g == IpcpUpNotify(m, env))
  {
    hide Fire, Moved, LcpUpNotify, LcpDownNotify, IpcpUpNotify;
  }

  /** The rows of the table that nested events use. */
  lemma TableOpen(s: State)
    ensures var t := Transition(Open, s);
      && t.Go?
      && (t.layer == NoSignal || t.layer == LayerStarted)
      && (if Below(s) then t.next == Starting else !Below(t.next))
      && (t.next == Opened <==> s == Opened)
  {
  }

  lemma TableUp(s: State)
    ensures var t := Transition(Up, s);
      if Below(s)
      then t.Go? && t.layer == NoSignal && t.next == if s == Initial then Closed else ReqSent
      else t.Illegal?
  {
  }

  lemma TableDown(s: State)
    ensures var t := Transition(Down, s);
      if Below(s) then t.Illegal?
      else
        && t.Go?
        && t.next == (if s == Closed || s == Closing then Initial else Starting)
        && t.layer == if s == Opened then LayerDown else if s == Stopped then LayerStarted else NoSignal
  {
  }

  lemma TableClose(s: State)
    ensures var t := Transition(Close, s);
      && t.Go?
      && STA !in t.actions
      && t.next == (if Below(s) then Initial else if s == Closed || s == Stopped then Closed else Closing)
      && t.layer == if s == Opened then LayerDown else if s == Starting then LayerFinished else NoSignal
  {
  }

  /** LCP goes down: IPCP goes down with it, and the interface with IPCP. */
  lemma IpcpGoesDown(l: Link, env: Env)
    requires !Below(l.ipcp.state) && Inv(l.ipcp)
    requires l.net ==> l.ipcp.state == Opened
    requires l.interfaces == if l.net then 1 else 0
    ensures var m := Raise(l, IPCP, Down, env);
      SameBelow(l, m) && Below(m.ipcp.state) && Inv(m.ipcp) && !m.net && m.interfaces == 0
  {
    hide Transition, TimersAfter, Transmitted, NewConfigId, NewTerminateId, RefusalsAfter, FramesOf, AcksTermination;
    hide Inv;
    TableDown(l.ipcp.state);
    SignalKeepsInv(l.ipcp, Down, NO_PACKET);
    OptionsKeepInv(Fire(l.ipcp, Down, NO_PACKET).cp, env.ipcpOptions);
  }

  lemma IpcpOpens(l: Link, env: Env)
    requires Inv(l.ipcp)
    ensures var m := Raise(l, IPCP, Open, env);
      && SameBelow(l, m)
      && m.ipcp.state == Transition(Open, l.ipcp.state).next
      && Inv(m.ipcp)
      && m.net == l.net
      && m.interfaces == l.interfaces
  {
    hide Transition, TimersAfter, Transmitted, NewConfigId, NewTerminateId, RefusalsAfter, FramesOf, AcksTermination;
    hide Inv;
    TableOpen(l.ipcp.state);
    QuietEvent(l, IPCP, Open, NO_PACKET, env);
    SignalKeepsInv(l.ipcp, Open, NO_PACKET);
  }

  lemma IpcpComesUp(l: Link, env: Env)
    requires Inv(l.ipcp) && l.ipcp.state != Initial
    ensures var m := Raise(l, IPCP, Up, env);
      && SameBelow(l, m)
      && m.ipcp.state == (if l.ipcp.state == Starting then ReqSent else l.ipcp.state)
      && Inv(m.ipcp)
      && m.net == l.net
      && m.interfaces == l.interfaces
  {
    hide Transition, TimersAfter, Transmitted, NewConfigId, NewTerminateId, RefusalsAfter, FramesOf, AcksTermination;
    hide Inv;
    TableUp(l.ipcp.state);
    QuietEvent(l, IPCP, Up, NO_PACKET, env);
    SignalKeepsInv(l.ipcp, Up, NO_PACKET);
  }

  /** Authentication succeeds: IPCP starts, unless it is running already. */
  lemma IpcpStarts(l: Link, env: Env)
    requires Inv(l.ipcp)
    ensures var m := Raise(Raise(l, IPCP, Open, env), IPCP, Up, env);
      && SameBelow(l, m)
      && !Below(m.ipcp.state)
      && (m.ipcp.state == Opened <==> l.ipcp.state == Opened)
      && Inv(m.ipcp)
      && m.net == l.net
      && m.interfaces == l.interfaces
  {
    hide Transition, Raise, Inv;
    TableOpen(l.ipcp.state);
    IpcpOpens(l, env);
    IpcpComesUp(Raise(l, IPCP, Open, env), env);
  }

  /** LCP leaves Opened: what `ppp_lcp_down_notify` makes of it. */
  lemma LcpGoesDown(l: Link, env: Env)
    requires l.phase != Dead && l.lcp.state != Opened && Timed(l)
    requires !Below(l.ipcp.state) <==> NetPhase(l.phase)
    requires l.net ==> l.ipcp.state == Opened
    requires l.interfaces == if l.net then 1 else 0
    requires Noticed(l)
    ensures Steady(LcpDownNotify(l, env))
    ensures LcpDownNotify(l, env).phase == Termination
    ensures LcpDownNotify(l, env).lcp == l.lcp
    ensures LcpDownNotify(l, env).staPending == l.staPending
  {
    hide Raise, Inv;
    if NetPhase(l.phase) { IpcpGoesDown(l, env); }
  }

  lemma CloseSendsNoAck(cp: Cp)
    ensures !AcksTermination(Fire(cp, Close, NO_PACKET).sent)
  {
    hide Transition, TimersAfter, NewConfigId, NewTerminateId, RefusalsAfter;
    TableClose(cp.state);
  }

  /** Closing LCP, from any state it may be in. */
  lemma LcpCloses(l: Link, env: Env)
    requires Timed(l) && Noticed(l)
    requires OpenPhase(l.phase) ==> l.lcp.state == Opened
    requires !Below(l.ipcp.state) <==> NetPhase(l.phase)
    requires l.phase == Dead ==> l.lcp.state == Initial || l.lcp.state == Closed || l.lcp.state == Stopped
    requires l.net ==> l.ipcp.state == Opened
    requires l.lcp.state != Opened ==> !l.net
    requires l.interfaces == if l.net then 1 else 0
    ensures var m := Raise(l, LCP, Close, env);
      && Steady(m)
      && m.lcp.state != Starting
      && (m.phase == Dead <==> l.phase == Dead || l.lcp.state == Starting)
      && (l.lcp.state == Opened ==> m.phase == Termination)
      && m.staPending == l.staPending
  {
    hide Transition, TimersAfter, NewConfigId, NewTerminateId, RefusalsAfter, FramesOf, Transmitted, AcksTermination;
    hide Inv, LcpDownNotify;
    TableClose(l.lcp.state);
    CloseSendsNoAck(l.lcp);
    SignalKeepsInv(l.lcp, Close, NO_PACKET);
    var f := Fire(l.lcp, Close, NO_PACKET);
    var m := Moved(l, LCP, f, env);
    if f.layer == LayerDown {
      OptionsKeepInv(f.cp, env.lcpOptions);
      LcpGoesDown(m.(lcp := m.lcp.(localOptions := env.lcpOptions)), env);
    }
  }

  /** The result of authentication, whatever phase LCP found on coming up. */
  lemma Authenticated(l: Link, success: bool, env: Env)
    requires Timed(l) && Noticed(l) && Interfaced(l)
    requires OpenPhase(l.phase) ==> l.lcp.state == Opened
    requires !Below(l.ipcp.state) <==> NetPhase(l.phase)
    requires l.phase == Dead ==> l.lcp.state == Initial || l.lcp.state == Closed || l.lcp.state == Stopped
    requires success ==> l.lcp.state == Opened
    ensures var m := AuthNotify(l, success, env);
      && Steady(m)
      && (l.lcp.state != Starting ==> m.lcp.state != Starting)
      && (m.phase == Dead <==> l.phase == Dead || (!success && l.lcp.state == Starting))
      && (success ==> m.phase == Network && m.lcp == l.lcp)
      && (!success && l.lcp.state == Opened ==> m.phase == Termination)
  {
    hide Raise, Inv;
    if success {
      IpcpStarts(EnterPhase(l, Network), env);
    } else {
      LcpCloses(l.(reason := AuthFail), env);
    }
  }

  /** LCP enters Opened. */
  lemma LcpComesUp(l: Link, env: Env)
    requires Timed(l) && Noticed(l) && Interfaced(l)
    requires l.lcp.state == Opened && !OpenPhase(l.phase) && l.phase != Dead && Below(l.ipcp.state)
    ensures Steady(LcpUpNotify(l, env)) && LcpUpNotify(l, env).phase != Dead
    ensures LcpUpNotify(l, env).lcp.state != Starting
  {
    hide AuthNotify, Inv;
    if !l.chap && l.pap.None? {
      Authenticated(l, true, env);
    } else if !l.chap && !env.papStarts {
      Authenticated(l, false, env);
    }
  }

  /** IPCP enters Opened: an interface is created, or LCP is closed. */
  lemma IpcpComesOpen(l: Link, env: Env)
    requires Timed(l) && Noticed(l) && NetPhase(l.phase) && l.lcp.state == Opened
    requires l.ipcp.state == Opened && !l.net && l.interfaces == 0
    ensures Steady(IpcpUpNotify(l, env)) && IpcpUpNotify(l, env).phase != Dead
    ensures IpcpUpNotify(l, env).lcp.state != Starting
  {
    hide Raise, Inv;
    if !env.netCreated { LcpCloses(l.(net := false, reason := NetFail), env); }
  }

  /** IPCP gives up: so does LCP, unless the link had been up. */
  lemma IpcpFinishes(l: Link, env: Env)
    requires Steady(l) && NetPhase(l.phase) && (l.ipcp.state == Closed || l.ipcp.state == Stopped)
    ensures Steady(IpcpFinishedNotify(l, env)) && IpcpFinishedNotify(l, env).phase != Dead
    ensures IpcpFinishedNotify(l, env).lcp.state != Starting
  {
    hide Raise, Inv;
    if l.phase == Network {
      var m := l.(reason := IpcpFail);
      IpcpCloses(m, env);
      LcpCloses(Raise(m, IPCP, Close, env), env);
    }
  }

  lemma IpcpCloses(l: Link, env: Env)
    requires Inv(l.ipcp) && (l.ipcp.state == Closed || l.ipcp.state == Stopped)
    ensures var m := Raise(l, IPCP, Close, env);
      && SameBelow(l, m)
      && m.ipcp.state == Closed
      && Inv(m.ipcp)
      && m.net == l.net
      && m.interfaces == l.interfaces
  {
    hide Transition, TimersAfter, Transmitted, NewConfigId, NewTerminateId, RefusalsAfter, FramesOf, AcksTermination;
    hide Inv;
    TableClose(l.ipcp.state);
    QuietEvent(l, IPCP, Close, NO_PACKET, env);
    SignalKeepsInv(l.ipcp, Close, NO_PACKET);
  }

  //
  // External events.
  //

  /** An automaton as an event finds it: a timer that has just expired is not armed any more. */
  predicate Ready(cp: Cp, e: Event) {
    Disciplined(cp) && (if IsTimeout(e) then Waiting(cp.state) else Covered(cp))
  }

  lemma ReadyFire(cp: Cp, e: Event, p: Packet)
    requires Ready(cp, e)
    ensures Inv(Fire(cp, e, p).cp)
  {
    hide Fire;
    DisciplinedFire(cp, e, p);
    CoveredFire(cp, e, p);
  }

  /** What the table says about this-layer-finished and about Starting. */
  lemma TableFinishes(e: Event, s: State)
    ensures var t := Transition(e, s);
      t.Go? ==>
        && (t.layer == LayerFinished ==>
              s != Opened && (t.next == Closed || t.next == Stopped || (s == Starting && t.next == Initial)))
        && (t.next == Starting ==> e == Down || e == Open)
        && (Below(t.next) && !Below(s) ==> e == Down)
        && (Below(s) && !Below(t.next) ==> e == Up)
  {
  }

  /** An event of LCP's own, outside phase Dead. */
  lemma LcpEvent(l: Link, e: Event, p: Packet, env: Env)
    requires Mirrored(l) && Interfaced(l) && Noticed(l) && Inv(l.ipcp) && Ready(l.lcp, e)
    requires l.phase != Dead
    ensures Steady(Generate(l, LCP, e, p, env))
    ensures l.lcp.state != Starting && e != Down && e != Open ==> Generate(l, LCP, e, p, env).lcp.state != Starting
  {
    hide Transition, TimersAfter, Transmitted, NewConfigId, NewTerminateId, RefusalsAfter, FramesOf, AcksTermination;
    hide Inv, Ready, LcpUpNotify, LcpDownNotify;
    TableFinishes(e, l.lcp.state);
    TableAlternates(e, l.lcp.state);
    ReadyFire(l.lcp, e, p);
    var f := Fire(l.lcp, e, p);
    var m := Moved(l, LCP, f, env);
    match f.layer {
      case LayerUp => LcpComesUp(m, env);
      case LayerDown =>
        OptionsKeepInv(f.cp, env.lcpOptions);
        LcpGoesDown(m.(lcp := m.lcp.(localOptions := env.lcpOptions)), env);
      case _ =>
    }
  }

  /** An event of IPCP's own: a packet or a timeout. */
  lemma IpcpEvent(l: Link, e: Event, p: Packet, env: Env)
    requires Mirrored(l) && Interfaced(l) && Noticed(l) && Inv(l.lcp) && Ready(l.ipcp, e)
    requires NetPhase(l.phase) && e != Down
    ensures Steady(Generate(l, IPCP, e, p, env))
    ensures Generate(l, IPCP, e, p, env).lcp.state != Starting
  {
    hide Transition, TimersAfter, Transmitted, NewConfigId, NewTerminateId, RefusalsAfter, FramesOf, AcksTermination;
    hide Inv, Ready, IpcpUpNotify, IpcpFinishedNotify;
    TableFinishes(e, l.ipcp.state);
    TableAlternates(e, l.ipcp.state);
    ReadyFire(l.ipcp, e, p);
    var f := Fire(l.ipcp, e, p);
    var m := Moved(l, IPCP, f, env);
    match f.layer {
      case LayerUp => IpcpComesOpen(m, env);
      case LayerDown => OptionsKeepInv(f.cp, env.ipcpOptions);
      case LayerFinished => IpcpFinishes(m, env);
      case _ =>
    }
  }

  /** What a stimulus leaves for its event to find. */
  lemma CauseReady(cp: Cp, s: Stimulus)
    requires Inv(cp) && Possible(cp, s) && !s.Signal?
    ensures var (c, e) := Cause(cp, s);
      && c.state == cp.state
      && (if e.None? then Inv(c) else Ready(c, e.value))
      && (e.Some? ==> e.value != Down && e.value != Open && e.value != Up)
  {
    hide Classify;
    if s.Receive? {
      ClassifyKeeps(cp, s);
      PacketRaises(cp, s);
    }
  }

  lemma PacketRaises(cp: Cp, s: Stimulus)
    requires s.Receive?
    ensures var e := Cause(cp, s).1; e.Some? ==> e.value != Down && e.value != Open && e.value != Up
  {
  }

  /** A packet or an expiry for LCP, outside phase Dead. */
  lemma LcpStimulated(l: Link, s: Stimulus, env: Env)
    requires Settled(l) && l.phase != Dead && Possible(l.lcp, s) && !s.Signal?
    ensures Settled(Stimulate(l, LCP, s, env))
  {
    hide Cause, Generate, Inv, Ready;
    CauseReady(l.lcp, s);
    var (c, e) := Cause(l.lcp, s);
    if e.Some? { LcpEvent(l.(lcp := c), e.value, if s.Receive? then s.packet else NO_PACKET, env); }
  }

  lemma IpcpStimulated(l: Link, s: Stimulus, env: Env)
    requires Settled(l) && NetPhase(l.phase) && Possible(l.ipcp, s) && !s.Signal?
    ensures Settled(Stimulate(l, IPCP, s, env))
  {
    hide Cause, Generate, Inv, Ready;
    CauseReady(l.ipcp, s);
    var (c, e) := Cause(l.ipcp, s);
    if e.Some? { IpcpEvent(l.(ipcp := c), e.value, if s.Receive? then s.packet else NO_PACKET, env); }
  }

  /** A timer only runs where its expiry can be handled. */
  lemma ExpiryMeansWaiting(l: Link, which: Which, timer: Stimulus)
    requires Settled(l) && CanHappen(l, Expires(which, timer))
    ensures Waiting(CpOf(l, which).state)
    ensures l.phase != Dead
    ensures which == IPCP ==> NetPhase(l.phase)
  {
  }

  lemma FrameSettled(l: Link, protocol: nat, length: nat, packet: Packet, j: Judgement, env: Env)
    requires Settled(l)
    ensures Settled(ReceiveFrame(l, protocol, length, packet, j, env))
  {
    hide Stimulate, AuthNotify, Inv, Cause;
    if !DropPacket(l.phase, protocol) {
      if protocol == LCP_PROTOCOL && length >= 4 {
        var s := Stimulus.Receive(LCP_CODES, packet, j.verdict, j.options);
        LcpStimulated(SetAuth(l, s, j), s, env);
      } else if protocol == IPCP_PROTO && length >= 4 {
        IpcpStimulated(l, Stimulus.Receive(IPCP_CODES, packet, j.verdict, j.options), env);
      } else if protocol == PAP_PROTOCOL && l.pap.Some? {
        Authenticated(l.(pap := Some(Replied(l.pap.value))), packet.code == 2, env);
      } else if protocol == CHAP_PROTOCOL {
        Authenticated(l, packet.code == 3, env);
      }
    }
  }

  lemma DisconnectSettled(l: Link, env: Env)
    requires Settled(l)
    ensures Settled(Step(l, Disconnect, env))
    ensures l.phase != Dead ==> (Step(l, Disconnect, env).phase == Dead <==>
      l.lcp.state != Initial && l.lcp.state != Closed && l.lcp.state != Closing)
  {
    hide Raise, Inv;
    if l.phase != Dead {
      var m := l.(reason := LinkDead);
      LcpLosesLine(m, env);
      LcpCloses(Raise(m, LCP, Down, env), env);
    }
  }

  /** The line below LCP goes away. */
  lemma LcpLosesLine(l: Link, env: Env)
    requires Settled(l) && l.phase != Dead
    ensures var m := Raise(l, LCP, Down, env);
      && Steady(m)
      && m.phase != Dead
      && m.lcp.state ==
           if l.lcp.state == Initial || l.lcp.state == Closed || l.lcp.state == Closing then Initial else Starting
  {
    hide Transition, TimersAfter, Transmitted, NewConfigId, NewTerminateId, RefusalsAfter, FramesOf, AcksTermination;
    hide Inv, LcpDownNotify;
    TableDown(l.lcp.state);
    SignalKeepsInv(l.lcp, Down, NO_PACKET);
    var f := Fire(l.lcp, Down, NO_PACKET);
    var m := Moved(l, LCP, f, env);
    if f.layer == LayerDown {
      OptionsKeepInv(f.cp, env.lcpOptions);
      LcpGoesDown(m.(lcp := m.lcp.(localOptions := env.lcpOptions)), env);
    }
  }

  /** Every external event, with all the nested events it sets off, keeps the invariant. */
  lemma StepSettled(l: Link, h: Happening, env: Env)
    requires Settled(l) && CanHappen(l, h)
    ensures Settled(Step(l, h, env))
  {
    hide Stimulate, AuthNotify, Raise, ReceiveFrame, Inv;
    match h {
      case Frame(protocol, length, packet, j) => FrameSettled(l, protocol, length, packet, j, env);
      case Expires(which, timer) =>
        ExpiryMeansWaiting(l, which, timer);
        if which == LCP { LcpStimulated(l, timer, env); } else { IpcpStimulated(l, timer, env); }
      case PapTimeout => Authenticated(l.(pap := Some(GivenUp(l.pap.value))), false, env);
      case Shutdown => LcpCloses(l.(reason := LocalClose), env);
      case Disconnect => DisconnectSettled(l, env);
      case _ =>
    }
  }
}
