/** Whole runs of the link, from the moment it is opened. */
module PppLinkRuns {
  import opened ControlProtocol
  import opened PppLink
  import opened PppLinkInvariants
  import opened PppLinkTrace
  import opened Wrappers

  /** An external event, and what the system answered while it was handled. */
  datatype Occurrence = Occurrence(what: Happening, env: Env)

  predicate PossibleLinkRun(l: Link, hs: seq<Occurrence>)
    decreases |hs|
  {
    hs == [] || (CanHappen(l, hs[0].what) && PossibleLinkRun(Step(l, hs[0].what, hs[0].env), hs[1..]))
  }

  function RunLink(l: Link, hs: seq<Occurrence>): Link
    decreases |hs|
  {
    if hs == [] then l else RunLink(Step(l, hs[0].what, hs[0].env), hs[1..])
  }

  lemma {:induction false} RunSettled(l: Link, hs: seq<Occurrence>)
    requires Settled(l) && PossibleLinkRun(l, hs)
    ensures Settled(RunLink(l, hs))
    decreases |hs|
  {
    hide Step, CanHappen, Settled;
    if hs != [] {
      StepSettled(l, hs[0].what, hs[0].env);
      RunSettled(Step(l, hs[0].what, hs[0].env), hs[1..]);
    }
  }

  lemma StartSettled(server: bool, lcpOptions: seq<bv8>, ipcpOptions: seq<bv8>, env: Env)
    ensures Settled(Start(server, lcpOptions, ipcpOptions, env))
    ensures Start(server, lcpOptions, ipcpOptions, env).phase == Establishment
  {
    hide Transition, TimersAfter, Transmitted, NewConfigId, NewTerminateId, RefusalsAfter, FramesOf, AcksTermination;
    hide Inv;
    var l := NewLink(server, lcpOptions, ipcpOptions);
    NewIsTimed(server, lcpOptions, ipcpOptions);
    if !server {
      TableUp(Initial);
      TableOpen(Closed);
      QuietEvent(l, LCP, Up, NO_PACKET, env);
      SignalKeepsInv(l.lcp, Up, NO_PACKET);
      var m := Raise(l, LCP, Up, env);
      QuietEvent(m, LCP, Open, NO_PACKET, env);
      SignalKeepsInv(m.lcp, Open, NO_PACKET);
    }
  }

  lemma NewIsTimed(server: bool, lcpOptions: seq<bv8>, ipcpOptions: seq<bv8>)
    ensures Timed(NewLink(server, lcpOptions, ipcpOptions))
  {
  }

  /** After every external event of every run: LCP is Opened exactly in the phases Authentication,
      Network and LinkUp; IPCP is running exactly in Network and LinkUp; an interface exists exactly
      while IPCP is Opened, and there is never more than one; and the disconnect function has been
      called at most once, and only in phase Dead. */
  lemma LinkInvariant(server: bool, lcpOptions: seq<bv8>, ipcpOptions: seq<bv8>, env: Env, hs: seq<Occurrence>)
    requires PossibleLinkRun(Start(server, lcpOptions, ipcpOptions, env), hs)
    ensures var l := RunLink(Start(server, lcpOptions, ipcpOptions, env), hs);
      && (l.lcp.state == Opened <==> l.phase == Authentication || l.phase == Network || l.phase == LinkUp)
      && (l.ipcp.state != Initial && l.ipcp.state != Starting <==> l.phase == Network || l.phase == LinkUp)
      && (l.net <==> l.ipcp.state == Opened)
      && l.interfaces == (if l.net then 1 else 0)
      && l.notified <= 1
      && (l.notified == 1 ==> l.phase == Dead)
      && (l.phase == Dead && l.notified == 0 ==> l.idles == 1 || l.staPending)
      && Inv(l.lcp) && Inv(l.ipcp)
  {
    hide Start, RunLink, PossibleLinkRun, Inv;
    StartSettled(server, lcpOptions, ipcpOptions, env);
    RunSettled(Start(server, lcpOptions, ipcpOptions, env), hs);
  }

  /** So LCP's packets are handled unless the link is dead, those of PAP and CHAP exactly while LCP is
      Opened, those of IPCP exactly while IPCP runs, and all others exactly in phase LinkUp. */
  lemma HandledIff(l: Link, protocol: nat)
    requires Settled(l)
    ensures !DropPacket(l.phase, protocol) <==>
      match protocol
      case 0xc021 => l.phase != Dead
      case 0xc023 => l.lcp.state == Opened
      case 0xc223 => l.lcp.state == Opened
      case 0x8021 => l.ipcp.state != Initial && l.ipcp.state != Starting
      case _ => l.phase == LinkUp
  {
  }

  /** An IP packet is handed to an interface that does not exist exactly when it has four octets or
      more and arrives in phase LinkUp while IPCP is not Opened, and to one that does exactly when it is. */
  lemma StraysIff(l: Link, h: Happening, env: Env)
    requires Settled(l) && CanHappen(l, h)
    ensures Step(l, h, env).traffic.strayed != l.traffic.strayed <==>
      h.Frame? && h.protocol == 0x0021 && h.length >= 4 && l.phase == LinkUp && l.ipcp.state != Opened
    ensures Step(l, h, env).traffic.delivered != l.traffic.delivered <==>
      h.Frame? && h.protocol == 0x0021 && h.length >= 4 && l.phase == LinkUp && l.ipcp.state == Opened
  {
    hide AuthNotify, Raise, Stimulate, Inv, Cause;
    match h {
      case Frame(protocol, length, packet, j) =>
        var codes := if protocol == LCP_PROTOCOL then LCP_CODES else IPCP_CODES;
        var s := Stimulus.Receive(codes, packet, j.verdict, j.options);
        StimulateTracks(SetAuth(l, s, j), LCP, s, env);
        StimulateTracks(l, IPCP, s, env);
        if l.pap.Some? { AuthTracks(l.(pap := Some(Replied(l.pap.value))), packet.code == 2, env); }
        AuthTracks(l, packet.code == 3, env);
      case Expires(which, timer) => StimulateTracks(l, which, timer, env);
      case PapTimeout => AuthTracks(l.(pap := Some(GivenUp(l.pap.value))), false, env);
      case Shutdown => RaiseTracks(l.(reason := LocalClose), LCP, Close, env);
      case Disconnect =>
        var m := l.(reason := LinkDead);
        RaiseTracks(m, LCP, Down, env);
        RaiseTracks(Raise(m, LCP, Down, env), LCP, Close, env);
      case _ =>
    }
  }

  //
  // Phase Dead.
  //

  lemma DeadCloseIsSilent(l: Link, env: Env)
    requires l.lcp.state == Initial || l.lcp.state == Closed || l.lcp.state == Stopped
    ensures Raise(l, LCP, Close, env).wire == l.wire
    ensures Raise(l, LCP, Close, env).notified == l.notified
    ensures Raise(l, LCP, Close, env).pap == l.pap
  {
    hide TimersAfter, NewConfigId, NewTerminateId, RefusalsAfter;
    QuietEvent(l, LCP, Close, NO_PACKET, env);
    assert Fire(l.lcp, Close, NO_PACKET).sent == [];
  }

  /** The requests the PAP timers may still send. */
  function RetriesLeft(l: Link): nat {
    if l.pap.Some? && !LastRetry(l.pap.value) then PAP_MAX_RETRY - 1 - l.pap.value.retries else 0
  }

  /** A dead link stays dead, and sends nothing, except that a retry timer of PAP that is still running
      goes on until its last retry. */
  lemma DeadStep(l: Link, h: Happening, env: Env)
    requires Settled(l) && CanHappen(l, h) && l.phase == Dead
    ensures Step(l, h, env).phase == Dead
    ensures Step(l, h, env).notified >= l.notified
    ensures Step(l, h, env).wire != l.wire <==> h == PapTimeout && !LastRetry(l.pap.value)
    ensures |Step(l, h, env).wire| + RetriesLeft(Step(l, h, env)) == |l.wire| + RetriesLeft(l)
  {
    hide Raise, Inv, Stimulate;
    match h {
      case Expires(which, timer) =>
        ExpiryMeansWaiting(l, which, timer);
      case PapTimeout =>
        var m := l.(pap := Some(GivenUp(l.pap.value)));
        Authenticated(m, false, env);
        DeadCloseIsSilent(m.(reason := AuthFail), env);
      case _ =>
    }
  }

  /** Dead is final over every run, the disconnect function is not called again, and at most two more
      frames go out. */
  lemma {:induction false} DeadIsFinal(l: Link, hs: seq<Occurrence>)
    requires Settled(l) && PossibleLinkRun(l, hs) && l.phase == Dead
    ensures RunLink(l, hs).phase == Dead
    ensures l.notified <= RunLink(l, hs).notified <= 1
    ensures |RunLink(l, hs).wire| + RetriesLeft(RunLink(l, hs)) == |l.wire| + RetriesLeft(l)
    ensures RetriesLeft(l) <= 2
    decreases |hs|
  {
    hide Step, CanHappen, Settled;
    if hs == [] {
      DeadNotice(l);
    } else {
      StepSettled(l, hs[0].what, hs[0].env);
      DeadStep(l, hs[0].what, hs[0].env);
      DeadIsFinal(Step(l, hs[0].what, hs[0].env), hs[1..]);
    }
  }

  lemma DeadNotice(l: Link)
    requires Settled(l)
    ensures l.notified <= 1
  {
  }

  //
  // A line that goes away.
  //

  /** A disconnected line makes the link dead if and only if LCP was neither closing nor closed. */
  lemma DisconnectReachesDead(l: Link, env: Env)
    requires Settled(l) && l.phase != Dead
    ensures Step(l, Disconnect, env).phase == Dead <==>
      l.lcp.state != Initial && l.lcp.state != Closed && l.lcp.state != Closing
    ensures Step(l, Disconnect, env).phase != Dead ==> Stranded(Step(l, Disconnect, env))
  {
    hide Raise, Inv;
    DisconnectSettled(l, env);
    var m := l.(reason := LinkDead);
    LcpLosesLine(m, env);
    if Raise(m, LCP, Down, env).lcp.state == Initial { InitialStays(Raise(m, LCP, Down, env), env); }
  }

  /** Not dead, with an LCP that nothing will bring up. */
  predicate Stranded(l: Link) {
    Settled(l) && l.phase != Dead && l.lcp.state == Initial
  }

  lemma InitialStays(l: Link, env: Env)
    requires l.lcp.state == Initial
    ensures Raise(l, LCP, Close, env).lcp.state == Initial
    ensures Raise(l, LCP, Close, env).phase == l.phase
  {
    hide TimersAfter, Transmitted, NewConfigId, NewTerminateId, RefusalsAfter, FramesOf, AcksTermination;
    QuietEvent(l, LCP, Close, NO_PACKET, env);
  }

  /** A packet for an LCP in Initial is an illegal event. */
  lemma InitialIgnoresPackets(l: Link, s: Stimulus, env: Env)
    requires l.lcp.state == Initial && s.Receive?
    ensures Stimulate(l, LCP, s, env).lcp.state == Initial
    ensures Stimulate(l, LCP, s, env).phase == l.phase
  {
    hide TimersAfter, Transmitted, NewConfigId, NewTerminateId, RefusalsAfter, FramesOf, AcksTermination, Classify;
    ClassifyKeeps(l.lcp, s);
    PacketRaises(l.lcp, s);
    var (c, e) := Cause(l.lcp, s);
    if e.Some? {
      PacketInInitial(l.lcp, s);
      QuietEvent(l.(lcp := c), LCP, e.value, s.packet, env);
    }
  }

  lemma PacketInInitial(cp: Cp, s: Stimulus)
    requires s.Receive? && Cause(cp, s).1.Some?
    ensures Transition(Cause(cp, s).1.value, Initial).Illegal?
  {
  }

  lemma StrandedStep(l: Link, h: Happening, env: Env)
    requires Stranded(l) && CanHappen(l, h)
    ensures Stranded(Step(l, h, env)) && Step(l, h, env).notified == 0
  {
    hide Raise, Inv, Stimulate, Cause;
    StepSettled(l, h, env);
    match h {
      case Frame(protocol, length, packet, j) =>
        if protocol == LCP_PROTOCOL && length >= 4 {
          var s := Stimulus.Receive(LCP_CODES, packet, j.verdict, j.options);
          InitialIgnoresPackets(SetAuth(l, s, j), s, env);
        }
      case Expires(which, timer) => ExpiryMeansWaiting(l, which, timer);
      case PapTimeout =>
        InitialStays(l.(pap := Some(GivenUp(l.pap.value)), reason := AuthFail), env);
      case Shutdown => InitialStays(l.(reason := LocalClose), env);
      case Disconnect => DisconnectReachesDead(l, env);
      case _ =>
    }
  }

  /** Nothing that can happen ever brings the disconnect call to a stranded link. */
  lemma {:induction false} StrandedForever(l: Link, hs: seq<Occurrence>)
    requires Stranded(l) && PossibleLinkRun(l, hs)
    ensures Stranded(RunLink(l, hs)) && RunLink(l, hs).notified == 0
    decreases |hs|
  {
    hide Step, CanHappen, Settled;
    if hs == [] {
      NotDeadNoNotice(l);
    } else {
      StrandedStep(l, hs[0].what, hs[0].env);
      StrandedForever(Step(l, hs[0].what, hs[0].env), hs[1..]);
    }
  }

  lemma NotDeadNoNotice(l: Link)
    requires Settled(l) && l.phase != Dead
    ensures l.notified == 0
  {
  }

  /** In particular, a line that goes away while a shutdown waits for the peer's Terminate-Ack takes
      the disconnect call with it. */
  lemma ShutdownThenDisconnect(l: Link, env: Env, env': Env)
    requires Settled(l) && l.phase != Dead && l.phase != Termination
    ensures Stranded(Step(Step(l, Shutdown, env), Disconnect, env'))
  {
    hide Raise, Inv;
    var m := l.(reason := LocalClose);
    LcpCloses(m, env);
    CloseState(m, env);
    StepSettled(l, Shutdown, env);
    DisconnectReachesDead(Step(l, Shutdown, env), env');
  }

  lemma CloseState(l: Link, env: Env)
    requires l.lcp.state != Starting
    ensures var s := Raise(l, LCP, Close, env).lcp.state; s == Initial || s == Closed || s == Closing
  {
    hide Transition, TimersAfter, Transmitted, NewConfigId, NewTerminateId, RefusalsAfter, FramesOf, AcksTermination;
    TableClose(l.lcp.state);
    var f := Fire(l.lcp, Close, NO_PACKET);
    if f.layer == LayerDown {
      LcpDownKeepsLcp(Moved(l, LCP, f, env).(lcp := f.cp.(localOptions := env.lcpOptions)), env);
    }
  }

  lemma LcpDownKeepsLcp(l: Link, env: Env)
    ensures LcpDownNotify(l, env).lcp == l.lcp
  {
    hide Raise;
    IpcpDownKeepsLcp(l, env);
  }

  lemma IpcpDownKeepsLcp(l: Link, env: Env)
    ensures Raise(l, IPCP, Down, env).lcp == l.lcp
  {
    hide Transition, TimersAfter, Transmitted, NewConfigId, NewTerminateId, RefusalsAfter, FramesOf, AcksTermination;
    TableDown(l.ipcp.state);
  }

  //
  // A peer that falls silent.
  //

  function LcpExpiries(ss: seq<Stimulus>, env: Env): (hs: seq<Occurrence>)
    ensures |hs| == |ss|
    ensures forall k :: 0 <= k < |ss| ==> hs[k] == Occurrence(Expires(LCP, ss[k]), env)
  {
    seq(|ss|, k requires 0 <= k < |ss| => Occurrence(Expires(LCP, ss[k]), env))
  }

  /** An LCP timeout reaches the rest of the link only when LCP gives up. */
  lemma LcpExpiry(l: Link, s: Stimulus, env: Env)
    requires Waiting(l.lcp.state) && (s.ConfigExpires? || s.TerminateExpires?)
    ensures var m := Step(l, Expires(LCP, s), env);
      && m.lcp == Next(l.lcp, s).cp
      && m.phase == if Waiting(m.lcp.state) then l.phase else Dead
  {
    hide Fire, Generate, Raise, AuthNotify, ReceiveFrame;
    var (c, e) := Cause(l.lcp, s);
    LcpTimeout(l.(lcp := c), e.value, env);
  }

  lemma LcpTimeout(l: Link, e: Event, env: Env)
    requires Waiting(l.lcp.state) && IsTimeout(e)
    ensures var m := Generate(l, LCP, e, NO_PACKET, env);
      && m.lcp == Fire(l.lcp, e, NO_PACKET).cp
      && m.phase == if Waiting(m.lcp.state) then l.phase else Dead
  {
    hide Fire, FramesOf, AcksTermination, Generate;
    TimeoutSignals(l.lcp, e);
    if Fire(l.lcp, e, NO_PACKET).layer == NoSignal {
      QuietEvent(l, LCP, e, NO_PACKET, env);
    } else {
      SignalledEvent(l, LCP, e, NO_PACKET, env);
    }
  }

  lemma TimeoutSignals(cp: Cp, e: Event)
    requires Waiting(cp.state) && IsTimeout(e)
    ensures var f := Fire(cp, e, NO_PACKET);
      f.layer == if Waiting(f.cp.state) then NoSignal else LayerFinished
  {
    hide Transition, TimersAfter, Transmitted, NewConfigId, NewTerminateId, RefusalsAfter;
    TableTimeouts(cp.state);
  }

  /** Once LCP is negotiating or terminating, a silent peer makes the link dead within the retries
      LCP has left. */
  lemma {:induction false} SilentPeerKillsLink(l: Link, env: Env)
    requires Settled(l) && Orderly(l.lcp) && Waiting(l.lcp.state)
    ensures var hs := LcpExpiries(SilentRun(l.lcp), env);
      && |hs| <= Rank(l.lcp)
      && PossibleLinkRun(l, hs)
      && RunLink(l, hs).phase == Dead
    decreases Rank(l.lcp)
  {
    hide Step, Next, Settled;
    var s := Oldest(l.lcp.timers);
    OneExpiry(l.lcp);
    LcpExpiry(l, s, env);
    StepSettled(l, Expires(LCP, s), env);
    SilentPeer(l.lcp);
    var m := Step(l, Expires(LCP, s), env);
    var hs := LcpExpiries(SilentRun(l.lcp), env);
    assert SilentRun(l.lcp) == [s] + SilentRun(m.lcp);
    assert hs[0] == Occurrence(Expires(LCP, s), env) && hs[1..] == LcpExpiries(SilentRun(m.lcp), env);
    if Waiting(m.lcp.state) {
      SilentPeerKillsLink(m, env);
    } else {
      assert hs[1..] == [];
    }
  }
}
