/** Runs from the opening of a client that reach the states the other theorems speak about: a link that
is up, one that is up without an interface, and a dead one with a PAP timer still running.
 */
module PppLinkExamples {
  import opened Wrappers
  import opened ControlProtocol
  import opened PppLink
  import opened PppLinkInvariants
  import opened PppLinkRuns
  import opened PppLinkDown

  lemma {:induction false} RunConcatenated(l: Link, hs: seq<Occurrence>, h: Occurrence)
    requires PossibleLinkRun(l, hs) && CanHappen(RunLink(l, hs), h.what)
    ensures PossibleLinkRun(l, hs + [h])
    ensures RunLink(l, hs + [h]) == Step(RunLink(l, hs), h.what, h.env)
    decreases |hs|
  {
    hide Step, CanHappen;
    if hs == [] {
      assert hs + [h] == [h] && [h][1..] == [];
    } else {
      assert (hs + [h])[1..] == hs[1..] + [h];
      RunConcatenated(Step(l, hs[0].what, hs[0].env), hs[1..], h);
    }
  }

  /** A client that has just been opened. */
  predicate JustOpened(l: Link, lcpOptions: seq<bv8>, ipcpOptions: seq<bv8>) {
    && l.phase == Establishment
    && l.lcp.state == ReqSent && l.lcp.configId == 1 && l.lcp.localOptions == lcpOptions
    && l.lcp.refusals == Refusals(0, MAX_FAILURE, false, [])
    && l.ipcp == New(false, 100, ipcpOptions)
    && !l.chap && l.pap.None? && !l.net
  }

  lemma StartIsJustOpened(lcpOptions: seq<bv8>, ipcpOptions: seq<bv8>, env: Env)
    ensures JustOpened(Start(false, lcpOptions, ipcpOptions, env), lcpOptions, ipcpOptions)
  {
    hide Transition, TimersAfter, Transmitted, NewTerminateId, FramesOf, AcksTermination;
    var l := NewLink(false, lcpOptions, ipcpOptions);
    FirstEvents();
    QuietEvent(l, LCP, Up, NO_PACKET, env);
    var m := Raise(l, LCP, Up, env);
    QuietEvent(m, LCP, Open, NO_PACKET, env);
  }

  /** The rows a new automaton goes through to Opened when its request is acknowledged first. */
  lemma FirstEvents()
    ensures Transition(Up, Initial) == To(Closed)
    ensures Transition(Open, Closed) == Do({IRC, SCR}, ReqSent)
    ensures Transition(Open, Initial) == Go({}, LayerStarted, Starting)
    ensures Transition(Up, Starting) == Do({IRC, SCR}, ReqSent)
    ensures Transition(Rca, ReqSent) == Do({IRC}, AckRcvd)
    ensures Transition(RcrPlus, AckRcvd) == Go({SCA}, LayerUp, Opened)
  {
  }

  /** The peer's acknowledgement of a first request. */
  function AckOf(options: seq<bv8>): Packet {
    Packet(2, 1, options)
  }

  /** A request of the peer, accepted as it is, that sets up PAP or nothing. */
  function RequestFrame(which: Which, pap: bool): Happening {
    Frame(ProtocolOf(which), 4, Packet(1, 0, []), Judgement(Accept, [], None, if pap then Some(true) else None))
  }

  function AckFrame(which: Which, options: seq<bv8>): Happening {
    Frame(ProtocolOf(which), 4 + |options|, AckOf(options), Judgement(Accept, [], None, None))
  }

  /** An automaton whose first request is outstanding, and one for which it has been acknowledged. */
  predicate Asked(cp: Cp, options: seq<bv8>) {
    cp.state == ReqSent && cp.configId == 1 && cp.localOptions == options && cp.refusals.count < cp.refusals.max
  }

  predicate Answered(cp: Cp, options: seq<bv8>) {
    cp.state == AckRcvd && cp.configId == 1 && cp.localOptions == options && cp.refusals.count < cp.refusals.max
  }

  lemma AckAnswers(cp: Cp, options: seq<bv8>, s: Stimulus)
    requires Asked(cp, options) && s.Receive? && s.packet == AckOf(options) && 2 in s.supported
    ensures Next(cp, s).layer == NoSignal && Answered(Next(cp, s).cp, options)
    ensures Cause(cp, s) == (cp, Some(Rca))
  {
    hide Transition, TimersAfter, Transmitted, NewTerminateId;
    FirstEvents();
  }

  lemma RequestOpens(cp: Cp, options: seq<bv8>, s: Stimulus)
    requires Answered(cp, options) && s.Receive? && s.packet.code == 1 && 1 in s.supported && s.verdict == Accept
    ensures Next(cp, s).layer == LayerUp && Next(cp, s).cp.state == Opened
    ensures Next(cp, s).cp.localOptions == options && Next(cp, s).cp.configId == 1
    ensures Cause(cp, s) == (cp, Some(RcrPlus))
  {
    hide Transition, TimersAfter, Transmitted, NewTerminateId, RefusalsAfter;
    FirstEvents();
  }

  /** Everything but the automaton, the pending Terminate-Ack and the wire. */
  predicate SameRest(l: Link, m: Link) {
    && m.phase == l.phase && m.net == l.net && m.chap == l.chap && m.pap == l.pap && m.traffic == l.traffic
  }

  lemma AckStep(l: Link, which: Which, options: seq<bv8>, env: Env)
    requires Asked(CpOf(l, which), options) && if which == LCP then l.phase != Dead else NetPhase(l.phase)
    ensures var m := Step(l, AckFrame(which, options), env);
      && Answered(CpOf(m, which), options)
      && SameRest(l, m)
      && (if which == LCP then m.ipcp == l.ipcp else m.lcp == l.lcp)
  {
    hide Fire, Cause, FramesOf, AcksTermination, Answered, Generate;
    var h := AckFrame(which, options);
    var s := StimulusOf(which, h.packet, h.judgement);
    AckAnswers(CpOf(l, which), options, s);
    FrameIsStimulus(l, which, h.length, h.packet, h.judgement, env);
    QuietEvent(l, which, Rca, h.packet, env);
  }

  /** The peer's request opens LCP: IPCP starts, or PAP does. */
  lemma LcpRequestStep(l: Link, lcpOptions: seq<bv8>, ipcpOptions: seq<bv8>, pap: bool, env: Env)
    requires l.phase == Establishment && Answered(l.lcp, lcpOptions) && l.ipcp == New(false, 100, ipcpOptions)
    requires !l.chap && l.pap.None? && !l.net && (pap ==> env.papStarts)
    ensures var m := Step(l, RequestFrame(LCP, pap), env);
      && m.lcp.state == Opened
      && (pap ==> m.phase == Authentication && m.pap == Some(Pap(1, true, 0)))
      && (!pap ==> m.phase == Network && Asked(m.ipcp, ipcpOptions) && !m.net && !m.chap && m.pap.None?)
  {
    hide Fire, Cause, FramesOf, AcksTermination, Raise, Generate;
    var h := RequestFrame(LCP, pap);
    var s := StimulusOf(LCP, h.packet, h.judgement);
    RequestOpens(l.lcp, lcpOptions, s);
    FrameIsStimulus(l, LCP, h.length, h.packet, h.judgement, env);
    var n := SetAuth(l, s, h.judgement);
    SignalledEvent(n, LCP, RcrPlus, h.packet, env);
    var m := Moved(n, LCP, Fire(l.lcp, RcrPlus, h.packet), env);
    IpcpFirstRequest(EnterPhase(m, Network), ipcpOptions, env);
  }

  lemma IpcpFirstRequest(l: Link, options: seq<bv8>, env: Env)
    requires l.ipcp == New(false, 100, options)
    ensures var m := Raise(Raise(l, IPCP, Open, env), IPCP, Up, env);
      SameRest(l, m) && m.lcp == l.lcp && Asked(m.ipcp, options)
  {
    hide Transition, TimersAfter, Transmitted, NewTerminateId, FramesOf, AcksTermination;
    FirstEvents();
    QuietEvent(l, IPCP, Open, NO_PACKET, env);
    var m := Raise(l, IPCP, Open, env);
    QuietEvent(m, IPCP, Up, NO_PACKET, env);
  }

  lemma IpcpRequestStep(l: Link, options: seq<bv8>, env: Env)
    requires l.phase == Network && Answered(l.ipcp, options) && env.netCreated
    ensures var m := Step(l, RequestFrame(IPCP, false), env);
      && m.phase == LinkUp && m.net
      && m.ipcp.state == Opened && m.ipcp.localOptions == options && m.ipcp.configId == 1
  {
    hide Fire, Cause, FramesOf, AcksTermination, Raise, Generate;
    var h := RequestFrame(IPCP, false);
    var s := StimulusOf(IPCP, h.packet, h.judgement);
    RequestOpens(l.ipcp, options, s);
    FrameIsStimulus(l, IPCP, h.length, h.packet, h.judgement, env);
    SignalledEvent(l, IPCP, RcrPlus, h.packet, env);
  }

  /** Four frames bring up a client. */
  function BringUp(lcpOptions: seq<bv8>, ipcpOptions: seq<bv8>, env: Env): seq<Occurrence> {
    [Occurrence(AckFrame(LCP, lcpOptions), env)] + [Occurrence(RequestFrame(LCP, false), env)]
    + [Occurrence(AckFrame(IPCP, ipcpOptions), env)] + [Occurrence(RequestFrame(IPCP, false), env)]
  }

  lemma LinkUpIsReachable(lcpOptions: seq<bv8>, ipcpOptions: seq<bv8>, env: Env)
    requires env.netCreated
    ensures var l := Start(false, lcpOptions, ipcpOptions, env);
      var m := RunLink(l, BringUp(lcpOptions, ipcpOptions, env));
      && PossibleLinkRun(l, BringUp(lcpOptions, ipcpOptions, env))
      && m.phase == LinkUp && m.net
      && m.ipcp.state == Opened && m.ipcp.localOptions == ipcpOptions && m.ipcp.configId == 1
  {
    hide Start, Step, RunLink, PossibleLinkRun;
    var l := Start(false, lcpOptions, ipcpOptions, env);
    StartIsJustOpened(lcpOptions, ipcpOptions, env);
    NothingYet(l);
    var h1, h2 := Occurrence(AckFrame(LCP, lcpOptions), env), Occurrence(RequestFrame(LCP, false), env);
    var h3, h4 := Occurrence(AckFrame(IPCP, ipcpOptions), env), Occurrence(RequestFrame(IPCP, false), env);
    AckStep(l, LCP, lcpOptions, env);
    RunConcatenated(l, [], h1);
    assert [] + [h1] == [h1];
    LcpRequestStep(RunLink(l, [h1]), lcpOptions, ipcpOptions, false, env);
    RunConcatenated(l, [h1], h2);
    AckStep(RunLink(l, [h1] + [h2]), IPCP, ipcpOptions, env);
    RunConcatenated(l, [h1] + [h2], h3);
    IpcpRequestStep(RunLink(l, [h1] + [h2] + [h3]), ipcpOptions, env);
    RunConcatenated(l, [h1] + [h2] + [h3], h4);
  }

  lemma NothingYet(l: Link)
    ensures PossibleLinkRun(l, []) && RunLink(l, []) == l
  {
  }

  /** A fifth frame, the peer's unexpected Terminate-Ack, leaves phase LinkUp without an interface, and
      an IP packet that arrives then has none to go to. */
  lemma StrayIsReachable(lcpOptions: seq<bv8>, ipcpOptions: seq<bv8>, env: Env, j: Judgement)
    requires env.netCreated
    ensures var l := Start(false, lcpOptions, ipcpOptions, env);
      var down := Occurrence(Frame(IPCP_PROTO, 4, Packet(6, 0, []), j), env);
      var ip := Occurrence(Frame(PPP_IP_PROTO, 20, NO_PACKET, j), env);
      var hs := BringUp(lcpOptions, ipcpOptions, env) + [down];
      && PossibleLinkRun(l, hs + [ip])
      && RunLink(l, hs).phase == LinkUp && RunLink(l, hs).ipcp.state != Opened && !RunLink(l, hs).net
      && RunLink(l, hs + [ip]).traffic.strayed == RunLink(l, hs).traffic.strayed + 1
  {
    hide Start, Step, RunLink, PossibleLinkRun, BringUp;
    var l := Start(false, lcpOptions, ipcpOptions, env);
    var up := BringUp(lcpOptions, ipcpOptions, env);
    var down := Occurrence(Frame(IPCP_PROTO, 4, Packet(6, 0, []), j), env);
    var ip := Occurrence(Frame(PPP_IP_PROTO, 20, NO_PACKET, j), env);
    LinkUpIsReachable(lcpOptions, ipcpOptions, env);
    StartSettled(false, lcpOptions, ipcpOptions, env);
    RunSettled(l, up);
    RunConcatenated(l, up, down);
    LinkUpWithoutIpcp(RunLink(l, up), down.what, env);
    RunSettled(l, up + [down]);
    RunConcatenated(l, up + [down], ip);
    OneStrays(RunLink(l, up + [down]), ip.what, env);
  }

  lemma OneStrays(l: Link, h: Happening, env: Env)
    requires Settled(l) && l.phase == LinkUp && l.ipcp.state != Opened
    requires h.Frame? && h.protocol == PPP_IP_PROTO && h.length >= 4
    ensures !l.net && Step(l, h, env).traffic.strayed == l.traffic.strayed + 1
  {
    hide AuthNotify, Stimulate, Raise, Inv;
  }

  /** A client whose line goes away while PAP waits for a reply is dead with the retry timer running, and
      the timer still sends. */
  lemma PapSendsWhenDead(lcpOptions: seq<bv8>, ipcpOptions: seq<bv8>, env: Env)
    requires env.papStarts
    ensures var l := Start(false, lcpOptions, ipcpOptions, env);
      var hs := [Occurrence(AckFrame(LCP, lcpOptions), env)] + [Occurrence(RequestFrame(LCP, true), env)]
                + [Occurrence(Disconnect, env)];
      var m := RunLink(l, hs);
      && PossibleLinkRun(l, hs + [Occurrence(PapTimeout, env)])
      && m.phase == Dead && m.pap == Some(Pap(1, true, 0))
      && RunLink(l, hs + [Occurrence(PapTimeout, env)]).wire == m.wire + [PapRequest]
  {
    hide Start, Step, RunLink, PossibleLinkRun;
    var l := Start(false, lcpOptions, ipcpOptions, env);
    StartIsJustOpened(lcpOptions, ipcpOptions, env);
    NothingYet(l);
    var h1, h2 := Occurrence(AckFrame(LCP, lcpOptions), env), Occurrence(RequestFrame(LCP, true), env);
    var h3, h4 := Occurrence(Disconnect, env), Occurrence(PapTimeout, env);
    AckStep(l, LCP, lcpOptions, env);
    RunConcatenated(l, [], h1);
    assert [] + [h1] == [h1];
    LcpRequestStep(RunLink(l, [h1]), lcpOptions, ipcpOptions, true, env);
    RunConcatenated(l, [h1], h2);
    LineLost(RunLink(l, [h1] + [h2]), env);
    RunConcatenated(l, [h1] + [h2], h3);
    RunConcatenated(l, [h1] + [h2] + [h3], h4);
    Retry(RunLink(l, [h1] + [h2] + [h3]), env);
  }

  lemma LineLost(l: Link, env: Env)
    requires l.phase == Authentication && l.lcp.state == Opened
    ensures var m := Step(l, Disconnect, env); m.phase == Dead && m.pap == l.pap
  {
    hide Fire, FramesOf, AcksTermination, Raise;
    var m := l.(reason := LinkDead);
    DownStep(m, env);
    CloseStep(Raise(m, LCP, Down, env), env);
  }

  lemma DownStep(l: Link, env: Env)
    requires l.phase == Authentication && l.lcp.state == Opened
    ensures var m := Raise(l, LCP, Down, env); m.lcp.state == Starting && m.pap == l.pap
  {
    hide Transition, TimersAfter, Transmitted, NewConfigId, NewTerminateId, RefusalsAfter, FramesOf, AcksTermination;
    hide Generate;
    TableDown(Opened);
    SignalledEvent(l, LCP, Down, NO_PACKET, env);
  }

  lemma CloseStep(l: Link, env: Env)
    requires l.lcp.state == Starting
    ensures var m := Raise(l, LCP, Close, env); m.phase == Dead && m.pap == l.pap
  {
    hide Transition, TimersAfter, Transmitted, NewConfigId, NewTerminateId, RefusalsAfter, FramesOf, AcksTermination;
    hide Generate;
    TableClose(Starting);
    SignalledEvent(l, LCP, Close, NO_PACKET, env);
  }

  lemma Retry(l: Link, env: Env)
    requires l.pap == Some(Pap(1, true, 0))
    ensures Step(l, PapTimeout, env).wire == l.wire + [PapRequest]
  {
  }
}
