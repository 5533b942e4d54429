/** What each received frame and each other event comes to: which packets authenticate, what goes on record
as the reason, what is rejected and when a Terminate-Ack is waited for.
 */
module PppLinkDispatch {
  import opened Wrappers
  import opened ControlProtocol
  import opened PppLink
  import opened PppLinkInvariants
  import opened PppLinkTrace
  import opened PppLinkRuns

  //
  // Authentication.
  //

  /** A frame that tells of success, or of failure. */
  predicate Succeeds(l: Link, h: Happening) {
    && h.Frame? && h.length >= 4
    && (|| (h.protocol == 0xc023 && l.pap.Some? && h.packet.code == 2)
        || (h.protocol == 0xc223 && l.chap && h.packet.code == 3))
  }

  predicate Fails(l: Link, h: Happening) {
    && h.Frame? && h.length >= 4
    && (|| (h.protocol == 0xc023 && l.pap.Some? && h.packet.code == 3)
        || (h.protocol == 0xc223 && l.chap && h.packet.code == 4))
  }

  /** A frame for PAP or CHAP comes down to success, failure, a response, a rejection, or nothing. */
  lemma AuthFrame(l: Link, h: Happening, env: Env)
    requires Settled(l) && l.lcp.state == Opened && h.Frame? && (h.protocol == 0xc023 || h.protocol == 0xc223)
    ensures var m := Step(l, h, env);
      var l' := if h.protocol == 0xc023 && l.pap.Some? then l.(pap := Some(Replied(l.pap.value))) else l;
      if Succeeds(l, h) then m == AuthNotify(l', true, env)
      else if Fails(l, h) then m == AuthNotify(l', false, env)
      else if (h.protocol == 0xc023 && l.pap.None?) || (h.protocol == 0xc223 && !l.chap)
      then m == l.(wire := l.wire + [ProtocolReject])
      else if h.protocol == 0xc223 && h.length >= 4 && h.packet.code == 1 then m == l.(wire := l.wire + [ChapResponse])
      else m == l
  {
    hide AuthNotify, Inv, Stimulate;
    HandledIff(l, h.protocol);
  }

  /** In phase Authentication the link moves on to Network exactly on a PAP packet with code 2 or a CHAP
      packet with code 3, of four octets at least, for the protocol that has been set up. */
  lemma AuthenticatedIff(l: Link, h: Happening, env: Env)
    requires Settled(l) && CanHappen(l, h) && l.phase == Authentication
    ensures Step(l, h, env).phase == Network <==> Succeeds(l, h)
  {
    hide AuthNotify, Raise, Stimulate, Inv, Cause;
    match h {
      case Frame(protocol, length, packet, j) =>
        if protocol == 0xc023 || protocol == 0xc223 {
          AuthFrame(l, h, env);
          var l' := if protocol == 0xc023 && l.pap.Some? then l.(pap := Some(Replied(l.pap.value))) else l;
          Authenticated(l', Succeeds(l, h), env);
        } else if protocol == 0xc021 && length >= 4 {
          var s := Stimulus.Receive(LCP_CODES, packet, j.verdict, j.options);
          LcpLeavesOpened(SetAuth(l, s, j), s, env);
        }
      case Expires(which, timer) => ExpiryMeansWaiting(l, which, timer);
      case PapTimeout => Authenticated(l.(pap := Some(GivenUp(l.pap.value))), false, env);
      case Shutdown => LcpCloses(l.(reason := LocalClose), env);
      case Disconnect => DisconnectSettled(l, env);
      case _ =>
    }
  }

  /** A packet for an Opened LCP leaves the phase or ends in Termination. */
  lemma LcpLeavesOpened(l: Link, s: Stimulus, env: Env)
    requires Settled(l) && l.lcp.state == Opened && s.Receive?
    ensures var m := Stimulate(l, LCP, s, env); m.phase == l.phase || m.phase == Termination
    ensures var m := Stimulate(l, LCP, s, env); m.lcp.state == Opened ==> m.phase == l.phase
  {
    hide Transition, TimersAfter, Transmitted, NewConfigId, NewTerminateId, RefusalsAfter, FramesOf, AcksTermination;
    hide Cause, LcpUpNotify, LcpDownNotify, Inv, Ready;
    CauseReady(l.lcp, s);
    var (c, e) := Cause(l.lcp, s);
    if e.Some? {
      TableFinishes(e.value, Opened);
      TableAlternates(e.value, Opened);
      ReadyFire(c, e.value, s.packet);
      var f := Fire(c, e.value, s.packet);
      var m := Moved(l.(lcp := c), LCP, f, env);
      if f.layer == LayerDown {
        OptionsKeepInv(f.cp, env.lcpOptions);
        LcpGoesDown(m.(lcp := m.lcp.(localOptions := env.lcpOptions)), env);
      }
    }
  }

  /** A PAP packet with code 3 or a CHAP packet with code 4 ends the link, at any time while LCP is Opened,
      and authentication is on record as the reason. */
  lemma AuthenticationFails(l: Link, h: Happening, env: Env)
    requires Settled(l) && l.lcp.state == Opened && Fails(l, h)
    ensures Step(l, h, env).phase == Termination && Step(l, h, env).reason == AuthFail
  {
    hide AuthNotify, Inv;
    AuthFrame(l, h, env);
    var l' := if h.protocol == 0xc023 && l.pap.Some? then l.(pap := Some(Replied(l.pap.value))) else l;
    Authenticated(l', false, env);
    AuthReason(l', false, env);
  }

  /** Every other packet for a protocol that has been set up changes nothing, except that a challenge of
      CHAP is answered. */
  lemma OtherAuthPackets(l: Link, h: Happening, env: Env)
    requires Settled(l) && l.lcp.state == Opened && h.Frame? && !Succeeds(l, h) && !Fails(l, h)
    requires (h.protocol == 0xc023 && l.pap.Some?) || (h.protocol == 0xc223 && l.chap)
    ensures Step(l, h, env) ==
      if h.protocol == 0xc223 && h.length >= 4 && h.packet.code == 1 then l.(wire := l.wire + [ChapResponse]) else l
  {
    hide Step, Settled;
    AuthFrame(l, h, env);
  }

  /** Where LCP that comes up leads: with CHAP set up to phase Authentication, with PAP alone to the same and
      a request on the wire, and with neither to phase Network. */
  predicate Opens(l: Link, m: Link) {
    && m.phase == (if m.chap || m.pap.Some? then Authentication else Network)
    && (!m.chap && m.pap.Some? ==> l.wire < m.wire && m.wire[|m.wire| - 1] == PapRequest)
  }

  lemma UpOpens(l: Link, env: Env)
    requires l.lcp.state == Opened && LcpUpNotify(l, env).lcp.state == Opened
    ensures Opens(l, LcpUpNotify(l, env))
  {
    hide AuthNotify;
    UpTracks(l, env);
    if !l.chap && l.pap.Some? && !env.papStarts { FailedCloses(l, env); }
    if !l.chap && l.pap.None? { AuthNetwork(l, env); }
  }

  lemma FailedCloses(l: Link, env: Env)
    requires l.lcp.state == Opened
    ensures AuthNotify(l, false, env).lcp.state != Opened
  {
    hide Raise;
    CloseState(l.(reason := AuthFail), env);
  }

  lemma AuthNetwork(l: Link, env: Env)
    ensures AuthNotify(l, true, env).phase == Network
  {
    hide Raise;
    var m := EnterPhase(l, Network);
    QuietPhase(m, Open, env);
    QuietPhase(Raise(m, IPCP, Open, env), Up, env);
  }

  lemma QuietPhase(l: Link, e: Event, env: Env)
    requires e == Open || e == Up
    ensures Raise(l, IPCP, e, env).phase == l.phase
  {
    hide Transition, TimersAfter, Transmitted, NewConfigId, NewTerminateId, RefusalsAfter, FramesOf, AcksTermination;
    hide Generate;
    TableOpen(l.ipcp.state);
    TableUp(l.ipcp.state);
    QuietEvent(l, IPCP, e, NO_PACKET, env);
  }

  lemma StimulateOpens(l: Link, s: Stimulus, env: Env)
    requires s.Receive? && l.lcp.state != Opened && Stimulate(l, LCP, s, env).lcp.state == Opened
    ensures Opens(l, Stimulate(l, LCP, s, env))
  {
    hide Transition, TimersAfter, Transmitted, NewConfigId, NewTerminateId, RefusalsAfter, FramesOf, AcksTermination;
    hide Cause, LcpUpNotify, LcpDownNotify, Generate, Opens;
    CauseKeepsState(l.lcp, s);
    var (c, e) := Cause(l.lcp, s);
    if e.Some? {
      TableAlternates(e.value, c.state);
      var f := Fire(c, e.value, s.packet);
      var n := l.(lcp := c);
      var m := Moved(n, LCP, f, env);
      SignalledEvent(n, LCP, e.value, s.packet, env);
      if f.layer == LayerUp {
        UpOpens(m, env);
        OpensFrom(l, m, LcpUpNotify(m, env));
      } else if f.layer == LayerDown {
        assert false;
      } else if f.layer != LayerFinished {
        QuietEvent(n, LCP, e.value, s.packet, env);
      }
    }
  }

  lemma OpensFrom(l: Link, m: Link, n: Link)
    requires l.wire <= m.wire && Opens(m, n)
    ensures Opens(l, n)
  {
  }

  /** The link as an accepted request leaves it to authenticate. */
  function WithAuth(l: Link, h: Happening): Link
    requires h.Frame?
  {
    if h.packet.code == 1 && h.judgement.verdict.Accept? && l.lcp.refusals.count < l.lcp.refusals.max
    then l.(chap := h.judgement.chap.UnwrapOr(l.chap), pap := NewPap(l.pap, h.judgement.pap))
    else l
  }

  lemma SetAuthIs(l: Link, h: Happening)
    requires h.Frame?
    ensures SetAuth(l, Stimulus.Receive(LCP_CODES, h.packet, h.judgement.verdict, h.judgement.options), h.judgement)
      == WithAuth(l, h)
  {
  }

  lemma WithAuthKeeps(l: Link, h: Happening)
    requires h.Frame?
    ensures var m := WithAuth(l, h);
      m.lcp == l.lcp && m.phase == l.phase && m.reason == l.reason && m.wire == l.wire && m.staPending == l.staPending
  {
  }

  /** An LCP frame that opens LCP leads where the authentication set up by then leads; and what is set up is
      what an accepted request asks for, or what was. */
  lemma LcpFrameOpens(l: Link, h: Happening, env: Env)
    requires Settled(l) && l.phase != Dead && h.Frame? && h.protocol == 0xc021 && h.length >= 4
    ensures var m := Step(l, h, env);
      && m.chap == WithAuth(l, h).chap && m.pap.Some? == WithAuth(l, h).pap.Some?
      && (l.lcp.state != Opened && m.lcp.state == Opened ==> Opens(l, m))
  {
    hide Stimulate, Inv, Cause, SetAuth, WithAuth, Opens;
    var s := Stimulus.Receive(LCP_CODES, h.packet, h.judgement.verdict, h.judgement.options);
    SetAuthIs(l, h);
    WithAuthKeeps(l, h);
    HandledIff(l, h.protocol);
    var n := WithAuth(l, h);
    StimulateTracks(n, LCP, s, env);
    if l.lcp.state != Opened && Step(l, h, env).lcp.state == Opened {
      StimulateOpens(n, s, env);
      OpensFrom(l, n, Step(l, h, env));
    }
  }

  //
  // The retry timer of PAP.
  //

  lemma IpcpKeepsPap(l: Link, e: Event, env: Env)
    requires e == Open || e == Up || e == Down
    ensures Raise(l, IPCP, e, env).pap == l.pap
  {
    hide Transition, TimersAfter, Transmitted, NewConfigId, NewTerminateId, RefusalsAfter, FramesOf, AcksTermination;
    TableOpen(l.ipcp.state);
    TableUp(l.ipcp.state);
    TableDown(l.ipcp.state);
  }

  lemma CloseKeepsPap(l: Link, env: Env)
    ensures Raise(l, LCP, Close, env).pap == l.pap
  {
    hide Transition, TimersAfter, Transmitted, NewConfigId, NewTerminateId, RefusalsAfter, FramesOf, AcksTermination;
    hide Generate, Raise;
    TableClose(l.lcp.state);
    SignalledEvent(l, LCP, Close, NO_PACKET, env);
    RaiseIs(l, LCP, Close, env);
    var f := Fire(l.lcp, Close, NO_PACKET);
    var m := Moved(l, LCP, f, env);
    if f.layer == LayerDown {
      IpcpKeepsPap(m.(lcp := m.lcp.(localOptions := env.lcpOptions)), Down, env);
    } else if f.layer != LayerFinished {
      QuietEvent(l, LCP, Close, NO_PACKET, env);
    }
  }

  lemma RaiseIs(l: Link, which: Which, e: Event, env: Env)
    ensures Raise(l, which, e, env) == Generate(l, which, e, NO_PACKET, env)
  {
    hide Generate;
  }

  lemma AuthKeepsPap(l: Link, success: bool, env: Env)
    ensures AuthNotify(l, success, env).pap == l.pap
  {
    hide Raise;
    if success {
      var m := EnterPhase(l, Network);
      IpcpKeepsPap(m, Open, env);
      IpcpKeepsPap(Raise(m, IPCP, Open, env), Up, env);
    } else {
      CloseKeepsPap(l.(reason := AuthFail), env);
    }
  }

  /** A reply, good or bad, stops the timer PAP knows of, and it alone. */
  lemma ReplyStopsTimer(l: Link, h: Happening, env: Env)
    requires Settled(l) && l.lcp.state == Opened && h.Frame? && h.protocol == 0xc023 && (Succeeds(l, h) || Fails(l, h))
    requires l.pap.value.known && l.pap.value.timers > 0
    ensures Step(l, h, env).pap == Some(Pap(l.pap.value.timers - 1, false, l.pap.value.retries))
  {
    hide AuthNotify, Step, Inv;
    AuthFrame(l, h, env);
    AuthKeepsPap(l.(pap := Some(Replied(l.pap.value))), Succeeds(l, h), env);
  }

  /** The first two expiries of a timer send the request again; the third stops it and ends authentication. */
  lemma ThirdExpiryEnds(l: Link, env: Env)
    requires Settled(l) && CanHappen(l, PapTimeout)
    ensures var pap := l.pap.value;
      var m := Step(l, PapTimeout, env);
      if pap.retries < 2 then m == l.(pap := Some(pap.(retries := pap.retries + 1)), wire := l.wire + [PapRequest])
      else
        && m.pap == Some(Pap(pap.timers - 1, false, pap.retries + 1))
        && m.reason == AuthFail
        && (l.lcp.state == Opened ==> m.phase == Termination)
  {
    hide AuthNotify, Inv;
    var n := l.(pap := Some(GivenUp(l.pap.value)));
    Authenticated(n, false, env);
    AuthReason(n, false, env);
    AuthKeepsPap(n, false, env);
  }

  //
  // The reason on record.
  //

  /** A reason that is on record stays when LCP goes down; without one it is the peer that closed. */
  function OnDown(r: Reason): Reason {
    if r == Unknown then PeerClosed else r
  }

  lemma IpcpDownReason(l: Link, env: Env)
    ensures Raise(l, IPCP, Down, env).reason == l.reason
  {
    hide Transition, TimersAfter, Transmitted, NewConfigId, NewTerminateId, RefusalsAfter, FramesOf, AcksTermination;
    TableDown(l.ipcp.state);
  }

  lemma DownReason(l: Link, env: Env)
    ensures LcpDownNotify(l, env).reason == OnDown(l.reason)
  {
    hide Raise;
    IpcpDownReason(l, env);
  }

  lemma CloseReason(l: Link, env: Env)
    ensures Raise(l, LCP, Close, env).reason == if l.lcp.state == Opened then OnDown(l.reason) else l.reason
  {
    hide Transition, TimersAfter, Transmitted, NewConfigId, NewTerminateId, RefusalsAfter, FramesOf, AcksTermination;
    hide Generate, LcpDownNotify;
    TableClose(l.lcp.state);
    SignalledEvent(l, LCP, Close, NO_PACKET, env);
    var f := Fire(l.lcp, Close, NO_PACKET);
    var m := Moved(l, LCP, f, env);
    if f.layer == LayerDown {
      DownReason(m.(lcp := m.lcp.(localOptions := env.lcpOptions)), env);
    } else if f.layer != LayerFinished {
      QuietEvent(l, LCP, Close, NO_PACKET, env);
    }
  }

  lemma LineReason(l: Link, env: Env)
    requires l.reason != Unknown
    ensures Raise(l, LCP, Down, env).reason == l.reason
  {
    hide Transition, TimersAfter, Transmitted, NewConfigId, NewTerminateId, RefusalsAfter, FramesOf, AcksTermination;
    hide Generate, LcpDownNotify;
    TableDown(l.lcp.state);
    SignalledEvent(l, LCP, Down, NO_PACKET, env);
    var f := Fire(l.lcp, Down, NO_PACKET);
    var m := Moved(l, LCP, f, env);
    if f.layer == LayerDown {
      DownReason(m.(lcp := m.lcp.(localOptions := env.lcpOptions)), env);
    } else {
      QuietEvent(l, LCP, Down, NO_PACKET, env);
    }
  }

  lemma QuietReason(l: Link, e: Event, env: Env)
    requires e == Open || e == Up
    ensures Raise(l, IPCP, e, env).reason == l.reason
  {
    hide Transition, TimersAfter, Transmitted, NewConfigId, NewTerminateId, RefusalsAfter, FramesOf, AcksTermination;
    hide Generate;
    TableOpen(l.ipcp.state);
    TableUp(l.ipcp.state);
    QuietEvent(l, IPCP, e, NO_PACKET, env);
  }

  lemma AuthReason(l: Link, success: bool, env: Env)
    ensures AuthNotify(l, success, env).reason == if success then l.reason else AuthFail
  {
    hide Raise;
    if success {
      var m := EnterPhase(l, Network);
      QuietReason(m, Open, env);
      QuietReason(Raise(m, IPCP, Open, env), Up, env);
    } else {
      CloseReason(l.(reason := AuthFail), env);
    }
  }

  /** What a packet or an expiry of one automaton puts on record: LCP that opens and cannot start PAP failed
      to authenticate, LCP that goes down without a reason was closed by the peer, IPCP that opens without
      an interface lacks the network, and IPCP that gives up in phase Network failed. */
  function Blamed(l: Link, which: Which, f: Fired, env: Env): Reason {
    match which
    case LCP => (
      match f.layer
      case LayerUp => if !l.chap && l.pap.Some? && !env.papStarts then AuthFail else l.reason
      case LayerDown => if l.reason == Unknown then PeerClosed else l.reason
      case _ => l.reason)
    case IPCP => (
      match f.layer
      case LayerUp => if env.netCreated then l.reason else NetFail
      case LayerFinished => if l.phase == Network then IpcpFail else l.reason
      case _ => l.reason)
  }

  lemma UpReason(l: Link, env: Env)
    ensures LcpUpNotify(l, env).reason ==
      if !l.chap && l.pap.Some? && !env.papStarts then AuthFail else l.reason
  {
    hide AuthNotify;
    AuthReason(l, l.pap.None?, env);
  }

  lemma IpcpUpReason(l: Link, env: Env)
    ensures IpcpUpNotify(l, env).reason == if env.netCreated then l.reason else NetFail
  {
    hide Raise;
    CloseReason(l.(net := false, reason := NetFail), env);
  }

  lemma FinishedReason(l: Link, env: Env)
    requires l.ipcp.state == Closed || l.ipcp.state == Stopped
    ensures IpcpFinishedNotify(l, env).reason == if l.phase == Network then IpcpFail else l.reason
  {
    hide Raise;
    var m := l.(reason := IpcpFail);
    IpcpCloseReason(m, env);
    CloseReason(Raise(m, IPCP, Close, env), env);
  }

  lemma IpcpCloseReason(l: Link, env: Env)
    requires l.ipcp.state == Closed || l.ipcp.state == Stopped
    ensures Raise(l, IPCP, Close, env).reason == l.reason
  {
    hide Transition, TimersAfter, Transmitted, NewConfigId, NewTerminateId, RefusalsAfter, FramesOf, AcksTermination;
    hide Generate;
    TableClose(l.ipcp.state);
    QuietEvent(l, IPCP, Close, NO_PACKET, env);
  }

  lemma StimulateReason(l: Link, which: Which, s: Stimulus, env: Env)
    requires !s.Signal? && !Below(CpOf(l, which).state)
    ensures Stimulate(l, which, s, env).reason == Blamed(l, which, Next(CpOf(l, which), s), env)
  {
    hide Transition, TimersAfter, Transmitted, NewConfigId, NewTerminateId, RefusalsAfter, FramesOf, AcksTermination;
    hide Cause, LcpUpNotify, LcpDownNotify, IpcpUpNotify, IpcpFinishedNotify;
    CauseKeepsState(CpOf(l, which), s);
    var (c, e) := Cause(CpOf(l, which), s);
    if e.Some? {
      var p := if s.Receive? then s.packet else NO_PACKET;
      TableFinishes(e.value, c.state);
      var f := Fire(c, e.value, p);
      var m := Moved(if which == LCP then l.(lcp := c) else l.(ipcp := c), which, f, env);
      if which == LCP && f.layer == LayerUp { UpReason(m, env); }
      if which == LCP && f.layer == LayerDown { DownReason(m.(lcp := m.lcp.(localOptions := env.lcpOptions)), env); }
      if which == IPCP && f.layer == LayerUp { IpcpUpReason(m, env); }
      if which == IPCP && f.layer == LayerFinished { FinishedReason(m, env); }
    }
  }

  lemma CauseKeepsState(cp: Cp, s: Stimulus)
    ensures Cause(cp, s).0.state == cp.state
  {
  }

  /** What any event puts on record. */
  function Blame(l: Link, h: Happening, env: Env): Reason {
    match h
    case Shutdown => if l.phase == Dead || l.phase == Termination then l.reason else LocalClose
    case Disconnect => if l.phase == Dead then l.reason else LinkDead
    case PapTimeout => if l.pap.Some? && l.pap.value.retries >= 2 then AuthFail else l.reason
    case Expires(which, timer) => Blamed(l, which, Next(CpOf(l, which), timer), env)
    case Frame(protocol, length, packet, j) =>
      if length < 4 || l.phase == Dead then l.reason
      else if protocol == 0xc021 then
        Blamed(WithAuth(l, h), LCP,
               Next(l.lcp, Stimulus.Receive({1, 2, 3, 4, 5, 6, 7, 8, 9, 10, 11}, packet, j.verdict, j.options)), env)
      else if protocol == 0x8021 && NetPhase(l.phase) then
        Blamed(l, IPCP, Next(l.ipcp, Stimulus.Receive({1, 2, 3, 4, 5, 6, 7}, packet, j.verdict, j.options)), env)
      else if l.lcp.state == Opened && Fails(l, h) then AuthFail
      else l.reason
    case _ => l.reason
  }

  lemma FrameReason(l: Link, h: Happening, env: Env)
    requires Settled(l) && h.Frame?
    ensures Step(l, h, env).reason == Blame(l, h, env)
  {
    hide AuthNotify, Stimulate, Inv, Next, Cause, SetAuth, WithAuth, Blamed;
    HandledIff(l, h.protocol);
    if (h.protocol == 0xc023 || h.protocol == 0xc223) && l.lcp.state == Opened {
      AuthFrame(l, h, env);
      var l' := if h.protocol == 0xc023 && l.pap.Some? then l.(pap := Some(Replied(l.pap.value))) else l;
      AuthReason(l', Succeeds(l, h), env);
    } else if h.protocol == 0xc021 && h.length >= 4 && l.phase != Dead {
      var s := Stimulus.Receive(LCP_CODES, h.packet, h.judgement.verdict, h.judgement.options);
      SetAuthIs(l, h);
      WithAuthKeeps(l, h);
      if Below(l.lcp.state) {
        InitialReason(WithAuth(l, h), s, env);
      } else {
        StimulateReason(WithAuth(l, h), LCP, s, env);
      }
    } else if h.protocol == 0x8021 && h.length >= 4 && NetPhase(l.phase) {
      var s := Stimulus.Receive(IPCP_CODES, h.packet, h.judgement.verdict, h.judgement.options);
      StimulateReason(l, IPCP, s, env);
    }
  }

  /** In Initial a packet is an illegal event. */
  lemma InitialReason(l: Link, s: Stimulus, env: Env)
    requires s.Receive? && l.lcp.state == Initial
    ensures Stimulate(l, LCP, s, env).reason == Blamed(l, LCP, Next(l.lcp, s), env)
  {
    hide TimersAfter, Transmitted, NewConfigId, NewTerminateId, RefusalsAfter, FramesOf, AcksTermination, Classify;
    ClassifyKeeps(l.lcp, s);
    var (c, e) := Cause(l.lcp, s);
    if e.Some? {
      PacketInInitial(l.lcp, s);
      QuietEvent(l.(lcp := c), LCP, e.value, s.packet, env);
    }
  }

  /** The reason on record after every event that can happen, whatever its cascade. */
  lemma ReasonIs(l: Link, h: Happening, env: Env)
    requires Settled(l) && CanHappen(l, h)
    ensures Step(l, h, env).reason == Blame(l, h, env)
  {
    hide AuthNotify, Raise, Stimulate, Inv, ReceiveFrame, Next, Blamed, NewPap;
    match h {
      case Frame(_, _, _, _) => FrameReason(l, h, env);
      case Expires(which, timer) =>
        ExpiryMeansWaiting(l, which, timer);
        StimulateReason(l, which, timer, env);
      case PapTimeout => AuthReason(l.(pap := Some(GivenUp(l.pap.value))), false, env);
      case Shutdown => CloseReason(l.(reason := LocalClose), env);
      case Disconnect =>
        var m := l.(reason := LinkDead);
        LineReason(m, env);
        CloseReason(Raise(m, LCP, Down, env), env);
      case _ =>
    }
  }

  //
  // The start, and codes that are not supported.
  //

  /** A client that has been opened has sent its first Configure-Request and waits; a server that listens
      has sent nothing, and its LCP is Stopped. LCP refuses five times and IPCP a hundred. */
  lemma StartIs(server: bool, lcpOptions: seq<bv8>, ipcpOptions: seq<bv8>, env: Env)
    ensures var l := Start(server, lcpOptions, ipcpOptions, env);
      && l.phase == Establishment
      && l.lcp.state == (if server then Stopped else ReqSent)
      && l.wire == (if server then [] else [LcpFrame(ConfigureRequest(1, lcpOptions))])
      && l.ipcp.state == Initial && l.ipcp.localOptions == ipcpOptions
      && l.lcp.refusals.max == 5 && l.ipcp.refusals.max == 100
      && !l.chap && l.pap.None? && !l.net && !l.staPending && l.idles == 0 && l.notified == 0 && l.reason == Unknown
  {
    hide Transition, TimersAfter, NewTerminateId, AcksTermination;
    if !server {
      var l := NewLink(server, lcpOptions, ipcpOptions);
      TableStart();
      QuietEvent(l, LCP, Up, NO_PACKET, env);
      var m := Raise(l, LCP, Up, env);
      assert m.lcp.state == Closed && m.wire == [];
      QuietEvent(m, LCP, Open, NO_PACKET, env);
      var f := Fire(m.lcp, Open, NO_PACKET);
      assert f.sent == [ConfigureRequest(1, lcpOptions)];
      assert FramesOf(LCP, f.sent) == [LcpFrame(ConfigureRequest(1, lcpOptions))];
      NoAck(f.sent);
      NoAck([]);
    }
  }

  lemma NoAck(sent: seq<Sent>)
    requires forall k :: 0 <= k < |sent| ==> sent[k].ConfigureRequest?
    ensures !AcksTermination(sent)
  {
  }

  lemma TableStart()
    ensures Transition(Up, Initial) == To(Closed) && Transition(Open, Closed) == Do({IRC, SCR}, ReqSent)
  {
  }

  /** A code other than 1 to 11 for LCP, or 1 to 7 for IPCP, is rejected with the packet, and nothing else
      happens. */
  lemma UnknownCode(l: Link, h: Happening, env: Env)
    requires Settled(l) && h.Frame? && h.length >= 4
    requires || (h.protocol == 0xc021 && l.phase != Dead && l.lcp.state != Initial && !(1 <= h.packet.code <= 11))
      || (h.protocol == 0x8021 && NetPhase(l.phase) && !(1 <= h.packet.code <= 7))
    ensures Step(l, h, env).wire == l.wire
      + [if h.protocol == 0xc021 then LcpFrame(CodeReject(h.packet)) else IpcpFrame(CodeReject(h.packet))]
    ensures Step(l, h, env).phase == l.phase
    ensures Step(l, h, env).lcp == l.lcp && Step(l, h, env).ipcp == l.ipcp
  {
    hide Inv, Generate, Fire, Cause, SetAuth, AcksTermination;
    HandledIff(l, h.protocol);
    var which := if h.protocol == 0xc021 then LCP else IPCP;
    var s := Stimulus.Receive(if which == LCP then LCP_CODES else IPCP_CODES, h.packet, h.judgement.verdict,
                              h.judgement.options);
    UnknownCause(CpOf(l, which), s);
    UnknownKeepsAuth(l, s, h.judgement);
    RejectIsQuiet(CpOf(l, which), h.packet);
    QuietEvent(l, which, Ruc, h.packet, env);
    var f := Fire(CpOf(l, which), Ruc, h.packet);
    assert FramesOf(which, f.sent) == [if which == LCP then LcpFrame(f.sent[0]) else IpcpFrame(f.sent[0])];
  }

  lemma UnknownCause(cp: Cp, s: Stimulus)
    requires s.Receive? && s.packet.code !in s.supported
    ensures Cause(cp, s) == (cp, Some(Ruc))
  {
  }

  lemma UnknownKeepsAuth(l: Link, s: Stimulus, j: Judgement)
    requires s.Receive? && s.packet.code !in s.supported
    ensures SetAuth(l, s, j) == l
  {
  }

  lemma RejectIsQuiet(cp: Cp, p: Packet)
    requires cp.state != Initial && cp.state != Starting && Inv(cp)
    ensures Fire(cp, Ruc, p) == Fired(cp, [CodeReject(p)], NoSignal)
  {
  }

  //
  // The wire.
  //

  /** A frame for PAP or CHAP that has not been set up while LCP is Opened, or one of an unknown protocol in
      phase LinkUp. */
  predicate Rejected(l: Link, h: Happening) {
    && h.Frame?
    && match h.protocol
       case 0xc023 => l.lcp.state == Opened && l.pap.None?
       case 0xc223 => l.lcp.state == Opened && !l.chap
       case 0xc021 => false
       case 0x8021 => false
       case 0x0021 => false
       case _ => l.phase == LinkUp
  }

  /** A Protocol-Reject is sent exactly on such a frame, and then nothing else happens; and a step leaves the
      link waiting for a Terminate-Ack to be written exactly if it was and this is not the end of the
      wait, or one of LCP's is queued in it. */
  lemma StepTracks(l: Link, h: Happening, env: Env)
    requires Settled(l) && CanHappen(l, h)
    ensures var m := Step(l, h, env);
      && l.wire <= m.wire
      && (Rejected(l, h) ==> m == l.(wire := l.wire + [ProtocolReject]))
      && (!Rejected(l, h) ==> ProtocolReject !in m.wire[|l.wire|..])
      && m.staPending == ((h != WriteDone && l.staPending) || (env.sendOk && HasTerminateAck(m.wire[|l.wire|..])))
  {
    hide AuthNotify, Raise, Stimulate, Inv, ReceiveFrame, Tracks, HasTerminateAck;
    match h {
      case Frame(_, _, _, _) => FrameTracks(l, h, env);
      case Expires(which, timer) =>
        StimulateTracks(l, which, timer, env);
        TracksMeans(l, Step(l, h, env), env);
      case PapTimeout =>
        var m := l.(pap := Some(GivenUp(l.pap.value)));
        if LastRetry(l.pap.value) {
          AuthTracks(m, false, env);
          TracksMeans(m, Step(l, h, env), env);
        } else {
          TracksPapRequest(l, Step(l, h, env), env);
          TracksMeans(l, Step(l, h, env), env);
        }
      case Shutdown =>
        var m := l.(reason := LocalClose);
        RaiseTracks(m, LCP, Close, env);
        TracksMeans(m, Raise(m, LCP, Close, env), env);
        NothingAdded(l, env);
      case Disconnect =>
        var m := l.(reason := LinkDead);
        RaiseTracks(m, LCP, Down, env);
        RaiseTracks(Raise(m, LCP, Down, env), LCP, Close, env);
        TracksThen(m, Raise(m, LCP, Down, env), Raise(Raise(m, LCP, Down, env), LCP, Close, env), env);
        TracksMeans(m, Raise(Raise(m, LCP, Down, env), LCP, Close, env), env);
        NothingAdded(l, env);
      case _ => NothingAdded(l, env);
    }
  }

  lemma NothingAdded(l: Link, env: Env)
    ensures l.wire[|l.wire|..] == [] && !HasTerminateAck([])
  {
  }

  lemma TracksMeans(l: Link, m: Link, env: Env)
    requires Tracks(l, m, env)
    ensures l.wire <= m.wire && ProtocolReject !in m.wire[|l.wire|..]
    ensures m.staPending == (l.staPending || (env.sendOk && HasTerminateAck(m.wire[|l.wire|..])))
  {
  }

  lemma FrameTracks(l: Link, h: Happening, env: Env)
    requires Settled(l) && h.Frame?
    ensures var m := Step(l, h, env);
      && l.wire <= m.wire
      && (Rejected(l, h) ==> m == l.(wire := l.wire + [ProtocolReject]))
      && (!Rejected(l, h) ==> ProtocolReject !in m.wire[|l.wire|..])
      && m.staPending == (l.staPending || (env.sendOk && HasTerminateAck(m.wire[|l.wire|..])))
  {
    hide AuthNotify, Stimulate, Inv, Cause, SetAuth, Tracks, HasTerminateAck;
    HandledIff(l, h.protocol);
    NothingAdded(l, env);
    OneAdded(l);
    if (h.protocol == 0xc023 || h.protocol == 0xc223) && l.lcp.state == Opened {
      AuthFrame(l, h, env);
      var l' := if h.protocol == 0xc023 && l.pap.Some? then l.(pap := Some(Replied(l.pap.value))) else l;
      AuthTracks(l', Succeeds(l, h), env);
      TracksMeans(l', AuthNotify(l', Succeeds(l, h), env), env);
    } else if h.protocol == 0xc021 && h.length >= 4 && l.phase != Dead {
      var s := Stimulus.Receive(LCP_CODES, h.packet, h.judgement.verdict, h.judgement.options);
      SetAuthIs(l, h);
      WithAuthKeeps(l, h);
      StimulateTracks(WithAuth(l, h), LCP, s, env);
      TracksMeans(WithAuth(l, h), Step(l, h, env), env);
    } else if h.protocol == 0x8021 && h.length >= 4 && NetPhase(l.phase) {
      var s := Stimulus.Receive(IPCP_CODES, h.packet, h.judgement.verdict, h.judgement.options);
      StimulateTracks(l, IPCP, s, env);
      TracksMeans(l, Step(l, h, env), env);
    }
  }

  lemma OneAdded(l: Link)
    ensures (l.wire + [ProtocolReject])[|l.wire|..] == [ProtocolReject]
    ensures (l.wire + [ChapResponse])[|l.wire|..] == [ChapResponse]
    ensures !HasTerminateAck([ProtocolReject]) && !HasTerminateAck([ChapResponse])
  {
  }
}
