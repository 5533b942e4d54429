/** The link of `gatppp.c`: LCP, IPCP, authentication and the phases of section 3 of RFC 1661. The
signals of one automaton raise events in the other, so that one external event may run a cascade
of nested events before it ends.
 */
module PppLink {
  import opened ControlProtocol
  import opened Wrappers

  datatype Phase = Dead | Establishment | Authentication | Network | LinkUp | Termination

  datatype Reason = Unknown | AuthFail | IpcpFail | NetFail | PeerClosed | LinkDead | LocalClose

  /** Everything given to the framing layer. */
  datatype Frame = LcpFrame(sent: Sent) | IpcpFrame(sent: Sent) | PapRequest | ChapResponse | ProtocolReject

  /** PAP: how many of its retry timers are running, whether the last one started is still known to
      it, and the retries since. */
  datatype Pap = Pap(timers: nat, known: bool, retries: nat)

  const PAP_MAX_RETRY: nat := 3

  /** IP packets handed to the interface, and those handed to an interface that does not exist. */
  datatype Traffic = Traffic(delivered: nat, strayed: nat)

  /** The link. `interfaces` counts the network interfaces that exist, `idles` the pending idle
      calls of `ppp_dead`, and `notified` the calls of the disconnect function so far. */
  datatype Link = Link(
    phase: Phase,
    lcp: Cp,
    ipcp: Cp,
    net: bool,
    interfaces: int,
    chap: bool,
    pap: Option<Pap>,
    staPending: bool,
    idles: nat,
    notified: nat,
    reason: Reason,
    traffic: Traffic,
    wire: seq<Frame>)

  /** What the rest of the system answers during one external event: whether a Terminate-Ack is
      queued, whether PAP can start, whether an interface can be created, and the options the two
      protocols return to when they go down. */
  datatype Env = Env(sendOk: bool, papStarts: bool, netCreated: bool, lcpOptions: seq<bv8>, ipcpOptions: seq<bv8>)

  datatype Which = LCP | IPCP

  function EnterPhase(l: Link, phase: Phase): Link {
    l.(phase := phase, idles := if phase == Dead && !l.staPending then l.idles + 1 else l.idles)
  }

  //
  // Notifications, and the events they raise.
  //

  function FramesOf(which: Which, sent: seq<Sent>): (frames: seq<Frame>)
    ensures |frames| == |sent|
    ensures forall k :: 0 <= k < |sent| ==> frames[k] == if which == LCP then LcpFrame(sent[k]) else IpcpFrame(sent[k])
  {
    seq(|sent|, k requires 0 <= k < |sent| => if which == LCP then LcpFrame(sent[k]) else IpcpFrame(sent[k]))
  }

  predicate AcksTermination(sent: seq<Sent>) {
    exists k :: 0 <= k < |sent| && sent[k].TerminateAck?
  }

  /** The automaton's own part of an event. */
  function Moved(l: Link, which: Which, f: Fired, env: Env): Link {
    var m := l.(wire := l.wire + FramesOf(which, f.sent));
    match which
    case LCP => m.(lcp := f.cp, staPending := l.staPending || (env.sendOk && AcksTermination(f.sent)))
    case IPCP => m.(ipcp := f.cp)
  }

  function CpOf(l: Link, which: Which): Cp {
    match which
    case LCP => l.lcp
    case IPCP => l.ipcp
  }

  /** How deep the cascade behind an event may go. */
  function Depth(l: Link, which: Which, e: Event): nat {
    match e
    case Up | Open => if which == IPCP then 0 else 6
    case Down => if which == IPCP then 0 else 6
    case Close => if which == LCP then 2 else if l.ipcp.state == Starting then 4 else 2
    case _ => 6
  }

  /** `pppcp_generate_event`, with everything it sets off. */
  function Generate(l: Link, which: Which, e: Event, p: Packet, env: Env): Link
    decreases Depth(l, which, e), 0
  {
    var f := Fire(CpOf(l, which), e, p);
    var m := Moved(l, which, f, env);
    match which
    case LCP => (
      match f.layer
      case LayerUp => LcpUpNotify(m, env)
      case LayerDown => LcpDownNotify(m.(lcp := m.lcp.(localOptions := env.lcpOptions)), env)
      case LayerFinished => EnterPhase(m, Dead)
      case _ => m)
    case IPCP => (
      match f.layer
      case LayerUp => IpcpUpNotify(m, env)
      case LayerDown => IpcpDownNotify(m.(ipcp := m.ipcp.(localOptions := env.ipcpOptions)))
      case LayerFinished => IpcpFinishedNotify(m, env)
      case _ => m)
  }

  /** Why a cascade ends: the signal of an event only calls for handlers of lesser depth. */
  lemma SignalsGoDown(l: Link, which: Which, e: Event, p: Packet)
    ensures var f := Fire(CpOf(l, which), e, p);
      && (f.layer == LayerUp ==> Depth(l, which, e) == 6)
      && (f.layer == LayerDown && which == LCP ==> Depth(l, which, e) >= 2)
      && (f.layer == LayerFinished && which == IPCP ==> f.cp.state != Starting && Depth(l, which, e) >= 4)
  {
    hide TimersAfter, Transmitted, NewConfigId, NewTerminateId, RefusalsAfter;
  }

  function Raise(l: Link, which: Which, e: Event, env: Env): Link
    decreases Depth(l, which, e), 1
  {
    Generate(l, which, e, NO_PACKET, env)
  }

  function AuthNotify(l: Link, success: bool, env: Env): Link
    decreases 3, 0
  {
    if !success then Raise(l.(reason := AuthFail), LCP, Close, env)
    else Raise(Raise(EnterPhase(l, Network), IPCP, Open, env), IPCP, Up, env)
  }

  /** A first request starts a retry timer. */
  function Started(pap: Pap): Pap {
    Pap(pap.timers + 1, true, 0)
  }

  /** A reply stops the timer PAP knows of. */
  function Replied(pap: Pap): Pap {
    Pap(if pap.known && pap.timers > 0 then pap.timers - 1 else pap.timers, false, pap.retries)
  }

  /** The last retry stops the timer that expired. */
  function GivenUp(pap: Pap): Pap {
    Pap(if pap.timers > 0 then pap.timers - 1 else 0, false, pap.retries + 1)
  }

  predicate LastRetry(pap: Pap) {
    pap.retries + 1 >= PAP_MAX_RETRY
  }

  function LcpUpNotify(l: Link, env: Env): Link
    decreases 4, 0
  {
    if l.chap then EnterPhase(l, Authentication)
    else if l.pap.Some? then
      if env.papStarts
      then EnterPhase(l.(wire := l.wire + [PapRequest], pap := Some(Started(l.pap.value))), Authentication)
      else AuthNotify(l, false, env)
    else AuthNotify(l, true, env)
  }

  function LcpDownNotify(l: Link, env: Env): Link
    decreases 1, 0
  {
    var m := if l.phase == Network || l.phase == LinkUp then Raise(l, IPCP, Down, env) else l;
    EnterPhase(m.(reason := if m.reason == Unknown then PeerClosed else m.reason), Termination)
  }

  function IpcpUpNotify(l: Link, env: Env): Link
    decreases 3, 0
  {
    if env.netCreated then EnterPhase(l.(net := true, interfaces := l.interfaces + 1), LinkUp)
    else Raise(l.(net := false, reason := NetFail), LCP, Close, env)
  }

  function IpcpDownNotify(l: Link): Link {
    if l.net then l.(net := false, interfaces := l.interfaces - 1) else l
  }

  function IpcpFinishedNotify(l: Link, env: Env): Link
    decreases if l.ipcp.state == Starting then 5 else 3, 0
  {
    if l.phase != Network then l
    else Raise(Raise(l.(reason := IpcpFail), IPCP, Close, env), LCP, Close, env)
  }

  //
  // External events.
  //

  const LCP_PROTOCOL: nat := 0xc021
  const PAP_PROTOCOL: nat := 0xc023
  const CHAP_PROTOCOL: nat := 0xc223
  const IPCP_PROTO: nat := 0x8021
  const PPP_IP_PROTO: nat := 0x0021

  predicate DropPacket(phase: Phase, protocol: nat) {
    match phase
    case Establishment | Termination => protocol != LCP_PROTOCOL
    case Authentication => protocol != LCP_PROTOCOL && protocol != CHAP_PROTOCOL && protocol != PAP_PROTOCOL
    case Dead => true
    case Network =>
      && protocol != LCP_PROTOCOL && protocol != CHAP_PROTOCOL && protocol != PAP_PROTOCOL
      && protocol != IPCP_PROTO
    case LinkUp => false
  }

  const LCP_CODES: set<nat> := {1, 2, 3, 4, 5, 6, 7, 8, 9, 10, 11}
  const IPCP_CODES: set<nat> := {1, 2, 3, 4, 5, 6, 7}

  /** How the protocol that owns a packet judges it: its verdict on a request, its own options after
      a Nak or Reject, and the authentication an accepted LCP request sets up. */
  datatype Judgement = Judgement(verdict: Verdict, options: seq<bv8>, chap: Option<bool>, pap: Option<bool>)

  datatype Happening =
    | Frame(protocol: nat, length: nat, packet: Packet, judgement: Judgement)
    | Expires(which: Which, timer: Stimulus)
    | PapTimeout
    | Shutdown
    | Disconnect
    | WriteDone
    | Idle

  predicate CanHappen(l: Link, h: Happening) {
    match h
    case Expires(which, timer) => (timer.ConfigExpires? || timer.TerminateExpires?) && Possible(CpOf(l, which), timer)
    case PapTimeout => l.pap.Some? && l.pap.value.timers > 0
    case WriteDone => l.staPending
    case Idle => l.idles > 0
    case _ => true
  }

  /** A packet or an expiry, for one automaton. */
  function Stimulate(l: Link, which: Which, s: Stimulus, env: Env): Link {
    var (c, e) := Cause(CpOf(l, which), s);
    var m := if which == LCP then l.(lcp := c) else l.(ipcp := c);
    if e.None? then m else Generate(m, which, e.value, if s.Receive? then s.packet else NO_PACKET, env)
  }

  /** An accepted option for PAP replaces PAP by a new one that has not started, if one can be made. */
  function NewPap(pap: Option<Pap>, accepted: Option<bool>): Option<Pap> {
    match accepted
    case None => pap
    case Some(made) => if made then Some(Pap(0, false, 0)) else None
  }

  /** An accepted LCP request may set up authentication. */
  function SetAuth(l: Link, s: Stimulus, j: Judgement): Link {
    if Cause(l.lcp, s).1 == Some(RcrPlus)
    then l.(chap := j.chap.UnwrapOr(l.chap), pap := NewPap(l.pap, j.pap))
    else l
  }

  /** A control packet shorter than its header is ignored. */
  function ProcessPacket(l: Link, which: Which, length: nat, packet: Packet, j: Judgement, env: Env): Link {
    var s := Stimulus.Receive(if which == LCP then LCP_CODES else IPCP_CODES, packet, j.verdict, j.options);
    if length < 4 then l
    else Stimulate(if which == LCP then SetAuth(l, s, j) else l, which, s, env)
  }

  function SendProtocolReject(l: Link): Link {
    if l.lcp.state == Opened then l.(wire := l.wire + [ProtocolReject]) else l
  }

  /** An IP packet of at least four octets goes to the interface, which the code does not check for. */
  function ProcessIp(l: Link, length: nat): Link {
    if length < 4 then l
    else if l.net then l.(traffic := l.traffic.(delivered := l.traffic.delivered + 1))
    else l.(traffic := l.traffic.(strayed := l.traffic.strayed + 1))
  }

  /** A PAP timer expires: another request, or the end of authentication. */
  function PapExpires(l: Link, env: Env): Link
    requires l.pap.Some?
  {
    var pap := l.pap.value;
    if LastRetry(pap) then AuthNotify(l.(pap := Some(GivenUp(pap))), false, env)
    else l.(pap := Some(pap.(retries := pap.retries + 1)), wire := l.wire + [PapRequest])
  }

  function ReceiveFrame(l: Link, protocol: nat, length: nat, packet: Packet, j: Judgement, env: Env): Link {
    if DropPacket(l.phase, protocol) then l
    else if protocol == PPP_IP_PROTO then ProcessIp(l, length)
    else if protocol == LCP_PROTOCOL then ProcessPacket(l, LCP, length, packet, j, env)
    else if protocol == IPCP_PROTO then ProcessPacket(l, IPCP, length, packet, j, env)
    else if protocol == PAP_PROTOCOL && l.pap.Some? then
      if length < 4 || (packet.code != 2 && packet.code != 3) then l
      else AuthNotify(l.(pap := Some(Replied(l.pap.value))), packet.code == 2, env)
    else if protocol == CHAP_PROTOCOL && l.chap then
      if length < 4 then l
      else if packet.code == 1 then l.(wire := l.wire + [ChapResponse])
      else if packet.code == 3 then AuthNotify(l, true, env)
      else if packet.code == 4 then AuthNotify(l, false, env)
      else l
    else SendProtocolReject(l)
  }

  /** `ppp_dead`: the disconnect function is called. */
  function CallDisconnect(l: Link): Link {
    l.(notified := l.notified + 1)
  }

  function Step(l: Link, h: Happening, env: Env): Link {
    match h
    case Frame(protocol, length, packet, j) => ReceiveFrame(l, protocol, length, packet, j, env)
    case Expires(which, timer) => Stimulate(l, which, timer, env)
    case PapTimeout => if l.pap.Some? then PapExpires(l, env) else l
    case Shutdown =>
      if l.phase == Dead || l.phase == Termination then l
      else Raise(l.(reason := LocalClose), LCP, Close, env)
    case Disconnect =>
      if l.phase == Dead then l
      else Raise(Raise(l.(reason := LinkDead), LCP, Down, env), LCP, Close, env)
    case WriteDone =>
      var m := l.(staPending := false);
      if m.phase == Dead then CallDisconnect(m) else m
    case Idle => CallDisconnect(l.(idles := if l.idles > 0 then l.idles - 1 else 0))
  }

  /** A new link: a server's LCP starts out Stopped. */
  function NewLink(server: bool, lcpOptions: seq<bv8>, ipcpOptions: seq<bv8>): Link {
    Link(Dead, New(server, 0, lcpOptions), New(false, 100, ipcpOptions), false, 0, false, None, false, 0, 0,
         Unknown, Traffic(0, 0), [])
  }

  /** `g_at_ppp_open` on a new client, `g_at_ppp_listen` on a new server. */
  function Start(server: bool, lcpOptions: seq<bv8>, ipcpOptions: seq<bv8>, env: Env): Link {
    var l := NewLink(server, lcpOptions, ipcpOptions);
    EnterPhase(if server then l else Raise(Raise(l, LCP, Up, env), LCP, Open, env), Establishment)
  }
}
