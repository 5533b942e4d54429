/** The control-protocol automaton of `ppp_cp.c`, which runs both LCP and IPCP: the transition table
of section 4.1 of RFC 1661, two restart timers with their counters, and the identifiers.
 */
module ControlProtocol {
  import opened Wrappers
  import opened Words

  const MAX_TERMINATE: nat := 2
  const MAX_CONFIGURE: nat := 10

  datatype State =
    | Initial | Starting | Closed | Stopped | Closing | Stopping
    | ReqSent | AckRcvd | AckSent | Opened

  datatype Event =
    | Up | Down | Open | Close | TimeoutPlus | TimeoutMinus | RcrPlus | RcrMinus
    | Rca | Rcn | Rtr | Rta | Ruc | RxjPlus | RxjMinus | Rxr

  datatype Action = IRC | ZRC | SCR | SCA | SCN | STR | STA | SCJ | SER

  /** What the automaton tells the layer above. */
  datatype Layer = NoSignal | LayerStarted | LayerUp | LayerDown | LayerFinished

  datatype Entry = Illegal | Go(actions: set<Action>, layer: Layer, next: State)

  function To(s: State): Entry {
    Go({}, NoSignal, s)
  }

  function Do(actions: set<Action>, s: State): Entry {
    Go(actions, NoSignal, s)
  }

  /** The transition table. */
  function Transition(e: Event, s: State): Entry {
    match e
    case Up => (
      match s
      case Initial => To(Closed)
      case Starting => Do({IRC, SCR}, ReqSent)
      case _ => Illegal)
    case Down => (
      match s
      case Initial | Starting => Illegal
      case Closed | Closing => To(Initial)
      case Stopped => Go({}, LayerStarted, Starting)
      case Stopping | ReqSent | AckRcvd | AckSent => To(Starting)
      case Opened => Go({}, LayerDown, Starting))
    case Open => (
      match s
      case Initial => Go({}, LayerStarted, Starting)
      case Closed => Do({IRC, SCR}, ReqSent)
      case Closing => To(Stopping)
      case _ => To(s))
    case Close => (
      match s
      case Initial => To(Initial)
      case Starting => Go({}, LayerFinished, Initial)
      case Closed | Stopped => To(Closed)
      case Closing | Stopping => To(Closing)
      case ReqSent | AckRcvd | AckSent => Do({IRC, STR}, Closing)
      case Opened => Go({IRC, STR}, LayerDown, Closing))
    case TimeoutPlus => (
      match s
      case Closing | Stopping => Do({STR}, s)
      case ReqSent | AckRcvd => Do({SCR}, ReqSent)
      case AckSent => Do({SCR}, AckSent)
      case _ => Illegal)
    case TimeoutMinus => (
      match s
      case Closing => Go({}, LayerFinished, Closed)
      case Stopping | ReqSent | AckRcvd | AckSent => Go({}, LayerFinished, Stopped)
      case _ => Illegal)
    case RcrPlus => (
      match s
      case Initial | Starting => Illegal
      case Closed => Do({STA}, Closed)
      case Stopped => Do({IRC, SCR, SCA}, AckSent)
      case Closing | Stopping => To(s)
      case ReqSent | AckSent => Do({SCA}, AckSent)
      case AckRcvd => Go({SCA}, LayerUp, Opened)
      case Opened => Go({SCR, SCA}, LayerDown, AckSent))
    case RcrMinus => (
      match s
      case Initial | Starting => Illegal
      case Closed => Do({STA}, Closed)
      case Stopped => Do({IRC, SCR, SCN}, ReqSent)
      case Closing | Stopping => To(s)
      case ReqSent | AckSent => Do({SCN}, ReqSent)
      case AckRcvd => Do({SCN}, AckRcvd)
      case Opened => Go({SCR, SCN}, LayerDown, ReqSent))
    case Rca => (
      match s
      case Initial | Starting => Illegal
      case Closed | Stopped => Do({STA}, s)
      case Closing | Stopping => To(s)
      case ReqSent => Do({IRC}, AckRcvd)
      case AckRcvd => Do({SCR}, ReqSent)
      case AckSent => Go({IRC}, LayerUp, Opened)
      case Opened => Go({SCR}, LayerDown, ReqSent))
    case Rcn => (
      match s
      case Initial | Starting => Illegal
      case Closed | Stopped => Do({STA}, s)
      case Closing | Stopping => To(s)
      case ReqSent => Do({IRC, SCR}, ReqSent)
      case AckRcvd => Do({SCR}, ReqSent)
      case AckSent => Do({IRC, SCR}, AckSent)
      case Opened => Go({SCR}, LayerDown, ReqSent))
    case Rtr => (
      match s
      case Initial | Starting => Illegal
      case Closed | Stopped | Closing | Stopping => Do({STA}, s)
      case ReqSent | AckRcvd | AckSent => Do({STA}, ReqSent)
      case Opened => Go({ZRC, STA}, LayerDown, Stopping))
    case Rta => (
      match s
      case Initial | Starting => Illegal
      case Closing => Go({}, LayerFinished, Closed)
      case Stopping => Go({}, LayerFinished, Stopped)
      case AckRcvd => To(ReqSent)
      case Opened => Go({SCR}, LayerDown, ReqSent)
      case _ => To(s))
    case Ruc => (
      match s
      case Initial | Starting => Illegal
      case _ => Do({SCJ}, s))
    case RxjPlus => (
      match s
      case Initial | Starting => Illegal
      case AckRcvd => To(ReqSent)
      case _ => To(s))
    case RxjMinus => (
      match s
      case Initial | Starting => Illegal
      case Closed | Closing => Go({}, LayerFinished, Closed)
      case Opened => Go({IRC, STR}, LayerDown, Stopping)
      case _ => Go({}, LayerFinished, Stopped))
    case Rxr => (
      match s
      case Initial | Starting => Illegal
      case Opened => Do({SER}, Opened)
      case _ => To(s))
  }

  //
  // The automaton's data.
  //

  /** A restart timer: its counter, and the event source that runs it, zero when it is not armed.
      Sources are numbered in the order they are created. */
  datatype Timer = Timer(counter: nat, source: nat)

  /** A received control packet: its code, its identifier, and the octets behind the header. */
  datatype Packet = Packet(code: nat, id: bv8, data: seq<bv8>)

  /** A protocol's opinion of a Configure-Request, with the options it wants changed or dropped. */
  datatype Verdict = Accept | Nak(options: seq<bv8>) | Reject(options: seq<bv8>)

  /** Both timers, and the number the next event source will get. */
  datatype Timers = Timers(config: Timer, terminate: Timer, nextSource: nat)

  /** What is remembered of the peer's requests. */
  datatype Refusals = Refusals(count: nat, max: nat, reject: bool, options: seq<bv8>)

  datatype Cp = Cp(
    state: State,
    timers: Timers,
    configId: bv8,
    terminateId: bv8,
    localOptions: seq<bv8>,
    refusals: Refusals)

  const MAX_FAILURE: nat := 5

  function New(dormant: bool, maxFailure: nat, options: seq<bv8>): Cp {
    Cp(if dormant then Stopped else Initial, Timers(Timer(0, 0), Timer(0, 0), 1), 0, 0, options,
       Refusals(0, if maxFailure == 0 then MAX_FAILURE else maxFailure, false, []))
  }

  datatype Sent =
    | ConfigureRequest(id: bv8, options: seq<bv8>)
    | ConfigureAck(id: bv8, options: seq<bv8>)
    | ConfigureNak(id: bv8, options: seq<bv8>)
    | ConfigureReject(id: bv8, options: seq<bv8>)
    | TerminateRequest(id: bv8)
    | TerminateAck(id: bv8, length: nat)
    | CodeReject(rejected: Packet)
    | EchoReply(id: bv8)

  const CP_HEADER_SIZE: nat := 4

  /** The length field of a packet. */
  function LengthField(p: Packet): nat {
    CP_HEADER_SIZE + |p.data|
  }

  datatype Fired = Fired(cp: Cp, sent: seq<Sent>, layer: Layer)

  /** Unsigned decrement. */
  function Decrement(n: nat): nat {
    if n == 0 then U32 - 1 else n - 1
  }

  function InitCounter(w: Timers, t: Entry): Timers
    requires t.Go?
  {
    if IRC in t.actions then
      if IsClosing(t.next)
      then w.(terminate := w.terminate.(counter := MAX_TERMINATE))
      else w.(config := w.config.(counter := MAX_CONFIGURE))
    else if ZRC in t.actions then w.(terminate := w.terminate.(counter := 0))
    else w
  }

  function AfterRequest(w: Timers): Timers {
    Timers(Timer(Decrement(w.config.counter), w.nextSource), w.terminate, w.nextSource + 1)
  }

  function AfterTerminateRequest(w: Timers): Timers {
    Timers(w.config, Timer(Decrement(w.terminate.counter), w.nextSource), w.nextSource + 1)
  }

  function AfterTerminateAck(w: Timers): Timers {
    Timers(w.config, Timer(w.terminate.counter, w.nextSource), w.nextSource + 1)
  }

  /** What the send actions do to the timers. */
  function AfterConfigure(w: Timers, t: Entry): Timers
    requires t.Go?
  {
    if SCR in t.actions then AfterRequest(w) else w
  }

  function AfterTerminate(w: Timers, t: Entry): Timers
    requires t.Go?
  {
    if STR in t.actions then AfterTerminateRequest(w)
    else if STA in t.actions then AfterTerminateAck(w)
    else w
  }

  /** The states in which a timeout may occur. */
  predicate Waiting(s: State) {
    IsClosing(s) || IsRequesting(s)
  }

  predicate IsClosing(s: State) {
    s == Closing || s == Stopping
  }

  predicate IsRequesting(s: State) {
    s == ReqSent || s == AckRcvd || s == AckSent
  }

  /** Both timers stop in a state that does not wait. */
  function EnterState(w: Timers, s: State): Timers {
    if Waiting(s) then w else Timers(Timer(w.config.counter, 0), Timer(w.terminate.counter, 0), w.nextSource)
  }

  function TimersAfter(w: Timers, t: Entry): Timers
    requires t.Go?
  {
    EnterState(AfterTerminate(AfterConfigure(InitCounter(w, t), t), t), t.next)
  }

  /** The identifier after the configure actions: a first request takes a new one. */
  function RequestId(id: bv8, w: Timers, t: Entry): bv8
    requires t.Go?
  {
    if SCR in t.actions && w.config.counter == MAX_CONFIGURE then id + 1 else id
  }

  function TerminationId(id: bv8, w: Timers, t: Entry): bv8
    requires t.Go?
  {
    if STR in t.actions && w.terminate.counter == MAX_TERMINATE then id + 1 else id
  }

  function NewConfigId(cp: Cp, t: Entry): bv8
    requires t.Go?
  {
    RequestId(cp.configId, InitCounter(cp.timers, t), t)
  }

  function NewTerminateId(cp: Cp, t: Entry): bv8
    requires t.Go?
  {
    TerminationId(cp.terminateId, AfterConfigure(InitCounter(cp.timers, t), t), t)
  }

  function RefusalsAfter(f: Refusals, t: Entry): Refusals
    requires t.Go?
  {
    if SCA in t.actions then f.(count := 0)
    else if SCN in t.actions then
      f.(count := if f.count >= f.max || f.reject then f.count else f.count + 1, options := [])
    else f
  }

  /** The refusal of a request: everything once the failures reach their maximum, and otherwise
      what the protocol asked for. */
  function Refusal(f: Refusals, p: Packet): Sent {
    if f.count >= f.max then ConfigureReject(p.id, p.data)
    else if f.reject then ConfigureReject(p.id, f.options)
    else ConfigureNak(p.id, f.options)
  }

  function RequestSent(id: bv8, options: seq<bv8>, t: Entry): seq<Sent>
    requires t.Go?
  {
    if SCR in t.actions then [ConfigureRequest(id, options)] else []
  }

  function ReplySent(f: Refusals, t: Entry, p: Packet): seq<Sent>
    requires t.Go?
  {
    if SCA in t.actions then [ConfigureAck(p.id, p.data)] else if SCN in t.actions then [Refusal(f, p)] else []
  }

  function TerminateSent(id: bv8, t: Entry, p: Packet): seq<Sent>
    requires t.Go?
  {
    if STR in t.actions then [TerminateRequest(id)]
    else if STA in t.actions then [TerminateAck(p.id, LengthField(p))]
    else []
  }

  function OtherSent(t: Entry, p: Packet): seq<Sent>
    requires t.Go?
  {
    (if SCJ in t.actions then [CodeReject(p)] else []) + (if SER in t.actions then [EchoReply(p.id)] else [])
  }

  /** The packets a transition transmits, in order. */
  function Transmitted(cp: Cp, t: Entry, p: Packet): seq<Sent>
    requires t.Go?
  {
    RequestSent(NewConfigId(cp, t), cp.localOptions, t)
    + ReplySent(cp.refusals, t, p)
    + TerminateSent(NewTerminateId(cp, t), t, p)
    + OtherSent(t, p)
  }

  /** One event: counters, sends and timers first, then the new state, then the signal upwards.
      An illegal event does nothing. */
  function Fire(cp: Cp, e: Event, p: Packet): Fired {
    var t := Transition(e, cp.state);
    if t.Illegal? then Fired(cp, [], NoSignal)
    else
      Fired(
        Cp(t.next, TimersAfter(cp.timers, t), NewConfigId(cp, t), NewTerminateId(cp, t), cp.localOptions,
           RefusalsAfter(cp.refusals, t)),
        Transmitted(cp, t, p),
        t.layer)
  }

  //
  // Received packets and timeouts.
  //

  /** What a packet means to the automaton before it moves: the updated data and the event, if any.
      `verdict` is the protocol's opinion of a request, and `options` the local options it has
      settled on after a Nak or a Reject. */
  function Classify(cp: Cp, supported: set<nat>, p: Packet, verdict: Verdict, options: seq<bv8>): (Cp, Option<Event>) {
    if p.code !in supported then (cp, Some(Ruc))
    else if p.code == 1 then
      if cp.refusals.count >= cp.refusals.max then (cp, Some(RcrMinus))
      else
        match verdict
        case Accept => (cp, Some(RcrPlus))
        case Nak(o) => (cp.(refusals := cp.refusals.(reject := false, options := o)), Some(RcrMinus))
        case Reject(o) => (cp.(refusals := cp.refusals.(reject := true, options := o)), Some(RcrMinus))
    else if p.code == 2 then
      (cp, if p.id == cp.configId && p.data == cp.localOptions then Some(Rca) else None)
    else if p.code == 3 || p.code == 4 then
      if p.id == cp.configId then (cp.(localOptions := options), Some(Rcn)) else (cp, None)
    else if p.code == 5 then (cp, Some(Rtr))
    else if p.code == 6 then (cp, Some(Rta))
    else if p.code == 7 || p.code == 8 then (cp, Some(RxjMinus))
    else if p.code == 9 then (cp, Some(Rxr))
    else (cp, None)
  }

  /** Everything that can happen to an automaton from outside. */
  datatype Stimulus =
    | Signal(event: Event)
    | Receive(supported: set<nat>, packet: Packet, verdict: Verdict, options: seq<bv8>)
    | ConfigExpires
    | TerminateExpires

  predicate Possible(cp: Cp, s: Stimulus) {
    match s
    case Signal(e) => e == Up || e == Down || e == Open || e == Close
    case Receive(_, _, _, _) => true
    case ConfigExpires => cp.timers.config.source != 0
    case TerminateExpires => cp.timers.terminate.source != 0
  }

  const NO_PACKET := Packet(0, 0, [])

  /** The event a stimulus comes down to, and the data it starts from. */
  function Cause(cp: Cp, s: Stimulus): (Cp, Option<Event>) {
    match s
    case Signal(e) => (cp, Some(e))
    case Receive(supported, p, verdict, options) => Classify(cp, supported, p, verdict, options)
    case ConfigExpires =>
      (cp.(timers := cp.timers.(config := Timer(cp.timers.config.counter, 0))),
       Some(if cp.timers.config.counter > 0 then TimeoutPlus else TimeoutMinus))
    case TerminateExpires =>
      (cp.(timers := cp.timers.(terminate := Timer(cp.timers.terminate.counter, 0))),
       Some(if cp.timers.terminate.counter > 0 then TimeoutPlus else TimeoutMinus))
  }

  function Next(cp: Cp, s: Stimulus): Fired {
    var (c, e) := Cause(cp, s);
    if e.None? then Fired(c, [], NoSignal)
    else Fire(c, e.value, if s.Receive? then s.packet else NO_PACKET)
  }

  //
  // Invariants of every reachable state.
  //

  /** An armed timer means a state that waits; an acknowledged request means a full counter. */
  predicate Disciplined(cp: Cp) {
    && (cp.timers.config.source != 0 || cp.timers.terminate.source != 0 ==> Waiting(cp.state))
    && (cp.state == AckRcvd || cp.state == Opened ==> cp.timers.config.counter == MAX_CONFIGURE)
    && cp.timers.config.source < cp.timers.nextSource
    && cp.timers.terminate.source < cp.timers.nextSource
    && (cp.timers.config.source != 0 ==> cp.timers.config.source != cp.timers.terminate.source)
    && cp.timers.config.counter < U32
    && cp.timers.terminate.counter < U32
  }

  /** A state that waits has the timer armed that can end the wait. */
  predicate Covered(cp: Cp) {
    && (IsClosing(cp.state) ==> cp.timers.terminate.source != 0)
    && (IsRequesting(cp.state) ==> cp.timers.config.source != 0)
  }

  predicate Inv(cp: Cp) {
    Disciplined(cp) && Covered(cp)
  }

  predicate IsTimeout(e: Event) {
    e == TimeoutPlus || e == TimeoutMinus
  }

  predicate PossibleRun(cp: Cp, ss: seq<Stimulus>)
    decreases |ss|
  {
    ss == [] || (Possible(cp, ss[0]) && PossibleRun(Next(cp, ss[0]).cp, ss[1..]))
  }

  function Run(cp: Cp, ss: seq<Stimulus>): Cp
    decreases |ss|
  {
    if ss == [] then cp else Run(Next(cp, ss[0]).cp, ss[1..])
  }

  /** What the table says about timers: a state that waits is entered with a fresh timer, or kept. */
  lemma TableArmsTimers(e: Event, s: State)
    ensures var t := Transition(e, s);
      t.Go? ==>
        && (IsClosing(t.next) ==> STR in t.actions || STA in t.actions || (IsClosing(s) && !IsTimeout(e)))
        && (IsRequesting(t.next) ==> SCR in t.actions || (IsRequesting(s) && !IsTimeout(e)))
  {
  }

  /** What the table says about the config counter. */
  lemma TableFillsCounter(e: Event, s: State)
    ensures var t := Transition(e, s);
      t.Go? && (t.next == AckRcvd || t.next == Opened) ==>
        SCR !in t.actions && (IRC in t.actions || s == AckRcvd || s == Opened)
  {
  }

  /** A packet changes neither the state nor the timers nor the identifiers before the event it
      causes, is never a timeout, and is not accepted once the failures reach their maximum. */
  lemma ClassifyKeeps(cp: Cp, s: Stimulus)
    requires s.Receive?
    ensures var (c, e) := Cause(cp, s);
      && c.state == cp.state
      && c.timers == cp.timers
      && c.configId == cp.configId
      && c.refusals.count == cp.refusals.count
      && c.refusals.max == cp.refusals.max
      && (e.Some? ==> !IsTimeout(e.value))
      && (e == Some(RcrPlus) ==> cp.refusals.count < cp.refusals.max)
  {
  }

  lemma DisciplinedFire(cp: Cp, e: Event, p: Packet)
    requires Disciplined(cp)
    ensures Disciplined(Fire(cp, e, p).cp)
  {
    hide Transition;
    TableFillsCounter(e, cp.state);
  }

  lemma CoveredFire(cp: Cp, e: Event, p: Packet)
    requires Disciplined(cp) && (Covered(cp) || (IsTimeout(e) && Waiting(cp.state)))
    requires IsTimeout(e) ==> Waiting(cp.state)
    ensures Covered(Fire(cp, e, p).cp)
  {
    hide Transition;
    TableArmsTimers(e, cp.state);
    TimeoutIsLegal(e, cp.state);
  }

  lemma TimeoutIsLegal(e: Event, s: State)
    requires IsTimeout(e) ==> Waiting(s)
    ensures IsTimeout(e) ==> Transition(e, s).Go?
  {
  }

  lemma InvStep(cp: Cp, s: Stimulus)
    requires Inv(cp) && Possible(cp, s)
    ensures Inv(Next(cp, s).cp)
  {
    hide Fire, Classify;
    if s.Receive? { ClassifyKeeps(cp, s); }
    var (c, e) := Cause(cp, s);
    if e.Some? {
      var p := if s.Receive? then s.packet else NO_PACKET;
      DisciplinedFire(c, e.value, p);
      CoveredFire(c, e.value, p);
    }
  }

  /** Timer discipline holds after every run: an automaton that waits always has a timer to end
      the wait, and no timer is armed in a state that does not wait. */
  lemma {:induction false} InvRun(cp: Cp, ss: seq<Stimulus>)
    requires Inv(cp) && PossibleRun(cp, ss)
    ensures Inv(Run(cp, ss))
    decreases |ss|
  {
    if ss != [] {
      InvStep(cp, ss[0]);
      InvRun(Next(cp, ss[0]).cp, ss[1..]);
    }
  }

  /** So in every reachable state a timeout is a legal event. */
  lemma TimeoutNeverIllegal(cp: Cp, s: Stimulus)
    requires Inv(cp) && Possible(cp, s) && (s.ConfigExpires? || s.TerminateExpires?)
    ensures Transition(Cause(cp, s).1.value, cp.state).Go?
  {
  }

  //
  // This-layer-up and this-layer-down.
  //

  /** The signals given to the layer above along a run. */
  function Signals(cp: Cp, ss: seq<Stimulus>): seq<Layer>
    decreases |ss|
  {
    if ss == [] then [] else [Next(cp, ss[0]).layer] + Signals(Next(cp, ss[0]).cp, ss[1..])
  }

  /** Strict alternation of ups and downs, from a layer that is `up` to one that is `after`. */
  predicate Alternates(up: bool, signals: seq<Layer>, after: bool)
    decreases signals
  {
    if signals == [] then up == after
    else
      match signals[0]
      case LayerUp => !up && Alternates(true, signals[1..], after)
      case LayerDown => up && Alternates(false, signals[1..], after)
      case _ => Alternates(up, signals[1..], after)
  }

  lemma TableAlternates(e: Event, s: State)
    ensures var t := Transition(e, s);
      t.Go? ==>
        && (t.layer == LayerUp <==> s != Opened && t.next == Opened)
        && (t.layer == LayerDown <==> s == Opened && t.next != Opened)
  {
  }

  lemma LayerFollowsState(cp: Cp, s: Stimulus)
    ensures Next(cp, s).layer == LayerUp <==> cp.state != Opened && Next(cp, s).cp.state == Opened
    ensures Next(cp, s).layer == LayerDown <==> cp.state == Opened && Next(cp, s).cp.state != Opened
  {
    hide Transition;
    var (c, e) := Cause(cp, s);
    if e.Some? { TableAlternates(e.value, cp.state); }
  }

  /** This-layer-up and this-layer-down alternate over any stimuli, and an up is outstanding exactly
      in Opened. */
  lemma {:induction false} UpsAndDownsAlternate(cp: Cp, ss: seq<Stimulus>)
    ensures Alternates(cp.state == Opened, Signals(cp, ss), Run(cp, ss).state == Opened)
    decreases |ss|
  {
    hide Next;
    if ss != [] {
      LayerFollowsState(cp, ss[0]);
      var next := Next(cp, ss[0]);
      UpsAndDownsAlternate(next.cp, ss[1..]);
      assert Signals(cp, ss)[1..] == Signals(next.cp, ss[1..]);
    }
  }

  //
  // Identifiers.
  //

  /** A Configure-Request that no timeout caused carries a new identifier. */
  lemma RequestIsFresh(cp: Cp, s: Stimulus, k: nat)
    requires Inv(cp) && (s.Signal? || s.Receive?) && Possible(cp, s)
    requires k < |Next(cp, s).sent| && Next(cp, s).sent[k].ConfigureRequest?
    ensures Next(cp, s).cp.configId == cp.configId + 1
    ensures Next(cp, s).sent[k].id == cp.configId + 1
    ensures Next(cp, s).sent[k].options == Next(cp, s).cp.localOptions
  {
    hide Transition, Classify, TimersAfter, NewTerminateId, Transmitted;
    if s.Receive? { ClassifyKeeps(cp, s); }
    var (c, e) := Cause(cp, s);
    TableRefillsOrFull(e.value, c.state);
    RequestIsFirst(c, Transition(e.value, c.state), if s.Receive? then s.packet else NO_PACKET, k);
  }

  lemma RequestIsFirst(cp: Cp, t: Entry, p: Packet, k: nat)
    requires t.Go? && k < |Transmitted(cp, t, p)|
    ensures Transmitted(cp, t, p)[k].ConfigureRequest? ==>
      SCR in t.actions && Transmitted(cp, t, p)[k] == ConfigureRequest(NewConfigId(cp, t), cp.localOptions)
    ensures Transmitted(cp, t, p)[k].ConfigureAck? ==> SCA in t.actions
  {
    hide NewConfigId, NewTerminateId;
  }

  lemma TableRefillsOrFull(e: Event, s: State)
    ensures var t := Transition(e, s);
      t.Go? && SCR in t.actions && !IsTimeout(e) ==>
        (IRC in t.actions && !IsClosing(t.next)) || (IRC !in t.actions && (s == AckRcvd || s == Opened))
  {
  }

  /** Hence an acknowledgement, Nak or Reject of the request before is discarded without a trace. */
  lemma StaleReplyIgnored(cp: Cp, s: Stimulus, k: nat, reply: Stimulus)
    requires Inv(cp) && (s.Signal? || s.Receive?) && Possible(cp, s)
    requires k < |Next(cp, s).sent| && Next(cp, s).sent[k].ConfigureRequest?
    requires reply.Receive? && reply.packet.code in reply.supported && 2 <= reply.packet.code <= 4
    requires reply.packet.id == cp.configId
    ensures Next(Next(cp, s).cp, reply) == Fired(Next(cp, s).cp, [], NoSignal)
  {
    hide Fire;
    RequestIsFresh(cp, s, k);
    Successor(cp.configId);
  }

  lemma Successor(id: bv8)
    ensures id + 1 != id
  {
  }

  //
  // The length of a Terminate-Ack.
  //

  lemma TableAcksPackets(e: Event, s: State)
    ensures var t := Transition(e, s);
      t.Go? && STA in t.actions ==> !IsTimeout(e) && e != Up && e != Down && e != Open && e != Close
  {
  }

  lemma AckOnly(cp: Cp, t: Entry, p: Packet, k: nat)
    requires t.Go? && k < |Transmitted(cp, t, p)| && Transmitted(cp, t, p)[k].TerminateAck?
    ensures STA in t.actions && Transmitted(cp, t, p)[k] == TerminateAck(p.id, LengthField(p))
  {
    hide NewConfigId, NewTerminateId, LengthField;
  }

  /** A Terminate-Ack answers a packet and is handed over with the length of that packet, although it is
      a header only: it is longer than what was built for it if and only if the packet had data. */
  lemma TerminateAckLength(cp: Cp, s: Stimulus, k: nat)
    requires Possible(cp, s) && k < |Next(cp, s).sent| && Next(cp, s).sent[k].TerminateAck?
    ensures s.Receive? && Next(cp, s).sent[k].id == s.packet.id
    ensures Next(cp, s).sent[k].length > CP_HEADER_SIZE <==> s.packet.data != []
  {
    hide Transition, Classify, TimersAfter, NewConfigId, NewTerminateId, RefusalsAfter, Transmitted;
    var (c, e) := Cause(cp, s);
    TableAcksPackets(e.value, c.state);
    AckOnly(c, Transition(e.value, c.state), if s.Receive? then s.packet else NO_PACKET, k);
  }

  //
  // Configuration failures.
  //

  predicate AcksNothing(sent: seq<Sent>) {
    forall k :: 0 <= k < |sent| ==> !sent[k].ConfigureAck?
  }

  /** Once the failures reach their maximum they stay there, and no request is acknowledged again. */
  lemma GivenUpStaysSo(cp: Cp, s: Stimulus)
    requires cp.refusals.count >= cp.refusals.max && Possible(cp, s)
    ensures Next(cp, s).cp.refusals.count >= Next(cp, s).cp.refusals.max
    ensures AcksNothing(Next(cp, s).sent)
  {
    hide Transition, Classify, TimersAfter, NewConfigId, NewTerminateId, Transmitted;
    if s.Receive? { ClassifyKeeps(cp, s); }
    var (c, e) := Cause(cp, s);
    if e.Some? {
      var t := Transition(e.value, c.state);
      var p := if s.Receive? then s.packet else NO_PACKET;
      TableAcksAccepted(e.value, c.state);
      forall k | t.Go? && 0 <= k < |Transmitted(c, t, p)|
        ensures !Transmitted(c, t, p)[k].ConfigureAck?
      {
        RequestIsFirst(c, t, p, k);
      }
    }
  }

  lemma TableAcksAccepted(e: Event, s: State)
    ensures Transition(e, s).Go? && SCA in Transition(e, s).actions ==> e == RcrPlus
  {
  }

  lemma {:induction false} GivenUpForever(cp: Cp, ss: seq<Stimulus>)
    requires cp.refusals.count >= cp.refusals.max && PossibleRun(cp, ss)
    ensures AcksNothing(Outputs(cp, ss))
    decreases |ss|
  {
    hide Next;
    if ss != [] {
      GivenUpStaysSo(cp, ss[0]);
      GivenUpForever(Next(cp, ss[0]).cp, ss[1..]);
    }
  }

  /** Everything sent along a run. */
  function Outputs(cp: Cp, ss: seq<Stimulus>): seq<Sent>
    decreases |ss|
  {
    if ss == [] then [] else Next(cp, ss[0]).sent + Outputs(Next(cp, ss[0]).cp, ss[1..])
  }

  //
  // Restart counters.
  //

  predicate InRange(w: Timers) {
    w.config.counter <= MAX_CONFIGURE && w.terminate.counter <= MAX_TERMINATE
  }

  lemma TableSpends(e: Event, s: State)
    ensures var t := Transition(e, s);
      t.Go? && STR in t.actions && !IsTimeout(e) ==> IRC in t.actions && IsClosing(t.next)
    ensures var t := Transition(e, s);
      t.Go? && IsTimeout(e) ==>
        && IRC !in t.actions && ZRC !in t.actions && STA !in t.actions
        && (SCR in t.actions <==> e == TimeoutPlus && IsRequesting(s))
        && (STR in t.actions <==> e == TimeoutPlus && IsClosing(s))
  {
  }

  /** The two rows of the table that timeouts use. */
  lemma TableTimeouts(s: State)
    requires Waiting(s)
    ensures Transition(TimeoutMinus, s) == Go({}, LayerFinished, if s == Closing then Closed else Stopped)
    ensures IsClosing(s) ==> Transition(TimeoutPlus, s) == Do({STR}, s)
    ensures IsRequesting(s) ==> Transition(TimeoutPlus, s) == Do({SCR}, if s == AckSent then AckSent else ReqSent)
  {
  }

  /** What an expiry does to the timers. */
  lemma ExpiryTimers(cp: Cp, s: Stimulus)
    requires Waiting(cp.state) && (s.ConfigExpires? || s.TerminateExpires?)
    ensures var c := Cause(cp, s).0;
      var r := Next(cp, s).cp;
      if Cause(cp, s).1 == Some(TimeoutMinus) then
        r.timers == EnterState(c.timers, Closed) && !Waiting(r.state)
      else if IsClosing(cp.state) then
        r.timers == AfterTerminateRequest(c.timers) && r.state == cp.state
      else
        r.timers == AfterRequest(c.timers) && r.state == if cp.state == AckSent then AckSent else ReqSent
  {
    hide Transition, Transmitted, NewConfigId, NewTerminateId, RefusalsAfter;
    TableTimeouts(cp.state);
  }

  /** Exactly when a step takes a restart counter below zero: the other timer has expired with
      retries of its own left. */
  lemma WrapsIff(cp: Cp, s: Stimulus)
    requires Inv(cp) && InRange(cp.timers) && Possible(cp, s)
    ensures Next(cp, s).cp.timers.config.counter > MAX_CONFIGURE <==>
      && s.TerminateExpires? && IsRequesting(cp.state)
      && cp.timers.config.counter == 0 && cp.timers.terminate.counter > 0
    ensures Next(cp, s).cp.timers.terminate.counter > MAX_TERMINATE <==>
      && s.ConfigExpires? && IsClosing(cp.state)
      && cp.timers.terminate.counter == 0 && cp.timers.config.counter > 0
  {
    hide Transition, Classify, Transmitted, NewConfigId, NewTerminateId, RefusalsAfter;
    if s.Receive? { ClassifyKeeps(cp, s); }
    var (c, e) := Cause(cp, s);
    if e.Some? {
      TableSpends(e.value, c.state);
      TableRefillsOrFull(e.value, c.state);
      TimeoutIsLegal(e.value, c.state);
    }
  }

  /** The timer that was armed first. */
  function Oldest(w: Timers): Stimulus {
    if w.config.source != 0 && (w.terminate.source == 0 || w.config.source < w.terminate.source)
    then ConfigExpires else TerminateExpires
  }

  /** Timers expire in the order they were armed, and no Terminate-Request arrives while requests
      are outstanding. */
  predicate InOrder(cp: Cp, s: Stimulus) {
    && Possible(cp, s)
    && (s.ConfigExpires? || s.TerminateExpires? ==> s == Oldest(cp.timers))
    && (s.Receive? && s.packet.code == 5 && 5 in s.supported ==> !IsRequesting(cp.state))
  }

  predicate Orderly(cp: Cp) {
    && Inv(cp)
    && InRange(cp.timers)
    && (IsRequesting(cp.state) ==> cp.timers.terminate.source == 0)
    && (IsClosing(cp.state) && cp.timers.config.source != 0 ==>
          cp.timers.config.source < cp.timers.terminate.source && cp.timers.terminate.counter > 0)
  }

  lemma TableKeepsOrder(e: Event, s: State)
    requires IsTimeout(e) ==> Waiting(s)
    ensures var t := Transition(e, s);
      t.Go? ==>
        && (IsRequesting(t.next) ==> !IsClosing(s) && STR !in t.actions)
        && (IsRequesting(t.next) && STA in t.actions ==> e == Rtr && IsRequesting(s))
        && (IsClosing(t.next) ==> SCR !in t.actions)
  {
  }

  lemma TableStartsClosing(e: Event, s: State)
    ensures var t := Transition(e, s);
      t.Go? ==>
        && (IsClosing(t.next) && IsRequesting(s) ==> IRC in t.actions && STR in t.actions)
        && (IsClosing(t.next) && IsClosing(s) ==> IRC !in t.actions && ZRC !in t.actions)
        && (STR in t.actions && IsClosing(s) ==> e == TimeoutPlus)
  {
  }

  lemma RtrIsCode5(cp: Cp, s: Stimulus)
    requires s.Receive? && Cause(cp, s).1 == Some(Rtr)
    ensures s.packet.code == 5 && 5 in s.supported
  {
  }

  lemma OrderlyStep(cp: Cp, s: Stimulus)
    requires Orderly(cp) && InOrder(cp, s)
    ensures Orderly(Next(cp, s).cp)
  {
    hide Transition, Classify, Transmitted, NewConfigId, NewTerminateId, RefusalsAfter;
    InvStep(cp, s);
    WrapsIff(cp, s);
    var (c, e) := Cause(cp, s);
    if s.Receive? {
      ClassifyKeeps(cp, s);
      if e == Some(Rtr) { RtrIsCode5(cp, s); }
    }
    if e.Some? {
      TableKeepsOrder(e.value, c.state);
      TableStartsClosing(e.value, c.state);
      TableSpends(e.value, c.state);
    }
  }

  predicate InOrderRun(cp: Cp, ss: seq<Stimulus>)
    decreases |ss|
  {
    ss == [] || (InOrder(cp, ss[0]) && InOrderRun(Next(cp, ss[0]).cp, ss[1..]))
  }

  /** Under those two premises no restart counter ever drops below zero. */
  lemma {:induction false} CountersStayInRange(cp: Cp, ss: seq<Stimulus>)
    requires Orderly(cp) && InOrderRun(cp, ss)
    ensures Orderly(Run(cp, ss)) && InRange(Run(cp, ss).timers)
    decreases |ss|
  {
    hide Next;
    if ss != [] {
      OrderlyStep(cp, ss[0]);
      CountersStayInRange(Next(cp, ss[0]).cp, ss[1..]);
    }
  }

  /** So it is from the start of a new automaton. */
  lemma CountersOfNew(dormant: bool, maxFailure: nat, options: seq<bv8>, ss: seq<Stimulus>)
    requires InOrderRun(New(dormant, maxFailure, options), ss)
    ensures InRange(Run(New(dormant, maxFailure, options), ss).timers)
  {
    hide Run, InOrderRun;
    CountersStayInRange(New(dormant, maxFailure, options), ss);
  }

  /** Running on after a run. */
  lemma {:induction false} RunConcat(cp: Cp, s: seq<Stimulus>, t: seq<Stimulus>)
    ensures Run(cp, s + t) == Run(Run(cp, s), t)
    ensures PossibleRun(cp, s + t) <==> PossibleRun(cp, s) && PossibleRun(Run(cp, s), t)
    decreases |s|
  {
    hide Next, Possible;
    if s == [] {
      assert s + t == t;
    } else {
      assert (s + t)[1..] == s[1..] + t;
      RunConcat(Next(cp, s[0]).cp, s[1..], t);
    }
  }

  lemma RunThen(cp: Cp, ss: seq<Stimulus>, s: Stimulus)
    requires PossibleRun(cp, ss) && Possible(Run(cp, ss), s)
    ensures PossibleRun(cp, ss + [s]) && Run(cp, ss + [s]) == Next(Run(cp, ss), s).cp
  {
    hide Next, Possible;
    RunConcat(cp, ss, [s]);
    var c := Run(cp, ss);
    assert [s][1..] == [];
    assert PossibleRun(Next(c, s).cp, []);
    assert Run(c, [s]) == Run(Next(c, s).cp, []);
  }

  /** Up, Open and Close: both timers are left running, the config timer first. */
  lemma OpenThenClose(options: seq<bv8>)
    ensures var ss := [Signal(Up), Signal(Open)] + [Signal(Close)];
      && PossibleRun(New(false, 0, options), ss)
      && Run(New(false, 0, options), ss).state == Closing
      && Run(New(false, 0, options), ss).timers == Timers(Timer(9, 1), Timer(1, 2), 3)
  {
    hide Next;
    var a := New(false, 0, options);
    RunThen(a, [], Signal(Up));
    RunThen(a, [Signal(Up)], Signal(Open));
    assert [] + [Signal(Up)] == [Signal(Up)] && [Signal(Up)] + [Signal(Open)] == [Signal(Up), Signal(Open)];
    RunThen(a, [Signal(Up), Signal(Open)], Signal(Close));
    StartAndClose(a);
  }

  lemma StartAndClose(a: Cp)
    requires a.state == Initial
    ensures var b := Next(a, Signal(Up)).cp;
      var c := Next(b, Signal(Open)).cp;
      var d := Next(c, Signal(Close)).cp;
      d.state == Closing && d.timers == AfterTerminateRequest(
        AfterRequest(a.timers.(config := Timer(MAX_CONFIGURE, 0), terminate := Timer(0, 0)))
          .(terminate := Timer(MAX_TERMINATE, 0)))
  {
    hide Classify, Transmitted, NewConfigId, NewTerminateId, RefusalsAfter;
    var b := Next(a, Signal(Up)).cp;
    assert b.state == Closed && b.timers == EnterState(a.timers, Closed);
    var c := Next(b, Signal(Open)).cp;
    assert c.state == ReqSent;
  }

  /** Without the order of expiry they do: the terminate timer expires first, then the config timer. */
  lemma OutOfOrderWraps(options: seq<bv8>)
    ensures var ss := [Signal(Up), Signal(Open)] + [Signal(Close)] + [TerminateExpires] + [ConfigExpires];
      && PossibleRun(New(false, 0, options), ss)
      && Run(New(false, 0, options), ss).timers.terminate.counter == U32 - 1
  {
    hide Next, Run, PossibleRun;
    var a := New(false, 0, options);
    var ss := [Signal(Up), Signal(Open)] + [Signal(Close)];
    OpenThenClose(options);
    RunThen(a, ss, TerminateExpires);
    ExpiryTimers(Run(a, ss), TerminateExpires);
    ExpiryTimers(Run(a, ss + [TerminateExpires]), ConfigExpires);
    RunThen(a, ss + [TerminateExpires], ConfigExpires);
  }

  /** Retransmissions spend the config counter one by one. */
  lemma {:induction false} SpendConfig(cp: Cp, ss: seq<Stimulus>)
    requires cp.state == ReqSent && 0 < cp.timers.config.source < cp.timers.nextSource
    requires |ss| <= cp.timers.config.counter && forall k :: 0 <= k < |ss| ==> ss[k] == ConfigExpires
    ensures PossibleRun(cp, ss)
    ensures var r := Run(cp, ss);
      && r.state == ReqSent
      && r.timers.config.counter == cp.timers.config.counter - |ss|
      && r.timers.terminate == cp.timers.terminate
      && 0 < r.timers.config.source < r.timers.nextSource
    decreases |ss|
  {
    hide Next;
    if ss != [] {
      ExpiryTimers(cp, ss[0]);
      SpendConfig(Next(cp, ss[0]).cp, ss[1..]);
    }
  }

  /** Nor can a Terminate-Request be allowed while requests are outstanding, even when the timers
      expire in order: the Terminate-Ack arms the terminate timer, whose expiry with a retry left
      over from an earlier Close asks for one Configure-Request too many. */
  lemma TerminateRequestWraps(options: seq<bv8>, rta: Stimulus, rtr: Stimulus, eight: seq<Stimulus>)
    requires rta.Receive? && rta.packet.code == 6 && 6 in rta.supported
    requires rtr.Receive? && rtr.packet.code == 5 && 5 in rtr.supported
    requires |eight| == 8 && forall k :: 0 <= k < |eight| ==> eight[k] == ConfigExpires
    ensures var ss := [Signal(Up), Signal(Open)] + [Signal(Close)] + [rta] + [Signal(Open)] + eight + [rtr];
      var tt := ss + [ConfigExpires];
      && PossibleRun(New(false, 0, options), tt + [TerminateExpires])
      && Oldest(Run(New(false, 0, options), ss).timers) == ConfigExpires
      && Oldest(Run(New(false, 0, options), tt).timers) == TerminateExpires
      && Run(New(false, 0, options), tt + [TerminateExpires]).timers.config.counter == U32 - 1
  {
    hide Next, Run, PossibleRun;
    var a := New(false, 0, options);
    var s1 := [Signal(Up), Signal(Open)] + [Signal(Close)];
    OpenThenClose(options);
    ReopenKeepsRetry(a, s1, rta);
    var s2 := s1 + [rta] + [Signal(Open)];
    SpendConfig(Run(a, s2), eight);
    RunConcat(a, s2, eight);
    TerminateRequestWhileRequesting(a, s2 + eight, rtr);
  }

  /** A retry left over from a Close survives the Terminate-Ack and the next Open. */
  lemma ReopenKeepsRetry(a: Cp, ss: seq<Stimulus>, rta: Stimulus)
    requires rta.Receive? && rta.packet.code == 6 && 6 in rta.supported
    requires PossibleRun(a, ss) && Run(a, ss).state == Closing && Run(a, ss).timers.nextSource > 0
    ensures var tt := ss + [rta] + [Signal(Open)];
      && PossibleRun(a, tt)
      && Run(a, tt).state == ReqSent
      && Run(a, tt).timers.config.counter == MAX_CONFIGURE - 1
      && 0 < Run(a, tt).timers.config.source < Run(a, tt).timers.nextSource
      && Run(a, tt).timers.terminate.counter == Run(a, ss).timers.terminate.counter
  {
    hide Transmitted, NewConfigId, NewTerminateId, RefusalsAfter, Run, PossibleRun;
    RunThen(a, ss, rta);
    RunThen(a, ss + [rta], Signal(Open));
  }

  lemma AckArmsTerminate(cp: Cp, rtr: Stimulus)
    requires rtr.Receive? && rtr.packet.code == 5 && 5 in rtr.supported && IsRequesting(cp.state)
    ensures Next(cp, rtr).cp.state == ReqSent
    ensures Next(cp, rtr).cp.timers == AfterTerminateAck(cp.timers)
  {
    hide Transmitted, NewConfigId, NewTerminateId, RefusalsAfter;
  }

  /** The last three steps of that run. */
  lemma TerminateRequestWhileRequesting(a: Cp, ss: seq<Stimulus>, rtr: Stimulus)
    requires rtr.Receive? && rtr.packet.code == 5 && 5 in rtr.supported
    requires PossibleRun(a, ss) && Run(a, ss).state == ReqSent
    requires var w := Run(a, ss).timers;
      w.config.counter == 1 && w.terminate.counter == 1 && 0 < w.config.source < w.nextSource
    ensures var t1 := ss + [rtr];
      var t2 := t1 + [ConfigExpires];
      && PossibleRun(a, t2 + [TerminateExpires])
      && Oldest(Run(a, t1).timers) == ConfigExpires
      && Oldest(Run(a, t2).timers) == TerminateExpires
      && Run(a, t2 + [TerminateExpires]).timers.config.counter == U32 - 1
  {
    hide Next, Run, PossibleRun;
    var t1 := ss + [rtr];
    RunThen(a, ss, rtr);
    AckArmsTerminate(Run(a, ss), rtr);
    ExpiryTimers(Run(a, t1), ConfigExpires);
    RunThen(a, t1, ConfigExpires);
    ExpiryTimers(Run(a, t1 + [ConfigExpires]), TerminateExpires);
    RunThen(a, t1 + [ConfigExpires], TerminateExpires);
  }

  //
  // A silent peer.
  //

  function Rank(cp: Cp): nat {
    if IsRequesting(cp.state) then cp.timers.config.counter + 1
    else if IsClosing(cp.state) then cp.timers.terminate.counter + 1
    else 0
  }

  /** What one expiry does in an orderly state. */
  lemma OneExpiry(cp: Cp)
    requires Orderly(cp) && Waiting(cp.state)
    ensures InOrder(cp, Oldest(cp.timers))
    ensures var r := Next(cp, Oldest(cp.timers));
      && Orderly(r.cp)
      && Rank(r.cp) < Rank(cp)
      && (IsRequesting(cp.state) ==> Rank(r.cp) == Rank(cp) - 1)
  {
    hide Next;
    OrderlyStep(cp, Oldest(cp.timers));
    ExpiryTimers(cp, Oldest(cp.timers));
  }

  /** And what it sends and signals. */
  lemma ExpirySends(cp: Cp, s: Stimulus)
    requires Waiting(cp.state) && (s.ConfigExpires? || s.TerminateExpires?)
    ensures var r := Next(cp, s);
      && (Waiting(r.cp.state) ==>
            && r.layer == NoSignal
            && |r.sent| == 1
            && Probes(IsRequesting(cp.state), r.sent)
            && IsRequesting(r.cp.state) == IsRequesting(cp.state)
            && (r.cp.state == Closing <==> cp.state == Closing))
      && (!Waiting(r.cp.state) ==>
            && r.layer == LayerFinished
            && r.sent == []
            && r.cp.state == if cp.state == Closing then Closed else Stopped)
  {
    hide Transition, NewConfigId, NewTerminateId, RefusalsAfter, TimersAfter;
    TableTimeouts(cp.state);
  }

  /** Nothing but Configure-Requests, or nothing but Terminate-Requests. */
  predicate Probes(requesting: bool, sent: seq<Sent>) {
    forall k :: 0 <= k < |sent| ==> if requesting then sent[k].ConfigureRequest? else sent[k].TerminateRequest?
  }

  /** Nothing but expiries, oldest timer first, until the automaton stops waiting. */
  function SilentRun(cp: Cp): seq<Stimulus>
    requires Orderly(cp)
    decreases Rank(cp)
  {
    if !Waiting(cp.state) then []
    else
      OneExpiry(cp);
      [Oldest(cp.timers)] + SilentRun(Next(cp, Oldest(cp.timers)).cp)
  }

  predicate FinishesOnce(signals: seq<Layer>) {
    |signals| > 0 && signals[|signals| - 1] == LayerFinished
    && forall k :: 0 <= k < |signals| - 1 ==> signals[k] == NoSignal
  }

  /** A silent peer ends every wait. Within the retries left the automaton has sent its requests,
      one for each timeout but the last, has signalled this-layer-finished once and nothing else,
      and is Closed if it was closing or else Stopped. */
  lemma {:induction false} SilentPeer(cp: Cp)
    requires Orderly(cp) && Waiting(cp.state)
    ensures var ss := SilentRun(cp);
      && InOrderRun(cp, ss)
      && 1 <= |ss| <= Rank(cp)
      && (IsRequesting(cp.state) ==> |ss| == Rank(cp))
      && (Run(cp, ss).state == if cp.state == Closing then Closed else Stopped)
      && FinishesOnce(Signals(cp, ss))
      && |Outputs(cp, ss)| == |ss| - 1
      && Probes(IsRequesting(cp.state), Outputs(cp, ss))
    decreases Rank(cp)
  {
    hide Next, InOrder;
    OneExpiry(cp);
    var s := Oldest(cp.timers);
    ExpirySends(cp, s);
    var next := Next(cp, s).cp;
    var ss := SilentRun(cp);
    assert ss[0] == s && ss[1..] == SilentRun(next);
    if Waiting(next.state) {
      SilentPeer(next);
    } else {
      assert SilentRun(next) == [];
    }
  }

  /** The first request of an attempt. */
  lemma FirstAttempt(cp: Cp, s: Stimulus)
    requires
      s == Signal(Close) || (s == Signal(Up) && cp.state == Starting) || (s == Signal(Open) && cp.state == Closed)
    requires Waiting(Next(cp, s).cp.state) && !IsClosing(cp.state)
    ensures var r := Next(cp, s);
      && |r.sent| == 1
      && Probes(s != Signal(Close), r.sent)
      && (if s == Signal(Close) then r.cp.state == Closing else r.cp.state == ReqSent)
      && Rank(r.cp) == if s == Signal(Close) then MAX_TERMINATE else MAX_CONFIGURE
  {
    hide Transition, RefusalsAfter, NewConfigId, NewTerminateId, LengthField;
    TableFirst(cp.state);
  }

  lemma TableFirst(s: State)
    ensures Transition(Up, Starting) == Do({IRC, SCR}, ReqSent) && Transition(Open, Closed) == Do({IRC, SCR}, ReqSent)
    ensures IsRequesting(s) ==> Transition(Close, s) == Do({IRC, STR}, Closing)
    ensures s == Opened ==> Transition(Close, s) == Go({IRC, STR}, LayerDown, Closing)
    ensures !IsRequesting(s) && s != Opened && !IsClosing(s) ==>
      Transition(Close, s).Go? && !Waiting(Transition(Close, s).next)
  {
  }

  /** From the first request to giving up there are ten Configure-Requests; from the first
      Terminate-Request to giving up there are at most two. */
  lemma AttemptsAreBounded(cp: Cp, s: Stimulus)
    requires Orderly(cp) && InOrder(cp, s)
    requires
      s == Signal(Close) || (s == Signal(Up) && cp.state == Starting) || (s == Signal(Open) && cp.state == Closed)
    requires Waiting(Next(cp, s).cp.state) && !IsClosing(cp.state)
    ensures var r := Next(cp, s);
      && Orderly(r.cp)
      && var sent := r.sent + Outputs(r.cp, SilentRun(r.cp));
      && Probes(s != Signal(Close), sent)
      && (s != Signal(Close) ==> |sent| == MAX_CONFIGURE)
      && |sent| <= if s == Signal(Close) then MAX_TERMINATE else MAX_CONFIGURE
  {
    hide Next, SilentRun, Signals, Outputs, InOrderRun, Run, Inv, InRange;
    OrderlyStep(cp, s);
    FirstAttempt(cp, s);
    SilentPeer(Next(cp, s).cp);
  }
}
