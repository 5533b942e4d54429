/** What the automaton sends, read off its state and what happens to it: for every state and stimulus the
packets sent, in order, without a table in between.
 */
module ControlProtocolPackets {
  import opened Wrappers
  import opened ControlProtocol

  /** The lower layer is up. */
  predicate Running(s: State) {
    s != Initial && s != Starting
  }

  /** A request of the peer is answered. */
  predicate Answering(s: State) {
    s == Stopped || s == ReqSent || s == AckRcvd || s == AckSent || s == Opened
  }

  predicate Code(s: Stimulus, code: nat) {
    s.Receive? && s.packet.code == code && code in s.supported
  }

  /** A Configure-Request that is accepted, or not. */
  predicate Accepted(cp: Cp, s: Stimulus) {
    Code(s, 1) && s.verdict.Accept? && cp.refusals.count < cp.refusals.max
  }

  predicate Refused(cp: Cp, s: Stimulus) {
    Code(s, 1) && !Accepted(cp, s)
  }

  /** A Configure-Ack of the current identifier and options, or a Nak or Reject of the identifier. */
  predicate Acked(cp: Cp, s: Stimulus) {
    Code(s, 2) && s.packet.id == cp.configId && s.packet.data == cp.localOptions
  }

  predicate Naked(cp: Cp, s: Stimulus) {
    (Code(s, 3) || Code(s, 4)) && s.packet.id == cp.configId
  }

  /** An expiry with retries left. */
  predicate Retries(cp: Cp, s: Stimulus) {
    (s.ConfigExpires? && cp.timers.config.counter > 0) || (s.TerminateExpires? && cp.timers.terminate.counter > 0)
  }

  //
  // Exactly when each kind of packet is sent.
  //

  predicate AsksNow(cp: Cp, s: Stimulus) {
    match cp.state
    case Starting => s == Signal(Up)
    case Closed => s == Signal(Open)
    case Stopped => Code(s, 1)
    case ReqSent => Retries(cp, s) || Naked(cp, s)
    case AckRcvd => Retries(cp, s) || Acked(cp, s) || Naked(cp, s)
    case AckSent => Retries(cp, s) || Naked(cp, s)
    case Opened => Code(s, 1) || Acked(cp, s) || Naked(cp, s) || Code(s, 6)
    case _ => false
  }

  /** A request that no timeout caused, and one with all retries left, has a new identifier. */
  function AskedId(cp: Cp, s: Stimulus): bv8 {
    if s.ConfigExpires? || s.TerminateExpires? then
      if cp.timers.config.counter == 10 then cp.configId + 1 else cp.configId
    else cp.configId + 1
  }

  function AskedOptions(cp: Cp, s: Stimulus): seq<bv8> {
    if Naked(cp, s) then s.options else cp.localOptions
  }

  function Refusing(cp: Cp, s: Stimulus): Sent
    requires s.Receive?
  {
    if cp.refusals.count >= cp.refusals.max || s.verdict.Accept? then ConfigureReject(s.packet.id, s.packet.data)
    else if s.verdict.Nak? then ConfigureNak(s.packet.id, s.verdict.options)
    else ConfigureReject(s.packet.id, s.verdict.options)
  }

  predicate TerminatesNow(cp: Cp, s: Stimulus) {
    match cp.state
    case Closing | Stopping => Retries(cp, s)
    case ReqSent | AckRcvd | AckSent => s == Signal(Close)
    case Opened => s == Signal(Close) || Code(s, 7) || Code(s, 8)
    case _ => false
  }

  function TerminatedId(cp: Cp, s: Stimulus): bv8 {
    if IsClosing(cp.state) && cp.timers.terminate.counter != 2 then cp.terminateId else cp.terminateId + 1
  }

  predicate AcksTerminationNow(cp: Cp, s: Stimulus) {
    || (Running(cp.state) && Code(s, 5))
    || (cp.state == Closed && (Code(s, 1) || Acked(cp, s) || Naked(cp, s)))
    || (cp.state == Stopped && (Acked(cp, s) || Naked(cp, s)))
  }

  predicate RejectsCode(cp: Cp, s: Stimulus) {
    Running(cp.state) && s.Receive? && s.packet.code !in s.supported
  }

  predicate Echoes(cp: Cp, s: Stimulus) {
    cp.state == Opened && Code(s, 9)
  }

  function ExpectedRequest(cp: Cp, s: Stimulus): seq<Sent> {
    if AsksNow(cp, s) then [ConfigureRequest(AskedId(cp, s), AskedOptions(cp, s))] else []
  }

  function ExpectedReply(cp: Cp, s: Stimulus): seq<Sent> {
    if Answering(cp.state) && Accepted(cp, s) then [ConfigureAck(s.packet.id, s.packet.data)]
    else if Answering(cp.state) && Refused(cp, s) then [Refusing(cp, s)]
    else []
  }

  function ExpectedTermination(cp: Cp, s: Stimulus): seq<Sent> {
    if TerminatesNow(cp, s) then [TerminateRequest(TerminatedId(cp, s))]
    else if AcksTerminationNow(cp, s) then [TerminateAck(s.packet.id, 4 + |s.packet.data|)]
    else []
  }

  function ExpectedOther(cp: Cp, s: Stimulus): seq<Sent> {
    if RejectsCode(cp, s) then [CodeReject(s.packet)]
    else if Echoes(cp, s) then [EchoReply(s.packet.id)]
    else []
  }

  /** Everything sent, in order. */
  function Expected(cp: Cp, s: Stimulus): seq<Sent> {
    ExpectedRequest(cp, s) + ExpectedReply(cp, s) + ExpectedTermination(cp, s) + ExpectedOther(cp, s)
  }

  //
  // Why.
  //

  /** Where the table sends what. */
  lemma TableSendsRequest(e: Event, s: State)
    ensures var t := Transition(e, s);
      t.Go? && SCR in t.actions <==>
      match s
      case Starting => e == Up
      case Closed => e == Open
      case Stopped => e == RcrPlus || e == RcrMinus
      case ReqSent | AckSent => e == TimeoutPlus || e == Rcn
      case AckRcvd => e == TimeoutPlus || e == Rca || e == Rcn
      case Opened => e == RcrPlus || e == RcrMinus || e == Rca || e == Rcn || e == Rta
      case _ => false
  {
  }

  lemma TableSendsReply(e: Event, s: State)
    ensures var t := Transition(e, s);
      && (t.Go? && SCA in t.actions <==> Answering(s) && e == RcrPlus)
      && (t.Go? && SCN in t.actions <==> Answering(s) && e == RcrMinus)
  {
  }

  lemma TableSendsTerminate(e: Event, s: State)
    ensures var t := Transition(e, s);
      t.Go? && STR in t.actions <==>
      match s
      case Closing | Stopping => e == TimeoutPlus
      case ReqSent | AckRcvd | AckSent => e == Close
      case Opened => e == Close || e == RxjMinus
      case _ => false
  {
  }

  lemma TableSendsTerminateAck(e: Event, s: State)
    ensures var t := Transition(e, s);
      t.Go? && STA in t.actions <==>
      || (Running(s) && e == Rtr)
      || (s == Closed && (e == RcrPlus || e == RcrMinus || e == Rca || e == Rcn))
      || (s == Stopped && (e == Rca || e == Rcn))
  {
  }

  lemma TableSendsOther(e: Event, s: State)
    ensures var t := Transition(e, s);
      && (t.Go? && SCJ in t.actions <==> Running(s) && e == Ruc)
      && (t.Go? && SER in t.actions <==> s == Opened && e == Rxr)
  {
  }

  /** What a stimulus means to the automaton. */
  lemma CauseIs(cp: Cp, s: Stimulus)
    requires Possible(cp, s)
    ensures var (c, e) := Cause(cp, s);
      && (e == Some(Up) <==> s == Signal(Up)) && (e == Some(Open) <==> s == Signal(Open))
      && (e == Some(Close) <==> s == Signal(Close))
      && (e == Some(TimeoutPlus) <==> Retries(cp, s))
      && (e == Some(RcrPlus) <==> Accepted(cp, s)) && (e == Some(RcrMinus) <==> Refused(cp, s))
      && (e == Some(Rca) <==> Acked(cp, s)) && (e == Some(Rcn) <==> Naked(cp, s))
      && (e == Some(Rtr) <==> Code(s, 5)) && (e == Some(Rta) <==> Code(s, 6))
      && (e == Some(RxjMinus) <==> Code(s, 7) || Code(s, 8)) && (e == Some(Rxr) <==> Code(s, 9))
      && (e == Some(Ruc) <==> s.Receive? && s.packet.code !in s.supported)
  {
  }

  lemma CauseKeeps(cp: Cp, s: Stimulus)
    requires Possible(cp, s)
    ensures var (c, e) := Cause(cp, s);
      && c.state == cp.state && c.configId == cp.configId && c.terminateId == cp.terminateId
      && c.timers.config.counter == cp.timers.config.counter
      && c.timers.terminate.counter == cp.timers.terminate.counter
      && c.localOptions == AskedOptions(cp, s)
      && (Refused(cp, s) ==> Refusal(c.refusals, s.packet) == Refusing(cp, s))
  {
  }

  lemma SentInParts(cp: Cp, s: Stimulus)
    ensures var (c, e) := Cause(cp, s);
      var p := if s.Receive? then s.packet else NO_PACKET;
      Next(cp, s).sent ==
      if e.None? || Transition(e.value, c.state).Illegal? then []
      else
        var t := Transition(e.value, c.state);
        RequestSent(NewConfigId(c, t), c.localOptions, t) + ReplySent(c.refusals, t, p)
        + TerminateSent(NewTerminateId(c, t), t, p) + OtherSent(t, p)
  {
    hide Cause, Transition, TimersAfter, RefusalsAfter, NewConfigId, NewTerminateId;
  }

  /** The table entry of a stimulus, if it has one. */
  predicate Acts(cp: Cp, s: Stimulus) {
    var (c, e) := Cause(cp, s);
    e.Some? && Transition(e.value, c.state).Go?
  }

  function EntryOf(cp: Cp, s: Stimulus): (t: Entry)
    requires Acts(cp, s)
    ensures t.Go?
  {
    Transition(Cause(cp, s).1.value, Cause(cp, s).0.state)
  }

  lemma RequestPart(cp: Cp, s: Stimulus)
    requires Inv(cp) && Possible(cp, s) && Acts(cp, s)
    ensures var c := Cause(cp, s).0;
      var t := EntryOf(cp, s);
      RequestSent(NewConfigId(c, t), c.localOptions, t) == ExpectedRequest(cp, s)
  {
    hide Transition, Cause, Accepted, Refused, Naked, Acked, Retries, AskedOptions, AskedId, NewConfigId, Inv;
    CauseIs(cp, s);
    CauseKeeps(cp, s);
    RepliesAreReceived(cp, s);
    var (c, e) := Cause(cp, s);
    TableSendsRequest(e.value, c.state);
    if SCR in EntryOf(cp, s).actions { RequestIdPart(cp, s); }
  }

  lemma RequestIdPart(cp: Cp, s: Stimulus)
    requires Inv(cp) && Possible(cp, s) && Acts(cp, s) && SCR in EntryOf(cp, s).actions
    ensures NewConfigId(Cause(cp, s).0, EntryOf(cp, s)) == AskedId(cp, s)
  {
    hide Transition, Cause;
    CauseKeeps(cp, s);
    CauseOfExpiry(cp, s);
    var (c, e) := Cause(cp, s);
    TableRefillsOrFull(e.value, c.state);
    TableSpends(e.value, c.state);
  }

  lemma CauseOfExpiry(cp: Cp, s: Stimulus)
    requires Possible(cp, s)
    ensures var e := Cause(cp, s).1; e.Some? ==> (IsTimeout(e.value) <==> s.ConfigExpires? || s.TerminateExpires?)
  {
  }

  lemma ReplyPart(cp: Cp, s: Stimulus)
    requires Possible(cp, s) && Acts(cp, s)
    ensures var c := Cause(cp, s).0;
      ReplySent(c.refusals, EntryOf(cp, s), if s.Receive? then s.packet else NO_PACKET) == ExpectedReply(cp, s)
  {
    hide Transition, Cause, Refusal, Refusing, Accepted, Refused;
    CauseIs(cp, s);
    CauseKeeps(cp, s);
    RequestsAreReceived(cp, s);
    var (c, e) := Cause(cp, s);
    TableSendsReply(e.value, c.state);
  }

  lemma RequestsAreReceived(cp: Cp, s: Stimulus)
    ensures Accepted(cp, s) || Refused(cp, s) ==> s.Receive?
    ensures !(Accepted(cp, s) && Refused(cp, s))
  {
  }

  lemma TerminatePart(cp: Cp, s: Stimulus)
    requires Possible(cp, s) && Acts(cp, s)
    ensures var c := Cause(cp, s).0;
      var t := EntryOf(cp, s);
      TerminateSent(NewTerminateId(c, t), t, if s.Receive? then s.packet else NO_PACKET) == ExpectedTermination(cp, s)
  {
    hide Transition, Cause, Accepted, Refused, Naked, Acked, Retries, TerminatedId, NewTerminateId;
    CauseIs(cp, s);
    CauseKeeps(cp, s);
    RequestsAreReceived(cp, s);
    RepliesAreReceived(cp, s);
    var (c, e) := Cause(cp, s);
    TableSendsTerminate(e.value, c.state);
    TableSendsTerminateAck(e.value, c.state);
    if STR in EntryOf(cp, s).actions { TerminateIdPart(cp, s); }
  }

  lemma TerminateIdPart(cp: Cp, s: Stimulus)
    requires Possible(cp, s) && Acts(cp, s) && STR in EntryOf(cp, s).actions
    ensures NewTerminateId(Cause(cp, s).0, EntryOf(cp, s)) == TerminatedId(cp, s)
  {
    hide Transition, Cause;
    CauseKeeps(cp, s);
    var (c, e) := Cause(cp, s);
    TableSendsTerminate(e.value, c.state);
    TableSpends(e.value, c.state);
  }

  lemma RepliesAreReceived(cp: Cp, s: Stimulus)
    ensures Acked(cp, s) || Naked(cp, s) ==> s.Receive?
    ensures Code(s, 1) <==> Accepted(cp, s) || Refused(cp, s)
  {
  }

  lemma OtherPart(cp: Cp, s: Stimulus)
    requires Possible(cp, s) && Acts(cp, s)
    ensures OtherSent(EntryOf(cp, s), if s.Receive? then s.packet else NO_PACKET) == ExpectedOther(cp, s)
  {
    hide Transition, Cause, Accepted, Refused, Naked, Acked, Retries;
    CauseIs(cp, s);
    CauseKeeps(cp, s);
    var (c, e) := Cause(cp, s);
    TableSendsOther(e.value, c.state);
  }

  /** A stimulus the table has no entry for sends nothing. */
  lemma NothingExpected(cp: Cp, s: Stimulus)
    requires Possible(cp, s) && !Acts(cp, s)
    ensures Expected(cp, s) == []
  {
    hide Transition, Cause, Accepted, Refused, Naked, Acked, Retries, AskedId, AskedOptions, TerminatedId, Refusing;
    CauseIs(cp, s);
    CauseKeeps(cp, s);
    RepliesAreReceived(cp, s);
    var (c, e) := Cause(cp, s);
    if e.Some? {
      TableSendsRequest(e.value, c.state);
      TableSendsReply(e.value, c.state);
      TableSendsTerminate(e.value, c.state);
      TableSendsTerminateAck(e.value, c.state);
      TableSendsOther(e.value, c.state);
    }
  }

  /** In every reachable state and for everything that can happen, exactly these packets are sent, in this
      order: each of the eight kinds when, and only when, its condition holds. */
  lemma SentExactly(cp: Cp, s: Stimulus)
    requires Inv(cp) && Possible(cp, s)
    ensures Next(cp, s).sent == Expected(cp, s)
  {
    hide Transition, Cause, Next, RequestSent, ReplySent, TerminateSent, OtherSent, NewConfigId, NewTerminateId;
    hide ExpectedRequest, ExpectedReply, ExpectedTermination, ExpectedOther, Inv;
    SentInParts(cp, s);
    var (c, e) := Cause(cp, s);
    if Acts(cp, s) {
      assert EntryOf(cp, s) == Transition(e.value, c.state);
      RequestPart(cp, s);
      ReplyPart(cp, s);
      TerminatePart(cp, s);
      OtherPart(cp, s);
    } else {
      assert e.None? || Transition(e.value, c.state).Illegal?;
      NothingExpected(cp, s);
      assert Next(cp, s).sent == [];
    }
  }

  //
  // The failure counter.
  //

  /** Naks counted from `n` on, an acknowledgement starting the count again. */
  function NaksSinceAck(n: nat, sent: seq<Sent>): nat
    decreases |sent|
  {
    if sent == [] then n
    else
      NaksSinceAck(if sent[0].ConfigureAck? then 0 else if sent[0].ConfigureNak? then n + 1 else n, sent[1..])
  }

  lemma {:induction false} NaksConcat(n: nat, a: seq<Sent>, b: seq<Sent>)
    ensures NaksSinceAck(n, a + b) == NaksSinceAck(NaksSinceAck(n, a), b)
    decreases |a|
  {
    if a == [] {
      assert a + b == b;
    } else {
      assert (a + b)[1..] == a[1..] + b;
      NaksConcat(if a[0].ConfigureAck? then 0 else if a[0].ConfigureNak? then n + 1 else n, a[1..], b);
    }
  }

  lemma NaksOfReply(f: Refusals, t: Entry, p: Packet)
    requires t.Go?
    ensures RefusalsAfter(f, t).count == NaksSinceAck(f.count, ReplySent(f, t, p))
  {
    var sent := ReplySent(f, t, p);
    if sent != [] { assert sent[1..] == []; }
  }

  lemma NaksOfRest(n: nat, id: bv8, options: seq<bv8>, t: Entry, p: Packet)
    requires t.Go?
    ensures NaksSinceAck(n, RequestSent(id, options, t)) == n
    ensures NaksSinceAck(n, TerminateSent(id, t, p)) == n
    ensures NaksSinceAck(n, OtherSent(t, p)) == n
  {
    assert forall x: Sent :: [x][1..] == [];
    if SCJ in t.actions && SER in t.actions {
      assert OtherSent(t, p)[1..] == [EchoReply(p.id)];
    }
  }

  lemma NaksStep(cp: Cp, s: Stimulus)
    ensures Next(cp, s).cp.refusals.count == NaksSinceAck(cp.refusals.count, Next(cp, s).sent)
    ensures Next(cp, s).cp.refusals.max == cp.refusals.max
  {
    hide Transition, Cause, TimersAfter, NewConfigId, NewTerminateId, RequestSent, ReplySent, TerminateSent, OtherSent;
    CountBefore(cp, s);
    var (c, e) := Cause(cp, s);
    if Acts(cp, s) {
      var t := EntryOf(cp, s);
      var p := if s.Receive? then s.packet else NO_PACKET;
      var request := RequestSent(NewConfigId(c, t), c.localOptions, t);
      var reply, terminate := ReplySent(c.refusals, t, p), TerminateSent(NewTerminateId(c, t), t, p);
      var n := c.refusals.count;
      NaksOfReply(c.refusals, t, p);
      NaksOfRest(n, NewConfigId(c, t), c.localOptions, t, p);
      NaksOfRest(NaksSinceAck(n, reply), NewTerminateId(c, t), c.localOptions, t, p);
      NaksConcat(n, request, reply);
      NaksConcat(n, request + reply, terminate);
      NaksConcat(n, request + reply + terminate, OtherSent(t, p));
    }
  }

  lemma CountBefore(cp: Cp, s: Stimulus)
    ensures Cause(cp, s).0.refusals.count == cp.refusals.count && Cause(cp, s).0.refusals.max == cp.refusals.max
  {
  }

  lemma {:induction false} FailuresAreNaks(cp: Cp, ss: seq<Stimulus>)
    ensures Run(cp, ss).refusals.count == NaksSinceAck(cp.refusals.count, Outputs(cp, ss))
    ensures Run(cp, ss).refusals.max == cp.refusals.max
    decreases |ss|
  {
    hide Next;
    if ss != [] {
      var r := Next(cp, ss[0]);
      NaksStep(cp, ss[0]);
      FailuresAreNaks(r.cp, ss[1..]);
      NaksConcat(cp.refusals.count, r.sent, Outputs(r.cp, ss[1..]));
    }
  }

  /** Over every run of a new automaton the failure counter is the number of Naks sent since the last
      acknowledgement, and its maximum is five if none was given. */
  lemma FailuresOfNew(dormant: bool, maxFailure: nat, options: seq<bv8>, ss: seq<Stimulus>)
    ensures var cp := Run(New(dormant, maxFailure, options), ss);
      && cp.refusals.count == NaksSinceAck(0, Outputs(New(dormant, maxFailure, options), ss))
      && cp.refusals.max == if maxFailure == 0 then 5 else maxFailure
  {
    hide Run, Outputs;
    FailuresAreNaks(New(dormant, maxFailure, options), ss);
  }
}
