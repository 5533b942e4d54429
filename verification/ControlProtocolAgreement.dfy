/** What Opened means: an observer that sees packets come and go, and the options a protocol returns to
when its layer goes down, can tell what both sides have agreed to.
 */
module ControlProtocolAgreement {
  import opened Wrappers
  import opened ControlProtocol

  /** A stimulus, and the options the protocol puts in force if its layer goes down. Both LCP and IPCP
      do that, after the packets of the event have gone out. */
  datatype Turn = Turn(stimulus: Stimulus, reset: seq<bv8>)

  function Settle(r: Fired, reset: seq<bv8>): Cp {
    if r.layer == LayerDown then r.cp.(localOptions := reset) else r.cp
  }

  function After(cp: Cp, t: Turn): Cp {
    Settle(Next(cp, t.stimulus), t.reset)
  }

  predicate PossibleTurns(cp: Cp, ts: seq<Turn>)
    decreases |ts|
  {
    ts == [] || (Possible(cp, ts[0].stimulus) && PossibleTurns(After(cp, ts[0]), ts[1..]))
  }

  function RunTurns(cp: Cp, ts: seq<Turn>): Cp
    decreases |ts|
  {
    if ts == [] then cp else RunTurns(After(cp, ts[0]), ts[1..])
  }

  //
  // The observer.
  //

  datatype Asked = Asked(id: bv8, options: seq<bv8>)

  /** What the observer remembers of the negotiation under way: the last Configure-Request sent, the
      options that replaced its own since, the acknowledgement it has had, and whether the last reply
      to a request of the peer was an acknowledgement. */
  datatype History = History(request: Option<Asked>, replaced: Option<seq<bv8>>, ack: Option<Packet>, agreed: bool)

  const NOTHING := History(None, None, None, false)

  predicate Negotiating(s: State) {
    IsRequesting(s) || s == Opened
  }

  function InForce(h: History): seq<bv8>
    requires h.request.Some?
  {
    h.replaced.UnwrapOr(h.request.value.options)
  }

  /** A Configure-Ack of the last request's identifier and of the options in force. */
  predicate Acknowledges(h: History, s: Stimulus) {
    && s.Receive? && s.packet.code == 2 && 2 in s.supported
    && h.request.Some? && s.packet.id == h.request.value.id && s.packet.data == InForce(h)
  }

  predicate SendsRequest(sent: seq<Sent>) {
    |sent| > 0 && sent[0].ConfigureRequest?
  }

  predicate SendsAck(sent: seq<Sent>) {
    exists k :: 0 <= k < |sent| && sent[k].ConfigureAck?
  }

  predicate SendsRefusal(sent: seq<Sent>) {
    exists k :: 0 <= k < |sent| && (sent[k].ConfigureNak? || sent[k].ConfigureReject?)
  }

  /** The observer sees a turn and what it sent and signalled; a negotiation that is over is forgotten. */
  function Observe(h: History, t: Turn, r: Fired): History {
    if !Negotiating(r.cp.state) then NOTHING
    else
      var asked := SendsRequest(r.sent);
      History(
        if asked then Some(Asked(r.sent[0].id, r.sent[0].options)) else h.request,
        if r.layer == LayerDown then Some(t.reset) else if asked then None else h.replaced,
        if asked then None else if Acknowledges(h, t.stimulus) then Some(t.stimulus.packet) else h.ack,
        SendsAck(r.sent) || (h.agreed && !SendsRefusal(r.sent)))
  }

  function ObserveTurns(cp: Cp, h: History, ts: seq<Turn>): History
    decreases |ts|
  {
    if ts == [] then h
    else ObserveTurns(After(cp, ts[0]), Observe(h, ts[0], Next(cp, ts[0].stimulus)), ts[1..])
  }

  /** What the state says about the history. */
  predicate RequestCurrent(cp: Cp, h: History) {
    Negotiating(cp.state) ==>
      h.request.Some? && h.request.value.id == cp.configId && InForce(h) == cp.localOptions
  }

  predicate AckCurrent(cp: Cp, h: History) {
    cp.state == AckRcvd || cp.state == Opened ==> h.ack == Some(Packet(2, cp.configId, cp.localOptions))
  }

  predicate ReplyCurrent(cp: Cp, h: History) {
    cp.state == AckSent || cp.state == Opened ==> h.agreed
  }

  predicate Agreement(cp: Cp, h: History) {
    RequestCurrent(cp, h) && AckCurrent(cp, h) && ReplyCurrent(cp, h)
  }

  /** What the table says about the three conditions. */
  lemma TableRequests(e: Event, s: State)
    ensures var t := Transition(e, s);
      t.Go? ==>
        && (Negotiating(t.next) ==> SCR in t.actions || (Negotiating(s) && e != Rcn))
        && (t.next == AckRcvd || t.next == Opened ==> SCR !in t.actions && (e == Rca || s == AckRcvd || s == Opened))
  {
  }

  lemma TableRefusalIsLegal(s: State)
    requires Negotiating(s)
    ensures Transition(Rcn, s).Go?
  {
  }

  lemma TableReplies(e: Event, s: State)
    ensures var t := Transition(e, s);
      t.Go? && (t.next == AckSent || t.next == Opened) ==>
        SCA in t.actions || (SCN !in t.actions && (s == AckSent || s == Opened))
  {
  }

  /** What can be read off the packets of a transition. */
  lemma SentTells(cp: Cp, t: Entry, p: Packet)
    requires t.Go?
    ensures var sent := Transmitted(cp, t, p);
      && (SendsRequest(sent) <==> SCR in t.actions)
      && (SCR in t.actions ==> sent[0] == ConfigureRequest(NewConfigId(cp, t), cp.localOptions))
  {
    hide NewConfigId, NewTerminateId;
  }

  lemma AckTells(cp: Cp, t: Entry, p: Packet)
    requires t.Go? && SCA in t.actions
    ensures SendsAck(Transmitted(cp, t, p))
  {
    hide NewConfigId, NewTerminateId, Refusal, TerminateSent, OtherSent;
    var sent := Transmitted(cp, t, p);
    assert sent[if SCR in t.actions then 1 else 0].ConfigureAck?;
  }

  lemma RefusalTells(cp: Cp, t: Entry, p: Packet)
    requires t.Go? && SCN !in t.actions
    ensures !SendsRefusal(Transmitted(cp, t, p))
  {
    hide NewConfigId, NewTerminateId, Refusal;
  }

  lemma ReplyTells(cp: Cp, t: Entry, p: Packet)
    requires t.Go?
    ensures SCA in t.actions ==> SendsAck(Transmitted(cp, t, p))
    ensures SCN !in t.actions ==> !SendsRefusal(Transmitted(cp, t, p))
  {
    hide Transmitted;
    if SCA in t.actions { AckTells(cp, t, p); }
    if SCN !in t.actions { RefusalTells(cp, t, p); }
  }

  /** Only an acknowledgement of the current identifier and options is one, and only a Nak or Reject
      changes the options. */
  lemma PacketTells(cp: Cp, s: Stimulus)
    requires s.Receive?
    ensures var (c, e) := Cause(cp, s);
      && (e == Some(Rca) ==>
            && s.packet.code == 2 && 2 in s.supported
            && s.packet.id == cp.configId && s.packet.data == cp.localOptions)
      && (e != Some(Rcn) ==> c.localOptions == cp.localOptions)
  {
  }

  /** A layer that goes down within a negotiation asks again. */
  lemma TableDownAsks(e: Event, s: State)
    ensures var t := Transition(e, s);
      t.Go? && t.layer == LayerDown && Negotiating(t.next) ==> SCR in t.actions && t.next != AckRcvd && t.next != Opened
  {
  }

  lemma RequestStep(cp: Cp, h: History, t: Turn)
    requires RequestCurrent(cp, h) && Possible(cp, t.stimulus)
    ensures RequestCurrent(After(cp, t), Observe(h, t, Next(cp, t.stimulus)))
  {
    hide Transition, Classify, TimersAfter, NewTerminateId, RefusalsAfter, Transmitted, SendsRequest, NewConfigId;
    hide SendsAck, SendsRefusal, Acknowledges;
    var s := t.stimulus;
    if s.Receive? {
      ClassifyKeeps(cp, s);
      PacketTells(cp, s);
    }
    var (c, e) := Cause(cp, s);
    NoSends();
    if e.Some? {
      var row := Transition(e.value, c.state);
      TableRequests(e.value, c.state);
      TableDownAsks(e.value, c.state);
      if Negotiating(c.state) { TableRefusalIsLegal(c.state); }
      if row.Go? {
        SentTells(c, row, if s.Receive? then s.packet else NO_PACKET);
        IdKept(c, row);
      }
    }
  }

  predicate Matches(cp: Cp, s: Stimulus) {
    s.Receive? && 2 in s.supported && s.packet == Packet(2, cp.configId, cp.localOptions)
  }

  /** How a step can end in Ack-Rcvd or Opened. */
  lemma AckTold(cp: Cp, s: Stimulus)
    requires Possible(cp, s)
    ensures var r := Next(cp, s);
      r.cp.state == AckRcvd || r.cp.state == Opened ==>
        && !SendsRequest(r.sent) && r.layer != LayerDown
        && r.cp.configId == cp.configId && r.cp.localOptions == cp.localOptions
        && Negotiating(cp.state)
        && (cp.state == AckRcvd || cp.state == Opened || Matches(cp, s))
  {
    hide Transition, Classify, TimersAfter, NewTerminateId, RefusalsAfter, Transmitted, SendsRequest, NewConfigId;
    if s.Receive? {
      ClassifyKeeps(cp, s);
      PacketTells(cp, s);
    }
    var (c, e) := Cause(cp, s);
    NoSends();
    if e.Some? {
      var row := Transition(e.value, c.state);
      TableRequests(e.value, c.state);
      TableDownAsks(e.value, c.state);
      TableAckFrom(e.value, c.state);
      if Negotiating(c.state) { TableRefusalIsLegal(c.state); }
      if row.Go? {
        SentTells(c, row, if s.Receive? then s.packet else NO_PACKET);
        IdKept(c, row);
      }
    }
  }

  lemma AckStep(cp: Cp, h: History, t: Turn)
    requires RequestCurrent(cp, h) && AckCurrent(cp, h) && Possible(cp, t.stimulus)
    ensures AckCurrent(After(cp, t), Observe(h, t, Next(cp, t.stimulus)))
  {
    hide Next, SendsRequest, SendsAck, SendsRefusal, Possible;
    AckTold(cp, t.stimulus);
  }

  /** Ack-Rcvd and Opened are entered from a negotiation. */
  lemma TableAckFrom(e: Event, s: State)
    ensures var t := Transition(e, s); t.Go? && (t.next == AckRcvd || t.next == Opened) ==> Negotiating(s)
  {
  }

  lemma ReplyStep(cp: Cp, h: History, t: Turn)
    requires ReplyCurrent(cp, h) && Possible(cp, t.stimulus)
    ensures ReplyCurrent(After(cp, t), Observe(h, t, Next(cp, t.stimulus)))
  {
    hide Transition, Classify, TimersAfter, NewTerminateId, RefusalsAfter, Transmitted, NewConfigId;
    hide SendsRequest, SendsAck, SendsRefusal, Acknowledges;
    var s := t.stimulus;
    if s.Receive? { ClassifyKeeps(cp, s); }
    var (c, e) := Cause(cp, s);
    NoSends();
    if e.Some? {
      var row := Transition(e.value, c.state);
      TableReplies(e.value, c.state);
      if row.Go? { ReplyTells(c, row, if s.Receive? then s.packet else NO_PACKET); }
    }
  }

  lemma AgreementStep(cp: Cp, h: History, t: Turn)
    requires Agreement(cp, h) && Possible(cp, t.stimulus)
    ensures Agreement(After(cp, t), Observe(h, t, Next(cp, t.stimulus)))
  {
    hide RequestCurrent, AckCurrent, ReplyCurrent, After, Observe, Next, Possible;
    RequestStep(cp, h, t);
    AckStep(cp, h, t);
    ReplyStep(cp, h, t);
  }

  lemma NoSends()
    ensures !SendsRequest([]) && !SendsAck([]) && !SendsRefusal([])
  {
  }

  lemma IdKept(cp: Cp, t: Entry)
    requires t.Go?
    ensures SCR !in t.actions ==> NewConfigId(cp, t) == cp.configId
  {
  }

  lemma {:induction false} AgreementRun(cp: Cp, h: History, ts: seq<Turn>)
    requires Agreement(cp, h) && PossibleTurns(cp, ts)
    ensures Agreement(RunTurns(cp, ts), ObserveTurns(cp, h, ts))
    decreases |ts|
  {
    hide After, Next, Possible, Agreement, Observe;
    if ts != [] {
      AgreementStep(cp, h, ts[0]);
      AgreementRun(After(cp, ts[0]), Observe(h, ts[0], Next(cp, ts[0].stimulus)), ts[1..]);
    }
  }

  /** In every run of a new automaton, whatever options it returns to when its layer goes down, Opened
      means that the peer has acknowledged exactly the current identifier and options, that the
      identifier is the last request's, and that the last reply to the peer was an acknowledgement.
      The options acknowledged are those of the last request if and only if none others replaced them
      after it was sent. */
  lemma OpenedMeansAgreed(dormant: bool, maxFailure: nat, options: seq<bv8>, ts: seq<Turn>)
    requires PossibleTurns(New(dormant, maxFailure, options), ts)
    requires RunTurns(New(dormant, maxFailure, options), ts).state == Opened
    ensures var cp := RunTurns(New(dormant, maxFailure, options), ts);
      var h := ObserveTurns(New(dormant, maxFailure, options), NOTHING, ts);
      && h.ack == Some(Packet(2, cp.configId, cp.localOptions))
      && h.request.Some? && h.request.value.id == cp.configId
      && h.agreed
      && (h.ack.value.data == h.request.value.options <==>
            h.replaced.None? || h.replaced.value == h.request.value.options)
  {
    hide RunTurns, ObserveTurns, PossibleTurns;
    AgreementRun(New(dormant, maxFailure, options), NOTHING, ts);
  }

  //
  // A run in which the last request is not what was acknowledged.
  //

  /** The automaton and its observer after some turns. */
  predicate Reaches(cp: Cp, h: History, ts: seq<Turn>, cp': Cp, h': History) {
    PossibleTurns(cp, ts) && RunTurns(cp, ts) == cp' && ObserveTurns(cp, h, ts) == h'
  }

  lemma {:induction false} ReachesThen(cp: Cp, h: History, ts: seq<Turn>, cp': Cp, h': History, t: Turn)
    requires Reaches(cp, h, ts, cp', h') && Possible(cp', t.stimulus)
    ensures Reaches(cp, h, ts + [t], After(cp', t), Observe(h', t, Next(cp', t.stimulus)))
    decreases |ts|
  {
    hide After, Next, Possible, Observe;
    if ts == [] {
      assert ts + [t] == [t] && [t][1..] == [];
      var next, seen := After(cp, t), Observe(h, t, Next(cp, t.stimulus));
      assert Reaches(next, seen, [], next, seen);
    } else {
      assert (ts + [t])[1..] == ts[1..] + [t];
      ReachesThen(After(cp, ts[0]), Observe(h, ts[0], Next(cp, ts[0].stimulus)), ts[1..], cp', h', t);
    }
  }

  const CODES: set<nat> := {1, 2, 3, 4, 5, 6, 7}

  function Packets(code: nat, id: bv8, data: seq<bv8>): Stimulus {
    Receive(CODES, Packet(code, id, data), Accept, [])
  }

  /** What matters of the automaton in that run. */
  predicate Is(cp: Cp, state: State, id: bv8, options: seq<bv8>) {
    && cp.state == state && cp.configId == id && cp.localOptions == options && cp.refusals.count == 0
    && cp.refusals.max > 0 && (state == AckRcvd || state == Opened ==> cp.timers.config.counter == MAX_CONFIGURE)
  }

  lemma AckTurn(cp: Cp, h: History, id: bv8, options: seq<bv8>, reset: seq<bv8>)
    requires Is(cp, ReqSent, id, options) && h.request.Some? && h.request.value.id == id && InForce(h) == options
    ensures var t := Turn(Packets(2, id, options), reset);
      && Is(After(cp, t), AckRcvd, id, options)
      && Observe(h, t, Next(cp, t.stimulus)) == h.(ack := Some(Packet(2, id, options)))
  {
    hide NewTerminateId;
    NoSends();
  }

  lemma RequestTurn(cp: Cp, h: History, id: bv8, options: seq<bv8>, reset: seq<bv8>)
    requires Is(cp, AckRcvd, id, options)
    ensures var t := Turn(Packets(1, 0, []), reset);
      && Is(After(cp, t), Opened, id, options)
      && Observe(h, t, Next(cp, t.stimulus)) == h.(agreed := true)
  {
    hide NewTerminateId;
    var sent := Next(cp, Packets(1, 0, [])).sent;
    assert sent == [ConfigureAck(0, [])];
    assert sent[0].ConfigureAck?;
  }

  lemma DownTurn(cp: Cp, h: History, id: bv8, options: seq<bv8>, reset: seq<bv8>)
    requires Is(cp, Opened, id, options)
    ensures var t := Turn(Packets(6, 0, []), reset);
      && Is(After(cp, t), ReqSent, id + 1, reset)
      && Observe(h, t, Next(cp, t.stimulus)) == History(Some(Asked(id + 1, options)), Some(reset), None, h.agreed)
  {
    hide NewTerminateId;
    assert Next(cp, Packets(6, 0, [])).sent == [ConfigureRequest(id + 1, options)];
  }

  lemma StartTurns(options: seq<bv8>, reset: seq<bv8>)
    ensures var cp := RunTurns(New(false, 0, options), [Turn(Signal(Up), reset)] + [Turn(Signal(Open), reset)]);
      && Is(cp, ReqSent, 1, options)
      && Reaches(New(false, 0, options), NOTHING, [Turn(Signal(Up), reset)] + [Turn(Signal(Open), reset)], cp,
                 History(Some(Asked(1, options)), None, None, false))
  {
    hide Classify, NewTerminateId;
    var a := New(false, 0, options);
    var t1, t2 := Turn(Signal(Up), reset), Turn(Signal(Open), reset);
    NoSends();
    var b := After(a, t1);
    assert b.state == Closed && Observe(NOTHING, t1, Next(a, Signal(Up))) == NOTHING;
    assert Next(b, Signal(Open)).sent == [ConfigureRequest(1, options)];
    ReachesThen(a, NOTHING, [], a, NOTHING, t1);
    assert [] + [t1] == [t1];
    ReachesThen(a, NOTHING, [t1], b, NOTHING, t2);
  }

  /** The peer acknowledges the first request and has its own acknowledged; an unexpected Terminate-Ack
      takes the layer down, and the second request goes out before the options change; the peer
      acknowledges the new options under the identifier of that request, and the automaton is Opened
      again although the request itself was never acknowledged. */
  function ReplacedRun(options: seq<bv8>, reset: seq<bv8>): seq<Turn> {
    [Turn(Signal(Up), reset)] + [Turn(Signal(Open), reset)]
    + [Turn(Packets(2, 1, options), reset)] + [Turn(Packets(1, 0, []), reset)]
    + [Turn(Packets(6, 0, []), reset)]
    + [Turn(Packets(2, 2, reset), reset)] + [Turn(Packets(1, 0, []), reset)]
  }

  lemma ReplacedOptionsAcknowledged(options: seq<bv8>, reset: seq<bv8>)
    ensures var a := New(false, 0, options);
      var ts := ReplacedRun(options, reset);
      && PossibleTurns(a, ts)
      && RunTurns(a, ts).state == Opened
      && RunTurns(a, ts).localOptions == reset
      && ObserveTurns(a, NOTHING, ts).request == Some(Asked(2, options))
      && ObserveTurns(a, NOTHING, ts).ack == Some(Packet(2, 2, reset))
  {
    hide After, Next, Observe, PossibleTurns, RunTurns, ObserveTurns;
    var a := New(false, 0, options);
    StartTurns(options, reset);
    var u2 := [Turn(Signal(Up), reset)] + [Turn(Signal(Open), reset)];
    var c2, h2 := RunTurns(a, u2), History(Some(Asked(1, options)), None, None, false);
    var t3, t4 := Turn(Packets(2, 1, options), reset), Turn(Packets(1, 0, []), reset);
    var t5 := Turn(Packets(6, 0, []), reset);
    AckTurn(c2, h2, 1, options, reset);
    ReachesThen(a, NOTHING, u2, c2, h2, t3);
    var c3, h3 := After(c2, t3), h2.(ack := Some(Packet(2, 1, options)));
    RequestTurn(c3, h3, 1, options, reset);
    ReachesThen(a, NOTHING, u2 + [t3], c3, h3, t4);
    var c4, h4 := After(c3, t4), h3.(agreed := true);
    DownTurn(c4, h4, 1, options, reset);
    ReachesThen(a, NOTHING, u2 + [t3] + [t4], c4, h4, t5);
    LastTurns(a, u2 + [t3] + [t4] + [t5], After(c4, t5), options, reset);
  }

  lemma LastTurns(a: Cp, ts: seq<Turn>, cp: Cp, options: seq<bv8>, reset: seq<bv8>)
    requires Reaches(a, NOTHING, ts, cp, History(Some(Asked(2, options)), Some(reset), None, true))
    requires Is(cp, ReqSent, 2, reset)
    ensures var us := ts + [Turn(Packets(2, 2, reset), reset)] + [Turn(Packets(1, 0, []), reset)];
      && PossibleTurns(a, us)
      && Is(RunTurns(a, us), Opened, 2, reset)
      && ObserveTurns(a, NOTHING, us) == History(Some(Asked(2, options)), Some(reset), Some(Packet(2, 2, reset)), true)
  {
    hide After, Next, Observe, PossibleTurns, RunTurns, ObserveTurns;
    var h := History(Some(Asked(2, options)), Some(reset), None, true);
    var t1, t2 := Turn(Packets(2, 2, reset), reset), Turn(Packets(1, 0, []), reset);
    AckTurn(cp, h, 2, reset, reset);
    ReachesThen(a, NOTHING, ts, cp, h, t1);
    RequestTurn(After(cp, t1), h.(ack := Some(Packet(2, 2, reset))), 2, reset, reset);
    ReachesThen(a, NOTHING, ts + [t1], After(cp, t1), h.(ack := Some(Packet(2, 2, reset))), t2);
  }
}
