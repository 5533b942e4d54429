/** `struct pppcp_data` and the functions of `ppp_cp.c` that update it. */
module ControlProtocolMachine {
  import opened ControlProtocol
  import opened Words
  import opened Wrappers

  class Machine {
    var state: State
    var configCounter: nat
    var configTimer: nat
    var terminateCounter: nat
    var terminateTimer: nat
    var nextSource: nat
    var failureCounter: nat
    const maxFailure: nat
    var configId: bv8
    var terminateId: bv8
    var sendReject: bool
    var localOptions: seq<bv8>
    var peerOptions: seq<bv8>

    ghost function TimersValue(): Timers
      reads this
    {
      Timers(Timer(configCounter, configTimer), Timer(terminateCounter, terminateTimer), nextSource)
    }

    ghost function Value(): Cp
      reads this
    {
      Cp(state, TimersValue(), configId, terminateId, localOptions,
         Refusals(failureCounter, maxFailure, sendReject, peerOptions))
    }

    constructor (dormant: bool, maxFailure: nat, options: seq<bv8>)
      ensures Value() == New(dormant, maxFailure, options)
    {
      state := if dormant then Stopped else Initial;
      configCounter, configTimer, terminateCounter, terminateTimer, nextSource := 0, 0, 0, 0, 1;
      failureCounter, configId, terminateId, sendReject := 0, 0, 0, false;
      localOptions, peerOptions := options, [];
      this.maxFailure := if maxFailure == 0 then MAX_FAILURE else maxFailure;
    }

    method InitializeRestartCount(next: State)
      modifies this`configCounter, this`terminateCounter
      ensures configCounter == if IsClosing(next) then old(configCounter) else MAX_CONFIGURE
      ensures terminateCounter == if IsClosing(next) then MAX_TERMINATE else old(terminateCounter)
    {
      if next == Closing || next == Stopping {
        terminateCounter := MAX_TERMINATE;
      } else {
        configCounter := MAX_CONFIGURE;
      }
    }

    method SendConfigureRequest() returns (sent: Sent)
      modifies this`configId, this`configCounter, this`configTimer, this`nextSource
      ensures TimersValue() == AfterRequest(old(TimersValue()))
      ensures configId == if old(configCounter) == MAX_CONFIGURE then old(configId) + 1 else old(configId)
      ensures sent == ConfigureRequest(configId, localOptions)
    {
      if configCounter == MAX_CONFIGURE {
        configId := configId + 1;
      }
      sent := ConfigureRequest(configId, localOptions);
      configCounter := if configCounter == 0 then U32 - 1 else configCounter - 1;
      configTimer, nextSource := nextSource, nextSource + 1;
    }

    method SendConfigureNak(p: Packet) returns (sent: Sent)
      modifies this`failureCounter, this`peerOptions
      ensures peerOptions == []
      ensures failureCounter ==
        if old(failureCounter) >= maxFailure || sendReject then old(failureCounter) else old(failureCounter) + 1
      ensures sent == Refusal(old(Value()).refusals, p)
    {
      if failureCounter >= maxFailure {
        sent := ConfigureReject(p.id, p.data);
      } else if sendReject {
        sent := ConfigureReject(p.id, peerOptions);
      } else {
        failureCounter := failureCounter + 1;
        sent := ConfigureNak(p.id, peerOptions);
      }
      peerOptions := [];
    }

    method SendTerminateRequest() returns (sent: Sent)
      modifies this`terminateId, this`terminateCounter, this`terminateTimer, this`nextSource
      ensures TimersValue() == AfterTerminateRequest(old(TimersValue()))
      ensures terminateId == if old(terminateCounter) == MAX_TERMINATE then old(terminateId) + 1 else old(terminateId)
      ensures sent == TerminateRequest(terminateId)
    {
      if terminateCounter == MAX_TERMINATE {
        terminateId := terminateId + 1;
      }
      sent := TerminateRequest(terminateId);
      terminateCounter := if terminateCounter == 0 then U32 - 1 else terminateCounter - 1;
      terminateTimer, nextSource := nextSource, nextSource + 1;
    }

    method SendTerminateAck(p: Packet) returns (sent: Sent)
      modifies this`terminateTimer, this`nextSource
      ensures TimersValue() == AfterTerminateAck(old(TimersValue()))
      ensures sent == TerminateAck(p.id, LengthField(p))
    {
      sent := TerminateAck(p.id, CP_HEADER_SIZE + |p.data|);
      terminateTimer, nextSource := nextSource, nextSource + 1;
    }

    method TransitionState(next: State)
      modifies this`state, this`configTimer, this`terminateTimer
      ensures state == next
      ensures TimersValue() == EnterState(old(TimersValue()), next)
    {
      match next {
        case Initial | Starting | Closed | Stopped | Opened =>
          configTimer, terminateTimer := 0, 0;
        case _ =>
      }
      state := next;
    }

    /** The counters a transition starts from. */
    method InitializeCounters(t: Entry)
      requires t.Go?
      modifies this`configCounter, this`terminateCounter
      ensures TimersValue() == InitCounter(old(TimersValue()), t)
    {
      if IRC in t.actions {
        InitializeRestartCount(t.next);
      } else if ZRC in t.actions {
        terminateCounter := 0;
      }
    }

    method RequestAction(t: Entry) returns (sent: seq<Sent>)
      requires t.Go?
      modifies this`configId, this`configCounter, this`configTimer, this`nextSource
      ensures TimersValue() == AfterConfigure(old(TimersValue()), t)
      ensures configId == RequestId(old(configId), old(TimersValue()), t)
      ensures sent == RequestSent(configId, localOptions, t)
    {
      sent := [];
      if SCR in t.actions {
        var request := SendConfigureRequest();
        sent := [request];
      }
    }

    method ReplyAction(t: Entry, p: Packet) returns (sent: seq<Sent>)
      requires t.Go?
      modifies this`failureCounter, this`peerOptions
      ensures Value().refusals == RefusalsAfter(old(Value()).refusals, t)
      ensures sent == ReplySent(old(Value()).refusals, t, p)
    {
      hide Refusal;
      sent := [];
      if SCA in t.actions {
        failureCounter := 0;
        sent := [ConfigureAck(p.id, p.data)];
      } else if SCN in t.actions {
        var refusal := SendConfigureNak(p);
        sent := [refusal];
      }
    }

    method TerminateAction(t: Entry, p: Packet) returns (sent: seq<Sent>)
      requires t.Go?
      modifies this`terminateId, this`terminateCounter, this`terminateTimer, this`nextSource
      ensures TimersValue() == AfterTerminate(old(TimersValue()), t)
      ensures terminateId == TerminationId(old(terminateId), old(TimersValue()), t)
      ensures sent == TerminateSent(terminateId, t, p)
    {
      sent := [];
      if STR in t.actions {
        var request := SendTerminateRequest();
        sent := [request];
      } else if STA in t.actions {
        var ack := SendTerminateAck(p);
        sent := [ack];
      }
    }

    method OtherAction(t: Entry, p: Packet) returns (sent: seq<Sent>)
      requires t.Go?
      ensures sent == OtherSent(t, p)
    {
      sent := [];
      if SCJ in t.actions {
        sent := sent + [CodeReject(p)];
      }
      if SER in t.actions {
        sent := sent + [EchoReply(p.id)];
      }
    }

    /** One event, up to the signal to the layer above, which is the caller's to deliver. */
    method GenerateEvent(e: Event, p: Packet) returns (sent: seq<Sent>, layer: Layer)
      modifies this
      ensures Fired(Value(), sent, layer) == Fire(old(Value()), e, p)
    {
      hide Transition, InitCounter, AfterConfigure, AfterTerminate, EnterState, RequestId, TerminationId;
      hide RefusalsAfter, RequestSent, ReplySent, TerminateSent, OtherSent;
      var t := Transition(e, state);
      if t.Illegal? {
        return [], NoSignal;
      }
      InitializeCounters(t);
      var request := RequestAction(t);
      var reply := ReplyAction(t, p);
      var terminate := TerminateAction(t, p);
      var other := OtherAction(t, p);
      TransitionState(t.next);
      sent, layer := request + reply + terminate + other, t.layer;
    }

    /** A restart timer expires. */
    method ConfigTimeout() returns (sent: seq<Sent>, layer: Layer)
      modifies this
      ensures Fired(Value(), sent, layer) == Next(old(Value()), ConfigExpires)
    {
      configTimer := 0;
      sent, layer := GenerateEvent(if configCounter > 0 then TimeoutPlus else TimeoutMinus, NO_PACKET);
    }

    method TerminateTimeout() returns (sent: seq<Sent>, layer: Layer)
      modifies this
      ensures Fired(Value(), sent, layer) == Next(old(Value()), TerminateExpires)
    {
      terminateTimer := 0;
      sent, layer := GenerateEvent(if terminateCounter > 0 then TimeoutPlus else TimeoutMinus, NO_PACKET);
    }

    method ProcessConfigureRequest(verdict: Verdict) returns (e: Event)
      modifies this`sendReject, this`peerOptions
      ensures e == RcrPlus <==> old(failureCounter) < maxFailure && verdict.Accept?
      ensures e == RcrPlus || e == RcrMinus
      ensures Value() ==
        if old(failureCounter) >= maxFailure || verdict.Accept? then old(Value())
        else old(Value()).(refusals := old(Value()).refusals.(reject := verdict.Reject?, options := verdict.options))
    {
      if failureCounter >= maxFailure {
        return RcrMinus;
      }
      match verdict {
        case Accept => e := RcrPlus;
        case Nak(options) => sendReject, peerOptions, e := false, options, RcrMinus;
        case Reject(options) => sendReject, peerOptions, e := true, options, RcrMinus;
      }
    }

    /** The event a packet causes, after the changes it makes by itself. */
    method Interpret(supported: set<nat>, p: Packet, verdict: Verdict, options: seq<bv8>) returns (e: Option<Event>)
      modifies this`sendReject, this`peerOptions, this`localOptions
      ensures (Value(), e) == Classify(old(Value()), supported, p, verdict, options)
    {
      e := None;
      if p.code !in supported {
        e := Some(Ruc);
      } else if p.code == 1 {
        var event := ProcessConfigureRequest(verdict);
        e := Some(event);
      } else if p.code == 2 {
        if p.id == configId && p.data == localOptions {
          e := Some(Rca);
        }
      } else if p.code == 3 || p.code == 4 {
        if p.id == configId {
          localOptions, e := options, Some(Rcn);
        }
      } else if p.code == 5 {
        e := Some(Rtr);
      } else if p.code == 6 {
        e := Some(Rta);
      } else if p.code == 7 || p.code == 8 {
        e := Some(RxjMinus);
      } else if p.code == 9 {
        e := Some(Rxr);
      }
    }

    /** A received packet. */
    method ProcessPacket(supported: set<nat>, p: Packet, verdict: Verdict, options: seq<bv8>)
      returns (sent: seq<Sent>, layer: Layer)
      modifies this
      ensures Fired(Value(), sent, layer) == Next(old(Value()), Receive(supported, p, verdict, options))
    {
      hide Classify, Fire;
      var e := Interpret(supported, p, verdict, options);
      if e.None? {
        return [], NoSignal;
      }
      sent, layer := GenerateEvent(e.value, p);
    }
  }
}
