# The link layer of gatchat, modelled in Dafny

oFono talks to modems through the link-layer stack in `gatchat/`. This project models the three parts of it
that carry the most state and arithmetic, and proves what each promises.

* **PPP control protocols and link phases** (`ppp_cp.c`, `gatppp.c`, `ppp_lcp.c`, `ppp_auth.c`, `ppp_ipcp.c`).
  `ControlProtocol` is the automaton of section 4.1 of RFC 1661 with its two restart timers, counters and
  identifiers; `ControlProtocolTable` holds its table as numbers and `ControlProtocolPackets` what it sends when;
  `ControlProtocolAgreement` is what Opened means to an observer; `ControlProtocolMachine.Machine` is the object that
  runs it. `PppLink` composes two such automata with authentication and the phase: the signal that ends
  one automaton's event raises events in the other, and `Generate` is the whole cascade. `Ppp.Connection` is the
  object form. `PppLinkInvariants`, `PppLinkTrace` and `PppLinkRuns` hold what every run keeps, `PppLinkDispatch` what
  each frame and event comes to, `PppLinkDown` what happens when a layer goes down, `PppLinkExamples` runs from the
  start. `PppFrames` is the frame header with its two compressions, `Ipcp` the address
  negotiation and `IpcpOctets` the same on octets.
* **HDLC framing over ring buffers** (`gathdlc.c`, `ringbuffer.c`, `crc-ccitt.c`). `HdlcCodec` is the wire format as
  functions, `HdlcTransparency` what it looks like octet by octet, `HdlcQueue` the queue by what its buffers hold,
  `Hdlc` the queue of ring buffers, the sender and the octet-by-octet receiver, `RingBuffers` the ring with its 32-bit
  counters, `Fcs16` the check sequence.
* **The multiplexer of 3GPP TS 27.010** (`gsm0710.c`, `gatmux.c`). `Gsm0710Basic` and `Gsm0710Advanced` are the two
  frame formats and their scans, `AdvancedFraming` the octets the advanced one can be given, `Fcs8` the header check,
  `MuxStream` the multiplexed stream, `MuxWire` its octets, `MuxReading` its reading through a buffer,
  `Mux.Multiplexer` the object.

Code that updates its data in place is modelled by classes, arrays and loops; each such method is proved equal to a
function, and the properties are proved of the functions.

## Premises

* A client is opened once on a new object, and a server listens once on a new object.
* Option lists are well-formed: every length octet is at least 2 and is the option's own, and address options carry
  four octets. The length field of a control packet agrees with what was received.
* No-carrier detection and suspension are off, and the start-frame-marker setting does not change.
* An event source of the main loop is identified by the order in which it was created. Whether a queued packet is
  accepted, whether PAP can build its request and whether an interface can be created are inputs (`Env`), as are the
  verdicts of LCP on options (`Judgement`).

## Where the code differs from what it says

* Timers that expire out of order can take a restart counter below zero: `WrapsIff` says exactly when, and
  `OutOfOrderWraps` and `TerminateRequestWraps` give runs.
* A line that goes away during a shutdown leaves the link neither up nor dead, and the disconnect function is never
  called: `DisconnectReachesDead`, `ShutdownThenDisconnect`, `StrandedForever`.
* `gatppp.c:262-267` says nothing is sent in phase Dead; a PAP timer that is still running does: `DeadStep` says
  when, `DeadIsFinal` how often, `PapSendsWhenDead` gives a run.
* Phase LinkUp does not mean that IPCP is Opened, and an IP packet that arrives meanwhile is handed to an interface
  that does not exist: `LinkUpWithoutIpcp` and `StraysIff` say exactly when, `StrayIsReachable` gives a run.
* When a layer goes down on an event that also sends a Configure-Request, the options are replaced after the request
  has gone out. Its exact acknowledgement is then discarded, and one of the new options accepted in its place:
  `AckAfterReset`, `OpenedMeansAgreed`, `ReplacedOptionsAcknowledged`.
* A frame with both compressions can be mistaken for an uncompressed one: `ParseInvertsFrame` has the exact condition.
* Compressing the Protocol field alone spoils the header in the buffer, which the network interface uses again:
  `ReusedBuffer` and `IpPackets` have the exact condition, `SecondIpPacket` an input.
* The write handler can stop with frames left: `StopsWhenDoneIff`, `SendKeepsGapless` and `SendKeepsFilled` say
  exactly when, `GapIsReachable` gives a run.
* A buffer that is still full after its frames were taken out ends reading for good. A sent stream does that iff it
  has a frame longer than the buffer (`ReadingStopsIff`), arbitrary octets iff the first frame they announce is
  (`BasicJamIff`, `AdvancedJamIff`, `StoppedIffJam`), and five octets are enough (`JamInput`).
* The decode loop does not watch the end of its buffer: `FitsIff`, `StreamFits` and `PlainOctetsFit` say exactly which
  octets fit, and `NewBytes` reports the others.
* A Terminate-Ack is handed over with the length of the packet it answers: `TerminateAckLength`.
* The advanced scan can report a negative length or read before its buffer: `ShortIff` and
  `OutOfBoundsIffLoneEscape` say when for one segment, `FaultIff` for a whole buffer, and `ShortInput` and
  `OutOfBoundsInput` are inputs; well-framed octets are safe (`FeedIsSafe`), and so is all that is sent (`SentIsSafe`).
* The server's buffer for corrections holds five: `NaksFit`, `SixDoNotFit`.
* A server without an address for something it is asked to assign never acknowledges: `NegotiationConverges`,
  `NegotiationWithLimit`.

## Model

| member | source | states |
|---|---|---|
| `PppLinkRuns.LinkInvariant` | gatchat/gatppp.c:357-488 | After every external event of every run from open or listen, nested events included: LCP is Opened iff the phase is Authentication, Network or LinkUp; IPCP is past Starting iff the phase is Network or LinkUp; an interface exists iff IPCP is Opened and never more than one; the disconnect function has run at most once and only in phase Dead, where a call is otherwise pending; both automata keep their timer discipline |
| `PppLinkInvariants.StepSettled` | gatchat/gatppp.c:389-531 | Any external event that can happen, with its whole cascade, preserves the link invariant |
| `PppLinkInvariants.LcpEvent` | gatchat/ppp_cp.c:628-694 | Any event of LCP outside phase Dead leaves the invariant, through all that its signals raise |
| `PppLinkInvariants.IpcpEvent` | gatchat/gatppp.c:404-451 | Any packet or timeout of IPCP leaves the invariant, including failure to create the interface and failure of the negotiation |
| `PppLinkInvariants.LcpCloses` | gatchat/gatppp.c:474-488 | Closing LCP from any state leaves the invariant; the link becomes dead only from Starting |
| `PppLinkInvariants.Authenticated` | gatchat/gatppp.c:389-402 | Success starts IPCP or leaves a running one alone, failure closes LCP, and either keeps the invariant |
| `PppLinkInvariants.LcpComesUp` | gatchat/gatppp.c:453-472 | LCP entering Opened leads to authentication, to IPCP, or to a closing LCP, and the invariant holds again |
| `PppLinkRuns.HandledIff` | gatchat/gatppp.c:144-170 | LCP packets are handled iff the link is not dead, PAP's and CHAP's iff LCP is Opened, IPCP's iff IPCP is past Starting, and all others iff the phase is LinkUp |
| `PppLinkRuns.StraysIff` | gatchat/ppp_net.c:80-95 | An IP packet is handed to an interface that does not exist iff it has at least four octets and arrives in phase LinkUp while IPCP is not Opened, and to one that does iff IPCP is; nothing else that can happen does either, however deep its cascade |
| `PppLinkExamples.StrayIsReachable` | gatchat/gatppp.c:172-220 | A run of six frames from the opening of a client in which that happens |
| `PppLinkDispatch.AuthenticatedIff` | gatchat/ppp_auth.c:153-226 | In phase Authentication, of everything that can happen, the link moves on to Network iff it is a frame of at least four octets that is protocol c023 with code 2 and PAP set up, or c223 with code 3 and CHAP set up |
| `PppLinkDispatch.AuthenticationFails` | gatchat/ppp_auth.c:153-226 | While LCP is Opened, PAP code 3 and CHAP code 4 end in phase Termination with authentication as the reason |
| `PppLinkDispatch.OtherAuthPackets` | gatchat/ppp_auth.c:153-226 | Every other packet for a protocol that is set up changes nothing, except that CHAP code 1 is answered |
| `PppLinkDispatch.LcpFrameOpens` | gatchat/gatppp.c:453-472 | An LCP packet that opens LCP leads to Authentication if CHAP or PAP is set up by then, with a PAP request on the wire if it is PAP alone, and to Network if neither is; what is set up is what an accepted request asks for, or what was |
| `PppLinkDispatch.ReplyStopsTimer` | gatchat/ppp_auth.c:212-222 | A PAP reply, good or bad, stops the one timer PAP knows of |
| `PppLinkDispatch.ThirdExpiryEnds` | gatchat/ppp_auth.c:228-250 | Two expiries of a PAP timer send the request again, and the third stops it, blames authentication and, with LCP Opened, ends in phase Termination |
| `PppLinkDispatch.ReasonIs` | gatchat/gatppp.c:389-531 | The reason on record after every event that can happen, whatever its cascade: local close, dead line, failed authentication, network or IPCP, peer closed if there was none, and otherwise the one before |
| `PppLinkDispatch.StepTracks` | gatchat/gatppp.c:217-292 | A Protocol-Reject is sent iff the frame is PAP's or CHAP's without that set up while LCP is Opened, or of an unknown protocol in LinkUp, and then nothing else happens; a Terminate-Ack is waited for iff one was and no write has finished, or one of LCP's is queued in this step |
| `PppLinkTrace.GenerateTracks` | gatchat/gatppp.c:389-488 | The cascade of any event, however deep, sends no Protocol-Reject, delivers no packet and only adds to what was sent, and marks a Terminate-Ack as waited for iff it queues one of LCP's |
| `PppLinkDispatch.UnknownCode` | gatchat/ppp_cp.c:959-968 | A code other than 1 to 11 for LCP once it has left Initial, or 1 to 7 for IPCP in a phase that handles it, is answered by a Code-Reject of the packet and by nothing else, and neither automaton nor the phase moves |
| `PppLinkDispatch.StartIs` | gatchat/gatppp.c:544-582 | A client that has been opened has sent one Configure-Request and is in Req-Sent; a server that listens has sent nothing and is Stopped; LCP refuses five times and IPCP a hundred |
| `PppLinkRuns.DeadIsFinal` | gatchat/gatppp.c:98-124 | From phase Dead every run stays in Dead, the disconnect function is called at most once in all, and at most two more frames go out, each a PAP retry |
| `PppLinkRuns.DeadStep` | gatchat/gatppp.c:262-269 | In phase Dead no event changes the phase, and a frame is sent iff a running PAP timer expires before its last retry |
| `PppLinkExamples.PapSendsWhenDead` | gatchat/ppp_auth.c:228-286 | A run from the opening of a client to a dead link whose PAP timer is still running and then sends |
| `PppLinkRuns.DisconnectReachesDead` | gatchat/gatppp.c:521-531 | A lost line makes the link dead iff LCP was not Initial, Closed or Closing, and otherwise strands it |
| `PppLinkRuns.StrandedForever` | gatchat/gatppp.c:521-531 | Whatever happens later, a stranded link never calls its disconnect function |
| `PppLinkRuns.ShutdownThenDisconnect` | gatchat/gatppp.c:683-690 | A shutdown followed at once by a lost line always strands the link |
| `PppLinkRuns.SilentPeerKillsLink` | gatchat/ppp_cp.c:273-287 | While LCP negotiates or terminates, a silent peer makes the link dead within the retries LCP has left |
| `PppLinkDown.LinkUpWithoutIpcp` | gatchat/gatppp.c:432-440 | Of everything that can happen in phase LinkUp with IPCP Opened, exactly these keep the phase and take IPCP out of Opened: an IPCP packet of at least four octets with code 1, 5, 6 or 7, with code 3 or 4 and the current identifier, or with code 2 and the current identifier and options |
| `PppLinkExamples.LinkUpIsReachable` | gatchat/gatppp.c:404-430 | A run of four frames from the opening of a client to phase LinkUp with an interface |
| `PppLinkDown.ResetAfterRequest` | gatchat/ppp_ipcp.c:175-186 | An automaton that leaves Opened and asks again sends the options in force under the next identifier, and only then returns to those of its layer |
| `PppLinkDown.AckAfterReset` | gatchat/ppp_cp.c:743-773 | For LCP and for IPCP, and every frame that makes the Opened automaton ask again: the acknowledgement of that very request changes nothing iff the layer returned to other options |
| `Ppp.Connection.constructor` | gatchat/gatppp.c:824-848 | A new object is the initial value of the link model |
| `Ppp.Connection.Generate` | gatchat/ppp_cp.c:628-694 | The object after an event and all its nested signals is the link function's value; the recursion through the notifications ends |
| `Ppp.Connection.Transmit` | gatchat/gatppp.c:247-292 | The frames are handed over in order, and a queued LCP Terminate-Ack sets the pending mark |
| `Ppp.Connection.Receive` | gatchat/gatppp.c:172-245 | A frame keeps the invariant and takes the object to the link model's next state; in phase Dead it changes nothing, and an IP packet finds no interface iff the phase is LinkUp and IPCP not Opened |
| `Ppp.Connection.ProcessPacket` | gatchat/ppp_cp.c:948-969 | A control packet, too short ones included, takes the object to the link model's next state |
| `Ppp.Connection.Timeout` | gatchat/ppp_cp.c:273-287 | An expiry of an armed timer finds the link not dead, keeps the invariant and takes the object to the link model's next state |
| `Ppp.Connection.AuthNotify` | gatchat/gatppp.c:389-402 | Success and failure of authentication take the object to the link function's value |
| `Ppp.Connection.LcpUpNotify` | gatchat/gatppp.c:453-472 | The phase or close that follows LCP's this-layer-up is the link function's |
| `Ppp.Connection.LcpDownNotify` | gatchat/gatppp.c:474-483 | IPCP goes down with LCP, the first reason is kept and the phase is Termination, as the link function says |
| `Ppp.Connection.IpcpUpNotify` | gatchat/gatppp.c:404-430 | An interface and phase LinkUp, or a closing LCP, as the link function says |
| `Ppp.Connection.IpcpDownNotify` | gatchat/gatppp.c:432-440 | No interface is left, in the field or in existence, whether there was one or not |
| `Ppp.Connection.IpcpFinishedNotify` | gatchat/gatppp.c:442-451 | In phase Network alone a failed negotiation closes both automata |
| `Ppp.Connection.AuthTimeout` | gatchat/ppp_auth.c:228-250 | The expiry of a running PAP timer keeps the invariant, and a dead link dead; it retries until the third time and then ends authentication |
| `Ppp.Connection.Shutdown` | gatchat/gatppp.c:683-690 | A shutdown keeps the invariant; it closes LCP, except in Dead and Termination, where it does nothing |
| `Ppp.Connection.IoDisconnect` | gatchat/gatppp.c:521-531 | A lost line keeps the invariant and leaves the link dead iff it was, or LCP was not Initial, Closed or Closing |
| `Ppp.Connection.StaSent` | gatchat/gatppp.c:114-124 | The written Terminate-Ack makes the one and only call of the disconnect function if the link is dead, with nothing left pending, and none otherwise; the invariant is kept |
| `Ppp.Connection.PppDead` | gatchat/gatppp.c:98-112 | The idle call finds the link dead and is the one and only call of the disconnect function, with nothing left pending; the invariant is kept |
| `Ppp.Connection.Open` | gatchat/gatppp.c:562-582 | Opening a new client gives the client's start state, and establishes the invariant |
| `Ppp.Connection.Listen` | gatchat/gatppp.c:544-559 | Listening on a new server gives the server's start state, and establishes the invariant |
| `PppLink.SignalsGoDown` | gatchat/ppp_cp.c:679-688 | The signal of an event only calls for handlers of lesser depth, so every cascade ends |
| `ControlProtocol.InvRun` | gatchat/ppp_cp.c:598-694 | Over every run: an armed timer means a waiting state, Closing and Stopping have the terminate timer armed, Req-Sent, Ack-Rcvd and Ack-Sent the config timer, and an acknowledged request means a full config counter |
| `ControlProtocol.TimeoutNeverIllegal` | gatchat/ppp_cp.c:119-122 | In every reachable state an expiry is a legal event |
| `ControlProtocolTable.TransitionDecodesTable` | gatchat/ppp_cp.c:86-143 | Each of the 160 transitions is what the number in its row and column of the table means: illegal or not, new state, signal, and every action |
| `ControlProtocolPackets.SentExactly` | gatchat/ppp_cp.c:628-694 | In every reachable state and for everything that can happen, exactly which of the eight kinds of packet are sent, in which order and with which identifier and contents, in terms of state, code, verdict, failures and retries |
| `ControlProtocolPackets.FailuresOfNew` | gatchat/ppp_cp.c:411-477 | Over every run of a new automaton the failure counter is the number of Naks sent since the last Configure-Ack, and its maximum is five if none was given |
| `ControlProtocol.UpsAndDownsAlternate` | gatchat/ppp_cp.c:679-688 | This-layer-up and this-layer-down strictly alternate over any stimuli, with an up outstanding iff the state is Opened |
| `ControlProtocol.RequestIsFresh` | gatchat/ppp_cp.c:378-406 | Every Configure-Request that no timeout caused carries the next identifier and the current options |
| `ControlProtocol.StaleReplyIgnored` | gatchat/ppp_cp.c:743-814 | After such a request, an Ack, Nak or Reject of the previous one changes and sends nothing |
| `ControlProtocol.TerminateAckLength` | gatchat/ppp_cp.c:516-535 | In every step a Terminate-Ack answers a packet, and its length exceeds the four octets built for it iff that packet had data |
| `ControlProtocolAgreement.OpenedMeansAgreed` | gatchat/ppp_cp.c:123-130 | In every run of a new automaton, with any options returned to when the layer goes down, Opened means to an observer that the peer has acknowledged exactly the current identifier and options, that the identifier is the last request's and that the last reply to the peer was an acknowledgement; the options acknowledged are the last request's iff none others replaced them after it was sent |
| `ControlProtocolAgreement.AgreementRun` | gatchat/ppp_cp.c:743-773 | Over every run: the last request has the current identifier and the options in force are the current ones while negotiating, Ack-Rcvd and Opened imply their acknowledgement, Ack-Sent and Opened the peer's |
| `ControlProtocolAgreement.ReplacedOptionsAcknowledged` | gatchat/ppp_ipcp.c:175-186 | A run of seven turns to Opened in which the options acknowledged are not those of the last request |
| `ControlProtocol.GivenUpForever` | gatchat/ppp_cp.c:716-741 | Once the failures reach their maximum no Configure-Ack is sent in any later run |
| `ControlProtocol.WrapsIff` | gatchat/ppp_cp.c:403-405 | A step takes a restart counter below zero iff the other timer expires with retries left while this counter is zero |
| `ControlProtocol.CountersStayInRange` | gatchat/ppp_cp.c:348-406 | If timers expire in the order armed and no Terminate-Request arrives while requests are outstanding, no counter leaves its range in any run |
| `ControlProtocol.CountersOfNew` | gatchat/ppp_cp.c:1001-1031 | In particular over every such run of a new automaton |
| `ControlProtocol.OutOfOrderWraps` | gatchat/ppp_cp.c:484-511 | A run with the expiries exchanged takes the terminate counter below zero |
| `ControlProtocol.TerminateRequestWraps` | gatchat/ppp_cp.c:516-535 | A run with expiries in order but a Terminate-Request in Req-Sent takes the config counter below zero |
| `ControlProtocol.SilentPeer` | gatchat/ppp_cp.c:273-304 | From any orderly waiting state expiries alone lead, within the retries left, to Closed if it was closing and to Stopped otherwise, with one this-layer-finished at the end and one request for each timeout but the last |
| `ControlProtocol.AttemptsAreBounded` | gatchat/ppp_cp.c:67-70 | An unanswered Open or Up sends ten Configure-Requests in all, an unanswered Close at most two Terminate-Requests |
| `ControlProtocolMachine.Machine.constructor` | gatchat/ppp_cp.c:1001-1031 | A new automaton is the initial value, with the default for a missing failure limit |
| `ControlProtocolMachine.Machine.GenerateEvent` | gatchat/ppp_cp.c:628-694 | State, timers, counters, identifiers, packets sent and signal after an event are those of the transition function |
| `ControlProtocolMachine.Machine.SendConfigureRequest` | gatchat/ppp_cp.c:378-406 | A first request takes a new identifier, the counter drops by one modulo 2^32, and the config timer is armed anew |
| `ControlProtocolMachine.Machine.SendConfigureNak` | gatchat/ppp_cp.c:437-477 | The refusal is a Reject of everything at the failure limit and otherwise what the protocol asked for, and a Nak alone counts as a failure |
| `ControlProtocolMachine.Machine.SendTerminateRequest` | gatchat/ppp_cp.c:484-511 | A first request takes a new identifier, the counter drops by one modulo 2^32, and the terminate timer is armed anew |
| `ControlProtocolMachine.Machine.SendTerminateAck` | gatchat/ppp_cp.c:516-535 | The request's identifier is echoed, the request's length is handed over with it, and the terminate timer is armed without using a retry |
| `ControlProtocolMachine.Machine.TransitionState` | gatchat/ppp_cp.c:598-623 | Both timers stop exactly in the states that do not wait |
| `ControlProtocolMachine.Machine.ConfigTimeout` | gatchat/ppp_cp.c:273-287 | The expired config timer is unarmed and its counter decides between retry and giving up |
| `ControlProtocolMachine.Machine.TerminateTimeout` | gatchat/ppp_cp.c:273-287 | The same for the terminate timer |
| `ControlProtocolMachine.Machine.Interpret` | gatchat/ppp_cp.c:716-905 | The event each code stands for, with stale and altered acknowledgements discarded |
| `ControlProtocolMachine.Machine.ProcessPacket` | gatchat/ppp_cp.c:959-968 | A received packet takes the automaton to the model's next state |
| `PppFrames.ParseInvertsFrame` | gatchat/gatppp.c:172-216 | The receiver recovers protocol and information from a transmitted frame iff the protocol number obeys the parity rule for what is sent of it and a doubly compressed frame does not start with the octets ff 03 |
| `PppFrames.OwnProtocolsRecoverable` | gatchat/gatppp.c:338-355 | LCP, PAP, CHAP, IPCP and IP frames from a newly built packet are always recovered |
| `PppFrames.OwnFrames` | gatchat/gatppp.c:247-355 | The octets in front of the information for each of the five protocols under each compression; LCP is never compressed |
| `PppFrames.Transmit` | gatchat/gatppp.c:294-355 | What goes out of any buffer, and what the buffer holds afterwards, for every header it may have had |
| `PppFrames.ReusedBuffer` | gatchat/gatppp.c:310-331 | Of any packets sent from one buffer under any compressions, the receiver recovers one iff it would from a new packet and no packet before it had the Protocol field alone compressed |
| `PppFrames.IpPackets` | gatchat/ppp_net.c:100-125 | Every IP packet goes out of one buffer, so it is recovered iff none before it went out with the Protocol field compressed and the Address and Control fields not |
| `PppFrames.SecondIpPacket` | gatchat/ppp_net.c:100-125 | Two IP packets of which the second is taken for protocol 00ff |
| `Ipcp.NegotiationConverges` | gatchat/ppp_ipcp.c:307-380 | Without a limit on refusals, repeated requests end in an acknowledgement iff the server has a non-zero address for everything requested of it, and then by the third request |
| `Ipcp.NegotiationWithLimit` | gatchat/ppp_cp.c:716-741 | With the automaton's limit they do iff, besides, the server has a refusal left, and one more if a value must be corrected |
| `Ipcp.ServerAutomaton` | gatchat/ppp_cp.c:437-477 | The server's automaton replies, and counts, as that negotiation assumes |
| `Ipcp.ConvergesWhenServed` | gatchat/ppp_ipcp.c:229-305 | In that case the last request asks for exactly the assignable options of the first, each with the server's address |
| `Ipcp.StuckWhenNotServed` | gatchat/ppp_ipcp.c:326-349 | Otherwise, as long as the server goes on correcting, no request is ever acknowledged |
| `Ipcp.ExchangeMeaning` | gatchat/ppp_ipcp.c:307-380 | One exchange first drops every option the server does not know, then corrects every wrong or zero value, and is accepted iff there is neither |
| `Ipcp.AnswerMeaning` | gatchat/ppp_cp.c:743-814 | A reply to the outstanding request settles the client's automaton if it accepts, and otherwise makes it send the corrected options under a new identifier |
| `Ipcp.ClientSettles` | gatchat/ppp_ipcp.c:229-305 | A served client is in Ack-Rcvd or Opened after one to three replies, with the server's addresses |
| `Ipcp.OptionsOfFlatten` | gatchat/ppp_cp.c:219-248 | The option iterator reads back any list of well-formed options |
| `Ipcp.NextOption` | gatchat/ppp_cp.c:230-248 | The iterator yields the first remaining option and stands on the next |
| `Ipcp.FillIp` | gatchat/ppp_ipcp.c:81-88 | Appends the address option, or nothing, and keeps what is before it |
| `Ipcp.Client.constructor` | gatchat/ppp_ipcp.c:108-124 | A new client requests every option with a zero value |
| `Ipcp.Client.GenerateConfigOptions` | gatchat/ppp_ipcp.c:90-107 | The buffer holds the requested options in order and fits its thirty octets |
| `Ipcp.Client.RcnNak` | gatchat/ppp_ipcp.c:229-271 | Every known option of the Nak is requested with the suggested value, and the option buffer follows |
| `Ipcp.Client.RcnRej` | gatchat/ppp_ipcp.c:273-305 | Every known option of the Reject is requested no longer, and the option buffer follows |
| `Ipcp.ServerRcr` | gatchat/ppp_ipcp.c:307-380 | The loop goes beyond its thirty-octet buffer iff more than five values must be corrected; otherwise its verdict is a Reject of all unknown options as received, else a Nak with the server's value for each wrong or zero one, else acceptance |
| `IpcpOctets.ServerAnswersAddresses` | gatchat/ppp_ipcp.c:324-343 | On octets: option 3 is answered with the peer's address, 129 with the first and 131 with the second name server, accepted iff it is that and not zero and otherwise corrected to it |
| `IpcpOctets.ServerRejectsOthers` | gatchat/ppp_ipcp.c:344-370 | Every other option is rejected as it came |
| `IpcpOctets.ClientTakesNak` | gatchat/ppp_ipcp.c:243-266 | On octets: options 3, 129, 131, 130 and 132 of a Nak set the address, the two name servers and the two NetBIOS name servers in this order, and nothing else |
| `IpcpOctets.ClientTakesReject` | gatchat/ppp_ipcp.c:281-301 | The same options of a Reject are asked for no longer, and nothing else changes |
| `IpcpOctets.ClientIgnoresOthers` | gatchat/ppp_ipcp.c:229-305 | Every other option of a reply changes nothing |
| `IpcpOctets.RequestOctets` | gatchat/ppp_ipcp.c:90-107 | The octets of a request: type, six, and value for each address asked for, in this order |
| `Ipcp.NaksFit` | gatchat/ppp_ipcp.c:311-315 | The corrections take six octets each and fit the buffer iff there are at most five |
| `Ipcp.OwnRequestFits` | gatchat/ppp_ipcp.c:90-107 | Those of any request of the program's own client fit |
| `Ipcp.SixDoNotFit` | gatchat/ppp_ipcp.c:323-349 | A request whose six corrections do not |
| `HdlcCodec.StreamRoundTrip` | gatchat/gathdlc.c:533-643 | For any frames, each under any transmit map that covers the receive map, the decoder delivers exactly the non-empty payloads in order and ends idle |
| `HdlcTransparency.OctetOnTheWire` | gatchat/gathdlc.c:531-599 | 7d, 7e and the octets below 20 that the map marks go out as 7d and the octet with bit 5 inverted, every other octet as itself |
| `HdlcTransparency.EscapedIsTransparent` | gatchat/gathdlc.c:581-599 | No octet of escaped data is 7e or one that the map marks, for every map and data |
| `HdlcTransparency.FrameOnTheWire` | gatchat/gathdlc.c:560-636 | An encoded frame has flags at its ends only, and no octet that the map marks |
| `HdlcTransparency.FrameContents` | gatchat/gathdlc.c:604-636 | Between the flags go the payload and the complement of its bit-serial check sequence, low octet first |
| `HdlcTransparency.FlagDelivers` | gatchat/gathdlc.c:294-306 | A flag delivers the octets accepted since the last one, without the last two, iff they are more than two and their bit-serial check sequence is f0b8 |
| `HdlcTransparency.EscapedOctetIsData` | gatchat/gathdlc.c:285-291 | After 7d every octet, a flag too, is data with bit 5 inverted |
| `HdlcTransparency.MarkedOctetIgnored` | gatchat/gathdlc.c:307-311 | An octet that the receive map marks, anywhere but after 7d, is as if it had not been there |
| `HdlcTransparency.PlainOctetIsData` | gatchat/gathdlc.c:307-311 | Every octet but those, 7d and 7e is data as it is |
| `HdlcTransparency.EscapeIsNoData` | gatchat/gathdlc.c:292-293 | 7d by itself delivers and stores nothing |
| `HdlcCodec.DecodeConcat` | gatchat/gathdlc.c:274-323 | Decoding does not depend on how the octets are cut into chunks |
| `HdlcCodec.StreamFits` | gatchat/gathdlc.c:285-311 | A sent stream stays within a decode buffer iff each payload does together with its check sequence |
| `HdlcCodec.FitsIff` | gatchat/gathdlc.c:274-317 | Arbitrary octets fit the decode buffer iff after each of them the octets accepted since the last flag do |
| `HdlcCodec.PlainOctetsFit` | gatchat/gathdlc.c:303-311 | Octets that need no escape and hold no flag fit iff they are no more than the room left: one more than 4096 do not |
| `HdlcCodec.Resynchronisation` | gatchat/gathdlc.c:274-320 | After any garbage, a dangling escape included, and two flags, the frames that follow are delivered unchanged |
| `HdlcCodec.CorruptFrameDropped` | gatchat/gathdlc.c:285-311 | A frame whose octets, after unescaping, differ from a good frame's by a burst of at most sixteen bits is dropped |
| `Hdlc.Endpoint.constructor` | gatchat/gathdlc.c:331-385 | A new endpoint has an empty queue, an idle decoder and the default maps |
| `Hdlc.Endpoint.NewBytes` | gatchat/gathdlc.c:245-329 | For any octets, the loop goes beyond the decode buffer iff they do not fit it; otherwise draining the ring, wherever it wraps, advances decoder and deliveries as decoding its contents does |
| `Hdlc.Endpoint.AcceptOctet` | gatchat/gathdlc.c:303-311 | An octet is stored and checked as the decoder says |
| `Hdlc.Endpoint.Send` | gatchat/gathdlc.c:533-643 | A frame is queued whole iff it fits the room left, and otherwise the queue's octets are unchanged; without a start marker exactly the first frame there is a buffer to try for is led by a flag |
| `Hdlc.Endpoint.CanWriteData` | gatchat/gathdlc.c:470-505 | As many octets are written as the channel takes of the first buffer's unwrapped part, and written plus queued octets remain the encodings of the successful sends; if no empty buffer stood before one that is not, none does now, and the handler stops only when everything is written |
| `Hdlc.Endpoint.DeliveredInOrder` | gatchat/gathdlc.c:470-643 | At any time a receiver of what was written has been delivered a prefix of the payloads sent, and all of them once everything is written |
| `HdlcQueue.StopsWhenDoneIff` | gatchat/gathdlc.c:470-505 | Whatever the channel takes at a time, the handler stops only when everything is written iff no empty buffer behind the first stands before one that is not |
| `HdlcQueue.SendKeepsGapless` | gatchat/gathdlc.c:546-558 | A send opens such a gap iff it succeeds behind an empty buffer that is not the first |
| `HdlcQueue.SendKeepsFilled` | gatchat/gathdlc.c:546-558 | A send leaves an empty buffer behind iff it adds one and its encoding does not fit even that |
| `HdlcQueue.NewBufferIff` | gatchat/gathdlc.c:546-558 | A send adds a buffer iff the last has less than the payload's length and 256 octets of room and there are at most 64, so there are never more than 65 |
| `HdlcQueue.FittingSendsAreSafe` | gatchat/gathdlc.c:533-643 | If every encoded frame fits an empty buffer, the handler never stops early over any run of sends and writes |
| `HdlcQueue.GapIsReachable` | gatchat/gathdlc.c:546-602 | Four sends, of which two fail, and a write after which the handler stops with a frame left |
| `Hdlc.WriteQueue.Enqueue` | gatchat/gathdlc.c:533-558 | A frame goes into the last buffer or a new one, within the limit on buffers, all or nothing |
| `Hdlc.WriteQueue.WriteOut` | gatchat/gathdlc.c:470-505 | The first buffer is dropped iff it has been emptied and is not the only one |
| `Hdlc.FillFrame` | gatchat/gathdlc.c:560-636 | Octet by octet through raw pointers and across the wrap, the free part of the ring receives the encoded frame, or as much of it as fits |
| `Fcs16.TableMatchesSerial` | gatchat/crc-ccitt.h:30-33 | The table-driven check sequence equals the bit-serial CRC with reflected polynomial 0x8408 on every octet string |
| `Fcs16.TableIsShift8` | gatchat/crc-ccitt.c:28-61 | Every table entry is eight steps of that shift register |
| `Fcs16.GoodResidue` | gatchat/gathdlc.c:604-606 | Appending the complemented check sequence, low octet first, always leaves the good residue |
| `Fcs16.CheckValue` | gatchat/crc-ccitt.h:30-33 | The octets of 123456789 leave 6f91, the usual check value before its complement |
| `Fcs16.CrcInjectiveInState` | gatchat/crc-ccitt.h:30-33 | Over any octets the check sequence is injective in its starting state |
| `Fcs16.BurstDetected` | gatchat/crc-ccitt.h:30-33 | At every length an error burst of at most sixteen bits, at any bit offset, makes a good frame fail |
| `Fcs16.AdjacentOctetsDetected` | gatchat/gathdlc.c:285-300 | Changing one octet or two adjacent ones of a good frame makes it fail |
| `RingBuffers.MaskIsMod` | gatchat/ringbuffer.c:56-63 | Masking with a power of two less one is the remainder |
| `RingBuffers.WrapKeepsSlot` | gatchat/ringbuffer.c:72-93 | The 32-bit wrap-around of a counter does not move its slot |
| `RingBuffers.RingBuffer.constructor` | gatchat/ringbuffer.c:42-70 | Empty, with a power of two of capacity, at least the smaller of the request and the maximum and less than twice the request |
| `RingBuffers.RingBuffer.Write` | gatchat/ringbuffer.c:72-93 | Appends as much of the data as there is room for, counters and array wrapping freely |
| `RingBuffers.RingBuffer.WriteAdvance` | gatchat/ringbuffer.c:109-115 | Octets stored through the write pointer become contents in order |
| `RingBuffers.RingBuffer.Store` | gatchat/ringbuffer.c:95-99 | A store through the write pointer changes that free octet and no contents |
| `RingBuffers.RingBuffer.Read` | gatchat/ringbuffer.c:117-139 | Takes from the front, across the wrap: what is returned followed by what is left is what there was |
| `RingBuffers.RingBuffer.Drain` | gatchat/ringbuffer.c:141-151 | Drops from the front, and rewinds both counters when empty |
| `RingBuffers.RingBuffer.Reset` | gatchat/ringbuffer.c:175-182 | Leaves no contents |
| `RingBuffers.RingBuffer.Len` | gatchat/ringbuffer.c:167-173 | The difference of the wrapping counters is the number of octets held |
| `RingBuffers.RingBuffer.Avail` | gatchat/ringbuffer.c:184-190 | What is held and what is available add up to the capacity |
| `Fcs8.CheckAcceptsOnlyFcs` | gatchat/gsm0710.c:79-95 | The header check accepts an octet iff it is the check sequence of the header |
| `Fcs8.ChangedOctetDetected` | gatchat/gsm0710.c:68-95 | Changing one octet of a header of any length makes the check fail |
| `Fcs8.TableIsShift8` | gatchat/gsm0710.c:33-66 | Every table entry is eight steps of the shift register |
| `Gsm0710Basic.ScanExtend` | gatchat/gsm0710.c:221-325 | On arbitrary octets, a frame found is found identically in every extension, and a scan that found none can resume where it stopped |
| `MuxStream.FeedInChunks` | gatchat/gatmux.c:1093-1119 | Extracting from two chunks one after the other equals extracting from both at once |
| `Gsm0710Basic.ScanFindsFrame` | gatchat/gsm0710.c:327-358 | A filled frame of any type and data is found with its fields, the poll bit stripped |
| `Gsm0710Basic.ScanWaitsForFrame` | gatchat/gsm0710.c:250-290 | A frame cut short anywhere is not taken for one, and the scan stops where it begins |
| `Gsm0710Basic.LengthRoundTrip` | gatchat/gsm0710.c:335-345 | One or two length octets read back as the length |
| `Gsm0710Basic.FillFrame` | gatchat/gsm0710.c:327-358 | The array receives the frame |
| `Gsm0710Basic.ExtractFrame` | gatchat/gsm0710.c:221-325 | The loop over the buffer computes the scan and points at the data |
| `Gsm0710Advanced.UnescapeInvertsEscape` | gatchat/gsm0710.c:133-146 | Unescaping inverts escaping |
| `Gsm0710Advanced.ScanFindsFrame` | gatchat/gsm0710.c:97-170 | A filled frame of any type and data is found, unescaped in place, with the scan on its closing flag |
| `Gsm0710Advanced.ScanWaitsForFrame` | gatchat/gsm0710.c:112-127 | A frame cut short anywhere is not found, and nothing is overwritten |
| `Gsm0710Advanced.ScanFrom` | gatchat/gsm0710.c:97-170 | The scan never changes an octet at or after the position it reports |
| `Gsm0710Advanced.OutOfBoundsIffLoneEscape` | gatchat/gsm0710.c:133-150 | Judging one segment stays within the buffer unless, and only unless, the segment is a lone escape |
| `AdvancedFraming.ShortIff` | gatchat/gsm0710.c:148-160 | A segment is reported with a negative length iff it unescapes to one or two octets of which the last is the check octet of the first two in the buffer |
| `AdvancedFraming.ShortInput` | gatchat/gsm0710.c:148-160 | Five octets reported as a frame of length minus one |
| `AdvancedFraming.OutOfBoundsInput` | gatchat/gsm0710.c:133-150 | Five octets on which the scan leaves its buffer |
| `AdvancedFraming.FeedIsSafe` | gatchat/gatmux.c:1247-1273 | On any octets in which every non-empty segment between flags unescapes to at least three octets, extraction does neither, for as long as it goes on |
| `AdvancedFraming.FaultIff` | gatchat/gatmux.c:1247-1273 | Extraction leaves defined behaviour iff a look at the octets as they arrived says so |
| `AdvancedFraming.LookIsScan` | gatchat/gsm0710.c:97-170 | The scan that overwrites its buffer comes to the same as a look at the octets as they arrived that remembers one octet |
| `AdvancedFraming.SentIsSafe` | gatchat/gsm0710.c:172-219 | Every part of a multiplexed stream, from its beginning or from a flag on, is safe |
| `Gsm0710Advanced.FillFrame` | gatchat/gsm0710.c:172-219 | The array receives the escaped frame |
| `Gsm0710Advanced.UnescapeInPlace` | gatchat/gsm0710.c:133-146 | The loop overwrites the front of its own buffer with the unescaped octets and never an octet still to be read |
| `Gsm0710Advanced.ExtractFrame` | gatchat/gsm0710.c:97-170 | The in-place loop computes the scan and leaves everything outside its region alone |
| `MuxReading.DemuxInvertsMux` | gatchat/gatmux.c:1132-1148 | For any interleaving of writes, reads of any sizes through the 4096-octet buffer and either mode: everything is read iff no frame is longer than the buffer, and then an open channel holds what it held followed by exactly its own writes, up to the 4096 octets it has room for; otherwise it gets exactly what was written to it before the first such frame |
| `MuxReading.ReadingStopsIff` | gatchat/gatmux.c:227-289 | In every such run reading stops for good iff some frame is longer than the buffer, which is then full of that frame's octets |
| `MuxReading.FrameSizeIsSafe` | gatchat/gatmux.c:1132-1148 | A frame size whose n+7 or 2n+7 octets are no more than the buffer's never stops the reader |
| `MuxReading.BasicJamIff` | gatchat/gsm0710.c:221-325 | On arbitrary octets nothing of a full buffer is used up, in basic mode, iff it begins with a valid address behind a single flag and a header that announces more than the buffer holds |
| `MuxReading.AdvancedJamIff` | gatchat/gsm0710.c:97-170 | In advanced mode, on octets the scan is defined on, iff it begins with its only flag |
| `MuxReading.StoppedIffJam` | gatchat/gatmux.c:274-286 | Where reading arbitrary octets in basic mode ends, the buffer is full iff the octets kept are of that kind |
| `MuxReading.JamInput` | gatchat/gatmux.c:227-289 | Five octets after which, with reads of any sizes, nothing beyond the 4096th octet is ever read and nothing is delivered |
| `MuxStream.ExtractionInvertsFraming` | gatchat/gsm0710.c:97-219 | Repeated extraction from any frames of any types gives them back in order and leaves only the last flag, in both modes |
| `MuxWire.PollBitStripped` | gatchat/gsm0710.c:148-165 | In both modes the control that is reported has bit 4 clear and agrees with the octet sent in every other bit, and two frames are extracted alike iff they differ in that bit only |
| `MuxWire.DeliveredIff` | gatchat/gatmux.c:968-976 | In both modes a frame with control ef, ff, 03 or 13 for an open channel 1 to 61 appends its data to that channel as far as there is room and changes no other; any other frame changes none |
| `MuxWire.BasicOnTheWire` | gatchat/gsm0710.c:327-358 | The octets of a basic frame: f9, four times the channel plus three, control, length in one octet up to 127 and in two from 128 on, data, check octet of the header, f9 |
| `MuxWire.AdvancedOnTheWire` | gatchat/gsm0710.c:172-219 | The octets of an advanced frame: address, control, data and the check octet of the first two, stuffed, between 7e, and no other 7e in it |
| `MuxWire.StuffedOctet` | gatchat/gsm0710.c:201-206 | 7d and 7e go out as 7d and the octet with bit 5 inverted, every other octet as itself |
| `MuxWire.UnstuffedOctet` | gatchat/gsm0710.c:133-146 | 7d stands for the next octet with bit 5 inverted, a last 7d for nothing |
| `MuxWire.BasicExtractsFrames` | gatchat/gsm0710.c:221-325 | Whatever is extracted from arbitrary octets lies between two f9, has an odd address octet, the length it announces and the check octet of its header |
| `MuxWire.AdvancedExtractsFrames` | gatchat/gsm0710.c:97-170 | Whatever is extracted while the scan overwrites its buffer lies between two 7e of the octets as they arrived, unescapes to at least three octets and has the check octet of its header |
| `MuxWire.WritesAreUih` | gatchat/gatmux.c:1132-1148 | Writes go out with control ef |
| `MuxWire.FragmentSizes` | gatchat/gatmux.c:1132-1148 | A write is cut into full frames and a last one that is not empty |
| `MuxReading.BasicChunkIndependence` | gatchat/gatmux.c:227-289 | In basic mode, for arbitrary octets and reads of any sizes through the buffer, reading ends at the same octet, with the same frames delivered and octets kept, as taking the octets up to there at once; that octet does not depend on the sizes |
| `MuxStream.FrameFitsRoom` | gatchat/gatmux.c:1132-1148 | Every fragment's frame fits the n+7 or 2n+7 octets allocated for it |
| `MuxStream.ClosedStaysClosed` | gatchat/gatmux.c:372-401 | No data opens a channel |
| `Mux.Multiplexer.constructor` | gatchat/gatmux.c:606-627 | No channel is open and nothing is kept |
| `Mux.Multiplexer.Write` | gatchat/gatmux.c:1132-1148 | A write appends the frames of its fragments |
| `Mux.Multiplexer.WriteFrame` | gatchat/gatmux.c:1018-1035 | A fragment appends its frame |
| `Mux.Multiplexer.FeedDlcData` | gatchat/gatmux.c:372-401 | Data goes to its own open channel, as much as there is room for, and nowhere else |
| `Mux.Multiplexer.FeedData` | gatchat/gatmux.c:1247-1273 | On all octets that do not take the scan out of defined behaviour, the loop delivers exactly the frames in the buffer and reports what it used |
| `Mux.Multiplexer.ReceivedData` | gatchat/gatmux.c:227-289 | A read, delivery and compaction of such octets take the multiplexer to the stream model's next state, what is kept is such again, and reading goes on iff the buffer is not full |
| `Mux.Multiplexer.CreateChannel` | gatchat/gatmux.c:732-775 | The first free channel is opened, if there is one |

## Left out

- ControlProtocolMachine.Machine.Interpret: codes of 32 and above are unsupported codes; the shift that decides it in C is only defined below 32.
- Ppp.Connection.AuthTimeout: a PAP object that is replaced while an older timer of its own runs takes that timer with it; the code only stops the last one.
- MuxReading.DemuxInvertsMux: frame sizes of 0x8000 and more in the basic option, whose length does not fit the length field.
- Mux.Multiplexer.FeedData: a short frame that passes its check counts as leaving defined behaviour whatever its type; for a type the code ignores, or a channel that is not open, the negative length would do no harm.
- Ppp.Connection.Receive: the length of a Protocol-Reject; the code computes it as two less than the frame's, which is negative iff the frame is a single odd octet.
- What the network interface does with a packet, beyond that it needs one to exist.
- Frames sent from the channel's write side are taken whole: partial raw writes, which the code ignores, are not modelled.
- The transmit map that the link lays down for LCP frames, and the maps that accepted options set.
- HDLC `+++` escape and suspension, no-carrier detection, recording and changes of the start-frame marker.
- Multiplexer control frames on channel 0 (status and test), the set-up dialogue over AT commands, the bitmap of channels with new data, dispatch, throttling, closing and reading of channels.
- CHAP digests, PAP credentials and the contents of authentication packets; only their results matter here.
- The options of LCP: its verdicts and its own options are inputs.
- The client's side of IPCP as judge of the server's requests, and the server's own address.
- The identifiers and contents of Code-Reject and Protocol-Reject beyond the packet they answer, and the data field of Echo-Reply.
- `ppp_ipv6cp.c`, `gatsyntax.c`, `gatchat.c`, `gatserver.c`, `gatresult.c` and the other libraries of the repository, which would add easy members or repeat IPCP.
- Allocation failure, reference counting, and destroying an object from its own callback.
