/** The transition table as `ppp_cp.c` holds it: sixteen rows of ten numbers, the new state in the four
lowest bits and one bit for each action. The automaton's transitions are what these numbers decode to.
 */
module ControlProtocolTable {
  import opened ControlProtocol

  type Number = bv20

  function StateNumber(s: State): nat {
    match s
    case Initial => 0
    case Starting => 1
    case Closed => 2
    case Stopped => 3
    case Closing => 4
    case Stopping => 5
    case ReqSent => 6
    case AckRcvd => 7
    case AckSent => 8
    case Opened => 9
  }

  /** The rows, with 0x00010 for an illegal event, 0x00020 for IRC, 0x00040 for ZRC, 0x00100 to 0x00800
      for this-layer-up, -down, -started and -finished, and 0x01000 to 0x40000 for SCR, SCA, SCN, STR,
      STA, SCJ and SER. */
  const UP: seq<Number> := [2, 0x01026, 0x10, 0x10, 0x10, 0x10, 0x10, 0x10, 0x10, 0x10]
  const DOWN: seq<Number> := [0x10, 0x10, 0, 0x00401, 0, 1, 1, 1, 1, 0x00201]
  const OPEN: seq<Number> := [0x00401, 1, 0x01026, 3, 5, 5, 6, 7, 8, 9]
  const CLOSE: seq<Number> := [0, 0x00800, 2, 2, 4, 4, 0x08024, 0x08024, 0x08024, 0x08224]
  const TIMEOUT_PLUS: seq<Number> := [0x10, 0x10, 0x10, 0x10, 0x08004, 0x08005, 0x01006, 0x01006, 0x01008, 0x10]
  const TIMEOUT_MINUS: seq<Number> := [0x10, 0x10, 0x10, 0x10, 0x00802, 0x00803, 0x00803, 0x00803, 0x00803, 0x10]
  const RCR_PLUS: seq<Number> := [0x10, 0x10, 0x10002, 0x03028, 4, 5, 0x02008, 0x02109, 0x02008, 0x03208]
  const RCR_MINUS: seq<Number> := [0x10, 0x10, 0x10002, 0x05026, 4, 5, 0x04006, 0x04007, 0x04006, 0x05206]
  const RCA: seq<Number> := [0x10, 0x10, 0x10002, 0x10003, 4, 5, 0x00027, 0x01006, 0x00129, 0x01206]
  const RCN: seq<Number> := [0x10, 0x10, 0x10002, 0x10003, 4, 5, 0x01026, 0x01006, 0x01028, 0x01206]
  const RTR: seq<Number> := [0x10, 0x10, 0x10002, 0x10003, 0x10004, 0x10005, 0x10006, 0x10006, 0x10006, 0x10245]
  const RTA: seq<Number> := [0x10, 0x10, 2, 3, 0x00802, 0x00803, 6, 6, 8, 0x01206]
  const RUC: seq<Number> := [0x10, 0x10, 0x20002, 0x20003, 0x20004, 0x20005, 0x20006, 0x20007, 0x20008, 0x20009]
  const RXJ_PLUS: seq<Number> := [0x10, 0x10, 2, 3, 4, 5, 6, 6, 8, 9]
  const RXJ_MINUS: seq<Number> := [0x10, 0x10, 0x00802, 0x00803, 0x00802, 0x00803, 0x00803, 0x00803, 0x00803, 0x08225]
  const RXR: seq<Number> := [0x10, 0x10, 2, 3, 4, 5, 6, 7, 8, 0x40009]

  function Row(e: Event): (r: seq<Number>)
    ensures |r| == 10
  {
    match e
    case Up => UP
    case Down => DOWN
    case Open => OPEN
    case Close => CLOSE
    case TimeoutPlus => TIMEOUT_PLUS
    case TimeoutMinus => TIMEOUT_MINUS
    case RcrPlus => RCR_PLUS
    case RcrMinus => RCR_MINUS
    case Rca => RCA
    case Rcn => RCN
    case Rtr => RTR
    case Rta => RTA
    case Ruc => RUC
    case RxjPlus => RXJ_PLUS
    case RxjMinus => RXJ_MINUS
    case Rxr => RXR
  }

  predicate Has(n: Number, mask: Number) {
    n & mask != 0
  }

  /** The bit of an action. */
  function Mask(a: Action): Number {
    match a
    case IRC => 0x00020
    case ZRC => 0x00040
    case SCR => 0x01000
    case SCA => 0x02000
    case SCN => 0x04000
    case STR => 0x08000
    case STA => 0x10000
    case SCJ => 0x20000
    case SER => 0x40000
  }

  /** The first of the four signals whose bit is set. */
  function SignalOf(n: Number): Layer {
    if Has(n, 0x00400) then LayerStarted
    else if Has(n, 0x00100) then LayerUp
    else if Has(n, 0x00200) then LayerDown
    else if Has(n, 0x00800) then LayerFinished
    else NoSignal
  }

  /** An entry is what a number of the table means, as far as action `a` goes. */
  predicate Decodes(n: Number, t: Entry, a: Action) {
    if Has(n, 0x10) then t.Illegal?
    else
      && t.Go?
      && (n & 0xf) as int == StateNumber(t.next)
      && t.layer == SignalOf(n)
      && (a in t.actions <==> Has(n, Mask(a)))
  }

  lemma UpRow(s: State, a: Action)
    ensures Decodes(UP[StateNumber(s)], Transition(Up, s), a)
  {
  }

  lemma DownRow(s: State, a: Action)
    ensures Decodes(DOWN[StateNumber(s)], Transition(Down, s), a)
  {
  }

  lemma OpenRow(s: State, a: Action)
    ensures Decodes(OPEN[StateNumber(s)], Transition(Open, s), a)
  {
  }

  lemma CloseRow(s: State, a: Action)
    ensures Decodes(CLOSE[StateNumber(s)], Transition(Close, s), a)
  {
  }

  lemma TimeoutPlusRow(s: State, a: Action)
    ensures Decodes(TIMEOUT_PLUS[StateNumber(s)], Transition(TimeoutPlus, s), a)
  {
  }

  lemma TimeoutMinusRow(s: State, a: Action)
    ensures Decodes(TIMEOUT_MINUS[StateNumber(s)], Transition(TimeoutMinus, s), a)
  {
  }

  lemma RcrPlusRow(s: State, a: Action)
    ensures Decodes(RCR_PLUS[StateNumber(s)], Transition(RcrPlus, s), a)
  {
  }

  lemma RcrMinusRow(s: State, a: Action)
    ensures Decodes(RCR_MINUS[StateNumber(s)], Transition(RcrMinus, s), a)
  {
  }

  lemma RcaRow(s: State, a: Action)
    ensures Decodes(RCA[StateNumber(s)], Transition(Rca, s), a)
  {
  }

  lemma RcnRow(s: State, a: Action)
    ensures Decodes(RCN[StateNumber(s)], Transition(Rcn, s), a)
  {
  }

  lemma RtrRow(s: State, a: Action)
    ensures Decodes(RTR[StateNumber(s)], Transition(Rtr, s), a)
  {
  }

  lemma RtaRow(s: State, a: Action)
    ensures Decodes(RTA[StateNumber(s)], Transition(Rta, s), a)
  {
  }

  lemma RucRow(s: State, a: Action)
    ensures Decodes(RUC[StateNumber(s)], Transition(Ruc, s), a)
  {
  }

  lemma RxjPlusRow(s: State, a: Action)
    ensures Decodes(RXJ_PLUS[StateNumber(s)], Transition(RxjPlus, s), a)
  {
  }

  lemma RxjMinusRow(s: State, a: Action)
    ensures Decodes(RXJ_MINUS[StateNumber(s)], Transition(RxjMinus, s), a)
  {
  }

  lemma RxrRow(s: State, a: Action)
    ensures Decodes(RXR[StateNumber(s)], Transition(Rxr, s), a)
  {
  }

  /** Every one of the 160 entries is what its number means. */
  lemma TransitionDecodesTable(e: Event, s: State, a: Action)
    ensures Decodes(Row(e)[StateNumber(s)], Transition(e, s), a)
  {
    hide Transition, Decodes;
    match e {
      case Up => UpRow(s, a);
      case Down => DownRow(s, a);
      case Open => OpenRow(s, a);
      case Close => CloseRow(s, a);
      case TimeoutPlus => TimeoutPlusRow(s, a);
      case TimeoutMinus => TimeoutMinusRow(s, a);
      case RcrPlus => RcrPlusRow(s, a);
      case RcrMinus => RcrMinusRow(s, a);
      case Rca => RcaRow(s, a);
      case Rcn => RcnRow(s, a);
      case Rtr => RtrRow(s, a);
      case Rta => RtaRow(s, a);
      case Ruc => RucRow(s, a);
      case RxjPlus => RxjPlusRow(s, a);
      case RxjMinus => RxjMinusRow(s, a);
      case Rxr => RxrRow(s, a);
    }
  }
}
