/** The negotiation of `ppp_ipcp.c`: the address options of RFC 1332 and RFC 1877, what a client
makes of the server's replies, and what a server replies.
 */
module Ipcp {
  import opened ControlProtocol
  import opened Wrappers

  type Address = a: seq<bv8> | |a| == 4 witness [0, 0, 0, 0]

  const ZERO: Address := [0, 0, 0, 0]

  datatype Kind = IpAddress | Dns1 | Dns2 | Nbns1 | Nbns2

  /** The option types, in the order in which a request lists them. */
  const KINDS: seq<Kind> := [IpAddress, Dns1, Dns2, Nbns1, Nbns2]

  function Code(k: Kind): bv8 {
    match k
    case IpAddress => 3
    case Dns1 => 129
    case Dns2 => 131
    case Nbns1 => 130
    case Nbns2 => 132
  }

  function KindOf(code: bv8): Option<Kind> {
    if code == 3 then Some(IpAddress)
    else if code == 129 then Some(Dns1)
    else if code == 131 then Some(Dns2)
    else if code == 130 then Some(Nbns1)
    else if code == 132 then Some(Nbns2)
    else None
  }

  /** The kinds a server can assign; it rejects every other option. */
  predicate Assignable(k: Kind) {
    k == IpAddress || k == Dns1 || k == Dns2
  }

  /** Whether an option is requested, and its current value. */
  datatype Item = Item(requested: bool, value: Address)

  datatype Config = Config(ip: Item, dns1: Item, dns2: Item, nbns1: Item, nbns2: Item) {
    function Get(k: Kind): Item {
      match k
      case IpAddress => ip
      case Dns1 => dns1
      case Dns2 => dns2
      case Nbns1 => nbns1
      case Nbns2 => nbns2
    }

    function Set(k: Kind, item: Item): Config {
      match k
      case IpAddress => this.(ip := item)
      case Dns1 => this.(dns1 := item)
      case Dns2 => this.(dns2 := item)
      case Nbns1 => this.(nbns1 := item)
      case Nbns2 => this.(nbns2 := item)
    }
  }

  /** The addresses a server hands out. */
  datatype Server = Server(peer: Address, dns1: Address, dns2: Address) {
    function Assigned(k: Kind): Address {
      match k
      case IpAddress => peer
      case Dns1 => dns1
      case Dns2 => dns2
      case _ => ZERO
    }
  }

  //
  // Option lists.
  //

  /** One option: type, length and data. */
  predicate IsOption(o: seq<bv8>) {
    |o| >= 2 && o[1] as int == |o| && (KindOf(o[0]).Some? ==> |o| == 6)
  }

  predicate AreOptions(os: seq<seq<bv8>>) {
    forall k :: 0 <= k < |os| ==> IsOption(os[k])
  }

  function Flatten(os: seq<seq<bv8>>): seq<bv8> {
    if os == [] then [] else os[0] + Flatten(os[1..])
  }

  /** What the option iterator needs of a packet's data: options one after the other, each with a
      length that is its own, and four octets in every address. */
  predicate WellFormed(data: seq<bv8>) {
    data == [] || (|data| >= 2 && 2 <= data[1] as int <= |data|
                   && IsOption(data[..data[1] as int]) && WellFormed(data[data[1] as int..]))
  }

  /** The options the iterator yields. */
  function Options(data: seq<bv8>): (os: seq<seq<bv8>>)
    requires WellFormed(data)
    ensures AreOptions(os) && Flatten(os) == data
  {
    if data == [] then []
    else
      var n := data[1] as int;
      assert data == data[..n] + data[n..];
      [data[..n]] + Options(data[n..])
  }

  lemma {:induction false} OptionsOfFlatten(os: seq<seq<bv8>>)
    requires AreOptions(os)
    ensures WellFormed(Flatten(os)) && Options(Flatten(os)) == os
  {
    if os != [] {
      OptionsOfFlatten(os[1..]);
      var data := Flatten(os);
      assert data[..|os[0]|] == os[0] && data[|os[0]|..] == Flatten(os[1..]);
      assert data[1] == os[0][1];
    }
  }

  function AddressOption(code: bv8, a: Address): (o: seq<bv8>)
    ensures |o| == 6 && IsOption(o) && o[0] == code && AddressIn(o) == a
  {
    [code, 6] + a
  }

  function AddressIn(o: seq<bv8>): Address
    requires |o| == 6
  {
    o[2..6]
  }

  //
  // Requests and replies.
  //

  /** The part of a request for one kind. */
  function Piece(c: Config, k: Kind): (os: seq<seq<bv8>>)
    ensures AreOptions(os)
  {
    if c.Get(k).requested then [AddressOption(Code(k), c.Get(k).value)] else []
  }

  function Pieces(c: Config, ks: seq<Kind>): (os: seq<seq<bv8>>)
    ensures AreOptions(os)
  {
    if ks == [] then [] else Piece(c, ks[0]) + Pieces(c, ks[1..])
  }

  function Request(c: Config): seq<bv8> {
    Flatten(Pieces(c, KINDS))
  }

  /** What a server makes of one option: nothing, or a refusal. */
  predicate Rejects(o: seq<bv8>)
    requires IsOption(o)
  {
    KindOf(o[0]).None? || !Assignable(KindOf(o[0]).value)
  }

  predicate Naks(s: Server, o: seq<bv8>)
    requires IsOption(o)
  {
    !Rejects(o) && (AddressIn(o) != s.Assigned(KindOf(o[0]).value) || AddressIn(o) == ZERO)
  }

  function Rejected(os: seq<seq<bv8>>): (r: seq<seq<bv8>>)
    requires AreOptions(os)
    ensures AreOptions(r)
  {
    if os == [] then [] else (if Rejects(os[0]) then [os[0]] else []) + Rejected(os[1..])
  }

  function Naked(s: Server, os: seq<seq<bv8>>): (r: seq<seq<bv8>>)
    requires AreOptions(os)
    ensures AreOptions(r)
  {
    if os == [] then []
    else
      (if Naks(s, os[0]) then [AddressOption(os[0][0], s.Assigned(KindOf(os[0][0]).value))] else [])
      + Naked(s, os[1..])
  }

  /** `ipcp_server_rcr`. */
  function ServerReply(s: Server, data: seq<bv8>): (v: Verdict)
    requires WellFormed(data)
    ensures v.Accept? || (WellFormed(v.options) && v.options != [])
  {
    var os := Options(data);
    OptionsOfFlatten(Rejected(os));
    OptionsOfFlatten(Naked(s, os));
    if Rejected(os) != [] then Reject(Flatten(Rejected(os)))
    else if Naked(s, os) != [] then Nak(Flatten(Naked(s, os)))
    else Accept
  }

  /** `ipcp_rcn_nak`: every known option is requested with the value suggested. */
  function AfterNak(c: Config, os: seq<seq<bv8>>): Config
    requires AreOptions(os)
    decreases |os|
  {
    if os == [] then c
    else
      var k := KindOf(os[0][0]);
      AfterNak(if k.Some? then c.Set(k.value, Item(true, AddressIn(os[0]))) else c, os[1..])
  }

  /** `ipcp_rcn_rej`: no known option is requested any more. */
  function AfterReject(c: Config, os: seq<seq<bv8>>): Config
    requires AreOptions(os)
    decreases |os|
  {
    if os == [] then c
    else
      var k := KindOf(os[0][0]);
      AfterReject(if k.Some? then c.Set(k.value, Item(false, c.Get(k.value).value)) else c, os[1..])
  }

  /** One exchange: the client's configuration after the server's reply to its request. */
  function Exchange(c: Config, s: Server): Config {
    RequestIsWellFormed(c);
    match ServerReply(s, Request(c))
    case Accept => c
    case Nak(options) => AfterNak(c, Options(options))
    case Reject(options) => AfterReject(c, Options(options))
  }

  lemma RequestIsWellFormed(c: Config)
    ensures WellFormed(Request(c)) && Options(Request(c)) == Pieces(c, KINDS)
  {
    OptionsOfFlatten(Pieces(c, KINDS));
  }

  function Exchanges(c: Config, s: Server, n: nat): Config
    decreases n
  {
    if n == 0 then c else Exchanges(Exchange(c, s), s, n - 1)
  }

  predicate Accepted(c: Config, s: Server) {
    RequestIsWellFormed(c);
    ServerReply(s, Request(c)) == Accept
  }

  //
  // What an exchange does to each option.
  //

  lemma CodesAreDistinct(k: Kind)
    ensures KindOf(Code(k)) == Some(k)
  {
  }

  lemma {:induction false} RejectedConcat(a: seq<seq<bv8>>, b: seq<seq<bv8>>)
    requires AreOptions(a) && AreOptions(b)
    ensures AreOptions(a + b) && Rejected(a + b) == Rejected(a) + Rejected(b)
  {
    if a == [] {
      assert a + b == b;
    } else {
      assert (a + b)[1..] == a[1..] + b;
      RejectedConcat(a[1..], b);
    }
  }

  lemma {:induction false} NakedConcat(s: Server, a: seq<seq<bv8>>, b: seq<seq<bv8>>)
    requires AreOptions(a) && AreOptions(b)
    ensures AreOptions(a + b) && Naked(s, a + b) == Naked(s, a) + Naked(s, b)
  {
    if a == [] {
      assert a + b == b;
    } else {
      assert (a + b)[1..] == a[1..] + b;
      NakedConcat(s, a[1..], b);
    }
  }

  /** The option is one the server does not know. */
  predicate Foreign(c: Config, k: Kind) {
    c.Get(k).requested && !Assignable(k)
  }

  /** The option asks for what the server will not give. */
  predicate Off(c: Config, s: Server, k: Kind) {
    c.Get(k).requested && Assignable(k) && (c.Get(k).value != s.Assigned(k) || c.Get(k).value == ZERO)
  }

  lemma RejectedPiece(c: Config, k: Kind)
    ensures Rejected(Piece(c, k)) == if Foreign(c, k) then [AddressOption(Code(k), c.Get(k).value)] else []
  {
    CodesAreDistinct(k);
    if c.Get(k).requested { assert Piece(c, k)[1..] == []; }
  }

  lemma NakedPiece(c: Config, s: Server, k: Kind)
    ensures Naked(s, Piece(c, k)) == if Off(c, s, k) then [AddressOption(Code(k), s.Assigned(k))] else []
  {
    CodesAreDistinct(k);
    if c.Get(k).requested { assert Piece(c, k)[1..] == []; }
  }

  lemma GetSet(c: Config, k: Kind, item: Item, j: Kind)
    ensures c.Set(k, item).Get(j) == if j == k then item else c.Get(j)
  {
  }

  lemma {:induction false} RejectedEmpty(c: Config, ks: seq<Kind>)
    ensures Rejected(Pieces(c, ks)) == [] <==> forall k :: k in ks ==> !Foreign(c, k)
    decreases |ks|
  {
    hide Foreign;
    if ks != [] {
      assert ks == [ks[0]] + ks[1..];
      RejectedConcat(Piece(c, ks[0]), Pieces(c, ks[1..]));
      RejectedPiece(c, ks[0]);
      RejectedEmpty(c, ks[1..]);
    }
  }

  lemma {:induction false} NakedEmpty(c: Config, s: Server, ks: seq<Kind>)
    ensures Naked(s, Pieces(c, ks)) == [] <==> forall k :: k in ks ==> !Off(c, s, k)
    decreases |ks|
  {
    hide Off;
    if ks != [] {
      assert ks == [ks[0]] + ks[1..];
      NakedConcat(s, Piece(c, ks[0]), Pieces(c, ks[1..]));
      NakedPiece(c, s, ks[0]);
      NakedEmpty(c, s, ks[1..]);
    }
  }

  /** Of the options in `ks`, the rejected ones are requested no longer. */
  lemma {:induction false} RejectedPieces(c: Config, ks: seq<Kind>, d: Config, k: Kind)
    ensures AfterReject(d, Rejected(Pieces(c, ks))).Get(k) ==
      if k in ks && Foreign(c, k) then Item(false, d.Get(k).value) else d.Get(k)
    decreases |ks|
  {
    hide Foreign, Config.Get, Config.Set;
    if ks != [] {
      var k0, rest := ks[0], ks[1..];
      assert ks == [k0] + rest;
      RejectedConcat(Piece(c, k0), Pieces(c, rest));
      RejectedPiece(c, k0);
      CodesAreDistinct(k0);
      var all, tail := Rejected(Pieces(c, ks)), Rejected(Pieces(c, rest));
      if Foreign(c, k0) {
        var item := Item(false, d.Get(k0).value);
        assert all[0] == AddressOption(Code(k0), c.Get(k0).value) && all[1..] == tail;
        assert AfterReject(d, all) == AfterReject(d.Set(k0, item), tail);
        GetSet(d, k0, item, k);
        RejectedPieces(c, rest, d.Set(k0, item), k);
      } else {
        assert all == tail;
        RejectedPieces(c, rest, d, k);
      }
    }
  }

  /** Of the options in `ks`, the corrected ones take the server's value. */
  lemma {:induction false} NakedPieces(c: Config, s: Server, ks: seq<Kind>, d: Config, k: Kind)
    ensures AfterNak(d, Naked(s, Pieces(c, ks))).Get(k) ==
      if k in ks && Off(c, s, k) then Item(true, s.Assigned(k)) else d.Get(k)
    decreases |ks|
  {
    hide Off, Config.Get, Config.Set;
    if ks != [] {
      var k0, rest := ks[0], ks[1..];
      assert ks == [k0] + rest;
      NakedConcat(s, Piece(c, k0), Pieces(c, rest));
      NakedPiece(c, s, k0);
      CodesAreDistinct(k0);
      var all, tail := Naked(s, Pieces(c, ks)), Naked(s, Pieces(c, rest));
      if Off(c, s, k0) {
        var item := Item(true, s.Assigned(k0));
        assert all[0] == AddressOption(Code(k0), s.Assigned(k0)) && all[1..] == tail;
        assert AfterNak(d, all) == AfterNak(d.Set(k0, item), tail);
        GetSet(d, k0, item, k);
        NakedPieces(c, s, rest, d.Set(k0, item), k);
      } else {
        assert all == tail;
        NakedPieces(c, s, rest, d, k);
      }
    }
  }

  lemma AllKinds(k: Kind)
    ensures k in KINDS
  {
    match k {
      case IpAddress => assert KINDS[0] == k;
      case Dns1 => assert KINDS[1] == k;
      case Dns2 => assert KINDS[2] == k;
      case Nbns1 => assert KINDS[3] == k;
      case Nbns2 => assert KINDS[4] == k;
    }
  }

  predicate AnyForeign(c: Config) {
    exists k :: Foreign(c, k)
  }

  /** An exchange drops every option the server does not know; if there is none, it corrects every
      option the server would give another value; and if there is none of those, it is over. */
  lemma ExchangeMeaning(c: Config, s: Server, k: Kind)
    ensures Accepted(c, s) <==> !AnyForeign(c) && forall j :: !Off(c, s, j)
    ensures AnyForeign(c) ==>
      Exchange(c, s).Get(k) == if Foreign(c, k) then Item(false, c.Get(k).value) else c.Get(k)
    ensures !AnyForeign(c) ==>
      Exchange(c, s).Get(k) == if Off(c, s, k) then Item(true, s.Assigned(k)) else c.Get(k)
  {
    hide Rejected, Naked, Pieces, AfterNak, AfterReject, Foreign, Off;
    RequestIsWellFormed(c);
    forall j ensures j in KINDS { AllKinds(j); }
    RejectedEmpty(c, KINDS);
    NakedEmpty(c, s, KINDS);
    RejectedPieces(c, KINDS, c, k);
    NakedPieces(c, s, KINDS, c, k);
    var os := Pieces(c, KINDS);
    OptionsOfFlatten(Rejected(os));
    OptionsOfFlatten(Naked(s, os));
  }

  //
  // Convergence.
  //

  /** The server has an address for everything the client asks it to assign. */
  predicate Served(c: Config, s: Server) {
    forall k :: c.Get(k).requested && Assignable(k) ==> s.Assigned(k) != ZERO
  }

  /** What the first two exchanges make of one option. */
  lemma TwoExchanges(c: Config, s: Server, k: Kind)
    requires Served(c, s)
    ensures var e := Exchange(Exchange(c, s), s);
      && !Foreign(e, k)
      && !Off(e, s, k)
      && (e.Get(k).requested <==> c.Get(k).requested && Assignable(k))
      && (e.Get(k).requested ==> e.Get(k).value == s.Assigned(k))
  {
    hide Exchange, Accepted;
    var d := Exchange(c, s);
    forall j ensures !Foreign(d, j) {
      ExchangeMeaning(c, s, j);
      assert Foreign(c, j) ==> AnyForeign(c);
    }
    ExchangeMeaning(c, s, k);
    assert Foreign(c, k) ==> AnyForeign(c);
    ExchangeMeaning(d, s, k);
  }

  /** If so, the third request at the latest is acknowledged, with the server's own addresses for
      everything that was requested and can be assigned. */
  lemma ConvergesWhenServed(c: Config, s: Server)
    requires Served(c, s)
    ensures var e := Exchanges(c, s, 2);
      && Accepted(e, s)
      && (forall k :: e.Get(k).requested <==> c.Get(k).requested && Assignable(k))
      && (forall k :: e.Get(k).requested ==> e.Get(k).value == s.Assigned(k))
  {
    hide Exchange, Accepted, Foreign, Off;
    var d := Exchange(c, s);
    var e := Exchange(d, s);
    assert Exchanges(c, s, 2) == Exchanges(d, s, 1) == Exchanges(e, s, 0) == e;
    forall k
      ensures !Foreign(e, k) && !Off(e, s, k)
      ensures e.Get(k).requested <==> c.Get(k).requested && Assignable(k)
      ensures e.Get(k).requested ==> e.Get(k).value == s.Assigned(k)
    {
      TwoExchanges(c, s, k);
    }
    ExchangeMeaning(e, s, IpAddress);
  }

  /** If not, no request is ever acknowledged. */
  lemma {:induction false} StuckWhenNotServed(c: Config, s: Server, n: nat)
    requires !Served(c, s)
    ensures !Accepted(Exchanges(c, s, n), s)
    decreases n
  {
    hide Exchange, Accepted;
    var k :| c.Get(k).requested && Assignable(k) && s.Assigned(k) == ZERO;
    ExchangeMeaning(c, s, k);
    assert Off(c, s, k);
    if n > 0 {
      assert Exchange(c, s).Get(k).requested;
      StuckWhenNotServed(Exchange(c, s), s, n - 1);
    }
  }

  /** A negotiation ends in an acknowledgement if and only if the server has an address for everything
      it is asked to assign, and then by the third request. */
  lemma NegotiationConverges(c: Config, s: Server)
    ensures (exists n :: Accepted(Exchanges(c, s, n), s)) <==> Served(c, s)
    ensures Served(c, s) <==> Accepted(Exchanges(c, s, 2), s)
  {
    hide Exchanges, Accepted, Served;
    if Served(c, s) {
      ConvergesWhenServed(c, s);
    } else {
      forall n ensures !Accepted(Exchanges(c, s, n), s) { StuckWhenNotServed(c, s, n); }
    }
  }

  //
  // The server's limit on refusals.
  //

  /** What the server's automaton makes of the verdict: once its refusals reach the limit it rejects
      every request whole. */
  function LimitedReply(f: Refusals, s: Server, data: seq<bv8>): (v: Verdict)
    requires WellFormed(data)
    ensures v.Accept? || WellFormed(v.options)
  {
    if f.count >= f.max then Reject(data) else ServerReply(s, data)
  }

  /** A Nak counts, a rejection does not, an acknowledgement starts the count again. */
  function LimitedCount(f: Refusals, v: Verdict): nat {
    if f.count >= f.max then f.count
    else
      match v
      case Accept => 0
      case Nak(_) => f.count + 1
      case Reject(_) => f.count
  }

  /** That is what the automaton does, in any state in which it negotiates. */
  lemma ServerAutomaton(cp: Cp, s: Server, id: bv8, data: seq<bv8>)
    requires WellFormed(data) && IsRequesting(cp.state)
    ensures var r := Next(cp, Receive(CODES, Packet(1, id, data), ServerReply(s, data), []));
      var v := LimitedReply(cp.refusals, s, data);
      && r.cp.refusals.count == LimitedCount(cp.refusals, v)
      && r.cp.refusals.max == cp.refusals.max
      && r.sent == [match v
                    case Accept => ConfigureAck(id, data)
                    case Nak(options) => ConfigureNak(id, options)
                    case Reject(options) => ConfigureReject(id, options)]
  {
    hide Transition, TimersAfter, NewConfigId, NewTerminateId, ServerReply, WellFormed;
    TableAnswers(cp.state);
  }

  lemma TableAnswers(s: State)
    requires IsRequesting(s)
    ensures var t := Transition(RcrPlus, s); t.Go? && t.actions == {SCA}
    ensures var t := Transition(RcrMinus, s); t.Go? && t.actions == {SCN}
  {
  }

  datatype Talk = Talk(client: Config, refusals: Refusals)

  function LimitedExchange(t: Talk, s: Server): Talk {
    RequestIsWellFormed(t.client);
    var v := LimitedReply(t.refusals, s, Request(t.client));
    Talk(
      match v
      case Accept => t.client
      case Nak(options) => AfterNak(t.client, Options(options))
      case Reject(options) => AfterReject(t.client, Options(options)),
      t.refusals.(count := LimitedCount(t.refusals, v)))
  }

  function LimitedExchanges(t: Talk, s: Server, n: nat): Talk
    decreases n
  {
    if n == 0 then t else LimitedExchanges(LimitedExchange(t, s), s, n - 1)
  }

  predicate LimitedAccepted(t: Talk, s: Server) {
    t.refusals.count < t.refusals.max && Accepted(t.client, s)
  }

  /** Below the limit an exchange is as without one. */
  lemma BelowLimit(t: Talk, s: Server)
    requires t.refusals.count < t.refusals.max
    ensures LimitedExchange(t, s).client == Exchange(t.client, s)
    ensures LimitedExchange(t, s).refusals.max == t.refusals.max
    ensures AnyForeign(t.client) ==> LimitedExchange(t, s).refusals.count == t.refusals.count
    ensures !AnyForeign(t.client) && NeedsNak(t.client, s) ==>
      LimitedExchange(t, s).refusals.count == t.refusals.count + 1
    ensures !AnyForeign(t.client) && !NeedsNak(t.client, s) ==> LimitedExchange(t, s).refusals.count == 0
  {
    hide Rejected, Naked, Pieces, AfterNak, AfterReject, Foreign, Off, Flatten;
    RequestIsWellFormed(t.client);
    forall j ensures j in KINDS { AllKinds(j); }
    RejectedEmpty(t.client, KINDS);
    NakedEmpty(t.client, s, KINDS);
  }

  predicate NeedsNak(c: Config, s: Server) {
    exists k :: Off(c, s, k)
  }

  /** The negotiation cannot end in an acknowledgement. */
  predicate Hopeless(t: Talk, s: Server) {
    || t.refusals.count >= t.refusals.max
    || !Served(t.client, s)
    || (NeedsNak(t.client, s) && t.refusals.count + 1 >= t.refusals.max)
  }

  lemma OffPersists(c: Config, s: Server, k: Kind)
    requires Off(c, s, k) && AnyForeign(c)
    ensures Off(Exchange(c, s), s, k)
  {
    hide Exchange, Accepted;
    ExchangeMeaning(c, s, k);
  }

  lemma UnservedPersists(c: Config, s: Server)
    requires !Served(c, s)
    ensures !Served(Exchange(c, s), s) && NeedsNak(c, s)
  {
    hide Exchange, Accepted;
    var k :| c.Get(k).requested && Assignable(k) && s.Assigned(k) == ZERO;
    ExchangeMeaning(c, s, k);
    assert Off(c, s, k);
    assert Exchange(c, s).Get(k).requested;
  }

  lemma HopelessStep(t: Talk, s: Server)
    requires Hopeless(t, s)
    ensures !LimitedAccepted(t, s) && Hopeless(LimitedExchange(t, s), s)
  {
    hide Exchange, LimitedExchange, Accepted, Served, Off;
    if t.refusals.count >= t.refusals.max {
      AtLimit(t, s);
    } else {
      BelowLimit(t, s);
      ExchangeMeaning(t.client, s, IpAddress);
      if !Served(t.client, s) {
        UnservedPersists(t.client, s);
      } else {
        var k :| Off(t.client, s, k);
        if AnyForeign(t.client) { OffPersists(t.client, s, k); }
      }
    }
  }

  lemma AtLimit(t: Talk, s: Server)
    requires t.refusals.count >= t.refusals.max
    ensures LimitedExchange(t, s).refusals == t.refusals
  {
    hide AfterReject, AfterNak, Options;
  }

  lemma {:induction false} HopelessForever(t: Talk, s: Server, n: nat)
    requires Hopeless(t, s)
    ensures !LimitedAccepted(LimitedExchanges(t, s, n), s)
    decreases n
  {
    hide LimitedExchange, LimitedAccepted, Hopeless;
    HopelessStep(t, s);
    if n > 0 { HopelessForever(LimitedExchange(t, s), s, n - 1); }
  }

  /** Two exchanges are enough otherwise. */
  lemma HopefulConverges(t: Talk, s: Server)
    requires !Hopeless(t, s)
    ensures LimitedAccepted(LimitedExchanges(t, s, 2), s)
    ensures LimitedExchanges(t, s, 2).client == Exchanges(t.client, s, 2)
  {
    hide Exchange, LimitedExchange, Accepted, Served, Off, Foreign;
    var u := LimitedExchange(t, s);
    var w := LimitedExchange(u, s);
    assert LimitedExchanges(t, s, 2) == LimitedExchanges(u, s, 1) == LimitedExchanges(w, s, 0) == w;
    assert Exchanges(t.client, s, 2) == Exchanges(u.client, s, 1) by { BelowLimit(t, s); }
    BelowLimit(t, s);
    FirstExchange(t.client, s);
    BelowLimit(u, s);
    ConvergesWhenServed(t.client, s);
    assert Exchanges(u.client, s, 1) == Exchanges(w.client, s, 0) == w.client;
  }

  /** After one exchange no unknown option is left, and a Nak is needed only if none was given. */
  lemma FirstExchange(c: Config, s: Server)
    requires Served(c, s)
    ensures !AnyForeign(Exchange(c, s))
    ensures NeedsNak(Exchange(c, s), s) ==> NeedsNak(c, s) && AnyForeign(c)
  {
    hide Exchange, Accepted;
    var d := Exchange(c, s);
    forall k ensures !Foreign(d, k) && (Off(d, s, k) ==> Off(c, s, k) && AnyForeign(c)) {
      ExchangeMeaning(c, s, k);
      assert Foreign(c, k) ==> AnyForeign(c);
    }
  }

  /** With the limit, a negotiation ends in an acknowledgement if and only if the server has an address
      for everything it is asked to assign and has not used up its refusals: it must have one left, and
      one more if a value must be corrected. */
  lemma NegotiationWithLimit(t: Talk, s: Server)
    ensures (exists n :: LimitedAccepted(LimitedExchanges(t, s, n), s)) <==>
      && Served(t.client, s)
      && t.refusals.count + (if NeedsNak(t.client, s) then 1 else 0) < t.refusals.max
  {
    hide LimitedExchanges, LimitedAccepted, Served, NeedsNak;
    if Hopeless(t, s) {
      forall n ensures !LimitedAccepted(LimitedExchanges(t, s, n), s) { HopelessForever(t, s, n); }
    } else {
      HopefulConverges(t, s);
    }
  }

  //
  // The negotiation as the client's automaton sees it.
  //

  /** The packet with which the server answers a request. */
  function ReplyPacket(v: Verdict, id: bv8, request: seq<bv8>): Packet {
    match v
    case Accept => Packet(2, id, request)
    case Nak(options) => Packet(3, id, options)
    case Reject(options) => Packet(4, id, options)
  }

  const CODES: set<nat> := {1, 2, 3, 4, 5, 6, 7}

  /** The client's automaton receives the answer to its last request. */
  function Answered(cp: Cp, c: Config, s: Server): Fired {
    RequestIsWellFormed(c);
    var reply := ReplyPacket(ServerReply(s, Request(c)), cp.configId, Request(c));
    Next(cp, Receive(CODES, reply, Accept, Request(Exchange(c, s))))
  }

  function Answers(cp: Cp, c: Config, s: Server, n: nat): Cp
    decreases n
  {
    if n == 0 then cp else Answers(Answered(cp, c, s).cp, Exchange(c, s), s, n - 1)
  }

  predicate Asking(cp: Cp, c: Config) {
    (cp.state == ReqSent || cp.state == AckSent) && cp.localOptions == Request(c)
  }

  /** The client's side is agreed, with configuration `c`. */
  predicate Settled(cp: Cp, before: State, c: Config) {
    cp.state == Satisfied(before) && cp.localOptions == Request(c)
  }

  function Satisfied(s: State): State {
    if s == ReqSent then AckRcvd else Opened
  }

  /** An answer either settles the client's side or makes it ask again, with a new identifier. */
  lemma AnswerMeaning(cp: Cp, c: Config, s: Server)
    requires Asking(cp, c)
    ensures var r := Answered(cp, c, s);
      if Accepted(c, s) then r.cp.state == Satisfied(cp.state) && r.cp.localOptions == Request(c)
      else
        && Asking(r.cp, Exchange(c, s))
        && r.cp.state == cp.state
        && r.sent == [ConfigureRequest(cp.configId + 1, Request(Exchange(c, s)))]
  {
    hide Request, Exchange, ServerReply, Fire, Cause, WellFormed, Options, Pieces, Flatten, AreOptions, IsOption;
    RequestIsWellFormed(c);
    var reply := ReplyPacket(ServerReply(s, Request(c)), cp.configId, Request(c));
    var options := Request(Exchange(c, s));
    ReplyCauses(cp, reply, options);
    var stimulus := Receive(CODES, reply, Accept, options);
    assert Answered(cp, c, s) == Next(cp, stimulus);
    hide Answered, ReplyPacket;
    if Accepted(c, s) {
      AckSettles(cp, reply);
    } else {
      RefusalAsksAgain(cp.(localOptions := options), reply);
    }
  }

  lemma ReplyCauses(cp: Cp, reply: Packet, options: seq<bv8>)
    requires reply.id == cp.configId && 2 <= reply.code <= 4
    requires reply.code == 2 ==> reply.data == cp.localOptions
    ensures Cause(cp, Receive(CODES, reply, Accept, options)) ==
      if reply.code == 2 then (cp, Some(Rca)) else (cp.(localOptions := options), Some(Rcn))
  {
  }

  lemma AckSettles(cp: Cp, p: Packet)
    requires cp.state == ReqSent || cp.state == AckSent
    ensures Fire(cp, Rca, p).cp.state == Satisfied(cp.state)
    ensures Fire(cp, Rca, p).cp.localOptions == cp.localOptions
  {
    hide TimersAfter, RefusalsAfter, NewConfigId, NewTerminateId, Transmitted;
  }

  lemma RefusalAsksAgain(cp: Cp, p: Packet)
    requires cp.state == ReqSent || cp.state == AckSent
    ensures Fire(cp, Rcn, p).cp.state == cp.state
    ensures Fire(cp, Rcn, p).cp.localOptions == cp.localOptions
    ensures Fire(cp, Rcn, p).sent == [ConfigureRequest(cp.configId + 1, cp.localOptions)]
  {
    hide TimersAfter, RefusalsAfter, NewTerminateId;
  }

  /** A client whose requests the server can serve is through after at most three of them, with the
      server's addresses in its last request. */
  lemma ClientSettles(cp: Cp, c: Config, s: Server)
    requires Asking(cp, c) && Served(c, s)
    ensures exists n :: 1 <= n <= 3 && Settled(Answers(cp, c, s, n), cp.state, Exchanges(c, s, 2))
  {
    hide Answered, Exchange, Accepted, Request, Served;
    ConvergesWhenServed(c, s);
    AnswerMeaning(cp, c, s);
    var d, cp1 := Exchange(c, s), Answered(cp, c, s).cp;
    assert Exchanges(c, s, 2) == Exchanges(d, s, 1);
    assert Answers(cp, c, s, 1) == Answers(cp1, d, s, 0) == cp1;
    if Accepted(c, s) {
      AcceptedStays(c, s);
    } else {
      AnswerMeaning(cp1, d, s);
      var e, cp2 := Exchange(d, s), Answered(cp1, d, s).cp;
      assert Exchanges(d, s, 1) == Exchanges(e, s, 0) == e;
      assert Answers(cp, c, s, 2) == Answers(cp1, d, s, 1) == Answers(cp2, e, s, 0) == cp2;
      if Accepted(d, s) {
        AcceptedStays(d, s);
      } else {
        AnswerMeaning(cp2, e, s);
        var cp3 := Answered(cp2, e, s).cp;
        assert Answers(cp, c, s, 3) == Answers(cp1, d, s, 2) == Answers(cp2, e, s, 1)
            == Answers(cp3, Exchange(e, s), s, 0) == cp3;
      }
    }
  }

  lemma AcceptedStays(c: Config, s: Server)
    requires Accepted(c, s)
    ensures Exchange(c, s) == c && Exchanges(c, s, 1) == c && Exchanges(c, s, 2) == c
  {
    assert Exchanges(c, s, 1) == Exchanges(c, s, 0);
  }

  //
  // The option list of `struct ipcp_data`, filled and read in place.
  //

  const MAX_CONFIG_OPTION_SIZE: nat := 30

  method CopyAddress(buf: array<bv8>, at: nat, a: Address)
    requires at + 4 <= buf.Length
    modifies buf
    ensures buf[..at] == old(buf[..at]) && buf[at..at + 4] == a
  {
    buf[at], buf[at + 1], buf[at + 2], buf[at + 3] := a[0], a[1], a[2], a[3];
  }

  /** One step of filling an option buffer. */
  method FillIp(buf: array<bv8>, len: nat, req: bool, code: bv8, a: Address) returns (n: nat)
    requires len + 6 <= buf.Length
    modifies buf
    ensures n == len + (if req then 6 else 0)
    ensures buf[..n] == old(buf[..len]) + (if req then AddressOption(code, a) else [])
  {
    n := len;
    if req {
      ghost var was := buf[..len];
      buf[len], buf[len + 1] := code, 6;
      assert buf[..len + 2] == was + [code, 6];
      CopyAddress(buf, len + 2, a);
      n := len + 6;
      assert buf[..n] == buf[..len + 2] + buf[len + 2..n];
      assert was + [code, 6] + a == was + ([code, 6] + a);
    }
  }

  lemma {:induction false} FlattenConcat(a: seq<seq<bv8>>, b: seq<seq<bv8>>)
    ensures Flatten(a + b) == Flatten(a) + Flatten(b)
  {
    if a == [] {
      assert a + b == b;
    } else {
      assert (a + b)[1..] == a[1..] + b;
      FlattenConcat(a[1..], b);
    }
  }

  /** The option iterator: the option at `pos`, after which the next one begins. */
  method NextOption(data: seq<bv8>, pos: nat) returns (o: seq<bv8>)
    requires pos < |data| && WellFormed(data[pos..])
    ensures IsOption(o) && |o| >= 2 && pos + |o| <= |data|
    ensures KindOf(o[0]).Some? ==> |o| == 6
    ensures WellFormed(data[pos + |o|..])
    ensures Options(data[pos..]) == [o] + Options(data[pos + |o|..])
  {
    ghost var rest := data[pos..];
    var n := data[pos + 1] as int;
    o := data[pos..pos + n];
    assert o == rest[..n] && data[pos + n..] == rest[n..];
  }

  lemma NoPieces(c: Config)
    ensures Flatten(Pieces(c, [])) == []
  {
  }

  lemma NoOptions()
    ensures WellFormed([]) && Options([]) == []
  {
  }

  class Client {
    var config: Config
    const options: array<bv8>
    var optionsLen: nat

    ghost predicate Valid()
      reads this, options
    {
      options.Length == MAX_CONFIG_OPTION_SIZE && optionsLen <= options.Length
      && options[..optionsLen] == Request(config)
    }

    /** A new client asks for everything and proposes nothing. */
    constructor ()
      ensures Valid() && fresh(options)
      ensures forall k :: config.Get(k) == Item(true, ZERO)
    {
      var item := Item(true, ZERO);
      config := Config(item, item, item, item, item);
      options := new bv8[MAX_CONFIG_OPTION_SIZE];
      optionsLen := 0;
      new;
      GenerateConfigOptions();
    }

    /** The options of one more kind are appended. */
    method FillOption(len: nat, ghost before: seq<Kind>, kind: Kind) returns (n: nat)
      requires options.Length == MAX_CONFIG_OPTION_SIZE && len + 6 <= options.Length
      requires options[..len] == Flatten(Pieces(config, before))
      modifies options
      ensures n <= len + 6 && options[..n] == Flatten(Pieces(config, before + [kind]))
    {
      PiecesSnoc(config, before, kind);
      FlattenConcat(Pieces(config, before), Piece(config, kind));
      FlattenPiece(config, kind);
      var item := config.Get(kind);
      n := FillIp(options, len, item.requested, Code(kind), item.value);
    }

    method GenerateConfigOptions()
      requires options.Length == MAX_CONFIG_OPTION_SIZE
      modifies this`optionsLen, options
      ensures Valid()
    {
      hide Pieces, Flatten;
      NoPieces(config);
      assert options[..0] == [];
      var len := FillOption(0, [], IpAddress);
      len := FillOption(len, [] + [IpAddress], Dns1);
      len := FillOption(len, [] + [IpAddress] + [Dns1], Dns2);
      len := FillOption(len, [] + [IpAddress] + [Dns1] + [Dns2], Nbns1);
      len := FillOption(len, [] + [IpAddress] + [Dns1] + [Dns2] + [Nbns1], Nbns2);
      assert [] + [IpAddress] + [Dns1] + [Dns2] + [Nbns1] + [Nbns2] == KINDS;
      optionsLen := len;
    }

    /** The iterator's loop over a Configure-Nak. */
    method RcnNak(data: seq<bv8>)
      requires Valid() && WellFormed(data)
      modifies this, options
      ensures Valid()
      ensures config == AfterNak(old(config), Options(data))
    {
      hide WellFormed, Options, Request, IsOption, Config.Set, Config.Get;
      var pos := 0;
      assert data[0..] == data;
      while pos < |data|
        invariant 0 <= pos <= |data| && WellFormed(data[pos..])
        invariant AfterNak(config, Options(data[pos..])) == AfterNak(old(config), Options(data))
      {
        var o := NextOption(data, pos);
        var kind := KindOf(o[0]);
        if kind.Some? {
          config := config.Set(kind.value, Item(true, AddressIn(o)));
        }
        pos := pos + |o|;
      }
      assert data[pos..] == [];
      NoOptions();
      GenerateConfigOptions();
    }

    /** The iterator's loop over a Configure-Reject. */
    method RcnRej(data: seq<bv8>)
      requires Valid() && WellFormed(data)
      modifies this, options
      ensures Valid()
      ensures config == AfterReject(old(config), Options(data))
    {
      hide WellFormed, Options, Request, IsOption, Config.Set, Config.Get;
      var pos := 0;
      assert data[0..] == data;
      while pos < |data|
        invariant 0 <= pos <= |data| && WellFormed(data[pos..])
        invariant AfterReject(config, Options(data[pos..])) == AfterReject(old(config), Options(data))
      {
        var o := NextOption(data, pos);
        var kind := KindOf(o[0]);
        if kind.Some? {
          config := config.Set(kind.value, Item(false, config.Get(kind.value).value));
        }
        pos := pos + |o|;
      }
      assert data[pos..] == [];
      NoOptions();
      GenerateConfigOptions();
    }
  }

  lemma {:induction false} PiecesSnoc(c: Config, ks: seq<Kind>, k: Kind)
    ensures Pieces(c, ks + [k]) == Pieces(c, ks) + Piece(c, k)
    decreases |ks|
  {
    if ks == [] {
      assert ks + [k] == [k] && [k][1..] == [];
    } else {
      assert (ks + [k])[1..] == ks[1..] + [k];
      PiecesSnoc(c, ks[1..], k);
    }
  }

  lemma FlattenPiece(c: Config, k: Kind)
    ensures Flatten(Piece(c, k)) == if c.Get(k).requested then AddressOption(Code(k), c.Get(k).value) else []
  {
    if c.Get(k).requested { assert Piece(c, k)[1..] == []; }
  }

  /** What the server makes of one option. */
  method Judge(s: Server, o: seq<bv8>) returns (reject: seq<bv8>, nak: seq<bv8>)
    requires IsOption(o)
    ensures reject == if Rejects(o) then o else []
    ensures nak == if Naks(s, o) then AddressOption(o[0], s.Assigned(KindOf(o[0]).value)) else []
  {
    reject, nak := [], [];
    var kind := KindOf(o[0]);
    if kind.None? || !Assignable(kind.value) {
      reject := o;
    } else if AddressIn(o) != s.Assigned(kind.value) || AddressIn(o) == ZERO {
      nak := AddressOption(o[0], s.Assigned(kind.value));
    }
  }

  /** The server's loop over a request: what it does not know it copies into one list, what it would
      change it corrects in a buffer of thirty octets, whose end the code does not watch; `overrun`
      says that it went beyond. */
  method ServerRcr(s: Server, data: seq<bv8>) returns (v: Verdict, overrun: bool)
    requires WellFormed(data)
    ensures overrun <==> |Naked(s, Options(data))| > 5
    ensures !overrun ==> v == ServerReply(s, data)
  {
    hide Replying, ServerReply, Naked;
    var naks, rejects, len := new bv8[MAX_CONFIG_OPTION_SIZE], [], 0;
    var pos := 0;
    v, overrun := Accept, false;
    assert naks[..0] == [];
    ReplyingStart(s, data);
    while pos < |data|
      invariant 0 <= pos <= |data| && 0 <= len <= naks.Length
      invariant Replying(s, data, pos, naks[..len], rejects)
    {
      var o, reject, nak := JudgeNext(s, data, pos, naks[..len], rejects);
      if nak != [] && len + 6 > naks.Length {
        return v, true;
      }
      len := Copy(naks, len, nak);
      rejects, pos := rejects + reject, pos + |o|;
    }
    ReplyingEnd(s, data, naks[..len], rejects);
    if rejects != [] {
      v := Reject(rejects);
    } else if len > 0 {
      v := Nak(naks[..len]);
    }
  }

  /** The first `pos` octets have been read; their corrections are `naks`, and `rejects` is what of them
      is not known. */
  ghost predicate Replying(s: Server, data: seq<bv8>, pos: nat, naks: seq<bv8>, rejects: seq<bv8>)
    requires WellFormed(data) && pos <= |data|
  {
    && WellFormed(data[pos..])
    && 6 * |Naked(s, Options(data))| == |naks| + 6 * |Naked(s, Options(data[pos..]))|
    && Flatten(Naked(s, Options(data))) == naks + Flatten(Naked(s, Options(data[pos..])))
    && Flatten(Rejected(Options(data))) == rejects + Flatten(Rejected(Options(data[pos..])))
  }

  lemma ReplyingStart(s: Server, data: seq<bv8>)
    requires WellFormed(data)
    ensures Replying(s, data, 0, [], [])
  {
    hide WellFormed, Options, Naked, Rejected, Flatten;
    assert data[0..] == data;
  }

  lemma ReplyingEnd(s: Server, data: seq<bv8>, naks: seq<bv8>, rejects: seq<bv8>)
    requires WellFormed(data) && Replying(s, data, |data|, naks, rejects)
    ensures 6 * |Naked(s, Options(data))| == |naks|
    ensures ServerReply(s, data) == if rejects != [] then Reject(rejects) else if naks != [] then Nak(naks) else Accept
  {
    hide WellFormed, Options, Naked, Rejected, Flatten, ServerReply;
    assert data[|data|..] == [];
    NoReplies(s);
    ReplyEmpty(s, data);
    assert naks + [] == naks && rejects + [] == rejects;
  }

  /** One turn of the loop. */
  method JudgeNext(s: Server, data: seq<bv8>, pos: nat, ghost naks: seq<bv8>, ghost rejects: seq<bv8>)
    returns (o: seq<bv8>, reject: seq<bv8>, nak: seq<bv8>)
    requires WellFormed(data) && pos < |data| && Replying(s, data, pos, naks, rejects)
    ensures pos + |o| <= |data| && |o| > 0
    ensures Replying(s, data, pos + |o|, naks + nak, rejects + reject)
    ensures nak != [] ==> |nak| == 6 && |naks| + 6 <= 6 * |Naked(s, Options(data))|
  {
    hide WellFormed, Options, Naked, Rejected, Flatten, Rejects, Naks, AddressOption, IsOption;
    o := NextOption(data, pos);
    ghost var rest := Options(data[pos + |o|..]);
    ReplyStep(s, o, rest);
    NakCount(s, o, rest);
    reject, nak := Judge(s, o);
    Assoc(rejects, reject, Flatten(Rejected(rest)));
    Assoc(naks, nak, Flatten(Naked(s, rest)));
  }

  method Copy(buf: array<bv8>, len: nat, octets: seq<bv8>) returns (n: nat)
    requires len + |octets| <= buf.Length
    modifies buf
    ensures n == len + |octets| && buf[..n] == old(buf[..len]) + octets
  {
    forall i | 0 <= i < |octets| { buf[len + i] := octets[i]; }
    n := len + |octets|;
  }

  lemma NakCount(s: Server, o: seq<bv8>, os: seq<seq<bv8>>)
    requires IsOption(o) && AreOptions(os)
    ensures AreOptions([o] + os)
    ensures |Naked(s, [o] + os)| == (if Naks(s, o) then 1 else 0) + |Naked(s, os)|
    ensures Naks(s, o) ==> |AddressOption(o[0], s.Assigned(KindOf(o[0]).value))| == 6
  {
    var all := [o] + os;
    assert all[0] == o && all[1..] == os;
  }

  /** The corrections take six octets each, so they fit the buffer if and only if there are at most
      five. */
  lemma {:induction false} NaksFit(s: Server, os: seq<seq<bv8>>)
    requires AreOptions(os)
    ensures |Flatten(Naked(s, os))| == 6 * |Naked(s, os)|
    ensures |Flatten(Naked(s, os))| <= MAX_CONFIG_OPTION_SIZE <==> |Naked(s, os)| <= 5
  {
    hide IsOption, Naks, AddressOption, Flatten;
    if os == [] {
      NoReplies(s);
    } else {
      assert os == [os[0]] + os[1..];
      NaksFit(s, os[1..]);
      ReplyStep(s, os[0], os[1..]);
      NakCount(s, os[0], os[1..]);
    }
  }

  lemma {:induction false} FewPieces(c: Config, s: Server, ks: seq<Kind>)
    ensures |Naked(s, Pieces(c, ks))| <= |ks|
    decreases |ks|
  {
    hide Off;
    if ks != [] {
      NakedConcat(s, Piece(c, ks[0]), Pieces(c, ks[1..]));
      NakedPiece(c, s, ks[0]);
      FewPieces(c, s, ks[1..]);
    }
  }

  /** The requests of the program's own client always fit. */
  lemma OwnRequestFits(c: Config, s: Server)
    ensures WellFormed(Request(c)) && |Naked(s, Options(Request(c)))| <= 5
  {
    hide Naked, Pieces;
    RequestIsWellFormed(c);
    FewPieces(c, s, KINDS);
  }

  /** Six requests for the address zero do not. */
  lemma SixDoNotFit(s: Server)
    ensures var o := AddressOption(3, ZERO);
      var data := Flatten([o, o, o, o, o, o]);
      WellFormed(data) && |Naked(s, Options(data))| == 6
  {
    var o := AddressOption(3, ZERO);
    var os := [o, o, o, o, o, o];
    OptionsOfFlatten(os);
    hide IsOption, AddressOption, Options, Flatten, WellFormed;
    assert Naks(s, o);
    assert os[1..] == [o, o, o, o, o] && [o, o, o, o, o][1..] == [o, o, o, o] && [o, o, o, o][1..] == [o, o, o];
    assert [o, o, o][1..] == [o, o] && [o, o][1..] == [o] && [o][1..] == [];
    NakCount(s, o, []);
    NakCount(s, o, [o]);
    NakCount(s, o, [o, o]);
    NakCount(s, o, [o, o, o]);
    NakCount(s, o, [o, o, o, o]);
    NakCount(s, o, [o, o, o, o, o]);
    assert [o] + [] == [o] && [o] + [o] == [o, o] && [o] + [o, o] == [o, o, o] && [o] + [o, o, o] == [o, o, o, o];
    assert [o] + [o, o, o, o] == [o, o, o, o, o] && [o] + [o, o, o, o, o] == os;
  }

  lemma Assoc(a: seq<bv8>, b: seq<bv8>, c: seq<bv8>)
    ensures a + (b + c) == (a + b) + c
  {
  }

  lemma NoReplies(s: Server)
    ensures WellFormed([]) && Options([]) == []
    ensures Naked(s, []) == []
    ensures Flatten(Rejected([])) == [] && Flatten(Naked(s, [])) == []
  {
  }

  lemma ReplyEmpty(s: Server, data: seq<bv8>)
    requires WellFormed(data)
    ensures ServerReply(s, data) ==
      if Flatten(Rejected(Options(data))) != [] then Reject(Flatten(Rejected(Options(data))))
      else if Flatten(Naked(s, Options(data))) != [] then Nak(Flatten(Naked(s, Options(data))))
      else Accept
  {
    hide Options, Naked, Rejected, WellFormed, Flatten;
    FlattenEmpty(Rejected(Options(data)));
    FlattenEmpty(Naked(s, Options(data)));
  }

  lemma ReplyStep(s: Server, o: seq<bv8>, os: seq<seq<bv8>>)
    requires IsOption(o) && AreOptions(os)
    ensures AreOptions([o] + os)
    ensures Flatten(Rejected([o] + os)) == (if Rejects(o) then o else []) + Flatten(Rejected(os))
    ensures Flatten(Naked(s, [o] + os)) ==
      (if Naks(s, o) then AddressOption(o[0], s.Assigned(KindOf(o[0]).value)) else []) + Flatten(Naked(s, os))
  {
    hide Flatten;
    var all := [o] + os;
    assert all[0] == o && all[1..] == os;
    var rejected, naked := Rejected(os), Naked(s, os);
    assert [] + rejected == rejected && [] + naked == naked;
    assert Rejected(all) == if Rejects(o) then [o] + rejected else rejected;
    assert Naked(s, all) ==
      if Naks(s, o) then [AddressOption(o[0], s.Assigned(KindOf(o[0]).value))] + naked else naked;
    if Rejects(o) { FlattenCons(o, Rejected(os)); }
    if Naks(s, o) { FlattenCons(AddressOption(o[0], s.Assigned(KindOf(o[0]).value)), Naked(s, os)); }
  }

  lemma FlattenCons(o: seq<bv8>, os: seq<seq<bv8>>)
    ensures Flatten([o] + os) == o + Flatten(os)
  {
    assert ([o] + os)[1..] == os;
  }

  lemma FlattenEmpty(os: seq<seq<bv8>>)
    requires AreOptions(os)
    ensures Flatten(os) == [] <==> os == []
  {
  }
}
