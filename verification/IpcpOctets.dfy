/** The negotiation on octets: what a server replies to each option, and what a client makes of each option
of a reply, in the numbers of RFC 1332 and RFC 1877.
 */
module IpcpOctets {
  import opened Wrappers
  import opened ControlProtocol
  import opened Ipcp

  /** A packet with one option. */
  lemma OneOption(o: seq<bv8>)
    requires IsOption(o)
    ensures WellFormed(o) && Options(o) == [o]
  {
    OptionsOfFlatten([o]);
    assert [o][1..] == [] && Flatten([o]) == o + [];
    assert o + [] == o;
  }

  lemma AddressOptionIs(code: bv8, a: Address)
    ensures var o := [code, 6] + a;
      o == AddressOption(code, a) && IsOption(o) && |o| == 6 && o[0] == code && AddressIn(o) == a
  {
  }

  /** The reply to a request for one address, which the server would rather have be `mine`. */
  function AddressReply(code: bv8, a: Address, mine: Address): Verdict {
    if a == mine && a != [0, 0, 0, 0] then Accept else Nak([code, 6] + mine)
  }

  /** The reply to one option: Reject it whole, or correct it. */
  lemma ReplyToOne(s: Server, o: seq<bv8>)
    requires IsOption(o)
    ensures WellFormed(o)
    ensures Rejects(o) ==> ServerReply(s, o) == Reject(o)
    ensures !Rejects(o) && Naks(s, o) ==> ServerReply(s, o) == Nak(AddressOption(o[0], s.Assigned(KindOf(o[0]).value)))
    ensures !Rejects(o) && !Naks(s, o) ==> ServerReply(s, o) == Accept
  {
    hide IsOption, WellFormed, Options, AddressOption;
    OneOption(o);
    NoReplies(s);
    ReplyStep(s, o, []);
    ReplyEmpty(s, o);
    assert [o] + [] == [o];
    OptionIsNotEmpty(o);
    if !Rejects(o) && Naks(s, o) {
      var nak := AddressOption(o[0], s.Assigned(KindOf(o[0]).value));
      assert nak + [] == nak && |nak| > 0;
    }
    assert o + [] == o;
  }

  lemma OptionIsNotEmpty(o: seq<bv8>)
    requires IsOption(o)
    ensures o != []
  {
  }

  /** Option 3 is answered with the peer's address, 129 with the first and 131 with the second name server:
      accepted if it is that and not zero, and otherwise corrected to it. */
  lemma ServerAnswersAddresses(s: Server, a: Address)
    ensures WellFormed([3, 6] + a) && ServerReply(s, [3, 6] + a) == AddressReply(3, a, s.peer)
    ensures WellFormed([129, 6] + a) && ServerReply(s, [129, 6] + a) == AddressReply(129, a, s.dns1)
    ensures WellFormed([131, 6] + a) && ServerReply(s, [131, 6] + a) == AddressReply(131, a, s.dns2)
  {
    hide ServerReply, WellFormed, AddressIn, IsOption, AddressOption;
    AddressOptionIs(3, a);
    AddressOptionIs(129, a);
    AddressOptionIs(131, a);
    AddressOptionIs(3, s.peer);
    AddressOptionIs(129, s.dns1);
    AddressOptionIs(131, s.dns2);
    ReplyToOne(s, [3, 6] + a);
    ReplyToOne(s, [129, 6] + a);
    ReplyToOne(s, [131, 6] + a);
  }

  /** Every other option is rejected as it came. */
  lemma ServerRejectsOthers(s: Server, o: seq<bv8>)
    requires IsOption(o) && o[0] != 3 && o[0] != 129 && o[0] != 131
    ensures WellFormed(o) && ServerReply(s, o) == Reject(o)
  {
    hide ServerReply, WellFormed;
    ReplyToOne(s, o);
  }

  //
  // The client.
  //

  lemma NakOfOne(c: Config, k: Kind, a: Address)
    ensures AreOptions([[Code(k), 6] + a])
    ensures AfterNak(c, [[Code(k), 6] + a]) == c.Set(k, Item(true, a))
    ensures AfterReject(c, [[Code(k), 6] + a]) == c.Set(k, Item(false, c.Get(k).value))
  {
    hide AddressIn, Config.Set, Config.Get;
    var o := [Code(k), 6] + a;
    AddressOptionIs(Code(k), a);
    CodesAreDistinct(k);
    assert [o][1..] == [];
  }

  /** A Nak of one address sets that value and asks for it, and changes nothing else. */
  lemma ClientTakesNak(c: Config, a: Address)
    ensures AreOptions([[3, 6] + a]) && AfterNak(c, [[3, 6] + a]) == c.(ip := Item(true, a))
    ensures AreOptions([[129, 6] + a]) && AfterNak(c, [[129, 6] + a]) == c.(dns1 := Item(true, a))
    ensures AreOptions([[131, 6] + a]) && AfterNak(c, [[131, 6] + a]) == c.(dns2 := Item(true, a))
    ensures AreOptions([[130, 6] + a]) && AfterNak(c, [[130, 6] + a]) == c.(nbns1 := Item(true, a))
    ensures AreOptions([[132, 6] + a]) && AfterNak(c, [[132, 6] + a]) == c.(nbns2 := Item(true, a))
  {
    hide AfterNak, AfterReject, AreOptions;
    NakOfOne(c, IpAddress, a);
    NakOfOne(c, Dns1, a);
    NakOfOne(c, Dns2, a);
    NakOfOne(c, Nbns1, a);
    NakOfOne(c, Nbns2, a);
  }

  /** A Reject of one address asks for it no longer, and changes nothing else. */
  lemma ClientTakesReject(c: Config, a: Address)
    ensures AreOptions([[3, 6] + a]) && AfterReject(c, [[3, 6] + a]) == c.(ip := Item(false, c.ip.value))
    ensures AreOptions([[129, 6] + a]) && AfterReject(c, [[129, 6] + a]) == c.(dns1 := Item(false, c.dns1.value))
    ensures AreOptions([[131, 6] + a]) && AfterReject(c, [[131, 6] + a]) == c.(dns2 := Item(false, c.dns2.value))
    ensures AreOptions([[130, 6] + a]) && AfterReject(c, [[130, 6] + a]) == c.(nbns1 := Item(false, c.nbns1.value))
    ensures AreOptions([[132, 6] + a]) && AfterReject(c, [[132, 6] + a]) == c.(nbns2 := Item(false, c.nbns2.value))
  {
    hide AfterNak, AfterReject, AreOptions;
    NakOfOne(c, IpAddress, a);
    NakOfOne(c, Dns1, a);
    NakOfOne(c, Dns2, a);
    NakOfOne(c, Nbns1, a);
    NakOfOne(c, Nbns2, a);
  }

  /** The client ignores every other option of a reply. */
  lemma ClientIgnoresOthers(c: Config, o: seq<bv8>)
    requires IsOption(o) && o[0] != 3 && !(129 <= o[0] <= 132)
    ensures AfterNak(c, [o]) == c && AfterReject(c, [o]) == c
  {
    assert [o][1..] == [];
  }

  /** What a request says about one address. */
  function Part(code: bv8, item: Item): seq<bv8> {
    if item.requested then [code, 6] + item.value else []
  }

  lemma FirstPart(c: Config, k: Kind, ks: seq<Kind>)
    ensures Flatten(Pieces(c, [k] + ks)) == Part(Code(k), c.Get(k)) + Flatten(Pieces(c, ks))
  {
    hide Flatten;
    assert ([k] + ks)[1..] == ks;
    FlattenConcat(Piece(c, k), Pieces(c, ks));
    FlattenPiece(c, k);
  }

  /** A request lists the addresses asked for, in this order. */
  lemma RequestOctets(c: Config)
    ensures Request(c) == Part(3, c.ip) + (Part(129, c.dns1) + (Part(131, c.dns2)
      + (Part(130, c.nbns1) + Part(132, c.nbns2))))
  {
    hide Flatten, Pieces, Part;
    FirstPart(c, IpAddress, [Dns1, Dns2, Nbns1, Nbns2]);
    FirstPart(c, Dns1, [Dns2, Nbns1, Nbns2]);
    FirstPart(c, Dns2, [Nbns1, Nbns2]);
    FirstPart(c, Nbns1, [Nbns2]);
    FirstPart(c, Nbns2, []);
    NoPieces(c);
    assert [IpAddress] + [Dns1, Dns2, Nbns1, Nbns2] == KINDS;
    assert [Dns1] + [Dns2, Nbns1, Nbns2] == [Dns1, Dns2, Nbns1, Nbns2];
    assert [Dns2] + [Nbns1, Nbns2] == [Dns2, Nbns1, Nbns2] && [Nbns1] + [Nbns2] == [Nbns1, Nbns2];
    assert [Nbns2] + [] == [Nbns2] && Part(132, c.nbns2) + [] == Part(132, c.nbns2);
  }
}
