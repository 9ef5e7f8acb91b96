/** common/dns.c: what the update messages of a client do to its name, by section 3 of RFC 2136. */
module DdnsMessages {
  import opened Wrappers
  import opened Bytes
  import opened Ddns

  predicate IsAddress(r: RR) {
    r.rtype in {A, AAAA}
  }

  function IdOf(b: Block): (r: RR) {
    RR(b.idType, b.who)
  }

  predicate IdTyped(t: RRType) {
    t in {DHCID, TXT}
  }

  lemma {:induction false} Add1Does(zone: set<RR>, b: Block, t: RRType)
    ensures var m := Add1(b, t);
            && (Answer(zone, m) == Success <==>
                if b.rrsetFlag && t != ANYTYPE then OfType(zone, t) == {} else zone == {})
            && Apply(zone, m.updates) == zone + {RR(t, b.address), IdOf(b)}
            && Deleted(zone, m.updates) == {}
  {
    var m := Add1(b, t);
    var u := m.updates;
    assert u[1..] == [Item(IN, b.idType, Some(b.who))] && u[1..][1..] == [];
    var z1 := zone - {} + {RR(t, b.address)};
    assert Apply(zone, u) == Apply(z1, u[1..]) == z1 - {} + {IdOf(b)};
    assert Deleted(z1, u[1..]) == {};
    assert Check(zone, m.prereqs, 1) == Success;
  }

  lemma {:induction false} MatchingId(zone: set<RR>, b: Block)
    ensures Check(zone, [Item(IN, b.idType, Some(b.who))], 0) == Success <==> OfType(zone, b.idType) == {IdOf(b)}
  {
    var ps := [Item(IN, b.idType, Some(b.who))];
    assert ps[0].data == Some(b.who);
    assert Listed(ps, b.idType) == {IdOf(b)};
    assert Check(zone, ps, 1) == Success;
  }

  lemma {:induction false} Add2Does(zone: set<RR>, b: Block, t: RRType)
    requires !b.overrideFlag && t != ANYTYPE
    ensures var m := Add2(b, t);
            && (Answer(zone, m) == Success <==> OfType(zone, b.idType) == {IdOf(b)})
            && Apply(zone, m.updates) == zone - OfType(zone, t) + {RR(t, b.address)}
            && Deleted(zone, m.updates) == OfType(zone, t)
  {
    var u := Add2(b, t).updates;
    MatchingId(zone, b);
    assert u[1..] == [Item(IN, t, Some(b.address))] && u[1..][1..] == [];
    var z1 := zone - OfType(zone, t) + {};
    assert Apply(zone, u) == Apply(z1, u[1..]) == z1 - {} + {RR(t, b.address)};
    assert Deleted(z1, u[1..]) == {};
  }

  lemma {:induction false} Rem1Does(zone: set<RR>, b: Block, t: RRType)
    ensures var m := Rem1(b, t);
            && (Answer(zone, m) == Success <==> OfType(zone, b.idType) == {IdOf(b)})
            && Apply(zone, m.updates) == zone - {RR(t, b.address)}
            && Deleted(zone, m.updates) == {RR(t, b.address)} * zone
  {
    MatchingId(zone, b);
    assert Rem1(b, t).updates[1..] == [];
  }

  lemma {:induction false} Rem2Does(zone: set<RR>, b: Block)
    ensures var m := Rem2(b);
            && (Answer(zone, m) == Success <==> OfType(zone, A) == {} && OfType(zone, AAAA) == {})
            && Apply(zone, m.updates) == zone - {IdOf(b)}
            && Deleted(zone, m.updates) == {IdOf(b)} * zone
  {
    var m := Rem2(b);
    assert m.updates[1..] == [];
    assert Check(zone, m.prereqs, 2) == Success;
    assert Check(zone, m.prereqs, 1) == Success <==> OfType(zone, AAAA) == {};
  }

  /** With conflict override nothing is asked for, and identity and addresses are replaced. */
  lemma {:induction false} OverrideDoes(zone: set<RR>, b: Block, t: RRType)
    requires b.overrideFlag && t != ANYTYPE && b.idType != ANYTYPE
    ensures var m := Add2(b, t);
            var z := zone - OfType(zone, b.idType) + {IdOf(b)};
            Answer(zone, m) == Success && Apply(zone, m.updates) == z - OfType(z, t) + {RR(t, b.address)}
  {
    var m := Add2(b, t);
    var u := m.updates;
    var z1 := zone - OfType(zone, b.idType) + {};
    var z := z1 - {} + {IdOf(b)};
    assert u[1..][0] == Item(IN, b.idType, Some(b.who)) && u[1..][1..] == u[2..];
    assert u[2..] == [Item(ANY, t, None), Item(IN, t, Some(b.address))];
    assert Apply(zone, u) == Apply(z1, u[1..]) == Apply(z, u[2..]);
    assert u[2..][1..] == [Item(IN, t, Some(b.address))] && u[2..][1..][1..] == [];
    var z2 := z - OfType(z, t) + {};
    assert Apply(z, u[2..]) == Apply(z2, u[2..][1..]) == z2 - {} + {RR(t, b.address)};
  }

  // ---- What a message is for ----

  /** What must hold of the name for the message of the block's state to succeed. */
  predicate Guard(b: Block, t: RRType, zone: set<RR>) {
    match b.state
    case ADD_FW_NXDOMAIN => if b.rrsetFlag then OfType(zone, t) == {} else zone == {}
    case ADD_FW_YXDHCID => b.overrideFlag || OfType(zone, b.idType) == {IdOf(b)}
    case REM_FW_YXDHCID => OfType(zone, b.idType) == {IdOf(b)}
    case REM_FW_NXRR => OfType(zone, A) == {} && OfType(zone, AAAA) == {}
    case DONE => false
  }

  /** What the name is like after it succeeded. */
  function Outcome(b: Block, t: RRType, zone: set<RR>): (z: set<RR>) {
    match b.state
    case ADD_FW_NXDOMAIN => zone + {RR(t, b.address), IdOf(b)}
    case ADD_FW_YXDHCID =>
      var z := if b.overrideFlag then zone - OfType(zone, b.idType) + {IdOf(b)} else zone;
      z - OfType(z, t) + {RR(t, b.address)}
    case REM_FW_YXDHCID => zone - {RR(t, b.address)}
    case REM_FW_NXRR => zone - {IdOf(b)}
    case DONE => zone
  }

  /** The message does what the state of the block is for, whatever the name looks like. */
  ghost predicate Does(b: Block, t: RRType, m: Message) {
    forall zone: set<RR> ::
      (Answer(zone, m) == Success <==> Guard(b, t, zone)) && Apply(zone, m.updates) == Outcome(b, t, zone)
  }

  lemma {:induction false} MessageDoes(b: Block)
    requires MessageOf(b).Some? && IdTyped(b.idType)
    ensures Does(b, AddressType(b.address).value, MessageOf(b).value)
  {
    var t, m := AddressType(b.address).value, MessageOf(b).value;
    forall zone: set<RR>
      ensures (Answer(zone, m) == Success <==> Guard(b, t, zone)) && Apply(zone, m.updates) == Outcome(b, t, zone)
    {
      match b.state
      case ADD_FW_NXDOMAIN => Add1Does(zone, b, t);
      case ADD_FW_YXDHCID => if b.overrideFlag { OverrideDoes(zone, b, t); } else { Add2Does(zone, b, t); }
      case REM_FW_YXDHCID => Rem1Does(zone, b, t);
      case REM_FW_NXRR => Rem2Does(zone, b);
    }
  }
}
