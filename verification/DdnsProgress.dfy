/** What a client's updates bring about when the name server answers them. */
module DdnsProgress {
  import opened Wrappers
  import opened Bytes
  import opened Ddns
  import opened DdnsMessages
  import opened DdnsSafety

  /** The address records of a name. */
  function Addresses(zone: set<RR>): (r: set<RR>) {
    OfType(zone, A) + OfType(zone, AAAA)
  }

  /** A block is set up, and its message is sent and answered, once and then again. */
  function TwoStages(w: World, n: nat, b: Block): (w': World) {
    Step(Step(Step(w, Start(n, b)), Send(n, Answered)), Send(n, Answered))
  }

  /** What an answered message leaves: its outcome where it succeeds, and else the name as it was. */
  lemma {:induction false} AnsweredZone(w: World, n: nat, b: Block, t: RRType)
    requires n in w.blocks && w.blocks[n] == b && AddressType(b.address) == Some(t) && IdTyped(b.idType)
    ensures Step(w, Send(n, Answered)).zone == if Guard(b, t, w.zone) then Outcome(b, t, w.zone) else w.zone
  {
    if b.state != DONE { MessageDoes(b); }
  }

  /** The block after an answer. */
  lemma {:induction false} AnsweredBlock(w: World, n: nat, b: Block)
    requires n in w.blocks && w.blocks[n] == b && MessageOf(b).Some?
    ensures var r, w' := Answer(w.zone, MessageOf(b).value), Step(w, Send(n, Answered));
            n in w'.blocks && w'.blocks[n] == b.(state := Next(b, r))
  {
  }

  lemma {:induction false} DoneStays(w: World, n: nat)
    requires n in w.blocks && w.blocks[n].state == DONE
    ensures Step(w, Send(n, Answered)).zone == w.zone
  {
  }

  // ---- Removal ----

  /** A removal that is answered twice takes the address off the name if the name is the client's; and then it takes
      the identity off as well, if no other address is left. */
  lemma {:induction false} RemovalLeaves(w: World, n: nat, b: Block, t: RRType)
    requires b.state == REM_FW_YXDHCID && AddressType(b.address) == Some(t) && IdTyped(b.idType)
    ensures var zone, mine := w.zone, OfType(w.zone, b.idType) == {IdOf(b)};
            var last := Addresses(zone) <= {RR(t, b.address)};
            TwoStages(w, n, b).zone
            == if !mine then zone
               else if last then zone - {RR(t, b.address), IdOf(b)}
               else zone - {RR(t, b.address)}
  {
    var w0 := Step(w, Start(n, b));
    var w1 := Step(w0, Send(n, Answered));
    AnsweredZone(w0, n, b, t);
    AnsweredBlock(w0, n, b);
    Rem1Does(w.zone, b, t);
    if OfType(w.zone, b.idType) == {IdOf(b)} {
      SecondRemoval(w1, n, b.(state := REM_FW_NXRR), t);
      AddressesWithout(w.zone, RR(t, b.address));
    } else {
      DoneStays(w1, n);
    }
  }

  lemma {:induction false} SecondRemoval(w: World, n: nat, b: Block, t: RRType)
    requires n in w.blocks && w.blocks[n] == b && b.state == REM_FW_NXRR
    requires AddressType(b.address) == Some(t) && IdTyped(b.idType)
    ensures Step(w, Send(n, Answered)).zone == if Addresses(w.zone) == {} then w.zone - {IdOf(b)} else w.zone
  {
    AnsweredZone(w, n, b, t);
    assert Addresses(w.zone) == {} <==> OfType(w.zone, A) == {} && OfType(w.zone, AAAA) == {};
  }

  lemma {:induction false} AddressesWithout(zone: set<RR>, r: RR)
    ensures Addresses(zone - {r}) == Addresses(zone) - {r}
    ensures Addresses(zone) - {r} == {} <==> Addresses(zone) <= {r}
  {
  }

  /** A client whose only records are its address and its identity is gone from the name afterwards. */
  lemma {:induction false} RemovalCompletes(w: World, n: nat, b: Block, t: RRType)
    requires b.state == REM_FW_YXDHCID && AddressType(b.address) == Some(t) && IdTyped(b.idType)
    requires w.zone == {RR(t, b.address), IdOf(b)}
    ensures TwoStages(w, n, b).zone == {}
  {
    RemovalLeaves(w, n, b, t);
  }

  // ---- Addition ----

  /** An addition as the client makes it, answered twice: on a name without an address of the type it adds address and
      identity; on the client's own name the address replaces those of its type; and another name stays as it is. */
  lemma {:induction false} AdditionLeaves(w: World, n: nat, b: Block, t: RRType)
    requires b.state == ADD_FW_NXDOMAIN && b.rrsetFlag && !b.overrideFlag
    requires AddressType(b.address) == Some(t) && IdTyped(b.idType)
    ensures var zone := w.zone;
            TwoStages(w, n, b).zone
            == if OfType(zone, t) == {} then zone + {RR(t, b.address), IdOf(b)}
               else if OfType(zone, b.idType) == {IdOf(b)} then zone - OfType(zone, t) + {RR(t, b.address)}
               else zone
  {
    var w0 := Step(w, Start(n, b));
    var w1 := Step(w0, Send(n, Answered));
    AnsweredZone(w0, n, b, t);
    AnsweredBlock(w0, n, b);
    if OfType(w.zone, t) == {} {
      Add1Does(w.zone, b, t);
      DoneStays(w1, n);
    } else {
      FirstAddFails(w0, b, t);
      AnsweredZone(w1, n, b.(state := ADD_FW_YXDHCID), t);
    }
  }

  /** Without DDNS_INCLUDE_RRSET only an empty name gets address and identity, and there is no second stage. */
  lemma {:induction false} PlainAdditionLeaves(w: World, n: nat, b: Block, t: RRType)
    requires b.state == ADD_FW_NXDOMAIN && !b.rrsetFlag && AddressType(b.address) == Some(t) && IdTyped(b.idType)
    ensures TwoStages(w, n, b).zone == if w.zone == {} then {RR(t, b.address), IdOf(b)} else w.zone
  {
    var w0 := Step(w, Start(n, b));
    AnsweredZone(w0, n, b, t);
    AnsweredBlock(w0, n, b);
    Add1Does(w.zone, b, t);
    assert Answer(w.zone, MessageOf(b).value) in {Success, YXDOMAIN} by {
      assert CheckOne(w.zone, Add1(b, t).prereqs, Add1(b, t).prereqs[0]) in {Success, YXDOMAIN};
    }
    DoneStays(Step(w0, Send(n, Answered)), n);
  }

  /** On the client's own name exactly the new address of the type is left, beside the identity. */
  lemma {:induction false} AdditionOnOwnName(w: World, n: nat, b: Block, t: RRType)
    requires b.state == ADD_FW_NXDOMAIN && b.rrsetFlag && !b.overrideFlag
    requires AddressType(b.address) == Some(t) && IdTyped(b.idType) && OfType(w.zone, b.idType) == {IdOf(b)}
    ensures var z := TwoStages(w, n, b).zone;
            && OfType(z, t) == {RR(t, b.address)} && OfType(z, b.idType) == {IdOf(b)}
            && forall r: RR :: r.rtype != t ==> (r in z <==> r in w.zone)
  {
    AdditionLeaves(w, n, b, t);
    OwnName(w.zone, RR(t, b.address), IdOf(b));
  }

  lemma {:induction false} OwnName(zone: set<RR>, r: RR, id: RR)
    requires OfType(zone, id.rtype) == {id} && id.rtype != r.rtype
    ensures var z := zone - OfType(zone, r.rtype) + {r};
            && OfType(z, r.rtype) == {r} && OfType(z, id.rtype) == {id}
            && (OfType(zone, r.rtype) == {} ==> zone + {r, id} == z)
            && forall x: RR :: x.rtype != r.rtype ==> (x in z <==> x in zone)
  {
    assert id in OfType(zone, id.rtype);
    assert forall x: RR :: x in zone && x.rtype == id.rtype ==> x in OfType(zone, id.rtype);
  }

  /** The answer to the first message is lost: the block starts again, and all ends as if it had arrived. */
  lemma {:induction false} LostAnswerMakesUp(w: World, n: nat, b: Block, t: RRType)
    requires b.state == ADD_FW_NXDOMAIN && b.rrsetFlag && !b.overrideFlag
    requires AddressType(b.address) == Some(t) && IdTyped(b.idType)
    ensures var w1 := Step(Step(w, Start(n, b)), Send(n, AnswerLost));
            Step(Step(w1, Send(n, Answered)), Send(n, Answered)).zone == TwoStages(w, n, b).zone
  {
    var w0 := Step(w, Start(n, b));
    var w1 := Step(w0, Send(n, AnswerLost));
    assert w1.blocks[n] == b;
    assert w1.zone == Step(w0, Send(n, Answered)).zone;
    AnsweredZone(w0, n, b, t);
    assert SetBlock(w1, n, b).blocks == w1.blocks;
    assert Step(w1, Start(n, b)) == w1;
    AdditionLeaves(w1, n, b, t);
    AdditionLeaves(w, n, b, t);
    if OfType(w.zone, t) == {} { AddedAgain(w.zone, RR(t, b.address), IdOf(b)); }
  }

  lemma {:induction false} AddedAgain(zone: set<RR>, r: RR, id: RR)
    requires OfType(zone, r.rtype) == {} && id.rtype != r.rtype
    ensures var z := zone + {r, id};
            OfType(z, r.rtype) == {r} && z - OfType(z, r.rtype) + {r} == z
  {
    assert forall x: RR :: x in zone && x.rtype == r.rtype ==> x in OfType(zone, r.rtype);
  }

  /** What a client adds to an empty name it can remove again. */
  lemma {:induction false} AddThenRemove(w: World, n: nat, m: nat, b: Block, t: RRType)
    requires b.state == ADD_FW_NXDOMAIN && b.rrsetFlag && !b.overrideFlag && w.zone == {}
    requires AddressType(b.address) == Some(t) && IdTyped(b.idType)
    ensures var w' := TwoStages(w, n, b);
            w'.zone == {RR(t, b.address), IdOf(b)} && TwoStages(w', m, b.(state := REM_FW_YXDHCID)).zone == {}
  {
    AdditionLeaves(w, n, b, t);
    assert OfType(w.zone, t) == {};
    RemovalCompletes(TwoStages(w, n, b), m, b.(state := REM_FW_YXDHCID), t);
  }
}
