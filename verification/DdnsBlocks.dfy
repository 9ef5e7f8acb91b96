/** common/dns.c and client/dhclient.c: control blocks for DNS updates, which are changed in place. */
module DdnsBlocks {
  import opened Wrappers
  import opened Bytes
  import opened Ddns
  import opened DdnsMessages

  class ControlBlock {
    var who: seq<byte>
    var idType: RRType
    var rrsetFlag: bool
    var overrideFlag: bool
    var address: seq<byte>
    var state: State
    /** Name, identity and zone are known. */
    var known: bool
    /** The pause before the next attempt, and whether the timer for it was set. */
    var timeout: nat
    var retrying: bool

    constructor (b: Block, timeout: nat)
      requires IdTyped(b.idType)
      ensures View() == b && known && this.timeout == timeout && !retrying && Valid()
    {
      who, idType, rrsetFlag, overrideFlag := b.who, b.idType, b.rrsetFlag, b.overrideFlag;
      address, state := b.address, b.state;
      known, this.timeout, retrying := true, timeout, false;
    }

    predicate Valid()
      reads this
    {
      IdTyped(idType)
    }

    function View(): (b: Block)
      reads this
    {
      Block(who, idType, rrsetFlag, overrideFlag, address, state)
    }

    /** Builds the lists of a first attempt to add: it adds address and identity, on condition that there is no address
        of the type, or no record at all. */
    method BuildAdd1(t: RRType) returns (m: Message)
      requires Valid() && state == ADD_FW_NXDOMAIN && AddressType(address) == Some(t)
      ensures m == Add1(View(), t) && Does(View(), t, m)
    {
      var prereqs, updates: seq<Item> := [], [];
      if rrsetFlag {
        prereqs := prereqs + [Item(NONE, t, None)];
      } else {
        prereqs := prereqs + [Item(NONE, ANYTYPE, None)];
      }
      updates := updates + [Item(IN, t, Some(address))];
      updates := updates + [Item(IN, idType, Some(who))];
      m := Message(prereqs, updates);
      MessageDoes(View());
    }

    /** Builds those of the second: it replaces the addresses of the type, on condition that the identity is the
        client's, or without condition, replacing the identity too. */
    method BuildAdd2(t: RRType) returns (m: Message)
      requires Valid() && state == ADD_FW_YXDHCID && AddressType(address) == Some(t)
      ensures m == Add2(View(), t) && Does(View(), t, m)
    {
      var prereqs, updates: seq<Item> := [], [];
      if !overrideFlag {
        prereqs := prereqs + [Item(IN, idType, Some(who))];
      } else {
        updates := updates + [Item(ANY, idType, None)];
        updates := updates + [Item(IN, idType, Some(who))];
      }
      updates := updates + [Item(ANY, t, None)];
      updates := updates + [Item(IN, t, Some(address))];
      m := Message(prereqs, updates);
      MessageDoes(View());
    }

    /** Builds the message for the state. There is none for an address of another length, or when nothing is left to be
        done. */
    method ModifyFwd() returns (m: Option<Message>)
      requires Valid() && known
      ensures m.None? <==> (|address| != 4 && |address| != 16) || state == DONE
      ensures m == MessageOf(View())
      ensures m.Some? ==> Does(View(), if |address| == 4 then A else AAAA, m.value)
    {
      var t;
      if |address| == 4 {
        t := A;
      } else if |address| == 16 {
        t := AAAA;
      } else {
        return None;
      }
      match state {
        case ADD_FW_NXDOMAIN =>
          var x := BuildAdd1(t);
          m := Some(x);
        case ADD_FW_YXDHCID =>
          var x := BuildAdd2(t);
          m := Some(x);
        case REM_FW_YXDHCID =>
          m := Some(Message([Item(IN, idType, Some(who))], [Item(NONE, t, Some(address))]));
        case REM_FW_NXRR =>
          m := Some(Message([Item(NONE, A, None), Item(NONE, AAAA, None)], [Item(NONE, idType, Some(who))]));
        case DONE =>
          m := None;
      }
      if m.Some? { MessageDoes(View()); }
    }

    /** client_dns_update_action: what follows upon an answer. Upon a timeout name, identity and zone are forgotten, and
        the first stage is to be tried again after a pause ten times as long, up to an hour and more. */
    method UpdateAction(eresult: Result)
      requires state in {ADD_FW_NXDOMAIN, ADD_FW_YXDHCID}
      modifies this`state, this`known, this`timeout, this`retrying
      ensures state == Next(old(View()), eresult)
      ensures state == ADD_FW_YXDHCID <==> old(state) == ADD_FW_NXDOMAIN && eresult == YXRRSET
      ensures state == ADD_FW_NXDOMAIN <==> eresult == TimedOut
      ensures state in {ADD_FW_NXDOMAIN, ADD_FW_YXDHCID, DONE}
      ensures eresult == TimedOut ==>
                !known && retrying && timeout == if old(timeout) < 3600 then 10 * old(timeout) else old(timeout)
      ensures eresult != TimedOut ==> known == old(known) && retrying == old(retrying) && timeout == old(timeout)
    {
      match eresult {
        case YXRRSET =>
          if state == ADD_FW_NXDOMAIN {
            state := ADD_FW_YXDHCID;
            return;
          }
        case TimedOut =>
          known := false;
          state := ADD_FW_NXDOMAIN;
          if timeout < 3600 { timeout := timeout * 10; }
          retrying := true;
          return;
        case _ =>
      }
      state := DONE;
    }

    /** The retry timer ran out: name and identity are looked up again, and may have changed. */
    method Retry(who: seq<byte>, idType: RRType)
      requires retrying && IdTyped(idType)
      modifies this`who, this`idType, this`known, this`retrying
      ensures Valid() && known && !retrying && View() == old(View()).(who := who, idType := idType)
    {
      this.who, this.idType, known, retrying := who, idType, true, false;
    }

    /** client_dns_remove_action: only when the address is gone is the identity removed. */
    method RemoveAction(eresult: Result)
      requires state in {REM_FW_YXDHCID, REM_FW_NXRR}
      modifies this`state
      ensures state == Next(old(View()), eresult)
      ensures state == REM_FW_NXRR <==> old(state) == REM_FW_YXDHCID && eresult == Success
      ensures state in {REM_FW_NXRR, DONE}
    {
      if eresult == Success && state == REM_FW_YXDHCID {
        state := REM_FW_NXRR;
        return;
      }
      state := DONE;
    }
  }
}
