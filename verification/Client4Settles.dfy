/** Every handler of the DHCPv4 client leaves exactly the timer that its new state calls for. */
module Client4Settles {
  import opened Wrappers
  import opened Timers
  import opened Panic
  import opened Client4
  import LeaseTimes

  lemma {:induction false} SendDiscoverSettles(c: Client, v: Env)
    requires v.Valid() && Clear(c, v.me) && c.state == SELECTING
    ensures Settled(c, SendDiscover(c, v), v)
    decreases if v.now.sec - c.firstSending > v.config.timeout then 5 else 0
  {
    if v.now.sec - c.firstSending > v.config.timeout { StatePanicSettles(c, v); }
  }

  lemma {:induction false} StatePanicSettles(c: Client, v: Env)
    requires v.Valid() && Clear(c, v.me)
    ensures Settled(c, StatePanic(c, v), v)
    decreases 4, 1
  {
    SearchDistinct(c.active, c.leases, v.now.sec, v.draws.leaseWorks);
    AfterSearchSettles(c, SearchResult(c.active, c.leases, v.now.sec, v.draws.leaseWorks), v);
  }

  lemma {:induction false} AfterSearchSettles(c: Client, r: Search, v: Env)
    requires v.Valid() && Clear(c, v.me) && (r.bound ==> r.active.Some?) && Distinct(Order(r.active, r.leases))
    ensures Settled(c, AfterSearch(c, r, v), v)
    decreases 4, 0
  {
    if r.bound { StateBoundSettles(c.(active := r.active, leases := r.leases, state := BOUND), v); }
  }

  lemma {:induction false} ArmQuiet(c: Client, v: Env, f: Func, when: Time)
    requires v.Valid() && Quiet(c.timers, v.me)
    ensures Only(c.Arm(v, f, when).timers, v.me, f) && OthersKept(c.timers, c.Arm(v, f, when).timers, v.me, {})
  {
  }

  lemma {:induction false} StateBoundSettles(c: Client, v: Env)
    requires v.Valid() && Clear(c, v.me) && c.active.Some?
    ensures Settled(c, StateBound(c, v), v)
    decreases 3
  {
    SendRequestSettles(c.Begin(RENEWING, None, v), v);
  }

  lemma {:induction false} SendRequestSettles(c: Client, v: Env)
    requires v.Valid() && Clear(c, v.me) && Asking(c.state) && HasItsLease(c)
    ensures Settled(c, SendRequest(c, v), v)
    decreases 2
  {
    var d := if c.state == REBOOTING && c.medium == [] then c.(medium := c.active.value.medium) else c;
    if Cancels(c, v) {
      StateInitSettles(c.(state := INIT).Disarm(v, ToRequest), v);
    } else if c.state != REQUESTING && v.now.sec > c.active.value.expiry {
      StateInitSettles(d.(state := INIT), v);
    }
  }

  lemma {:induction false} StateInitSettles(c: Client, v: Env)
    requires v.Valid() && Clear(c, v.me)
    ensures Settled(c, StateInit(c, v), v)
    decreases 1
  {
    SendDiscoverSettles(c.Begin(SELECTING, if c.active.Some? then Some(c.active.value.address) else None, v), v);
  }

  lemma {:induction false} StateRebootSettles(c: Client, v: Env)
    requires v.Valid() && Clear(c, v.me)
    ensures Settled(c, StateReboot(c, v), v)
  {
    StateInitSettles(c, v);
    if c.active.Some? {
      SendRequestSettles(c.(medium := []).Begin(REBOOTING, Some(c.active.value.address), v), v);
    }
  }

  lemma {:induction false} BindLeaseSettles(c: Client, lease: ClientLease, v: Env)
    requires v.Valid() && Clear(c, v.me) && Unused(lease.node, c.leases)
    ensures Settled(c, BindLease(c, lease, v), v)
  {
    if v.draws.bindWorks { BoundSettles(c, lease, v); } else { StateInitSettles(c, v); }
  }

  lemma {:induction false} BoundSettles(c: Client, lease: ClientLease, v: Env)
    requires v.Valid() && Clear(c, v.me) && Unused(lease.node, c.leases) && v.draws.bindWorks
    ensures Settled(c, BindLease(c, lease, v), v)
  {
    assert Distinct(c.leases) by { assert c.active.Some? ==> c.leases == Order(c.active, c.leases)[1..]; }
    assert Distinct([lease.(medium := c.medium)] + c.leases);
  }

  lemma {:induction false} StateSelectingSettles(c: Client, v: Env)
    requires v.Valid() && !c.exited && WellHeld(c) && Either(c.timers, v.me, ToSelect, ToDiscover)
    ensures Settled(c, StateSelecting(c, v), v)
  {
    var d := c.Disarm(v, ToSelect).Disarm(v, ToDiscover).(offered := []);
    assert Clear(d, v.me) && OthersKept(c.timers, d.timers, v.me, {});
    if c.offered == [] {
      StateInitSettles(d.(state := INIT), v);
    } else {
      UnusedInLeases(c.offered[0].node, c);
      TakeOfferSettles(d, c.offered[0], v);
    }
  }

  lemma {:induction false} TakeOfferSettles(c: Client, picked: ClientLease, v: Env)
    requires v.Valid() && Clear(c, v.me) && Unused(picked.node, c.leases)
    ensures Settled(c, TakeOffer(c, picked, v), v)
  {
    if picked.isBootp { BootpOfferSettles(c, picked, v); } else { DhcpOfferTakenSettles(c, picked.address, v); }
  }

  lemma {:induction false} BootpOfferSettles(c: Client, picked: ClientLease, v: Env)
    requires v.Valid() && Clear(c, v.me) && Unused(picked.node, c.leases)
    ensures Settled(c, BindLease(c.(state := REQUESTING), BootpLease(picked, v), v), v)
  {
    BindLeaseSettles(c.(state := REQUESTING), BootpLease(picked, v), v);
  }

  lemma {:induction false} DhcpOfferTakenSettles(c: Client, address: nat, v: Env)
    requires v.Valid() && Clear(c, v.me)
    ensures Settled(c, SendRequest(c.Begin(REQUESTING, Some(address), v), v), v)
  {
    SendRequestSettles(c.Begin(REQUESTING, Some(address), v), v);
  }

  lemma {:induction false} UnusedInLeases(node: nat, c: Client)
    requires Unused(node, Order(c.active, c.leases))
    ensures Unused(node, c.leases)
  {
    assert forall i :: 0 <= i < |c.leases| && c.active.Some? ==> c.leases[i] == Order(c.active, c.leases)[i + 1];
  }

  lemma {:induction false} UnusedApart(node: nat, s: seq<ClientLease>, t: seq<ClientLease>)
    requires Unused(node, s + t)
    ensures Unused(node, s)
  {
    assert forall i :: 0 <= i < |s| ==> s[i] == (s + t)[i];
  }

  lemma {:induction false} DhcpOfferSettles(c: Client, lease: ClientLease, v: Env)
    requires v.Valid() && Inv(c, v.me) && Unused(lease.node, Order(c.active, c.leases))
    ensures Settled(c, DhcpOffer(c, lease, v), v)
  {
    if c.state == SELECTING && !(exists l :: l in c.offered && l.address == lease.address) {
      var l := lease.(medium := c.medium);
      var d := c.(offered := Record(c, l));
      AllUnused(l, c.offered, Order(c.active, c.leases));
      AfterOfferSettles(d, v);
    }
  }

  lemma {:induction false} AfterOfferSettles(c: Client, v: Env)
    requires v.Valid() && !c.exited && WellHeld(c) && c.state == SELECTING && c.offered != []
    requires Either(c.timers, v.me, ToSelect, ToDiscover)
    ensures Settled(c, AfterOffer(c, v), v)
  {
    var stop := c.firstSending + v.config.selectInterval;
    if stop <= v.now.sec {
      StateSelectingSettles(c, v);
    } else {
      WaitForMore(c, v, Time(stop, v.now.usec));
    }
  }

  lemma {:induction false} AllUnused(l: ClientLease, offered: seq<ClientLease>, s: seq<ClientLease>)
    requires OutsideOf(offered, s) && Unused(l.node, s)
    ensures OutsideOf([l] + offered, s) && OutsideOf(offered + [l], s)
  {
  }

  /** The timer for the end of the selection takes the place of the one for the next discover message. */
  lemma {:induction false} WaitForMore(c: Client, v: Env, stop: Time)
    requires v.Valid() && Either(c.timers, v.me, ToSelect, ToDiscover)
    ensures var t := c.Arm(v, ToSelect, stop).Disarm(v, ToDiscover).timers;
            Only(t, v.me, ToSelect) && OthersKept(c.timers, t, v.me, {})
  {
  }

  lemma {:induction false} DhcpAckSettles(c: Client, lease: ClientLease, leaseTime: LeaseTimes.uint32,
                                          t1: LeaseTimes.uint32, t2: LeaseTimes.uint32, v: Env)
    requires v.Valid() && Inv(c, v.me) && Unused(lease.node, Order(c.active, c.leases)) && leaseTime != 0
    ensures Settled(c, DhcpAck(c, lease, leaseTime, t1, t2, v), v)
  {
    if Asking(c.state) {
      var d := c.Disarm(v, ToRequest);
      UnusedInLeases(lease.node, c);
      BindLeaseSettles(d, WithTerms(lease, leaseTime, t1, t2, v), v);
    }
  }

  lemma {:induction false} DhcpNakSettles(c: Client, v: Env)
    requires v.Valid() && Inv(c, v.me)
    ensures Settled(c, DhcpNak(c, v), v)
  {
    if Asking(c.state) && c.active.Some? {
      var d := c.(active := None, state := INIT).Disarm(v, ToRequest);
      assert Distinct(c.leases) by { assert c.leases == Order(c.active, c.leases)[1..]; }
      StateInitSettles(d, v);
    }
  }

  lemma {:induction false} FireSettles(c: Client, f: Func, v: Env)
    requires v.Valid() && Inv(c, v.me) && Possible(c, Fire(f), v)
    ensures Ready(c, Fire(f)) && Settled(c, Step(c, Fire(f), v), v)
  {
    var d := c.Disarm(v, f);
    assert Only(c.timers, v.me, f);
    assert Quiet(d.timers, v.me) && OthersKept(c.timers, d.timers, v.me, {}) && WellHeld(d);
    match f
    case ToReboot => StateRebootSettles(d, v);
    case ToInit => StateInitSettles(d, v);
    case ToSelect => StateSelectingSettles(d, v);
    case ToDiscover => SendDiscoverSettles(d, v);
    case ToRequest => SendRequestSettles(d, v);
    case ToBound => StateBoundSettles(d, v);
  }

  // ---- Where the handlers lead ----

  /** Starting over leads to SELECTING, with the leases as they were. */
  lemma {:induction false} StateInitLeads(c: Client, v: Env)
    requires v.Valid()
    ensures var c' := StateInit(c, v);
            && c'.state == SELECTING && c'.firstSending == v.now.sec
            && c'.active == c.active && c'.leases == c.leases && c'.offered == c.offered
  {
  }

  /** A request is sent in the state of the client, or the client starts over. With an active lease in use, it starts
      over exactly when the lease has expired. */
  lemma {:induction false} SendRequestLeads(c: Client, v: Env)
    requires v.Valid() && Asking(c.state) && HasItsLease(c)
    ensures var c' := SendRequest(c, v);
            && c'.state in {c.state, SELECTING} && c'.active == c.active && c'.leases == c.leases
            && (c.state == RENEWING ==> (c'.state == RENEWING <==> v.now.sec <= c.active.value.expiry))
            && (c'.state != SELECTING ==> Key(Some(ToRequest), v.me) in c'.timers)
  {
    StateInitLeads(c.(state := INIT).Disarm(v, ToRequest), v);
    var d := if c.state == REBOOTING && c.medium == [] then c.(medium := c.active.value.medium) else c;
    StateInitLeads(d.(state := INIT), v);
  }
}
