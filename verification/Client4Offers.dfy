/** Which of the offered leases the DHCPv4 client asks for. */
module Client4Offers {
  import opened Wrappers
  import opened Timers
  import opened Panic
  import opened Client4
  import opened Client4Leads
  import opened Client4Runs

  /** No address was recorded twice, and one that the client asked for stands at the head. */
  predicate InOrder(c: Client) {
    && (forall i, j :: 0 <= i < j < |c.offered| ==> c.offered[i].address != c.offered[j].address)
    && forall i :: 0 < i < |c.offered| ==> c.requested != Some(c.offered[i].address)
  }

  predicate HasAddress(s: seq<ClientLease>, address: nat) {
    exists i :: 0 <= i < |s| && s[i].address == address
  }

  /** An offer is passed over exactly by a client that does not select, or has the address already. */
  lemma {:induction false} OfferIgnored(c: Client, lease: ClientLease, v: Env)
    requires v.Valid() && (c.state != SELECTING || HasAddress(c.offered, lease.address))
    ensures DhcpOffer(c, lease, v) == c
  {
    if c.state == SELECTING {
      var i :| 0 <= i < |c.offered| && c.offered[i].address == lease.address;
      assert c.offered[i] in c.offered;
    }
  }

  /** Any other offer is recorded with the medium in use, none is lost, and the client waits for more until the
      selection interval has passed since it started to look for servers. */
  lemma {:induction false} OfferRecorded(c: Client, lease: ClientLease, v: Env)
    requires v.Valid() && c.state == SELECTING && !HasAddress(c.offered, lease.address)
    requires v.now.sec < c.firstSending + v.config.selectInterval
    ensures var c' := DhcpOffer(c, lease, v);
            && multiset(c'.offered) == multiset(c.offered) + multiset{lease.(medium := c.medium)}
            && c' == c.(offered := c'.offered, timers := c'.timers)
            && Key(Some(ToDiscover), v.me) !in c'.timers && Key(Some(ToSelect), v.me) in c'.timers
            && c'.timers[Key(Some(ToSelect), v.me)]
               == Due(Time(c.firstSending + v.config.selectInterval, v.now.usec), v.now)
  {
    NewAddress(c.offered, lease.address);
    RecordAdds(c, lease.(medium := c.medium));
  }

  lemma {:induction false} NewAddress(s: seq<ClientLease>, address: nat)
    requires !HasAddress(s, address)
    ensures !exists l :: l in s && l.address == address
  {
  }

  lemma {:induction false} RecordAdds(c: Client, l: ClientLease)
    ensures multiset(Record(c, l)) == multiset(c.offered) + multiset{l}
  {
  }

  lemma {:induction false} OfferInOrder(c: Client, lease: ClientLease, v: Env)
    requires v.Valid() && InOrder(c) && c.state == SELECTING && !HasAddress(c.offered, lease.address)
    ensures InOrder(c.(offered := Record(c, lease.(medium := c.medium))))
  {
    var l := lease.(medium := c.medium);
    var s := Record(c, l);
    if c.requested == Some(l.address) {
      assert forall i :: 0 < i < |s| ==> s[i] == c.offered[i - 1];
    }
  }

  /** Once the selection interval has passed, a client with offers takes the one at the head: it asks a DHCP server for
      that address, and binds to that of a BOOTP server for twelve thousand seconds. */
  lemma {:induction false} SelectLeads(c: Client, v: Env)
    requires v.Valid()
    ensures var c' := StateSelecting(c, v);
            && (c.offered == [] ==> StartsOver(c, v, c'))
            && (c.offered != [] && !c.offered[0].isBootp ==>
                  && c'.state == REQUESTING && c'.requested == Some(c.offered[0].address)
                  && c'.firstSending == v.now.sec && c'.offered == [] && DueIn(c', v, ToRequest, c'.interval))
            && (c.offered != [] && c.offered[0].isBootp && v.draws.bindWorks ==>
                  && c'.state == BOUND && c'.active.Some? && c'.active.value.address == c.offered[0].address
                  && c'.active.value.expiry == v.now.sec + 12000 && c'.offered == []
                  && c'.active.value.rebind == c.offered[0].rebind + v.now.sec + 10000
                  && c'.active.value.renewal == c.offered[0].renewal + v.now.sec + 8000)
  {
    var d := c.Disarm(v, ToSelect).Disarm(v, ToDiscover).(offered := []);
    StartOverLeads(d.(state := INIT), v);
    if c.offered != [] {
      var l := c.offered[0];
      if l.isBootp {
        BindLeads(d.(state := REQUESTING), BootpLease(l, v), v);
      } else {
        RequestLeads(d.Begin(REQUESTING, Some(l.address), v), v);
      }
    }
  }

  /** A late offer is decided at once, together with those before it. */
  lemma {:induction false} LateOfferDecides(c: Client, lease: ClientLease, v: Env)
    requires v.Valid() && c.state == SELECTING && !HasAddress(c.offered, lease.address)
    requires v.now.sec >= c.firstSending + v.config.selectInterval
    ensures DhcpOffer(c, lease, v)
            == StateSelecting(c.(offered := Record(c, lease.(medium := c.medium))), v)
  {
    NewAddress(c.offered, lease.address);
  }

  /** If the address that the client asked for was offered, that is the one it goes on with. */
  lemma {:induction false} RequestedPreferred(c: Client, v: Env)
    requires v.Valid() && InOrder(c) && c.requested.Some? && HasAddress(c.offered, c.requested.value)
    ensures c.offered[0].address == c.requested.value
    ensures !c.offered[0].isBootp ==> StateSelecting(c, v).requested == c.requested
  {
    SelectLeads(c, v);
  }

  // ---- Runs ----

  lemma {:induction false} OfferKeepsOrder(c: Client, lease: ClientLease, v: Env)
    requires v.Valid() && InOrder(c)
    ensures InOrder(DhcpOffer(c, lease, v))
  {
    if c.state != SELECTING || HasAddress(c.offered, lease.address) {
      OfferIgnored(c, lease, v);
    } else {
      var d := c.(offered := Record(c, lease.(medium := c.medium)));
      OfferInOrder(c, lease, v);
      if v.now.sec >= c.firstSending + v.config.selectInterval {
        LateOfferDecides(c, lease, v);
        SelectClears(d, v);
      } else {
        OfferRecorded(c, lease, v);
        assert DhcpOffer(c, lease, v).offered == d.offered;
      }
    }
  }

  /** No other handler records offers. */
  lemma {:induction false} InitKeepsOffers(c: Client, v: Env)
    requires v.Valid()
    ensures StateInit(c, v).offered == c.offered
  {
  }

  lemma {:induction false} RequestKeepsOffers(c: Client, v: Env)
    requires v.Valid() && (c.state != REQUESTING ==> c.active.Some?)
    ensures SendRequest(c, v).offered == c.offered
  {
    InitKeepsOffers(c.(state := INIT).Disarm(v, ToRequest), v);
    var d := if c.state == REBOOTING && c.medium == [] then c.(medium := c.active.value.medium) else c;
    InitKeepsOffers(d.(state := INIT), v);
  }

  lemma {:induction false} BindKeepsOffers(c: Client, lease: ClientLease, v: Env)
    requires v.Valid()
    ensures BindLease(c, lease, v).offered == c.offered
  {
    InitKeepsOffers(c, v);
  }

  lemma {:induction false} SelectClears(c: Client, v: Env)
    requires v.Valid()
    ensures StateSelecting(c, v).offered == []
  {
    var d := c.Disarm(v, ToSelect).Disarm(v, ToDiscover).(offered := []);
    InitKeepsOffers(d.(state := INIT), v);
    if c.offered != [] {
      var l := c.offered[0];
      BindKeepsOffers(d.(state := REQUESTING), BootpLease(l, v), v);
      RequestKeepsOffers(d.Begin(REQUESTING, Some(l.address), v), v);
    }
  }

  lemma {:induction false} SearchKeepsOffers(c: Client, r: Search, v: Env)
    requires v.Valid() && (r.bound ==> r.active.Some?)
    ensures AfterSearch(c, r, v).offered == c.offered
  {
    var b := c.(active := r.active, leases := r.leases, state := BOUND);
    if r.bound { RequestKeepsOffers(b.Begin(RENEWING, None, v), v); }
  }

  lemma {:induction false} DiscoverKeepsOffers(c: Client, v: Env)
    requires v.Valid()
    ensures SendDiscover(c, v).offered == c.offered
  {
    if v.now.sec - c.firstSending > v.config.timeout {
      SearchKeepsOffers(c, SearchResult(c.active, c.leases, v.now.sec, v.draws.leaseWorks), v);
    }
  }

  lemma {:induction false} FireKeepsOrder(c: Client, f: Func, v: Env)
    requires v.Valid() && Inv(c, v.me) && Possible(c, Fire(f), v) && Ready(c, Fire(f)) && InOrder(c)
    ensures InOrder(Step(c, Fire(f), v))
  {
    var d := c.Disarm(v, f);
    assert c.offered != [] ==> c.state == SELECTING && f == ToSelect;
    match f
    case ToSelect => SelectClears(d, v);
    case ToReboot =>
      InitKeepsOffers(d, v);
      if d.active.Some? {
        RequestKeepsOffers(d.(medium := []).Begin(REBOOTING, Some(d.active.value.address), v), v);
      }
    case ToInit => InitKeepsOffers(d, v);
    case ToDiscover => DiscoverKeepsOffers(d, v);
    case ToRequest => RequestKeepsOffers(d, v);
    case ToBound => RequestKeepsOffers(d.Begin(RENEWING, None, v), v);
  }

  lemma {:induction false} StepKeepsOrder(c: Client, e: Event, v: Env)
    requires v.Valid() && Inv(c, v.me) && Possible(c, e, v) && Ready(c, e) && InOrder(c)
    ensures InOrder(Step(c, e, v))
  {
    match e
    case Offer(l) => OfferKeepsOrder(c, l, v);
    case Ack(l, t, t1, t2) =>
      if Asking(c.state) && t != 0 {
        BindKeepsOffers(c.Disarm(v, ToRequest), WithTerms(l, t, t1, t2, v), v);
      }
    case Nak => InitKeepsOffers(c.(active := None, state := INIT).Disarm(v, ToRequest), v);
    case Fire(f) => FireKeepsOrder(c, f, v);
  }

  /** In every state of every run the offers are in order, so that the client asks for the address it wanted whenever
      some server offered it. */
  lemma {:induction false} RunInOrder(cs: seq<Client>, es: seq<Event>, vs: seq<Env>, me: nat, k: nat)
    requires Run(cs, es, vs, me) && Inv(cs[0], me) && InOrder(cs[0]) && k <= |es|
    requires forall i :: 0 <= i < |es| ==> !ZeroAck(cs[i], es[i])
    ensures InOrder(cs[k])
  {
    if k > 0 {
      RunInOrder(cs, es, vs, me, k - 1);
      RunInv(cs, es, vs, me, k - 1);
      assert Follows(cs[k - 1], es[k - 1], vs[k - 1], cs[k], me);
      StepKeepsOrder(cs[k - 1], es[k - 1], vs[k - 1]);
    }
  }

  // ---- Timers ----

  /** Which handler a timer calls, told by where it leads. */
  lemma {:induction false} FireLeads(c: Client, f: Func, v: Env)
    requires v.Valid() && Ready(c, Fire(f)) && HasItsLease(c)
    ensures var c' := Step(c, Fire(f), v);
            && (f == ToInit ==> StartsOver(c, v, c'))
            && (f == ToReboot && c'.state == REBOOTING ==> c'.firstSending == v.now.sec)
            && (f == ToRequest && Asking(c.state) ==>
                  if GoesOnAsking(c, v) then c'.state == c.state && c'.firstSending == c.firstSending
                  else StartsOver(c, v, c'))
            && (f == ToBound ==>
                  if v.now.sec <= c.active.value.expiry then c'.state == RENEWING && c'.firstSending == v.now.sec
                  else StartsOver(c, v, c'))
  {
    var d := c.Disarm(v, f);
    match f
    case ToInit => StartOverLeads(d, v);
    case ToReboot => RebootLeads(d, v);
    case ToRequest => if Asking(c.state) { RequestLeads(d, v); }
    case ToBound => BoundLeads(d, v);
    case _ =>
  }

  lemma {:induction false} FireSelectLeads(c: Client, v: Env)
    requires v.Valid() && c.offered != [] && !c.offered[0].isBootp
    ensures var c' := Step(c, Fire(ToSelect), v);
            c'.state == REQUESTING && c'.requested == Some(c.offered[0].address) && c'.firstSending == v.now.sec
  {
    SelectLeads(c.Disarm(v, ToSelect), v);
  }

  lemma {:induction false} FireRebootLeads(c: Client, v: Env)
    requires v.Valid()
    ensures Step(c, Fire(ToReboot), v).state == REBOOTING <==>
            c.active.Some? && !c.active.value.isBootp && c.active.value.expiry > v.now.sec
            && (c.active.value.medium == [] || v.draws.mediumWorks)
  {
    RebootLeads(c.Disarm(v, ToReboot), v);
  }

  lemma {:induction false} FireDiscoverLeads(c: Client, v: Env)
    requires v.Valid() && v.config.media == [] && v.now.sec - c.firstSending <= v.config.timeout
    ensures var c' := Step(c, Fire(ToDiscover), v);
            && c'.state == c.state && c'.offered == c.offered
            && c'.interval == Earlier(Backoff(c.interval, v), c.firstSending + v.config.timeout + 1 - v.now.sec)
            && DueIn(c', v, ToDiscover, c'.interval)
  {
    DiscoverLeads(c.Disarm(v, ToDiscover), v);
  }
}
