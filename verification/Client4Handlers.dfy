/** client/dhclient.c: the handlers themselves, which update the client's record and the table of timeouts in place.
    Each one computes the function of the same name in module Client4. */
module Client4Handlers {
  import opened Wrappers
  import opened Timers
  import opened Panic
  import opened Client4
  import opened Client4Settles
  import opened Client4Runs
  import Client4Leads
  import LeaseTimes

  class ClientState {
    const me: nat
    const config: Config
    const timers: TimerTable<Func, nat>
    var state: Phase
    var active: Option<ClientLease>
    var leases: seq<ClientLease>
    var offered: seq<ClientLease>
    var interval: nat
    var firstSending: int
    var medium: seq<string>
    var requested: Option<nat>
    var exited: bool

    constructor (me: nat, config: Config, timers: TimerTable<Func, nat>, active: Option<ClientLease>,
                 leases: seq<ClientLease>)
      ensures this.me == me && this.config == config && this.timers == timers
      ensures View() == Client(INIT, active, leases, [], 0, 0, [], None, false, timers.Table())
    {
      this.me, this.config, this.timers := me, config, timers;
      this.active, this.leases, offered := active, leases, [];
      state, interval, firstSending, medium, requested, exited := INIT, 0, 0, [], None, false;
    }

    function View(): (c: Client)
      reads this, timers
    {
      Client(state, active, leases, offered, interval, firstSending, medium, requested, exited, timers.Table())
    }

    /** The environment is this client's, and the table has no repetitions. */
    predicate Suits(v: Env)
      reads this, timers
    {
      v.Valid() && v.me == me && v.config == config && timers.Valid()
    }

    /** Beyond that, leases do not share structures. */
    predicate Fits(v: Env)
      reads this, timers
    {
      Suits(v) && Distinct(Order(active, leases))
    }

    method Set(v: Env, f: Func, when: Time)
      requires Suits(v)
      modifies timers
      ensures timers.Valid() && View() == old(View()).Arm(v, f, when)
    {
      var _ := timers.AddTimeout(when, Some(f), me, v.now);
    }

    method Cancel(v: Env, f: Func)
      requires Suits(v)
      modifies timers
      ensures timers.Valid() && View() == old(View()).Disarm(v, f)
    {
      timers.CancelTimeout(Some(f), me);
    }

    /** Sets the fields that a new state starts with. */
    method Begin(p: Phase, r: Option<nat>, v: Env)
      requires Suits(v)
      modifies this
      ensures View() == old(View()).Begin(p, r, v)
    {
      state, requested, firstSending, interval := p, r, v.now.sec, config.initialInterval;
    }

    method SendDiscover(v: Env)
      requires Fits(v)
      modifies this, timers
      ensures timers.Valid() && View() == Client4.SendDiscover(old(View()), v)
      ensures Clear(old(View()), me) && old(state) == SELECTING ==> Settled(old(View()), View(), v)
      decreases if v.now.sec - firstSending > v.config.timeout then 5 else 0
    {
      ghost var c := View();
      if Clear(c, me) && state == SELECTING { SendDiscoverSettles(c, v); }
      if v.now.sec - firstSending > config.timeout {
        StatePanic(v);
        return;
      }
      var increase := true;
      if offered == [] && config.media != [] {
        var found, m, again := TryMedia(medium, config.media, v.draws.mediaWork);
        if !found {
          exited := true;
          return;
        }
        medium, increase := m, again;
      }
      Discover(increase, v);
    }

    method Discover(increase: bool, v: Env)
      requires Suits(v) && v.now.sec - firstSending <= config.timeout
      modifies this, timers
      ensures timers.Valid() && View() == Client4.Discover(old(View()), increase, v)
    {
      if increase {
        interval := BackOff(interval, v);
      } else if interval == 0 {
        interval := config.initialInterval;
      }
      if v.now.sec + interval > firstSending + config.timeout {
        interval := firstSending + config.timeout - v.now.sec + 1;
      }
      Set(v, ToDiscover, Later(v, interval));
    }

    method StatePanic(v: Env)
      requires Fits(v)
      modifies this, timers
      ensures timers.Valid() && View() == Client4.StatePanic(old(View()), v)
      ensures Clear(old(View()), me) ==> Settled(old(View()), View(), v)
      decreases 4, 1
    {
      if Clear(View(), me) { StatePanicSettles(View(), v); }
      SearchDistinct(active, leases, v.now.sec, v.draws.leaseWorks);
      var r, _ := SearchLeases(active, leases, v.now.sec, v.draws.leaseWorks);
      AfterSearch(r, v);
    }

    method AfterSearch(r: Search, v: Env)
      requires Fits(v) && (r.bound ==> r.active.Some?) && Distinct(Order(r.active, r.leases))
      modifies this, timers
      ensures timers.Valid() && View() == Client4.AfterSearch(old(View()), r, v)
      decreases 4, 0
    {
      active, leases := r.active, r.leases;
      if r.bound {
        state := BOUND;
        WaitOrRenew(v);
        return;
      }
      if config.onetry {
        exited := true;
        return;
      }
      state := INIT;
      Set(v, ToInit, Later(v, (config.retryInterval + 1) / 2 + v.draws.retry % config.retryInterval));
    }

    /** Waits for the renewal time of the active lease, unless it has come. */
    method WaitOrRenew(v: Env)
      requires Fits(v) && active.Some?
      modifies this, timers
      ensures timers.Valid()
      ensures var c, r := old(View()), old(active.value.renewal);
              View() == if v.now.sec < r then c.Arm(v, ToBound, Later(v, r - v.now.sec)) else Client4.StateBound(c, v)
      decreases 3, 1
    {
      if v.now.sec < active.value.renewal {
        Set(v, ToBound, Later(v, active.value.renewal - v.now.sec));
      } else {
        StateBound(v);
      }
    }

    method StateBound(v: Env)
      requires Fits(v) && active.Some?
      modifies this, timers
      ensures timers.Valid() && View() == Client4.StateBound(old(View()), v)
      ensures Clear(old(View()), me) ==> Settled(old(View()), View(), v)
      ensures active == old(active) && state == if v.now.sec <= active.value.expiry then RENEWING else SELECTING
      decreases 3, 0
    {
      if Clear(View(), me) { StateBoundSettles(View(), v); }
      SendRequestLeads(View().Begin(RENEWING, None, v), v);
      Begin(RENEWING, None, v);
      SendRequest(v);
    }

    method SendRequest(v: Env)
      requires Fits(v) && (state != REQUESTING ==> active.Some?)
      modifies this, timers
      ensures timers.Valid() && View() == Client4.SendRequest(old(View()), v)
      ensures Clear(old(View()), me) && Asking(old(state)) ==> Settled(old(View()), View(), v)
      ensures Asking(old(state)) ==> state in {old(state), SELECTING} && active == old(active)
      decreases 2, 1
    {
      ghost var c := View();
      SendOrStartOver(v);
      if Asking(c.state) {
        SendRequestLeads(c, v);
        if Clear(c, me) { SendRequestSettles(c, v); }
      }
    }

    method SendOrStartOver(v: Env)
      requires Fits(v) && (state != REQUESTING ==> active.Some?)
      modifies this, timers
      ensures timers.Valid() && View() == Client4.SendRequest(old(View()), v)
      decreases 2, 0
    {
      var cancel := TooLateOrNoMedium(v);
      if cancel {
        StartOver(v);
        return;
      }
      if state != REQUESTING && v.now.sec > active.value.expiry {
        state := INIT;
        StateInit(v);
        return;
      }
      Request(v);
    }

    /** Whether the request is given up, because of the time passed or because the medium of the lease does not work.
        A medium that works is set. */
    method TooLateOrNoMedium(v: Env) returns (cancel: bool)
      requires Suits(v) && (state != REQUESTING ==> active.Some?)
      modifies this`medium
      ensures cancel == Cancels(old(View()), v)
      ensures cancel ==> medium == old(medium)
      ensures !cancel ==> medium == if state == REBOOTING && old(medium) == [] then active.value.medium else old(medium)
    {
      var elapsed := v.now.sec - firstSending;
      if (state == REBOOTING || state == REQUESTING) && elapsed > config.rebootTimeout { return true; }
      if state == REBOOTING && medium == [] && active.value.medium != [] {
        if !v.draws.mediumWorks { return true; }
        medium := active.value.medium;
      }
      return false;
    }

    method Request(v: Env)
      requires Suits(v) && (state != REQUESTING ==> active.Some? && v.now.sec <= active.value.expiry)
      modifies this, timers
      ensures timers.Valid() && View() == Client4.Request(old(View()), v)
    {
      interval := BackOff(interval, v);
      if state != REQUESTING && v.now.sec + interval > active.value.expiry {
        interval := active.value.expiry - v.now.sec + 1;
      }
      Set(v, ToRequest, Later(v, interval));
    }

    /** Gives up a request. */
    method StartOver(v: Env)
      requires Fits(v)
      modifies this, timers
      ensures timers.Valid() && View() == Client4.StateInit(old(View()).(state := INIT).Disarm(v, ToRequest), v)
      decreases 1, 1
    {
      state := INIT;
      Cancel(v, ToRequest);
      StateInit(v);
    }

    method StateInit(v: Env)
      requires Fits(v)
      modifies this, timers
      ensures timers.Valid() && View() == Client4.StateInit(old(View()), v)
      ensures Clear(old(View()), me) ==> Settled(old(View()), View(), v)
      ensures state == SELECTING && firstSending == v.now.sec && active == old(active) && leases == old(leases)
      decreases 1, 0
    {
      if Clear(View(), me) { StateInitSettles(View(), v); }
      StateInitLeads(View(), v);
      Begin(SELECTING, if active.Some? then Some(active.value.address) else None, v);
      SendDiscover(v);
    }

    method StateReboot(v: Env)
      requires Fits(v)
      modifies this, timers
      ensures timers.Valid() && View() == Client4.StateReboot(old(View()), v)
      ensures Clear(old(View()), me) ==> Settled(old(View()), View(), v)
      ensures active == old(active) && state in {REBOOTING, SELECTING}
      ensures state == REBOOTING <==>
                && active.Some? && !active.value.isBootp && active.value.expiry > v.now.sec
                && (active.value.medium == [] || v.draws.mediumWorks)
      ensures firstSending == v.now.sec
              && requested == if active.Some? then Some(active.value.address) else None
    {
      if Clear(View(), me) { StateRebootSettles(View(), v); }
      Client4Leads.RebootLeads(View(), v);
      if active.None? || active.value.isBootp || active.value.expiry <= v.now.sec {
        StateInit(v);
        return;
      }
      medium := [];
      Begin(REBOOTING, Some(active.value.address), v);
      SendRequest(v);
    }

    method BindLease(lease: ClientLease, v: Env)
      requires Fits(v)
      modifies this, timers
      ensures timers.Valid() && View() == Client4.BindLease(old(View()), lease, v)
      ensures Clear(old(View()), me) && Unused(lease.node, old(leases)) ==> Settled(old(View()), View(), v)
      ensures v.draws.bindWorks ==> state == BOUND && active == Some(lease.(medium := old(medium)))
      ensures !v.draws.bindWorks ==> active == old(active) && (exited || state == SELECTING)
    {
      if Clear(View(), me) && Unused(lease.node, leases) { BindLeaseSettles(View(), lease, v); }
      if !v.draws.bindWorks {
        if config.onetry {
          exited := true;
        } else {
          StateInit(v);
        }
        return;
      }
      active := Some(lease.(medium := medium));
      Set(v, ToBound, Later(v, lease.renewal - v.now.sec));
      state := BOUND;
      ScheduleUpdates(v);
    }

    /** dhclient_schedule_updates. */
    method ScheduleUpdates(v: Env)
      requires Suits(v)
      modifies timers
      ensures timers.Valid() && View() == old(View()).ScheduleUpdates(v)
    {
      if !config.forwardUpdate { return; }
      var _ := timers.AddTimeout(Time(v.now.sec + 1, v.now.usec), Some(ToDnsUpdate), v.draws.block, v.now);
    }

    method StateSelecting(v: Env)
      requires Fits(v)
      modifies this, timers
      ensures timers.Valid() && View() == Client4.StateSelecting(old(View()), v)
      ensures !old(exited) && WellHeld(old(View())) && Either(old(timers.Table()), me, ToSelect, ToDiscover) ==>
                Settled(old(View()), View(), v)
    {
      if !exited && WellHeld(View()) && Either(timers.Table(), me, ToSelect, ToDiscover) {
        StateSelectingSettles(View(), v);
      }
      Cancel(v, ToSelect);
      Cancel(v, ToDiscover);
      var picked: Option<ClientLease> := None;
      var i := 0;
      while i < |offered|
        invariant i <= |offered| && picked == if i == 0 then None else Some(offered[0])
      {
        if picked.None? { picked := Some(offered[i]); }
        i := i + 1;
      }
      offered := [];
      if picked.None? {
        state := INIT;
        StateInit(v);
        return;
      }
      TakeOffer(picked.value, v);
    }

    method TakeOffer(picked: ClientLease, v: Env)
      requires Fits(v)
      modifies this, timers
      ensures timers.Valid() && View() == Client4.TakeOffer(old(View()), picked, v)
    {
      if picked.isBootp {
        state := REQUESTING;
        var lease := picked.(expiry := v.now.sec + 12000, renewal := picked.renewal + v.now.sec + 8000,
                             rebind := picked.rebind + v.now.sec + 10000);
        BindLease(lease, v);
        return;
      }
      Begin(REQUESTING, Some(picked.address), v);
      SendRequest(v);
    }

    method DhcpOffer(lease: ClientLease, v: Env)
      requires Fits(v)
      modifies this, timers
      ensures timers.Valid() && View() == Client4.DhcpOffer(old(View()), lease, v)
      ensures Inv(old(View()), me) && Unused(lease.node, Order(old(active), old(leases))) ==>
                Settled(old(View()), View(), v)
    {
      if Inv(View(), me) && Unused(lease.node, Order(active, leases)) { DhcpOfferSettles(View(), lease, v); }
      if state != SELECTING { return; }
      var i := 0;
      while i < |offered|
        invariant i <= |offered| && forall l :: l in offered[..i] ==> l.address != lease.address
      {
        if offered[i].address == lease.address { return; }
        i := i + 1;
      }
      assert offered[..i] == offered;
      var l := lease.(medium := medium);
      if requested == Some(l.address) { offered := [l] + offered; } else { offered := offered + [l]; }
      AfterOffer(v);
    }

    method AfterOffer(v: Env)
      requires Fits(v)
      modifies this, timers
      ensures timers.Valid() && View() == Client4.AfterOffer(old(View()), v)
    {
      var stop := firstSending + config.selectInterval;
      ghost var c := View();
      assert Client4.AfterOffer(c, v) ==
          if stop <= v.now.sec then Client4.StateSelecting(c, v)
          else c.Arm(v, ToSelect, Time(stop, v.now.usec)).Disarm(v, ToDiscover);
      if stop <= v.now.sec {
        StateSelecting(v);
      } else {
        WaitForMore(v, Time(stop, v.now.usec));
      }
    }

    method WaitForMore(v: Env, stop: Time)
      requires Suits(v)
      modifies timers
      ensures timers.Valid() && View() == old(View()).Arm(v, ToSelect, stop).Disarm(v, ToDiscover)
    {
      Set(v, ToSelect, stop);
      Cancel(v, ToDiscover);
    }

    method DhcpAck(lease: ClientLease, leaseTime: LeaseTimes.uint32, t1: LeaseTimes.uint32, t2: LeaseTimes.uint32,
                   v: Env)
      requires Fits(v)
      modifies this, timers
      ensures timers.Valid() && View() == Client4.DhcpAck(old(View()), lease, leaseTime, t1, t2, v)
      ensures Inv(old(View()), me) && Unused(lease.node, Order(old(active), old(leases))) && leaseTime != 0 ==>
                Settled(old(View()), View(), v)
    {
      if Inv(View(), me) && Unused(lease.node, Order(active, leases)) && leaseTime != 0 {
        DhcpAckSettles(View(), lease, leaseTime, t1, t2, v);
      }
      if state != REBOOTING && state != REQUESTING && state != RENEWING { return; }
      Cancel(v, ToRequest);
      if leaseTime == 0 {
        var when := HalfASecondFrom(v.now);
        Set(v, ToInit, when);
        return;
      }
      var l := TermsOf(lease, leaseTime, t1, t2, v);
      BindLease(l, v);
    }

    method DhcpNak(v: Env)
      requires Fits(v)
      modifies this, timers
      ensures timers.Valid() && View() == Client4.DhcpNak(old(View()), v)
      ensures Inv(old(View()), me) ==> Settled(old(View()), View(), v)
      ensures if Asking(old(state)) && old(active).Some?
              then active.None? && state == SELECTING && leases == old(leases)
              else View() == old(View())
    {
      if Inv(View(), me) { DhcpNakSettles(View(), v); }
      if state != REBOOTING && state != REQUESTING && state != RENEWING { return; }
      if active.None? { return; }
      assert Distinct(leases) by { assert leases == Order(active, leases)[1..]; }
      active := None;
      Cancel(v, ToRequest);
      state := INIT;
      StateInit(v);
    }

    /** A timer of this client ran out: its entry is unlinked, then its function is called. */
    method TimerCallback(f: Func, v: Env)
      requires Fits(v) && Possible(View(), Fire(f), v) && Ready(View(), Fire(f))
      modifies this, timers
      ensures timers.Valid() && View() == Step(old(View()), Fire(f), v)
    {
      var _ := timers.Expire(Key(Some(f), me));
      match f
      case ToReboot => StateReboot(v);
      case ToInit => StateInit(v);
      case ToSelect => StateSelecting(v);
      case ToDiscover => SendDiscover(v);
      case ToRequest => SendRequest(v);
      case ToBound => StateBound(v);
    }

    /** Handles an event. A client that kept the invariant of module Client4 keeps it, unless the program ends or an
        acknowledgement without a lease time arrives. */
    method Handle(e: Event, v: Env)
      requires Fits(v) && Inv(View(), me) && Possible(View(), e, v)
      modifies this, timers
      ensures timers.Valid() && Ready(old(View()), e) && View() == Step(old(View()), e, v)
      ensures !exited ==> (Inv(View(), me) <==> !ZeroAck(old(View()), e))
    {
      StepKeeps(View(), e, v);
      match e
      case Offer(l) => DhcpOffer(l, v);
      case Ack(l, t, t1, t2) => DhcpAck(l, t, t1, t2, v);
      case Nak => DhcpNak(v);
      case Fire(f) => TimerCallback(f, v);
    }
  }

  /** Advances to the next medium that works. */
  method TryMedia(medium: seq<string>, media: seq<string>, works: seq<string> -> bool)
    returns (found: bool, m: seq<string>, increase: bool)
    requires media != []
    ensures NextMedium(medium, media, false, works) == if found then Some((m, increase)) else None
  {
    m, increase := medium, true;
    var fail := false;
    while true
      invariant NextMedium(m, media, fail, works) == NextMedium(medium, media, false, works)
      decreases !fail, |m|
    {
      if m != [] { m, increase := m[1..], false; }
      if m == [] {
        if fail { return false, m, increase; }
        m, increase := media, true;
      }
      if works(m) { return true, m, increase; }
      fail := true;
    }
  }

  method HalfASecondFrom(now: Time) returns (when: Time)
    requires now.Normal()
    ensures when == HalfASecond(now)
  {
    when := Time(now.sec, now.usec + 500000);
    if when.usec >= 1000000 { when := Time(when.sec + 1, when.usec - 1000000); }
  }

  /** Sets the times of a lease, computed in 32 bits. */
  method TermsOf(lease: ClientLease, leaseTime: LeaseTimes.uint32, t1: LeaseTimes.uint32, t2: LeaseTimes.uint32,
                 v: Env) returns (l: ClientLease)
    requires v.Valid() && leaseTime != 0
    ensures l == WithTerms(lease, leaseTime, t1, t2, v)
  {
    var expiry, renewal, rebind := LeaseTimes.ComputeTerms(leaseTime, t1, t2, v.draws.renew as LeaseTimes.TIME,
                                                           v.now.sec as LeaseTimes.TIME);
    l := lease.(expiry := expiry as int, renewal := renewal as int, rebind := rebind as int);
  }

  method BackOff(interval: nat, v: Env) returns (i: nat)
    requires v.Valid()
    ensures i == Backoff(interval, v)
  {
    i := interval;
    if i == 0 { i := v.config.initialInterval; } else { i := i + v.draws.grow % (2 * i); }
    if i > v.config.backoffCutoff {
      i := v.config.backoffCutoff / 2 + v.draws.cut % v.config.backoffCutoff;
    }
  }
}
