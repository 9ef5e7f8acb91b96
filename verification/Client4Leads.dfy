/** Where the events of the DHCPv4 client lead: states, requested addresses and the times of the next messages, in terms
    of the lease, the configuration and the clock. */
module Client4Leads {
  import opened Wrappers
  import opened Timers
  import opened Panic
  import opened Client4
  import opened Client4Settles
  import LeaseTimes

  // ---- Backoff ----

  /** The first interval is the initial one; after that it grows up to about threefold, but not past the cutoff, around
      which it is drawn instead. */
  lemma {:induction false} BackoffMeans(interval: nat, v: Env)
    requires v.Valid()
    ensures var r, cutoff := Backoff(interval, v), v.config.backoffCutoff;
            var base := if interval == 0 then v.config.initialInterval else interval;
            && (interval == 0 && base <= cutoff ==> r == base)
            && (interval > 0 && 3 * interval <= cutoff + 1 ==> interval <= r < 3 * interval)
            && (base > cutoff ==> cutoff / 2 <= r < cutoff / 2 + cutoff)
            && (r <= cutoff || r < cutoff / 2 + cutoff) && (r >= base || r >= cutoff / 2)
  {
  }

  /** All of these intervals can be drawn. */
  lemma {:induction false} BackoffTotal(interval: nat, r: nat, v: Env) returns (grow: nat)
    requires v.Valid() && interval <= r < 3 * interval && r <= v.config.backoffCutoff
    ensures Backoff(interval, v.(draws := v.draws.(grow := grow))) == r
  {
    grow := r - interval;
    LeaseTimes.SmallRemainder(grow, 2 * interval);
  }

  lemma {:induction false} CutoffTotal(interval: nat, r: nat, v: Env) returns (cut: nat)
    requires v.Valid() && interval > v.config.backoffCutoff
    requires v.config.backoffCutoff / 2 <= r < v.config.backoffCutoff / 2 + v.config.backoffCutoff
    ensures Backoff(interval, v.(draws := v.draws.(cut := cut))) == r
  {
    cut := r - v.config.backoffCutoff / 2;
    LeaseTimes.SmallRemainder(cut, v.config.backoffCutoff);
  }

  /** The next message of a client can come at any microsecond of its second, if that is not the next one; otherwise it
      comes after exactly that many seconds. */
  lemma {:induction false} AnyMicrosecond(v: Env, s: nat, u: nat) returns (usec: nat)
    requires v.Valid() && 1 < s < TIME_MAX && 0 < u < USEC_MAX
    ensures var v' := v.(draws := v.draws.(usec := usec)); Due(Later(v', s), v.now) == (v.now.sec + s) * USEC_MAX + u
  {
    usec := u;
    LeaseTimes.SmallRemainder(u, USEC_MAX);
    LateIff(Time(v.now.sec + s, u), v.now);
  }

  lemma {:induction false} NextSecond(v: Env, s: nat)
    requires v.Valid() && s <= 1
    ensures Due(Later(v, s), v.now) == v.now.Micros() + s * USEC_MAX
  {
    LateIff(Time(v.now.sec + s, v.now.usec), v.now);
  }

  // ---- Media ----

  /** The medium tried next is the first one behind the current one that works. */
  lemma {:induction false} NextInRest(medium: seq<string>, media: seq<string>, failed: bool,
                                      works: seq<string> -> bool, k: nat)
    requires media != [] && 1 <= k < |medium| && works(medium[k..])
    requires forall j :: 1 <= j < k ==> !works(medium[j..])
    ensures NextMedium(medium, media, failed, works) == Some((medium[k..], false))
    decreases |medium|
  {
    if k > 1 {
      assert medium[1..][k - 1..] == medium[k..];
      forall j | 1 <= j < k - 1 ensures !works(medium[1..][j..]) { assert medium[1..][j..] == medium[j + 1..]; }
      NextInRest(medium[1..], media, true, works, k - 1);
    }
  }

  lemma {:induction false} NoneInRest(medium: seq<string>, media: seq<string>, failed: bool,
                                      works: seq<string> -> bool)
    requires media != [] && (|medium| > 1 || failed) && forall j :: 1 <= j < |medium| ==> !works(medium[j..])
    ensures NextMedium(medium, media, failed, works) == None
    decreases |medium|
  {
    if |medium| > 1 {
      forall j | 1 <= j < |medium| - 1 ensures !works(medium[1..][j..]) { assert medium[1..][j..] == medium[j + 1..]; }
      NoneInRest(medium[1..], media, true, works);
    }
  }

  /** No medium is found exactly if none behind the current one works and there is one, or if the current one is the
      last, or there is none, and none of the whole list works. So one in front of the current one is not tried again
      once one behind it has failed. */
  lemma {:induction false} NoMediumIff(medium: seq<string>, media: seq<string>, works: seq<string> -> bool)
    requires media != []
    ensures NextMedium(medium, media, false, works).None? <==>
            if |medium| > 1 then forall j :: 1 <= j < |medium| ==> !works(medium[j..])
            else forall j :: 0 <= j < |media| ==> !works(media[j..])
  {
    if |medium| > 1 {
      RestDecides(medium, media, false, works);
    } else if !works(media) {
      RestDecides(media, media, true, works);
      assert media[0..] == media;
    } else {
      assert media[0..] == media;
    }
  }

  lemma {:induction false} RestDecides(medium: seq<string>, media: seq<string>, failed: bool,
                                       works: seq<string> -> bool)
    requires media != [] && (|medium| > 1 || failed)
    ensures NextMedium(medium, media, failed, works).None? <==> forall j :: 1 <= j < |medium| ==> !works(medium[j..])
  {
    if j :| 1 <= j < |medium| && works(medium[j..]) {
      var k := 1;
      while !works(medium[k..])
        invariant 1 <= k <= j && forall i :: 1 <= i < k ==> !works(medium[i..])
        decreases j - k
      {
        k := k + 1;
      }
      NextInRest(medium, media, failed, works, k);
    } else {
      NoneInRest(medium, media, failed, works);
    }
  }

  /** Only with the head of the list, tried after its end, does the interval grow. */
  lemma {:induction false} StartedOver(medium: seq<string>, media: seq<string>, works: seq<string> -> bool)
    requires media != [] && |medium| <= 1 && works(media)
    ensures NextMedium(medium, media, false, works) == Some((media, true))
  {
  }

  // ---- Requests ----

  /** When the next message of the client is due: `s` seconds from now, in that second. */
  predicate DueIn(c: Client, v: Env, f: Func, s: int)
    requires v.Valid()
  {
    Key(Some(f), v.me) in c.timers && c.timers[Key(Some(f), v.me)] == Due(Later(v, s), v.now)
  }

  /** Whether the client, asking in its state, goes on: a new lease or the old one after a restart is asked for up to
      the reboot timeout; the old one only up to its expiry, and only on its medium. */
  predicate GoesOnAsking(c: Client, v: Env)
    requires HasItsLease(c)
  {
    match c.state
    case REQUESTING => v.now.sec - c.firstSending <= v.config.rebootTimeout
    case REBOOTING =>
      && v.now.sec - c.firstSending <= v.config.rebootTimeout && v.now.sec <= c.active.value.expiry
      && (c.medium != [] || c.active.value.medium == [] || v.draws.mediumWorks)
    case RENEWING => v.now.sec <= c.active.value.expiry
    case _ => false
  }

  /** A request is sent, and the next one set, exactly in this case; otherwise the client starts over. The next request
      comes after the backoff or, where there is a lease, in the second after its expiry if that is earlier. */
  lemma {:induction false} RequestLeads(c: Client, v: Env)
    requires v.Valid() && Asking(c.state) && HasItsLease(c)
    ensures var c' := SendRequest(c, v);
            if GoesOnAsking(c, v)
            then && c'.state == c.state && c'.requested == c.requested && c'.firstSending == c.firstSending
                 && (c.state == REQUESTING ==> c'.interval == Backoff(c.interval, v))
                 && (c.state != REQUESTING ==>
                       c'.interval == Earlier(Backoff(c.interval, v), c.active.value.expiry + 1 - v.now.sec))
                 && DueIn(c', v, ToRequest, c'.interval)
            else StartsOver(c, v, c')
  {
    StartOverLeads(c.(state := INIT).Disarm(v, ToRequest), v);
    var d := if c.state == REBOOTING && c.medium == [] then c.(medium := c.active.value.medium) else c;
    StartOverLeads(d.(state := INIT), v);
  }

  /** The interval after the first request for a lease that the client has. */
  function FirstInterval(l: ClientLease, v: Env): (i: int)
    requires v.Valid()
  {
    Earlier(Backoff(v.config.initialInterval, v), l.expiry + 1 - v.now.sec)
  }

  function Earlier(a: int, b: int): (r: int) {
    if a <= b then a else b
  }

  /** The client looks for a server from now on, asking for the address it had. */
  predicate StartsOver(c: Client, v: Env, c': Client) {
    && c'.state == SELECTING && c'.firstSending == v.now.sec
    && c'.requested == (if c.active.Some? then Some(c.active.value.address) else None)
    && c'.active == c.active && c'.leases == c.leases
  }

  lemma {:induction false} StartOverLeads(c: Client, v: Env)
    requires v.Valid()
    ensures StartsOver(c, v, StateInit(c, v))
  {
  }

  /** After a restart the client asks for its old address exactly if it has a lease from a DHCP server that has not
      expired and whose medium, if it has one, works. */
  lemma {:induction false} RebootLeads(c: Client, v: Env)
    requires v.Valid()
    ensures var c' := StateReboot(c, v);
            var asks := c.active.Some? && !c.active.value.isBootp && c.active.value.expiry > v.now.sec
                        && (c.active.value.medium == [] || v.draws.mediumWorks);
            && (c'.state == REBOOTING <==> asks)
            && (asks ==> && c'.requested == Some(c.active.value.address) && c'.firstSending == v.now.sec
                         && c'.active == c.active && c'.medium == c.active.value.medium
                         && c'.interval == FirstInterval(c.active.value, v)
                         && DueIn(c', v, ToRequest, c'.interval))
            && (!asks ==> StartsOver(c, v, c'))
            && (asks && Quiet(c.timers, v.me) ==> Only(c'.timers, v.me, ToRequest))
  {
    StartOverLeads(c, v);
    if c.active.Some? && !c.active.value.isBootp && c.active.value.expiry > v.now.sec {
      var d := c.(medium := []).Begin(REBOOTING, Some(c.active.value.address), v);
      RequestLeads(d, v);
    }
  }

  /** A bound client whose renewal time has come asks its server, for no address in particular, until the lease has
      expired. */
  lemma {:induction false} BoundLeads(c: Client, v: Env)
    requires v.Valid() && c.active.Some?
    ensures var c' := StateBound(c, v);
            if v.now.sec <= c.active.value.expiry
            then && c'.state == RENEWING && c'.requested == None && c'.firstSending == v.now.sec
                 && c'.interval == FirstInterval(c.active.value, v)
                 && DueIn(c', v, ToRequest, c'.interval)
            else StartsOver(c, v, c')
  {
    RequestLeads(c.Begin(RENEWING, None, v), v);
  }

  // ---- Discovery ----

  /** Up to the panic timeout the client ends only if no medium works, or goes on with the next
      discover, which comes after the interval or in the second after the timeout, whichever is earlier. */
  lemma {:induction false} DiscoverLeads(c: Client, v: Env)
    requires v.Valid() && v.now.sec - c.firstSending <= v.config.timeout
    ensures var c', left := SendDiscover(c, v), c.firstSending + v.config.timeout + 1 - v.now.sec;
            var media := c.offered == [] && v.config.media != [];
            var next := if media then NextMedium(c.medium, v.config.media, false, v.draws.mediaWork) else None;
            && (c'.exited <==> c.exited || (media && next.None?))
            && (next.Some? ==> c'.medium == next.value.0) && (!media ==> c'.medium == c.medium)
            && (!media || (next.Some? && next.value.1) ==> c'.interval == Earlier(Backoff(c.interval, v), left))
            && (next.Some? && !next.value.1 && c.interval > 0 ==> c'.interval == Earlier(c.interval, left))
            && (!media || next.Some? ==>
                  c'.state == c.state && c'.offered == c.offered && DueIn(c', v, ToDiscover, c'.interval))
  {
  }

  /** The lease can be used: it has not expired, and the script accepts it. */
  predicate Usable(l: ClientLease, v: Env) {
    l.expiry > v.now.sec && v.draws.leaseWorks(l.node)
  }

  predicate SomeUsable(s: seq<ClientLease>, v: Env) {
    exists i :: 0 <= i < |s| && Usable(s[i], v)
  }

  /** The client is bound to its active lease, or renews it if its renewal time has come. */
  predicate InUse(c: Client, v: Env)
    requires v.Valid()
  {
    && c.active.Some? && Usable(c.active.value, v)
    && (v.now.sec < c.active.value.renewal ==>
          c.state == BOUND && DueIn(c, v, ToBound, c.active.value.renewal - v.now.sec))
    && (v.now.sec >= c.active.value.renewal ==> c.state == RENEWING && c.firstSending == v.now.sec)
  }

  /** After the panic timeout the client uses the first of its leases that has not expired and works; without one it
      ends if told to try once, and else sleeps for between a half and one and a half times the retry interval. */
  lemma {:induction false} PanicLeads(c: Client, v: Env)
    requires v.Valid()
    ensures var c', s := StatePanic(c, v), Order(c.active, c.leases);
            if SomeUsable(s, v)
            then InUse(c', v) && FirstUsable(s, v, c'.active.value)
            else if v.config.onetry then c'.exited
            else c'.state == INIT && DueIn(c', v, ToInit, Pause(v))
  {
    var r := SearchResult(c.active, c.leases, v.now.sec, v.draws.leaseWorks);
    SearchMeans(c.active, c.leases, v.now.sec, v.draws.leaseWorks);
    if r.bound { UseLeads(c, r, v); }
  }

  predicate FirstUsable(s: seq<ClientLease>, v: Env, l: ClientLease) {
    exists i :: 0 <= i < |s| && s[i] == l && Usable(l, v) && forall j :: 0 <= j < i ==> !Usable(s[j], v)
  }

  lemma {:induction false} UseLeads(c: Client, r: Search, v: Env)
    requires v.Valid() && r.bound && r.active.Some? && Usable(r.active.value, v)
    ensures var c' := AfterSearch(c, r, v); InUse(c', v) && c'.active == r.active
  {
    BoundLeads(c.(active := r.active, leases := r.leases, state := BOUND), v);
  }

  lemma PauseMeans(v: Env)
    requires v.Valid()
    ensures v.config.retryInterval <= 2 * Pause(v) < 3 * v.config.retryInterval + 1
  {
    var q := v.draws.retry % v.config.retryInterval;
    assert 0 <= q < v.config.retryInterval;
  }

  lemma {:induction false} Panics(c: Client, v: Env)
    requires v.Valid() && v.now.sec - c.firstSending > v.config.timeout
    ensures SendDiscover(c, v) == StatePanic(c, v)
  {
  }

  // ---- Binding ----

  /** A lease that the script takes is active, with the medium in use, until its renewal time; the first DNS update is
      due a second later, if the client makes them. One that the script does not take makes the client start over, or
      end if told to try once. */
  lemma {:induction false} BindLeads(c: Client, lease: ClientLease, v: Env)
    requires v.Valid()
    ensures var c' := BindLease(c, lease, v);
            if v.draws.bindWorks
            then && c'.state == BOUND && c'.active == Some(lease.(medium := c.medium)) && c'.leases == c.leases
                 && DueIn(c', v, ToBound, lease.renewal - v.now.sec)
                 && (v.config.forwardUpdate ==> UpdateTimer(v) in c'.timers
                                                && c'.timers[UpdateTimer(v)] == v.now.Micros() + 1_000_000)
                 && (!v.config.forwardUpdate ==> (UpdateTimer(v) in c'.timers <==> UpdateTimer(v) in c.timers))
            else if v.config.onetry then c'.exited && c'.active == c.active
            else StartsOver(c, v, c')
  {
    StartOverLeads(c, v);
    if v.draws.bindWorks && v.config.forwardUpdate { LateIff(Time(v.now.sec + 1, v.now.usec), v.now); }
  }

  /** What an acknowledgement leads to. Only a client that asks listens to it; the lease is bound with the times that
      the server sent; one without lease time only makes the client start over after half a second. */
  lemma {:induction false} AckLeads(c: Client, lease: ClientLease, leaseTime: LeaseTimes.uint32,
                                    t1: LeaseTimes.uint32, t2: LeaseTimes.uint32, v: Env)
    requires v.Valid()
    ensures var c' := DhcpAck(c, lease, leaseTime, t1, t2, v);
            if !Asking(c.state) then c' == c
            else if leaseTime == 0
            then && c' == c.(timers := c'.timers) && Key(Some(ToRequest), v.me) !in c'.timers
                 && Key(Some(ToInit), v.me) in c'.timers
                 && c'.timers[Key(Some(ToInit), v.me)] >= v.now.Micros() + 500_000
            else v.draws.bindWorks ==> BoundByAck(lease, leaseTime, t1, t2, v, c')
  {
    if leaseTime != 0 {
      BindLeads(c.Disarm(v, ToRequest), WithTerms(lease, leaseTime, t1, t2, v), v);
      LeaseTimes.TermsAtMean(leaseTime, t1, t2, v.draws.renew, v.now.sec);
    } else {
      EarlyIff(HalfASecond(v.now), v.now);
    }
  }

  ghost predicate BoundByAck(lease: ClientLease, leaseTime: LeaseTimes.uint32, t1: LeaseTimes.uint32,
                             t2: LeaseTimes.uint32, v: Env, c': Client)
    requires v.Valid()
  {
    && c'.state == BOUND && c'.active.Some?
    && c'.active.value.address == lease.address && c'.active.value.node == lease.node
    && LeaseTimes.TermsMean(leaseTime, t1, t2, v.now.sec,
                            LeaseTimes.Terms(c'.active.value.expiry, c'.active.value.renewal, c'.active.value.rebind))
    && DueIn(c', v, ToBound, c'.active.value.renewal - v.now.sec)
  }
}
