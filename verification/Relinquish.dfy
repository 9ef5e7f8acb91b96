/** client/dhclient.c: how long a client that gets no answer keeps asking for the renewal of its lease. */
module Relinquish {
  import opened Wrappers
  import opened Timers
  import opened Panic
  import opened Client4
  import LeaseTimes

  function RequestTimer(me: nat): (k: Key<Func, nat>) {
    Key(Some(ToRequest), me)
  }

  /** The client asks for the renewal of a lease that has not expired. */
  predicate Renewing(c: Client, v: Env) {
    v.Valid() && c.state == RENEWING && c.active.Some? && v.now.sec <= c.active.value.expiry
  }

  /** A request was sent from `c`, and the wake-up for the next one at v' did not come before its timer ran out. */
  predicate Resent(c: Client, v: Env, c': Client, v': Env) {
    && Renewing(c, v) && c' == SendRequest(c.Disarm(v, ToRequest), v)
    && v'.Valid() && v'.me == v.me && v'.config == v.config
    && RequestTimer(v.me) in c'.timers && v'.now.Micros() >= c'.timers[RequestTimer(v.me)]
  }

  /** An unanswered renewal: in vs[i] the i-th request is about to be sent from cs[i], and all but the last one are sent
      while the lease has not expired. The clock is read anew at every wake-up, and no timer is early. */
  predicate Unanswered(cs: seq<Client>, vs: seq<Env>) {
    && |cs| == |vs| > 0 && vs[0].Valid() && cs[0].state == RENEWING && cs[0].active.Some?
    && forall i :: 0 <= i < |cs| - 1 ==> Resent(cs[i], vs[i], cs[i + 1], vs[i + 1])
  }

  /** No wake-up comes more than `late` microseconds after its timer ran out. */
  predicate AtMostLate(cs: seq<Client>, vs: seq<Env>, late: nat) {
    && |cs| == |vs|
    && forall i :: 0 < i < |cs| && RequestTimer(vs[i].me) in cs[i].timers ==>
         vs[i].now.Micros() <= cs[i].timers[RequestTimer(vs[i].me)] + late
  }

  /** The next interval of a client that renews. */
  function NextInterval(c: Client, v: Env): (i: nat)
    requires Renewing(c, v)
    ensures v.now.sec + i <= c.active.value.expiry + 1
  {
    var i := Backoff(c.interval, v);
    if v.now.sec + i > c.active.value.expiry then c.active.value.expiry - v.now.sec + 1 else i
  }

  /** Sending a request changes only the interval and the timer. */
  lemma SendRequestRenewing(c: Client, v: Env)
    requires Renewing(c, v)
    ensures var i := NextInterval(c, v);
            SendRequest(c.Disarm(v, ToRequest), v)
            == c.Disarm(v, ToRequest).(interval := i).Arm(v, ToRequest, Later(v, i))
  {
  }

  /** A timer runs out in the second it is set for. Only one too far away for the timer library does so earlier. */
  lemma {:induction false} TimerSecond(v: Env, i: nat, t: Time)
    requires v.Valid() && t.Normal() && t.Micros() == Due(Later(v, i), v.now)
    ensures if i < TIME_MAX then t.sec == v.now.sec + i else v.now.sec < t.sec <= v.now.sec + i
    ensures i == 0 ==> t == v.now
  {
    var when := Later(v, i);
    if SecondsUntil(when, v.now) < TIME_MAX { LateIff(when, v.now); }
  }

  /** When the timer that was set for `v'` ran out. */
  function DueTime(m: int): (t: Time)
    ensures t.Normal() && t.Micros() == m
  {
    Time(m / USEC_MAX, m % USEC_MAX)
  }

  /** A request leaves everything but interval and timer alone; the timer runs out no later than in the second after the
      expiry, and after an interval that is not zero not before the next second. */
  lemma {:induction false} ResentTime(c: Client, v: Env, c': Client, v': Env)
    requires Resent(c, v, c', v')
    ensures c' == c.(interval := NextInterval(c, v), timers := c'.timers)
    ensures v.now.Micros() <= v'.now.Micros() && v.now.sec <= v'.now.sec
    ensures c'.interval > 0 ==> v.now.sec < v'.now.sec
    ensures c'.timers[RequestTimer(v.me)] < (c.active.value.expiry + 2) * USEC_MAX
  {
    SendRequestRenewing(c, v);
    var i := NextInterval(c, v);
    var due := DueTime(Due(Later(v, i), v.now));
    TimerSecond(v, i, due);
    assert c'.timers[RequestTimer(v.me)] == due.Micros();
  }

  // ---- When the lease is given up ----

  /** A wake-up ends the renewal exactly when the lease has expired. */
  lemma GivenUp(c: Client, v: Env)
    requires v.Valid() && c.state == RENEWING && c.active.Some?
    ensures v.now.sec > c.active.value.expiry <==> SendRequest(c, v).state != RENEWING
    ensures v.now.sec > c.active.value.expiry ==> SendRequest(c, v) == StateInit(c.(state := INIT), v)
  {
    assert StateInit(c.(state := INIT), v).state == SELECTING;
  }

  /** All along the run the client renews the same lease, and the clock does not go back. */
  lemma {:induction false} UnansweredKeeps(cs: seq<Client>, vs: seq<Env>)
    requires Unanswered(cs, vs)
    ensures var n := |cs| - 1;
            && vs[n].Valid() && vs[n].config == vs[0].config && vs[n].me == vs[0].me
            && cs[n].state == RENEWING && cs[n].active == cs[0].active
            && vs[0].now.Micros() <= vs[n].now.Micros() && vs[0].now.sec <= vs[n].now.sec
    decreases |cs|
  {
    var n := |cs| - 1;
    if n > 0 {
      UnansweredKeeps(cs[..n], vs[..n]);
      assert Resent(cs[n - 1], vs[n - 1], cs[n], vs[n]);
      ResentTime(cs[n - 1], vs[n - 1], cs[n], vs[n]);
    }
  }

  /** In every configuration the renewal ends with the first wake-up after the expiry, never before, and less than two
      seconds after the expiry and what the wake-up is late. */
  lemma {:induction false} GivenUpInTime(cs: seq<Client>, vs: seq<Env>, late: nat)
    requires Unanswered(cs, vs) && Renewing(cs[0], vs[0]) && AtMostLate(cs, vs, late)
    ensures var n, expiry := |cs| - 1, cs[0].active.value.expiry;
            && vs[n].Valid() && cs[n].state == RENEWING && cs[n].active == cs[0].active
            && (vs[n].now.sec > expiry <==> SendRequest(cs[n].Disarm(vs[n], ToRequest), vs[n]).state != RENEWING)
            && (n > 0 ==> vs[n].now.Micros() < (expiry + 2) * USEC_MAX + late)
  {
    var n := |cs| - 1;
    UnansweredKeeps(cs, vs);
    GivenUp(cs[n].Disarm(vs[n], ToRequest), vs[n]);
    if n > 0 {
      UnansweredKeeps(cs[..n], vs[..n]);
      assert Resent(cs[n - 1], vs[n - 1], cs[n], vs[n]);
      ResentTime(cs[n - 1], vs[n - 1], cs[n], vs[n]);
    }
  }

  /** As long as the lease is not given up, the run goes on, whatever is drawn. */
  lemma {:induction false} GoesOn(c: Client, v: Env, draws: Draws)
    requires Renewing(c, v) && c.active.value.expiry < TIME_MAX && draws.renew <= TIME_MAX && draws.block != v.me
    ensures exists v': Env :: v'.draws == draws && Resent(c, v, SendRequest(c.Disarm(v, ToRequest), v), v')
  {
    SendRequestRenewing(c, v);
    var i := NextInterval(c, v);
    var t := DueTime(Due(Later(v, i), v.now));
    TimerSecond(v, i, t);
    var v' := v.(now := t, draws := draws);
    assert Resent(c, v, SendRequest(c.Disarm(v, ToRequest), v), v');
  }

  // ---- How many requests are sent ----

  /** When the clock moves on between any two wake-ups, every configuration sends only so many requests. */
  lemma {:induction false} TickingClockBounds(cs: seq<Client>, vs: seq<Env>)
    requires Unanswered(cs, vs) && Renewing(cs[0], vs[0])
    requires forall i :: 0 < i < |vs| ==> vs[i - 1].now.Micros() < vs[i].now.Micros()
    ensures |cs| - 1 <= (cs[0].active.value.expiry + 1) * USEC_MAX - vs[0].now.Micros()
  {
    var n := |cs| - 1;
    if n > 0 {
      ClockAdvances(vs[..n]);
      UnansweredKeeps(cs[..n], vs[..n]);
      assert Resent(cs[n - 1], vs[n - 1], cs[n], vs[n]);
    }
  }

  lemma {:induction false} ClockAdvances(vs: seq<Env>)
    requires vs != [] && forall i :: 0 < i < |vs| ==> vs[i - 1].now.Micros() < vs[i].now.Micros()
    ensures vs[|vs| - 1].now.Micros() >= vs[0].now.Micros() + |vs| - 1
  {
    if |vs| > 1 { ClockAdvances(vs[..|vs| - 1]); }
  }

  /** The configuration never makes two intervals of zero follow each other. */
  predicate Paced(config: Config) {
    config.initialInterval >= 1 && (config.backoffCutoff >= 2 || config.initialInterval <= 1)
  }

  /** What is left of the lease, so that every request takes away from it. */
  function Left(c: Client, v: Env): (n: int)
    requires c.active.Some?
  {
    2 * (c.active.value.expiry + 1 - v.now.sec) + if c.interval > 0 then 1 else 0
  }

  lemma {:induction false} IntervalPaced(c: Client, v: Env)
    requires Renewing(c, v) && Paced(v.config) && c.interval == 0
    ensures NextInterval(c, v) > 0
  {
    if v.config.backoffCutoff >= 2 { assert v.config.backoffCutoff / 2 >= 1; }
  }

  lemma {:induction false} LeftShrinks(c: Client, v: Env, c': Client, v': Env)
    requires Resent(c, v, c', v') && Paced(v.config)
    ensures c'.active.Some? && Left(c', v') < Left(c, v)
  {
    ResentTime(c, v, c', v');
    if c.interval == 0 { IntervalPaced(c, v); }
  }

  lemma {:induction false} LeftBounds(cs: seq<Client>, vs: seq<Env>)
    requires Unanswered(cs, vs) && Paced(vs[0].config)
    ensures var n := |cs| - 1; cs[n].active.Some? && n + Left(cs[n], vs[n]) <= Left(cs[0], vs[0])
    decreases |cs|
  {
    var n := |cs| - 1;
    if n > 0 {
      UnansweredKeeps(cs[..n], vs[..n]);
      LeftBounds(cs[..n], vs[..n]);
      assert Resent(cs[n - 1], vs[n - 1], cs[n], vs[n]);
      LeftShrinks(cs[n - 1], vs[n - 1], cs[n], vs[n]);
    }
  }

  /** With a paced configuration a lease that is never renewed takes a bounded number of requests, however late the
      wake-ups are. */
  lemma {:induction false} PacedBounds(cs: seq<Client>, vs: seq<Env>)
    requires Unanswered(cs, vs) && Paced(vs[0].config) && Renewing(cs[0], vs[0])
    ensures |cs| - 1 <= 2 * (cs[0].active.value.expiry + 1 - vs[0].now.sec)
  {
    var n := |cs| - 1;
    if n > 0 {
      LeftBounds(cs[..n], vs[..n]);
      UnansweredKeeps(cs[..n], vs[..n]);
      assert Resent(cs[n - 1], vs[n - 1], cs[n], vs[n]);
    }
  }

  /** With a paced configuration and punctual timers a lease that is never renewed is given up strictly after its expiry
      and before two seconds more have passed, after a bounded number of requests. */
  lemma {:induction false} Relinquished(cs: seq<Client>, vs: seq<Env>)
    requires Unanswered(cs, vs) && Paced(vs[0].config) && Renewing(cs[0], vs[0]) && AtMostLate(cs, vs, 0)
    ensures var n, expiry := |cs| - 1, cs[0].active.value.expiry;
            && vs[n].Valid() && cs[n].state == RENEWING && cs[n].active == cs[0].active
            && n <= 2 * (expiry + 1 - vs[0].now.sec)
            && (vs[n].now.sec <= expiry || vs[n].now.sec == expiry + 1)
            && (vs[n].now.sec > expiry <==> SendRequest(cs[n].Disarm(vs[n], ToRequest), vs[n]).state != RENEWING)
  {
    GivenUpInTime(cs, vs, 0);
    PacedBounds(cs, vs);
  }

  // ---- Requests without end ----

  lemma {:induction false} Stuck(c: Client, v: Env)
    requires Renewing(c, v) && !Paced(v.config) && c.interval in {0, v.config.initialInterval}
    ensures NextInterval(c, v) == 0
  {
    if v.config.backoffCutoff == 1 { assert v.draws.cut % 1 == 0; }
  }

  /** With any other configuration the next request is due in the same instant, and then again. */
  lemma {:induction false} SameInstant(c: Client, v: Env)
    requires Renewing(c, v) && !Paced(v.config) && c.interval in {0, v.config.initialInterval}
    ensures var c' := SendRequest(c.Disarm(v, ToRequest), v);
            Resent(c, v, c', v) && Renewing(c', v) && c'.interval == 0 && c'.active == c.active
  {
    Stuck(c, v);
    SendRequestRenewing(c, v);
    TimerSecond(v, 0, DueTime(Due(Later(v, 0), v.now)));
  }

  /** From this state, n requests can be sent before the lease expires. */
  ghost predicate CanSend(c: Client, v: Env, n: nat) {
    exists cs, vs :: Sends(c, v, n, cs, vs)
  }

  ghost predicate Sends(c: Client, v: Env, n: nat, cs: seq<Client>, vs: seq<Env>) {
    |cs| == n + 1 && Unanswered(cs, vs) && cs[0] == c && vs[0] == v
  }

  lemma {:induction false} StuckSends(c: Client, v: Env, n: nat) returns (cs: seq<Client>, vs: seq<Env>)
    requires Renewing(c, v) && !Paced(v.config) && c.interval in {0, v.config.initialInterval}
    ensures Sends(c, v, n, cs, vs)
    decreases n
  {
    if n == 0 {
      return [c], [v];
    }
    var c' := SendRequest(c.Disarm(v, ToRequest), v);
    SameInstant(c, v);
    cs, vs := StuckSends(c', v, n - 1);
    cs, vs := [c] + cs, [v] + vs;
    assert forall i :: 0 < i < |cs| - 1 ==> Resent(cs[i], vs[i], cs[i + 1], vs[i + 1]);
  }

  /** A client that starts to renew can send any number of requests before the lease expires, exactly if the
      configuration is not paced. */
  lemma {:induction false} UnboundedIff(c: Client, v: Env)
    requires Renewing(c, v) && c.interval == v.config.initialInterval
    ensures (forall n: nat :: CanSend(c, v, n)) <==> !Paced(v.config)
  {
    if Paced(v.config) {
      var n: nat := 2 * (c.active.value.expiry + 1 - v.now.sec) + 1;
      if CanSend(c, v, n) {
        var cs, vs :| Sends(c, v, n, cs, vs);
        PacedBounds(cs, vs);
        assert false;
      }
    } else {
      forall n: nat ensures CanSend(c, v, n) {
        var cs, vs := StuckSends(c, v, n);
      }
    }
  }

  // ---- When the renewal starts ----

  /** A bound client does nothing until its timer runs out, in the second of the renewal time; then it renews, unless
      the lease has expired by then. */
  lemma {:induction false} BoundUntilRenewal(c: Client, l: ClientLease, v: Env, v': Env)
    requires v.Valid() && v'.Valid() && v'.config == v.config && v'.me == v.me && v.draws.bindWorks
    requires v.now.sec <= l.renewal && v'.now.Micros() == Due(Later(v, l.renewal - v.now.sec), v.now)
    requires Quiet(c.timers, v.me)
    ensures var b := BindLease(c, l, v);
            && b.state == BOUND && b.active.Some? && b.active.value.expiry == l.expiry
            && Only(b.timers, v.me, ToBound) && b.timers[Key(Some(ToBound), v.me)] == v'.now.Micros()
            && (if l.renewal - v.now.sec < TIME_MAX then v'.now.sec == l.renewal else v'.now.sec <= l.renewal)
            && StateBound(b, v').state == if v'.now.sec <= l.expiry then RENEWING else SELECTING
  {
    TimerSecond(v, l.renewal - v.now.sec, v'.now);
    var b := BindLease(c, l, v);
    GivenUp(b.Begin(RENEWING, None, v'), v');
    assert Only(b.timers, v.me, ToBound);
  }

  /** The times of an acknowledged lease are in order when the server sent no usable rebinding time, or one within the
      lease time. */
  lemma {:induction false} AcknowledgedInOrder(e: Event, v: Env)
    requires v.Valid() && e.Ack? && e.leaseTime != 0
    requires !LeaseTimes.Usable(e.t2) || e.t2 as int <= LeaseTimes.Duration(e.leaseTime)
    ensures var l := WithTerms(e.lease, e.leaseTime, e.t1, e.t2, v); v.now.sec <= l.renewal <= l.rebind <= l.expiry
  {
    LeaseTimes.TermsOrdered(e.leaseTime, e.t1, e.t2, v.draws.renew, v.now.sec);
  }

  /** With other times the client may stay bound to an expired lease: it gives the lease up at the renewal time, and not
      before, if that is past the expiry. */
  lemma {:induction false} BoundPastExpiry(c: Client, l: ClientLease, v: Env, v': Env)
    requires v.Valid() && v'.Valid() && v'.config == v.config && v'.me == v.me && v.draws.bindWorks
    requires v.now.sec <= l.expiry < l.renewal < v.now.sec + TIME_MAX && Quiet(c.timers, v.me)
    requires v'.now.Micros() == Due(Later(v, l.renewal - v.now.sec), v.now)
    ensures var b := BindLease(c, l, v);
            && b.state == BOUND && Only(b.timers, v.me, ToBound)
            && b.timers[Key(Some(ToBound), v.me)] >= l.renewal * USEC_MAX > l.expiry * USEC_MAX
            && StateBound(b, v').state == SELECTING
  {
    BoundUntilRenewal(c, l, v, v');
  }
}
