/** client/dhc6.c, dhc6_check_times: what the timers of a lease mean, in terms of what the server sent. */
module Refresh6 {
  import opened Wrappers
  import opened Dhc6
  import opened Expire6

  // ---- Addresses ----

  /** When an address ends, for scheduling. */
  function EndOf(a: Addr): (t: int) {
    if a.maxLife == 0xFFFF_FFFF then 0x7FFF_FFFF else a.starts + a.maxLife
  }

  /** The scan of an IA finds a range that all its unexpired addresses end in, */
  lemma {:induction false} TimesBound(depref: int, has: bool, addrs: seq<Addr>, starts: int, a: Addr)
    requires a in addrs && !a.expired
    ensures var s := TimesFrom(depref, has, addrs, starts); s.lo <= EndOf(a) - starts <= s.hi
  {
    var n := |addrs| - 1;
    assert addrs == addrs[..n] + [addrs[n]];
    if a in addrs[..n] { TimesBound(depref, has, addrs[..n], starts, a); }
  }

  /** and its ends are those of addresses, or it has none. */
  lemma {:induction false} EarliestReached(depref: int, has: bool, addrs: seq<Addr>, starts: int) returns (a: Addr)
    requires TimesFrom(depref, has, addrs, starts).lo < MAX_TIME
    ensures a in addrs && !a.expired && TimesFrom(depref, has, addrs, starts).lo == EndOf(a) - starts
  {
    var n := |addrs| - 1;
    if TimesFrom(depref, has, addrs, starts).lo == TimesFrom(depref, has, addrs[..n], starts).lo {
      a := EarliestReached(depref, has, addrs[..n], starts);
    } else {
      a := addrs[n];
    }
  }

  lemma {:induction false} LatestReached(depref: int, has: bool, addrs: seq<Addr>, starts: int) returns (a: Addr)
    requires TimesFrom(depref, has, addrs, starts).hi > 0
    ensures a in addrs && !a.expired && TimesFrom(depref, has, addrs, starts).hi == EndOf(a) - starts
  {
    var n := |addrs| - 1;
    if TimesFrom(depref, has, addrs, starts).hi == TimesFrom(depref, has, addrs[..n], starts).hi {
      a := LatestReached(depref, has, addrs[..n], starts);
    } else {
      a := addrs[n];
    }
  }

  // ---- The expiry and preference timers ----

  /** The expiry timer is set, and not later than the end of any unexpired address that ends before MAX_TIME, */
  lemma {:induction false} ExpiryTimerLeast(l: Lease, ia: IA, a: Addr)
    requires ia in l.bindings && a in ia.addrs && !a.expired && EndOf(a) < MAX_TIME
    ensures var w := Scheduled(l); w.lease == Some(l) && w.expireAt.Some? && w.expireAt.value <= EndOf(a)
  {
    NextLeast(l.bindings, Expiry, ia, a);
  }

  /** and it is set for the end of one. */
  lemma {:induction false} ExpiryTimerReached(l: Lease) returns (ia: IA, a: Addr)
    requires Scheduled(l).expireAt.Some?
    ensures ia in l.bindings && a in ia.addrs && !a.expired && a.maxLife != 0xFFFF_FFFF
    ensures Scheduled(l).expireAt.value == a.starts + a.maxLife
  {
    ia, a := NextReached(l.bindings, Expiry);
  }

  /** The same for the ends of preferred lifetimes. */
  lemma {:induction false} DeprefTimerLeast(l: Lease, ia: IA, a: Addr, ia': IA, a': Addr)
    requires ia in l.bindings && a in ia.addrs && !a.depreffed
    requires a.preferred != 0xFFFF_FFFF && a.starts + a.preferred < MAX_TIME
    requires ia' in l.bindings && a' in ia'.addrs && !a'.expired
    ensures var w := Scheduled(l); w.deprefAt.Some? && w.deprefAt.value <= a.starts + a.preferred
  {
    NextLeast(l.bindings, Depref, ia, a);
    NextLeast(l.bindings, Expiry, ia', a');
  }

  lemma {:induction false} DeprefTimerReached(l: Lease) returns (ia: IA, a: Addr)
    requires Scheduled(l).deprefAt.Some?
    ensures ia in l.bindings && a in ia.addrs && !a.depreffed && a.preferred != 0xFFFF_FFFF
    ensures Scheduled(l).deprefAt.value == a.starts + a.preferred
  {
    ia, a := NextReached(l.bindings, Depref);
  }

  /** A lease is kept exactly if it has an unexpired address. */
  lemma {:induction false} KeptIff(l: Lease)
    ensures Scheduled(l).lease.Some? <==> exists ia, a :: ia in l.bindings && a in ia.addrs && !a.expired
  {
    if Total(l.bindings, Expiry) > 0 { var ia, a := SomeCounted(l.bindings, Expiry); }
    if ia, a :| ia in l.bindings && a in ia.addrs && !a.expired { NextLeast(l.bindings, Expiry, ia, a); }
  }

  lemma {:induction false} SomeCounted(bs: seq<IA>, time: Addr -> Option<int>) returns (ia: IA, a: Addr)
    requires Total(bs, time) > 0
    ensures ia in bs && a in ia.addrs && time(a).Some?
  {
    var n := |bs| - 1;
    if Total(bs[..n], time) > 0 {
      ia, a := SomeCounted(bs[..n], time);
    } else {
      ia := bs[n];
      a := SomeOf(ia.addrs, time);
    }
  }

  lemma {:induction false} SomeOf(addrs: seq<Addr>, time: Addr -> Option<int>) returns (a: Addr)
    requires Count(addrs, time) > 0
    ensures a in addrs && time(a).Some?
  {
    var n := |addrs| - 1;
    if Count(addrs[..n], time) > 0 { a := SomeOf(addrs[..n], time); } else { a := addrs[n]; }
  }

  /** After an expiry event a lease is left exactly if an address was still live. */
  lemma {:induction false} ExpireKeepsIff(l: Lease, w: Watch, now: int)
    requires w.lease == Some(l)
    ensures Expire(w, now).lease.Some? <==>
            exists ia, a :: ia in l.bindings && a in ia.addrs && !a.expired && now < a.starts + a.maxLife
    ensures Expire(w, now).lease.None? ==> Expire(w, now) == Watch(None, None, w.deprefAt)
  {
    var bs := Swept(l.bindings, now);
    if bs != [] {
      var ia := SweptFrom(l.bindings, now, bs[0]);
      var i :| 0 <= i < |ia.addrs| && Live(ia.addrs[i], now);
      assert ia in l.bindings && ia.addrs[i] in ia.addrs;
      var kept := l.(bindings := bs);
      KeptIff(kept);
      assert bs[0] in kept.bindings && bs[0].addrs[i] in bs[0].addrs && !bs[0].addrs[i].expired;
    }
    if ia, a :| ia in l.bindings && a in ia.addrs && !a.expired && now < a.starts + a.maxLife {
      var i :| 0 <= i < |ia.addrs| && ia.addrs[i] == a;
      assert Live(ia.addrs[i], now);
      SweptKeeps(l.bindings, now, ia);
    }
  }

  // ---- The renewal and rebinding periods ----

  /** Each period is that of some IA, and so is the start that they count from. */
  lemma {:induction false} RenewReached(bs: seq<IA>, wanted: nat) returns (ia: IA)
    requires Scanned(bs, wanted).renew < MAX_TIME
    ensures ia in bs && ia.iaType != TA && RenewOf(ia, wanted) == Scanned(bs, wanted).renew
  {
    var n := |bs| - 1;
    if Scanned(bs, wanted).renew == Scanned(bs[..n], wanted).renew {
      ia := RenewReached(bs[..n], wanted);
    } else {
      ia := bs[n];
    }
  }

  lemma {:induction false} RebindReached(bs: seq<IA>, wanted: nat) returns (ia: IA)
    requires Scanned(bs, wanted).rebind < MAX_TIME
    ensures ia in bs && ia.iaType != TA && RebindOf(ia, wanted) == Scanned(bs, wanted).rebind
  {
    var n := |bs| - 1;
    if Scanned(bs, wanted).rebind == Scanned(bs[..n], wanted).rebind {
      ia := RebindReached(bs[..n], wanted);
    } else {
      ia := bs[n];
    }
  }

  lemma {:induction false} StartReached(bs: seq<IA>, wanted: nat) returns (ia: IA)
    requires Scanned(bs, wanted).latest > 0
    ensures ia in bs && ia.iaType != TA && ia.starts == Scanned(bs, wanted).latest
  {
    var n := |bs| - 1;
    if Scanned(bs, wanted).latest == Scanned(bs[..n], wanted).latest {
      ia := StartReached(bs[..n], wanted);
    } else {
      ia := bs[n];
    }
  }

  lemma {:induction false} StartNotNegative(bs: seq<IA>, wanted: nat)
    ensures Scanned(bs, wanted).latest >= 0
  {
    if bs != [] { StartNotNegative(bs[..|bs| - 1], wanted); }
  }

  /** The server sent both times with all IAs that are renewed. */
  predicate FromServer(bs: seq<IA>) {
    forall ia :: ia in bs && ia.iaType != TA ==> ia.renew !in {0, 0xFFFF_FFFF} && ia.rebind !in {0, 0xFFFF_FFFF}
  }

  /** The least T1, the least T2 and the latest start among them. */
  predicate LeastT1(bs: seq<IA>, t: nat) {
    && (exists ia :: ia in bs && ia.iaType != TA && ia.renew == t)
    && forall ia :: ia in bs && ia.iaType != TA ==> t <= ia.renew
  }

  predicate LeastT2(bs: seq<IA>, t: nat) {
    && (exists ia :: ia in bs && ia.iaType != TA && ia.rebind == t)
    && forall ia :: ia in bs && ia.iaType != TA ==> t <= ia.rebind
  }

  predicate LatestStart(bs: seq<IA>, t: nat) {
    && (exists ia :: ia in bs && ia.iaType != TA && ia.starts == t)
    && forall ia :: ia in bs && ia.iaType != TA ==> ia.starts <= t
  }

  /** A period after the latest start; one out of the range of TIME never ends. */
  function After(start: int, period: int): (t: int) {
    if period < 0x7FFF_FFFF then start + period else 0x7FFF_FFFF
  }

  lemma {:induction false} RenewFromServer(bs: seq<IA>, wanted: nat, t: nat)
    requires FromServer(bs) && LeastT1(bs, t)
    ensures Scanned(bs, wanted).renew == if t < MAX_TIME then t else MAX_TIME
  {
    var x :| x in bs && x.iaType != TA && x.renew == t;
    ScannedLeast(bs, wanted, x);
    if Scanned(bs, wanted).renew < MAX_TIME { var ia := RenewReached(bs, wanted); }
  }

  lemma {:induction false} RebindFromServer(bs: seq<IA>, wanted: nat, t: nat)
    requires FromServer(bs) && LeastT2(bs, t)
    ensures Scanned(bs, wanted).rebind == if t < MAX_TIME then t else MAX_TIME
  {
    var x :| x in bs && x.iaType != TA && x.rebind == t;
    ScannedLeast(bs, wanted, x);
    if Scanned(bs, wanted).rebind < MAX_TIME { var ia := RebindReached(bs, wanted); }
  }

  lemma {:induction false} StartIsLatest(bs: seq<IA>, wanted: nat, t: nat)
    requires LatestStart(bs, t)
    ensures Scanned(bs, wanted).latest == t
  {
    var x :| x in bs && x.iaType != TA && x.starts == t;
    ScannedLeast(bs, wanted, x);
    StartNotNegative(bs, wanted);
    if Scanned(bs, wanted).latest > 0 { var ia := StartReached(bs, wanted); }
  }

  /** A bound client renews at the latest start plus the least T1 that the server sent, up to the latest start plus the
      least T2; if the renewal does not lie before that time, or that time has passed, it rebinds then. */
  lemma {:induction false} RenewsByServer(bs: seq<IA>, wanted: nat, now: int, t1: nat, t2: nat, start: nat)
    requires FromServer(bs) && LeastT1(bs, t1) && LeastT2(bs, t2) && LatestStart(bs, start)
    ensures var p := PlanFor(Scanned(bs, wanted), BOUND, now);
            var renew, rebind := After(start, t1), After(start, t2);
            if now < rebind && renew < rebind
            then p.renewAt == Some(renew) && p.rebindAt == None && p.nextMrd == Some(rebind)
            else p.renewAt == None && p.rebindAt == (if rebind == 0x7FFF_FFFF then None else Some(rebind))
  {
    RenewFromServer(bs, wanted, t1);
    RebindFromServer(bs, wanted, t2);
    StartIsLatest(bs, wanted, start);
  }

  /** A renewing client rebinds at the latest start plus the least T2, and asks until then. */
  lemma {:induction false} RebindsByServer(bs: seq<IA>, wanted: nat, now: int, t2: nat, start: nat)
    requires FromServer(bs) && LeastT2(bs, t2) && LatestStart(bs, start)
    ensures var p, rebind := PlanFor(Scanned(bs, wanted), RENEWING, now), After(start, t2);
            p.rebindAt == (if rebind == 0x7FFF_FFFF then None else Some(rebind)) && p.mrd == Some(rebind - now)
  {
    RebindFromServer(bs, wanted, t2);
    StartIsLatest(bs, wanted, start);
  }

  /** Where the server left a time open, an IA is renewed after half, and rebound after three quarters, of the lifetime
      that counts: until its earliest address ends, or its latest if that lasts at least twice as long; or, if that is
      infinite or next to nothing, of the time that the user wants. */
  lemma {:induction false} DefaultPeriods(ia: IA, wanted: nat)
    ensures var s := TimesOf(ia.addrs, ia.starts);
            var life := if 2 * s.lo <= s.hi then s.hi else s.lo;
            var base := if 1 < life < 0x7FFF_FFFF || life > 0x7FFF_FFFF then life else wanted;
            && (ia.renew == 0 ==> base - 2 < 2 * RenewOf(ia, wanted) <= base)
            && (ia.rebind == 0 ==> 3 * base - 6 < 4 * RebindOf(ia, wanted) <= 3 * base)
  {
  }

  // ---- The last end ----

  /** Rebinding, under way or to come, ends with the last address: not before any address ends, */
  lemma {:induction false} RebindingLasts(bs: seq<IA>, wanted: nat, now: int, ia: IA, a: Addr)
    requires ia in bs && a in ia.addrs && !a.expired
    ensures var p, q := PlanFor(Scanned(bs, wanted), REBINDING, now), PlanFor(Scanned(bs, wanted), RENEWING, now);
            && p.mrd.Some? && now + p.mrd.value >= EndOf(a)
            && (q.rebindAt.Some? ==> q.nextMrd == Some(now + p.mrd.value))
  {
    HiBounds(bs, wanted, ia, a);
  }

  lemma {:induction false} HiBounds(bs: seq<IA>, wanted: nat, ia: IA, a: Addr)
    requires ia in bs && a in ia.addrs && !a.expired
    ensures Scanned(bs, wanted).hi >= EndOf(a)
  {
    var n := |bs| - 1;
    assert bs == bs[..n] + [bs[n]];
    var s := Scanned(bs[..n], wanted);
    if ia in bs[..n] {
      HiBounds(bs[..n], wanted, ia, a);
    } else {
      TimesBound(s.depref, s.hasPreferred, ia.addrs, ia.starts, a);
    }
  }

  /** and in time with one, or with the start of an IA. */
  lemma {:induction false} RebindingEnds(bs: seq<IA>, wanted: nat, now: int) returns (ia: IA, end: Option<Addr>)
    requires Scanned(bs, wanted).hi > 0
    ensures ia in bs && (end.Some? ==> end.value in ia.addrs && !end.value.expired)
    ensures var p := PlanFor(Scanned(bs, wanted), REBINDING, now);
            p.mrd == Some((if end.Some? then EndOf(end.value) else ia.starts) - now)
  {
    var n := |bs| - 1;
    var s := Scanned(bs[..n], wanted);
    if Scanned(bs, wanted).hi == s.hi {
      ia, end := RebindingEnds(bs[..n], wanted, now);
    } else {
      ia := bs[n];
      end := None;
      var x := TimesFrom(s.depref, s.hasPreferred, ia.addrs, ia.starts);
      SameExpiries(s.depref, s.hasPreferred, ia.addrs, ia.starts);
      if x.hi > 0 {
        var a := LatestReached(s.depref, s.hasPreferred, ia.addrs, ia.starts);
        end := Some(a);
      }
    }
  }

  // ---- The fatal state ----

  lemma {:induction false} PreferredOf(depref: int, has: bool, addrs: seq<Addr>, starts: int)
    ensures TimesFrom(depref, has, addrs, starts).hasPreferred <==>
            has || exists a :: a in addrs && !a.expired && !a.depreffed
  {
    if addrs != [] {
      var n := |addrs| - 1;
      PreferredOf(depref, has, addrs[..n], starts);
      assert addrs == addrs[..n] + [addrs[n]];
    }
  }

  /** Outside the states of a bound client the program ends exactly if an address is still preferred. */
  lemma {:induction false} FatalIff(bs: seq<IA>, wanted: nat, now: int)
    ensures PlanFor(Scanned(bs, wanted), OTHER, now).fatal <==>
            exists ia, a :: ia in bs && a in ia.addrs && !a.expired && !a.depreffed
  {
    if bs != [] {
      var n := |bs| - 1;
      var s := Scanned(bs[..n], wanted);
      FatalIff(bs[..n], wanted, now);
      PreferredOf(s.depref, s.hasPreferred, bs[n].addrs, bs[n].starts);
      assert bs == bs[..n] + [bs[n]];
    }
  }
}
