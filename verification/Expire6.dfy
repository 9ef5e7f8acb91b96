/** client/dhc6.c: the addresses of the active lease run out, one event after the other. TIME has 64 bits here. */
module Expire6 {
  import opened Wrappers
  import opened Dhc6
  import Timers

  const MAX_TIME := 0x7FFF_FFFF
  const INFINITE := 0xFFFF_FFFF

  // ---- What an expiry event does to the addresses ----

  predicate Live(a: Addr, now: int) {
    !a.expired && a.starts + a.maxLife > now
  }

  function Marked(a: Addr, now: int): (r: Addr)
    ensures r.expired == !Live(a, now) && r.(expired := a.expired) == a
  {
    if a.starts + a.maxLife <= now then a.(expired := true) else a
  }

  function MarkedAll(addrs: seq<Addr>, now: int): (r: seq<Addr>)
    ensures |r| == |addrs| && forall i :: 0 <= i < |r| ==> r[i] == Marked(addrs[i], now)
  {
    seq(|addrs|, i requires 0 <= i < |addrs| => Marked(addrs[i], now))
  }

  predicate HasLive(ia: IA, now: int) {
    exists i :: 0 <= i < |ia.addrs| && Live(ia.addrs[i], now)
  }

  function MarkedIA(ia: IA, now: int): (r: IA) {
    ia.(addrs := MarkedAll(ia.addrs, now))
  }

  /** The IAs with a live address, in order, their other addresses marked as expired. */
  function Swept(bs: seq<IA>, now: int): (r: seq<IA>)
  {
    if bs == [] then []
    else
      var n := |bs| - 1;
      Swept(bs[..n], now) + if HasLive(bs[n], now) then [MarkedIA(bs[n], now)] else []
  }

  /** No IA with a live address is lost. */
  lemma {:induction false} SweptKeeps(bs: seq<IA>, now: int, ia: IA)
    requires ia in bs && HasLive(ia, now)
    ensures MarkedIA(ia, now) in Swept(bs, now)
  {
    var n := |bs| - 1;
    assert bs == bs[..n] + [bs[n]];
    if ia in bs[..n] { SweptKeeps(bs[..n], now, ia); }
  }

  /** Every IA that is left has a live address, and had its addresses before. */
  lemma {:induction false} SweptFrom(bs: seq<IA>, now: int, x: IA) returns (ia: IA)
    requires x in Swept(bs, now)
    ensures ia in bs && HasLive(ia, now) && x == MarkedIA(ia, now)
  {
    var n := |bs| - 1;
    if x in Swept(bs[..n], now) { ia := SweptFrom(bs[..n], now, x); } else { ia := bs[n]; }
  }

  method MarkAddrs(addrs: seq<Addr>, now: int) returns (addrs': seq<Addr>, hasAddrs: bool)
    ensures addrs' == MarkedAll(addrs, now)
    ensures hasAddrs == exists i :: 0 <= i < |addrs| && Live(addrs[i], now)
  {
    addrs', hasAddrs := addrs, false;
    for i := 0 to |addrs|
      invariant |addrs'| == |addrs|
      invariant forall j :: 0 <= j < |addrs| ==> addrs'[j] == if j < i then Marked(addrs[j], now) else addrs[j]
      invariant hasAddrs == exists j :: 0 <= j < i && Live(addrs[j], now)
    {
      if addrs'[i].expired { continue; }
      if addrs'[i].starts + addrs'[i].maxLife <= now {
        addrs' := addrs'[i := addrs'[i].(expired := true)];
        continue;
      }
      hasAddrs := true;
    }
  }

  method Sweep(bs: seq<IA>, now: int) returns (bs': seq<IA>, hasAddrs: bool)
    ensures bs' == Swept(bs, now) && hasAddrs == (bs' != [])
  {
    bs', hasAddrs := bs, false;
    var t := 0;
    ghost var i := 0;
    while t < |bs'|
      invariant t <= |bs'| && i <= |bs| && bs'[t..] == bs[i..]
      invariant bs'[..t] == Swept(bs[..i], now) && hasAddrs == (t > 0)
      decreases |bs| - i
    {
      var ia := bs'[t];
      assert ia == bs'[t..][0] == bs[i];
      assert bs[..i + 1][..i] == bs[..i];
      var addrs, live := MarkAddrs(ia.addrs, now);
      assert live == HasLive(ia, now);
      if live {
        hasAddrs := true;
        bs' := bs'[t := ia.(addrs := addrs)];
        t := t + 1;
      } else {
        bs' := bs'[..t] + bs'[t + 1..];
      }
      i := i + 1;
    }
    assert bs[..i] == bs && bs'[..t] == bs';
  }

  // ---- When the next event is due ----

  /** When an address that has not expired does, for scheduling; infinite lifetimes never end. */
  function Expiry(a: Addr): (t: Option<int>) {
    if a.expired then None else Some(if a.maxLife == INFINITE then MAX_TIME else a.starts + a.maxLife)
  }

  /** When an address that is still preferred stops being so. */
  function Depref(a: Addr): (t: Option<int>) {
    if a.depreffed then None else Some(if a.preferred == INFINITE then MAX_TIME else a.starts + a.preferred)
  }

  function Min(a: int, b: int): (r: int) {
    if b < a then b else a
  }

  /** The earliest of the times of some addresses, at most MAX_TIME. */
  function First(addrs: seq<Addr>, time: Addr -> Option<int>): (t: int)
    ensures t <= MAX_TIME
  {
    if addrs == [] then MAX_TIME
    else
      var n := |addrs| - 1;
      var t := First(addrs[..n], time);
      if time(addrs[n]).None? then t else Min(t, time(addrs[n]).value)
  }

  function Next(bs: seq<IA>, time: Addr -> Option<int>): (t: int)
    ensures t <= MAX_TIME
  {
    if bs == [] then MAX_TIME
    else Min(Next(bs[..|bs| - 1], time), First(bs[|bs| - 1].addrs, time))
  }

  /** How many addresses have a time to come. */
  function Count(addrs: seq<Addr>, time: Addr -> Option<int>): (n: nat) {
    if addrs == [] then 0
    else Count(addrs[..|addrs| - 1], time) + if time(addrs[|addrs| - 1]).Some? then 1 else 0
  }

  function Total(bs: seq<IA>, time: Addr -> Option<int>): (n: nat) {
    if bs == [] then 0 else Total(bs[..|bs| - 1], time) + Count(bs[|bs| - 1].addrs, time)
  }

  /** The earliest time is not later than any, */
  lemma {:induction false} FirstLeast(addrs: seq<Addr>, time: Addr -> Option<int>, a: Addr)
    requires a in addrs && time(a).Some?
    ensures First(addrs, time) <= time(a).value && Count(addrs, time) > 0
  {
    var n := |addrs| - 1;
    assert addrs == addrs[..n] + [addrs[n]];
    if a in addrs[..n] { FirstLeast(addrs[..n], time, a); }
  }

  lemma {:induction false} NextLeast(bs: seq<IA>, time: Addr -> Option<int>, ia: IA, a: Addr)
    requires ia in bs && a in ia.addrs && time(a).Some?
    ensures Next(bs, time) <= time(a).value && Total(bs, time) > 0
  {
    var n := |bs| - 1;
    assert bs == bs[..n] + [bs[n]];
    if ia in bs[..n] { NextLeast(bs[..n], time, ia, a); } else { FirstLeast(ia.addrs, time, a); }
  }

  /** and it is one of them. */
  lemma {:induction false} FirstReached(addrs: seq<Addr>, time: Addr -> Option<int>) returns (a: Addr)
    requires First(addrs, time) < MAX_TIME
    ensures a in addrs && time(a) == Some(First(addrs, time))
  {
    var n := |addrs| - 1;
    if First(addrs, time) == First(addrs[..n], time) { a := FirstReached(addrs[..n], time); } else { a := addrs[n]; }
  }

  lemma {:induction false} NextReached(bs: seq<IA>, time: Addr -> Option<int>) returns (ia: IA, a: Addr)
    requires Next(bs, time) < MAX_TIME
    ensures ia in bs && a in ia.addrs && time(a) == Some(Next(bs, time))
  {
    var n := |bs| - 1;
    if Next(bs, time) == Next(bs[..n], time) {
      ia, a := NextReached(bs[..n], time);
    } else {
      ia := bs[n];
      a := FirstReached(ia.addrs, time);
    }
  }

  /** Times are counted from the start of 1970. */
  predicate Timely(bs: seq<IA>) {
    forall i :: 0 <= i < |bs| ==> bs[i].starts >= 0
  }

  function Max(a: int, b: int): (r: int) {
    if b > a then b else a
  }

  /** What a scan of the addresses of an IA finds: the earliest and the latest expiry, relative to the start of the IA,
      the earliest end of a preferred lifetime, and whether some address has not expired and some is still preferred. */
  datatype IaTimes = IaTimes(lo: int, hi: int, depref: int, has: bool, hasPreferred: bool)

  function Counting(s: IaTimes, a: Addr, starts: int): (s': IaTimes) {
    var e, d := Expiry(a), Depref(a);
    IaTimes(if e.Some? then Min(s.lo, e.value - starts) else s.lo,
            if e.Some? then Max(s.hi, e.value - starts) else s.hi,
            if d.Some? then Min(s.depref, d.value) else s.depref,
            s.has || e.Some?, s.hasPreferred || (e.Some? && d.Some?))
  }

  /** The scan of an IA, given what the IAs before it had of preferred lifetimes. */
  function TimesFrom(depref: int, hasPreferred: bool, addrs: seq<Addr>, starts: int): (s: IaTimes) {
    if addrs == [] then IaTimes(MAX_TIME, 0, depref, false, hasPreferred)
    else Counting(TimesFrom(depref, hasPreferred, addrs[..|addrs| - 1], starts), addrs[|addrs| - 1], starts)
  }

  function TimesOf(addrs: seq<Addr>, starts: int): (s: IaTimes) {
    TimesFrom(MAX_TIME, false, addrs, starts)
  }

  /** Made absolute, the earliest expiry is the one of the addresses. */
  lemma {:induction false} TimesMean(depref: int, hasPreferred: bool, addrs: seq<Addr>, starts: int)
    requires starts >= 0 && depref <= MAX_TIME
    ensures var s := TimesFrom(depref, hasPreferred, addrs, starts);
            && Min(MAX_TIME, s.lo + starts) == First(addrs, Expiry) && s.depref == Min(depref, First(addrs, Depref))
            && s.has == (Count(addrs, Expiry) > 0)
  {
    if addrs != [] { TimesMean(depref, hasPreferred, addrs[..|addrs| - 1], starts); }
  }

  /** The expiry times of an IA do not depend on what came before. */
  lemma {:induction false} SameExpiries(depref: int, hasPreferred: bool, addrs: seq<Addr>, starts: int)
    ensures var s, r := TimesFrom(depref, hasPreferred, addrs, starts), TimesOf(addrs, starts);
            s.lo == r.lo && s.hi == r.hi && s.hi >= 0
  {
    if addrs != [] { SameExpiries(depref, hasPreferred, addrs[..|addrs| - 1], starts); }
  }

  /** Looks at one address. */
  method ScanAddr(addr: Addr, starts: int, s: IaTimes) returns (s': IaTimes)
    ensures s' == Counting(s, addr, starts)
  {
    s' := s;
    if !addr.depreffed {
      var tmp := if addr.preferred == INFINITE then MAX_TIME else addr.starts + addr.preferred;
      if tmp < s'.depref { s' := s'.(depref := tmp); }
      if !addr.expired { s' := s'.(hasPreferred := true); }
    }
    if !addr.expired {
      var tmp := if addr.maxLife == INFINITE then MAX_TIME else addr.starts + addr.maxLife;
      tmp := tmp - starts;
      if tmp > s'.hi { s' := s'.(hi := tmp); }
      if tmp < s'.lo { s' := s'.(lo := tmp); }
      s' := s'.(has := true);
    }
  }

  /** Goes through the addresses of an IA. Expiry times are relative to its start, which makes no difference to the
      earliest one. */
  method ScanAddrs(ia: IA, depref: int, hasPreferred: bool) returns (s: IaTimes)
    requires depref <= MAX_TIME
    ensures s == TimesFrom(depref, hasPreferred, ia.addrs, ia.starts)
    ensures ia.starts >= 0 ==> Min(MAX_TIME, s.lo + ia.starts) == First(ia.addrs, Expiry)
  {
    s := IaTimes(MAX_TIME, 0, depref, false, hasPreferred);
    for i := 0 to |ia.addrs|
      invariant s == TimesFrom(depref, hasPreferred, ia.addrs[..i], ia.starts)
    {
      assert ia.addrs[..i + 1][..i] == ia.addrs[..i];
      s := ScanAddr(ia.addrs[i], ia.starts, s);
    }
    assert ia.addrs[..|ia.addrs|] == ia.addrs;
    if ia.starts >= 0 { TimesMean(depref, hasPreferred, ia.addrs, ia.starts); }
  }

  // ---- When the lease is to be renewed ----

  /** Half of the lifetime that counts: the latest expiry if it is more than twice the earliest one, else the earliest;
      half of the time the user wants if that lifetime is infinite or next to nothing. */
  function HalfLife(lo: int, hi: int, wanted: nat): (t: int)
    ensures t >= 0
  {
    var use := if lo <= hi / 2 then hi else lo;
    if use == MAX_TIME || use <= 1 then wanted / 2 else use / 2
  }

  function HalfLifeOf(ia: IA, wanted: nat): (t: int)
    ensures t >= 0
  {
    var s := TimesOf(ia.addrs, ia.starts);
    HalfLife(s.lo, s.hi, wanted)
  }

  /** The renewal and the rebinding time of an IA: as the server gave them, or a half and three quarters of the
      lifetime. */
  function RenewOf(ia: IA, wanted: nat): (t: int)
    ensures t >= 0
  {
    if ia.renew == 0 then HalfLifeOf(ia, wanted)
    else if ia.renew == INFINITE then MAX_TIME else ia.renew
  }

  function RebindOf(ia: IA, wanted: nat): (t: int)
    ensures t >= 0
  {
    if ia.rebind == 0 then HalfLifeOf(ia, wanted) + HalfLifeOf(ia, wanted) / 2
    else if ia.rebind == INFINITE then MAX_TIME else ia.rebind
  }

  /** What a scan of all IAs finds. Temporary addresses are not renewed. */
  datatype LeaseTimes6 = LeaseTimes6(lo: int, hi: int, depref: int, renew: int, rebind: int, latest: int, has: bool,
                                     hasPreferred: bool)

  function Scanned(bs: seq<IA>, wanted: nat): (s: LeaseTimes6)
    ensures s.renew <= MAX_TIME && s.rebind <= MAX_TIME
  {
    if bs == [] then LeaseTimes6(MAX_TIME, 0, MAX_TIME, MAX_TIME, MAX_TIME, 0, false, false)
    else
      CountingIA(Scanned(bs[..|bs| - 1], wanted), bs[|bs| - 1], wanted)
  }

  function CountingIA(s: LeaseTimes6, ia: IA, wanted: nat): (s': LeaseTimes6)
    ensures s'.renew <= s.renew && s'.rebind <= s.rebind
  {
    var x := TimesFrom(s.depref, s.hasPreferred, ia.addrs, ia.starts);
    var y := LeaseTimes6(Min(s.lo, x.lo + ia.starts), Max(s.hi, x.hi + ia.starts), x.depref, s.renew, s.rebind,
                         s.latest, s.has || x.has, x.hasPreferred);
    if ia.iaType == TA then y else Refreshed(y, ia, wanted)
  }

  /** An IA that is renewed counts for the periods. */
  function Refreshed(s: LeaseTimes6, ia: IA, wanted: nat): (s': LeaseTimes6) {
    s.(latest := Max(s.latest, ia.starts), renew := Min(s.renew, RenewOf(ia, wanted)),
       rebind := Min(s.rebind, RebindOf(ia, wanted)))
  }

  lemma {:induction false} ScannedMeans(bs: seq<IA>, wanted: nat)
    requires Timely(bs)
    ensures var s := Scanned(bs, wanted);
            s.lo == Next(bs, Expiry) && s.depref == Next(bs, Depref) && s.has == (Total(bs, Expiry) > 0)
  {
    if bs != [] {
      ScannedMeans(bs[..|bs| - 1], wanted);
      CountingMeans(Scanned(bs[..|bs| - 1], wanted), bs[|bs| - 1], wanted);
    }
  }

  lemma {:induction false} CountingMeans(s: LeaseTimes6, ia: IA, wanted: nat)
    requires ia.starts >= 0 && s.lo <= MAX_TIME && s.depref <= MAX_TIME
    ensures var s' := CountingIA(s, ia, wanted);
            && s'.lo == Min(s.lo, First(ia.addrs, Expiry)) && s'.depref == Min(s.depref, First(ia.addrs, Depref))
            && s'.has == (s.has || Count(ia.addrs, Expiry) > 0)
  {
    TimesMean(s.depref, s.hasPreferred, ia.addrs, ia.starts);
  }

  /** The renewal and rebinding periods are the least ones of the IAs that are renewed. */
  lemma {:induction false} ScannedLeast(bs: seq<IA>, wanted: nat, ia: IA)
    requires ia in bs && ia.iaType != TA
    ensures var s := Scanned(bs, wanted);
            s.renew <= RenewOf(ia, wanted) && s.rebind <= RebindOf(ia, wanted) && s.latest >= ia.starts
  {
    var n := |bs| - 1;
    assert bs == bs[..n] + [bs[n]];
    if ia in bs[..n] { ScannedLeast(bs[..n], wanted, ia); }
  }

  method HalfTheLife(x: IaTimes, wanted: nat) returns (use: int)
    ensures use == HalfLife(x.lo, x.hi, wanted)
  {
    use := x.lo;
    if x.lo <= x.hi / 2 { use := x.hi; }
    if use == MAX_TIME || use <= 1 { use := wanted / 2; } else { use := use / 2; }
  }

  method ScanTimers(ia: IA, use: int, s: LeaseTimes6, ghost wanted: nat) returns (s': LeaseTimes6)
    requires use == HalfLifeOf(ia, wanted)
    ensures s' == Refreshed(s, ia, wanted)
  {
    s' := s;
    if ia.starts > s'.latest { s' := s'.(latest := ia.starts); }
    var tmp := if ia.renew == 0 then use else if ia.renew == INFINITE then MAX_TIME else ia.renew;
    if tmp < s'.renew { s' := s'.(renew := tmp); }
    tmp := if ia.rebind == 0 then use + use / 2 else if ia.rebind == INFINITE then MAX_TIME else ia.rebind;
    if tmp < s'.rebind { s' := s'.(rebind := tmp); }
  }

  /** Goes through all IAs. */
  method Scan(bs: seq<IA>, wanted: nat) returns (s: LeaseTimes6)
    requires Timely(bs)
    ensures s == Scanned(bs, wanted)
    ensures s.lo == Next(bs, Expiry) && s.depref == Next(bs, Depref) && s.has == (Total(bs, Expiry) > 0)
  {
    s := LeaseTimes6(MAX_TIME, 0, MAX_TIME, MAX_TIME, MAX_TIME, 0, false, false);
    for i := 0 to |bs|
      invariant s == Scanned(bs[..i], wanted) && s.depref <= MAX_TIME
    {
      assert bs[..i + 1][..i] == bs[..i];
      ScannedMeans(bs[..i + 1], wanted);
      s := ScanIA(bs[i], s, wanted);
    }
    assert bs[..|bs|] == bs;
    ScannedMeans(bs, wanted);
  }

  method ScanIA(ia: IA, s: LeaseTimes6, wanted: nat) returns (s': LeaseTimes6)
    requires s.depref <= MAX_TIME
    ensures s' == CountingIA(s, ia, wanted)
  {
    var x := ScanAddrs(ia, s.depref, s.hasPreferred);
    SameExpiries(s.depref, s.hasPreferred, ia.addrs, ia.starts);
    s' := s.(depref := x.depref, hasPreferred := x.hasPreferred, has := s.has || x.has);
    var use := HalfTheLife(x, wanted);
    if ia.iaType != TA { s' := ScanTimers(ia, use, s', wanted); }
    if x.hi + ia.starts > s'.hi { s' := s'.(hi := x.hi + ia.starts); }
    if x.lo + ia.starts < s'.lo { s' := s'.(lo := x.lo + ia.starts); }
  }

  datatype Phase6 = BOUND | RENEWING | REBINDING | OTHER

  /** The timers for renewing and rebinding, the maximum durations that are set, and whether the program ends. */
  datatype Plan = Plan(renewAt: Option<int>, rebindAt: Option<int>, mrd: Option<int>, nextMrd: Option<int>, fatal: bool)

  /** Periods count from the latest start of an IA; an infinite one is no time at all. */
  function FromStart(period: int, latest: int): (t: int) {
    if period == MAX_TIME then MAX_TIME else period + latest
  }

  function PlanFor(s: LeaseTimes6, phase: Phase6, now: int): (p: Plan) {
    var renew, rebind := FromStart(s.renew, s.latest), FromStart(s.rebind, s.latest);
    match phase
    case BOUND =>
      if rebind > now && renew < rebind then Plan(Some(renew), None, None, Some(rebind), false)
      else RebindPlan(rebind, s.hi, now)
    case RENEWING => RebindPlan(rebind, s.hi, now)
    case REBINDING => Plan(None, None, Some(s.hi - now), None, false)
    case OTHER => Plan(None, None, None, None, s.hasPreferred)
  }

  function RebindPlan(rebind: int, hi: int, now: int): (p: Plan) {
    if rebind == MAX_TIME then Plan(None, None, Some(rebind - now), None, false)
    else Plan(None, Some(rebind), Some(rebind - now), Some(hi), false)
  }

  /** At most one of the two timers is set. A renewal is set only for a bound client, before the time at which rebinding
      starts, which is in the future and ends the renewal; and a bound or renewing client has neither timer only if it
      never rebinds. */
  lemma {:induction false} OneRefreshTimer(bs: seq<IA>, wanted: nat, phase: Phase6, now: int)
    ensures var s := Scanned(bs, wanted);
            var p, rebind := PlanFor(s, phase, now), FromStart(s.rebind, s.latest);
            && (p.renewAt.None? || p.rebindAt.None?)
            && (p.renewAt.Some? ==>
                  phase == BOUND && p.renewAt.value < rebind && now < rebind && p.nextMrd == Some(rebind))
            && (p.rebindAt.Some? ==> phase in {BOUND, RENEWING} && p.rebindAt.value == rebind == p.mrd.value + now)
            && (phase in {BOUND, RENEWING} && p.renewAt.None? && p.rebindAt.None? ==> rebind == MAX_TIME)
  {
  }

  /** Where the server left both times open, an IA is renewed before it is rebound, and both before its last address
      expires, unless the user's wish decides. */
  lemma {:induction false} DefaultsOrdered(ia: IA, wanted: nat)
    requires ia.renew == 0 && ia.rebind == 0
    ensures var s := TimesOf(ia.addrs, ia.starts);
            var use := if s.lo <= s.hi / 2 then s.hi else s.lo;
            && RenewOf(ia, wanted) <= RebindOf(ia, wanted)
            && (1 < use < MAX_TIME ==> RebindOf(ia, wanted) <= use)
  {
  }

  // ---- The client ----

  /** The active lease and the times of the pending timers. */
  datatype Watch = Watch(lease: Option<Lease>, expireAt: Option<int>, deprefAt: Option<int>)

  function TimerFor(t: int): (r: Option<int>) {
    if t == MAX_TIME then None else Some(t)
  }

  /** What the scheduling makes of a lease. One without addresses is dropped. */
  function Scheduled(l: Lease): (w: Watch) {
    if Total(l.bindings, Expiry) == 0 then Watch(None, None, None)
    else Watch(Some(l), TimerFor(Next(l.bindings, Expiry)), TimerFor(Next(l.bindings, Depref)))
  }

  function Depreferred(a: Addr, now: int): (r: Addr)
    ensures r.depreffed == (a.depreffed || a.starts + a.preferred <= now) && r.(depreffed := a.depreffed) == a
  {
    if a.starts + a.preferred <= now then a.(depreffed := true) else a
  }

  function DepreferredAll(addrs: seq<Addr>, now: int): (r: seq<Addr>)
    ensures |r| == |addrs| && forall i :: 0 <= i < |r| ==> r[i] == Depreferred(addrs[i], now)
  {
    seq(|addrs|, i requires 0 <= i < |addrs| => Depreferred(addrs[i], now))
  }

  function DepreferredIAs(bs: seq<IA>, now: int): (r: seq<IA>)
    ensures |r| == |bs| && forall i :: 0 <= i < |r| ==> r[i] == bs[i].(addrs := DepreferredAll(bs[i].addrs, now))
  {
    seq(|bs|, i requires 0 <= i < |bs| => bs[i].(addrs := DepreferredAll(bs[i].addrs, now)))
  }

  function Expire(w: Watch, now: int): (w': Watch) {
    if w.lease.None? then w.(expireAt := None)
    else
      var bs := Swept(w.lease.value.bindings, now);
      if bs == [] then Watch(None, None, w.deprefAt) else Scheduled(w.lease.value.(bindings := bs))
  }

  function Deprefer(w: Watch, now: int): (w': Watch) {
    if w.lease.None? then w.(deprefAt := None)
    else Scheduled(w.lease.value.(bindings := DepreferredIAs(w.lease.value.bindings, now)))
  }

  class Client6 {
    const requestedLease: nat
    var state: Phase6
    var activeLease: Option<Lease>
    var expireAt: Option<int>
    var deprefAt: Option<int>
    var renewAt: Option<int>
    var rebindAt: Option<int>
    var mrd: int
    var nextMrd: int
    var fatal: bool

    constructor (requestedLease: nat)
      ensures View() == Watch(None, None, None) && this.requestedLease == requestedLease && !fatal
    {
      this.requestedLease, state, mrd, nextMrd, fatal := requestedLease, OTHER, 0, 0, false;
      activeLease, expireAt, deprefAt, renewAt, rebindAt := None, None, None, None, None;
    }

    function View(): (w: Watch)
      reads this
    {
      Watch(activeLease, expireAt, deprefAt)
    }

    /** The timers and durations are as planned. */
    predicate Planned(p: Plan)
      reads this
    {
      && renewAt == p.renewAt && rebindAt == p.rebindAt && fatal == p.fatal
      && (p.mrd.Some? ==> mrd == p.mrd.value) && (p.nextMrd.Some? ==> nextMrd == p.nextMrd.value)
    }

    /** Cancels the timers and sets them anew for the addresses of the lease. */
    method CheckTimes(now: int)
      requires activeLease.Some? && Timely(activeLease.value.bindings) && !fatal
      modifies this
      ensures state == old(state) && View() == Scheduled(old(activeLease.value))
      ensures if activeLease.None? then Planned(Plan(None, None, None, None, false))
              else Planned(PlanFor(Scanned(activeLease.value.bindings, requestedLease), state, now))
    {
      renewAt, rebindAt, deprefAt, expireAt := None, None, None, None;
      var s := Scan(activeLease.value.bindings, requestedLease);
      if !s.has {
        activeLease := None;
        return;
      }
      SetRefresh(s, now);
      if s.depref != MAX_TIME { deprefAt := Some(s.depref); }
      if s.lo != MAX_TIME { expireAt := Some(s.lo); }
    }

    /** The part that depends on the state. */
    method SetRefresh(s: LeaseTimes6, now: int)
      requires renewAt == None && rebindAt == None && !fatal
      modifies this`renewAt, this`rebindAt, this`mrd, this`nextMrd, this`fatal
      ensures Planned(PlanFor(s, state, now))
    {
      var renew, rebind := s.renew, s.rebind;
      if renew != MAX_TIME { renew := renew + s.latest; }
      if rebind != MAX_TIME { rebind := rebind + s.latest; }
      if state == BOUND && rebind > now && renew < rebind {
        nextMrd, renewAt := rebind, Some(renew);
      } else if state == BOUND || state == RENEWING {
        mrd := rebind - now;
        if rebind != MAX_TIME { nextMrd, rebindAt := s.hi, Some(rebind); }
      } else if state == REBINDING {
        mrd := s.hi - now;
      } else if s.hasPreferred {
        fatal := true;
      }
    }

    /** The expiry timer ran out. */
    method DoExpire(now: int)
      requires !fatal && (activeLease.Some? ==> Timely(activeLease.value.bindings))
      modifies this
      ensures View() == Expire(old(View()), now)
    {
      expireAt := None;
      if activeLease.None? { return; }
      var bs, hasAddrs := Sweep(activeLease.value.bindings, now);
      if !hasAddrs {
        activeLease := None;
        return;
      }
      SweptTimely(activeLease.value.bindings, now);
      activeLease := Some(activeLease.value.(bindings := bs));
      CheckTimes(now);
    }

    /** The timer for the end of preferred lifetimes ran out. */
    method DoDepref(now: int)
      requires !fatal && (activeLease.Some? ==> Timely(activeLease.value.bindings))
      modifies this
      ensures View() == Deprefer(old(View()), now)
    {
      deprefAt := None;
      if activeLease.None? { return; }
      var bs := DepreferIAs(activeLease.value.bindings, now);
      activeLease := Some(activeLease.value.(bindings := bs));
      CheckTimes(now);
    }
  }

  method DepreferIAs(bs: seq<IA>, now: int) returns (bs': seq<IA>)
    ensures bs' == DepreferredIAs(bs, now)
  {
    bs' := bs;
    for i := 0 to |bs|
      invariant |bs'| == |bs|
      invariant forall k :: 0 <= k < |bs| ==> bs'[k] == if k < i then DepreferredIAs(bs, now)[k] else bs[k]
    {
      var addrs := DepreferAddrs(bs'[i].addrs, now);
      bs' := bs'[i := bs'[i].(addrs := addrs)];
    }
  }

  method DepreferAddrs(addrs: seq<Addr>, now: int) returns (addrs': seq<Addr>)
    ensures addrs' == DepreferredAll(addrs, now)
  {
    addrs' := addrs;
    for i := 0 to |addrs|
      invariant |addrs'| == |addrs|
      invariant forall j :: 0 <= j < |addrs| ==> addrs'[j] == if j < i then Depreferred(addrs[j], now) else addrs[j]
    {
      if addrs'[i].depreffed { continue; }
      if addrs'[i].starts + addrs'[i].preferred <= now { addrs' := addrs'[i := addrs'[i].(depreffed := true)]; }
    }
  }

  lemma {:induction false} SweptTimely(bs: seq<IA>, now: int)
    requires Timely(bs)
    ensures Timely(Swept(bs, now))
  {
    var r := Swept(bs, now);
    forall i | 0 <= i < |r| ensures r[i].starts >= 0 {
      var ia := SweptFrom(bs, now, r[i]);
    }
  }

  // ---- Runs between refreshes ----

  /** The timers are those of the lease, and without a lease there is no expiry timer. */
  ghost predicate Inv(w: Watch) {
    if w.lease.None? then w.expireAt == None else Timely(w.lease.value.bindings) && w == Scheduled(w.lease.value)
  }

  /** The number of addresses that have yet to expire. */
  function Unexpired(w: Watch): (n: nat) {
    if w.lease.None? then 0 else Total(w.lease.value.bindings, Expiry)
  }

  /** The number of addresses that have yet to lose preference; a timer left over from a dropped lease counts as one. */
  function Preferred(w: Watch): (n: nat) {
    if w.lease.Some? then Total(w.lease.value.bindings, Depref) else if w.deprefAt.Some? then 1 else 0
  }

  lemma {:induction false} ScheduledInv(l: Lease)
    requires Timely(l.bindings)
    ensures Inv(Scheduled(l)) && Unexpired(Scheduled(l)) <= Total(l.bindings, Expiry)
    ensures Preferred(Scheduled(l)) <= Total(l.bindings, Depref)
  {
  }

  lemma {:induction false} CountMarked(addrs: seq<Addr>, now: int)
    ensures Count(MarkedAll(addrs, now), Expiry) <= Count(addrs, Expiry)
    ensures Count(MarkedAll(addrs, now), Depref) == Count(addrs, Depref)
  {
    if addrs != [] {
      CountMarked(addrs[..|addrs| - 1], now);
      assert MarkedAll(addrs, now)[..|addrs| - 1] == MarkedAll(addrs[..|addrs| - 1], now);
    }
  }

  lemma {:induction false} CountMarkedLess(addrs: seq<Addr>, now: int, a: Addr)
    requires a in addrs && !a.expired && !Live(a, now)
    ensures Count(MarkedAll(addrs, now), Expiry) < Count(addrs, Expiry)
  {
    var n := |addrs| - 1;
    assert addrs == addrs[..n] + [addrs[n]];
    assert MarkedAll(addrs, now)[..n] == MarkedAll(addrs[..n], now);
    if a in addrs[..n] { CountMarkedLess(addrs[..n], now, a); } else { CountMarked(addrs[..n], now); }
  }

  /** Dropping an IA without a live address loses nothing that could still expire. */
  lemma {:induction false} NoneLive(addrs: seq<Addr>, now: int)
    requires forall i :: 0 <= i < |addrs| ==> !Live(addrs[i], now)
    ensures Count(MarkedAll(addrs, now), Expiry) == 0
  {
    if addrs != [] {
      NoneLive(addrs[..|addrs| - 1], now);
      assert MarkedAll(addrs, now)[..|addrs| - 1] == MarkedAll(addrs[..|addrs| - 1], now);
    }
  }

  /** The totals after a sweep, in terms of the last IA. */
  lemma {:induction false} SweptLast(bs: seq<IA>, now: int)
    requires bs != []
    ensures var n := |bs| - 1;
            && Total(Swept(bs, now), Expiry)
               == Total(Swept(bs[..n], now), Expiry) + Count(MarkedAll(bs[n].addrs, now), Expiry)
            && Total(Swept(bs, now), Depref) <= Total(Swept(bs[..n], now), Depref) + Count(bs[n].addrs, Depref)
  {
    var n := |bs| - 1;
    var r, front := Swept(bs, now), Swept(bs[..n], now);
    if HasLive(bs[n], now) {
      assert r[..|r| - 1] == front;
      CountMarked(bs[n].addrs, now);
    } else {
      assert r == front;
      NoneLive(bs[n].addrs, now);
    }
  }

  lemma {:induction false} SweptTotal(bs: seq<IA>, now: int)
    ensures Total(Swept(bs, now), Expiry) <= Total(bs, Expiry)
    ensures Total(Swept(bs, now), Depref) <= Total(bs, Depref)
  {
    if bs != [] {
      SweptTotal(bs[..|bs| - 1], now);
      SweptLast(bs, now);
      CountMarked(bs[|bs| - 1].addrs, now);
    }
  }

  lemma {:induction false} SweptLess(bs: seq<IA>, now: int, ia: IA, a: Addr)
    requires ia in bs && a in ia.addrs && !a.expired && !Live(a, now)
    ensures Total(Swept(bs, now), Expiry) < Total(bs, Expiry)
  {
    var n := |bs| - 1;
    assert bs == bs[..n] + [bs[n]];
    SweptLast(bs, now);
    if ia in bs[..n] {
      SweptLess(bs[..n], now, ia, a);
      CountMarked(bs[n].addrs, now);
    } else {
      SweptTotal(bs[..n], now);
      CountMarkedLess(ia.addrs, now, a);
    }
  }

  /** After an expiry event the next one is strictly in the future, at the earliest remaining expiry. */
  lemma {:induction false} NextInFuture(bs: seq<IA>, now: int)
    ensures Next(Swept(bs, now), Expiry) < MAX_TIME ==> Next(Swept(bs, now), Expiry) > now
  {
    if Next(Swept(bs, now), Expiry) < MAX_TIME {
      var x, a := NextReached(Swept(bs, now), Expiry);
      var ia := SweptFrom(bs, now, x);
      var i :| 0 <= i < |x.addrs| && x.addrs[i] == a;
      assert a == Marked(ia.addrs[i], now);
    }
  }

  /** An expiry event that does not come early makes at least one address expire. */
  lemma {:induction false} ExpireStep(w: Watch, now: int)
    requires Inv(w) && w.expireAt.Some? && now >= w.expireAt.value
    ensures Inv(Expire(w, now)) && Unexpired(Expire(w, now)) < Unexpired(w) && Preferred(Expire(w, now)) <= Preferred(w)
    ensures Expire(w, now).expireAt.Some? ==> Expire(w, now).expireAt.value > now
  {
    var bs := w.lease.value.bindings;
    var ia, a := NextReached(bs, Expiry);
    SweptLess(bs, now, ia, a);
    SweptTotal(bs, now);
    NextInFuture(bs, now);
    SweptTimely(bs, now);
    if w.deprefAt.Some? {
      var ia', a' := NextReached(bs, Depref);
      NextLeast(bs, Depref, ia', a');
    }
    if Swept(bs, now) != [] { ScheduledInv(w.lease.value.(bindings := Swept(bs, now))); }
  }

  lemma {:induction false} CountDepreferred(addrs: seq<Addr>, now: int)
    ensures Count(DepreferredAll(addrs, now), Expiry) == Count(addrs, Expiry)
    ensures Count(DepreferredAll(addrs, now), Depref) <= Count(addrs, Depref)
  {
    if addrs != [] {
      CountDepreferred(addrs[..|addrs| - 1], now);
      assert DepreferredAll(addrs, now)[..|addrs| - 1] == DepreferredAll(addrs[..|addrs| - 1], now);
    }
  }

  lemma {:induction false} CountDepreferredLess(addrs: seq<Addr>, now: int, a: Addr)
    requires a in addrs && !a.depreffed && a.starts + a.preferred <= now
    ensures Count(DepreferredAll(addrs, now), Depref) < Count(addrs, Depref)
  {
    var n := |addrs| - 1;
    assert addrs == addrs[..n] + [addrs[n]];
    assert DepreferredAll(addrs, now)[..n] == DepreferredAll(addrs[..n], now);
    if a in addrs[..n] { CountDepreferredLess(addrs[..n], now, a); } else { CountDepreferred(addrs[..n], now); }
  }

  lemma {:induction false} TotalDepreferred(bs: seq<IA>, now: int)
    ensures Total(DepreferredIAs(bs, now), Expiry) == Total(bs, Expiry)
    ensures Total(DepreferredIAs(bs, now), Depref) <= Total(bs, Depref)
  {
    if bs != [] {
      TotalDepreferred(bs[..|bs| - 1], now);
      CountDepreferred(bs[|bs| - 1].addrs, now);
      assert DepreferredIAs(bs, now)[..|bs| - 1] == DepreferredIAs(bs[..|bs| - 1], now);
    }
  }

  lemma {:induction false} TotalDepreferredLess(bs: seq<IA>, now: int, ia: IA, a: Addr)
    requires ia in bs && a in ia.addrs && !a.depreffed && a.starts + a.preferred <= now
    ensures Total(DepreferredIAs(bs, now), Depref) < Total(bs, Depref)
  {
    var n := |bs| - 1;
    assert bs == bs[..n] + [bs[n]];
    assert DepreferredIAs(bs, now)[..n] == DepreferredIAs(bs[..n], now);
    CountDepreferred(bs[n].addrs, now);
    if ia in bs[..n] {
      TotalDepreferredLess(bs[..n], now, ia, a);
    } else {
      TotalDepreferred(bs[..n], now);
      CountDepreferredLess(ia.addrs, now, a);
    }
  }

  lemma {:induction false} DepreferStep(w: Watch, now: int)
    requires Inv(w) && w.deprefAt.Some? && now >= w.deprefAt.value
    ensures Inv(Deprefer(w, now)) && Unexpired(Deprefer(w, now)) == Unexpired(w)
    ensures Preferred(Deprefer(w, now)) < Preferred(w)
  {
    if w.lease.Some? {
      var bs := w.lease.value.bindings;
      var ia, a := NextReached(bs, Depref);
      TotalDepreferred(bs, now);
      TotalDepreferredLess(bs, now, ia, a);
      ScheduledInv(w.lease.value.(bindings := DepreferredIAs(bs, now)));
    }
  }

  // ---- With a TIME of 32 bits ----

  /** The test for expiry as a 32-bit TIME makes it: the sum with the unsigned lifetime wraps around. */
  predicate ExpiredIn32Bits(starts: nat, maxLife: nat, now: int) {
    (starts + maxLife) % 0x1_0000_0000 <= now
  }

  /** From the start of an address on, the test is right exactly if start and lifetime add up to less than 2^32. So an
      infinite lifetime is taken to have passed at once. */
  lemma Wrong32BitsIff(starts: nat, maxLife: nat, now: int)
    requires starts <= now <= MAX_TIME && maxLife <= INFINITE
    ensures (ExpiredIn32Bits(starts, maxLife, now) <==> starts + maxLife <= now) <==> starts + maxLife < 0x1_0000_0000
    ensures starts > 0 ==> ExpiredIn32Bits(starts, INFINITE, now)
  {
  }

  /** The timer of a scheduled event does not come early. */
  lemma TimerNotEarly(t: int, now: Timers.Time)
    requires now.Normal() && now.sec >= 0 && t < MAX_TIME
    ensures Timers.Lateness(Timers.Time(t, 0), now) >= 0
  {
    Timers.EarlyIff(Timers.Time(t, 0), now);
  }

  /** An expiry event, or one for the end of a preferred lifetime. */
  datatype Event = Event(expiry: bool, now: int)

  /** The timer is pending, and does not come early. */
  predicate Follows(w: Watch, e: Event, w': Watch) {
    if e.expiry then w.expireAt.Some? && e.now >= w.expireAt.value && w' == Expire(w, e.now)
    else w.deprefAt.Some? && e.now >= w.deprefAt.value && w' == Deprefer(w, e.now)
  }

  predicate Run(ws: seq<Watch>, es: seq<Event>) {
    |ws| == |es| + 1 && forall i :: 0 <= i < |es| ==> Follows(ws[i], es[i], ws[i + 1])
  }

  function Events(es: seq<Event>, expiry: bool): (n: nat) {
    if es == [] then 0 else Events(es[..|es| - 1], expiry) + if es[|es| - 1].expiry == expiry then 1 else 0
  }

  /** Between refreshes, n addresses cause at most n expiry events, and at most n events for the end of preferred
      lifetimes. */
  lemma {:induction false} RunBounded(ws: seq<Watch>, es: seq<Event>)
    requires Run(ws, es) && Inv(ws[0])
    ensures Inv(ws[|es|])
    ensures Events(es, true) + Unexpired(ws[|es|]) <= Unexpired(ws[0])
    ensures Events(es, false) + Preferred(ws[|es|]) <= Preferred(ws[0])
    decreases |es|
  {
    if es != [] {
      var n := |es| - 1;
      RunBounded(ws[..n + 1], es[..n]);
      assert Follows(ws[n], es[n], ws[n + 1]);
      if es[n].expiry { ExpireStep(ws[n], es[n].now); } else { DepreferStep(ws[n], es[n].now); }
    }
  }
}
