/** client/dhc6.c: retransmission of DHCPv6 messages, section 14 of RFC 3315. Times RT, IRT and MRT are in hundredths
    of a second, MRD is in seconds. */
module Retrans6 {
  import opened Timers

  const TICK := 10_000

  datatype Params = Params(irt: nat, mrt: nat, mrc: nat, mrd: nat) {
    /** The initial timeout is positive and not above the maximum, where there is one. */
    predicate Valid() { irt > 0 && (mrt == 0 || irt <= mrt) }
  }

  /** An exchange: the time to wait after the next message, the count of messages sent, and when the first one was,
      in microseconds. */
  datatype Exchange = Exchange(rt: int, txcount: nat, start: int)

  /** The largest deviation that randomisation allows. */
  function Split(base: int): (s: int)
    requires base > 0
    ensures 0 <= s < base
  {
    (base - 1) / 10
  }

  function Deviation(base: int, draw: nat): (r: int)
    requires base > 0
    ensures -Split(base) <= r <= Split(base)
  {
    draw % (2 * Split(base) + 1) - Split(base)
  }

  /** Every deviation within the limits can be drawn. */
  lemma DeviationTotal(base: int, r: int) returns (draw: nat)
    requires base > 0 && -Split(base) <= r <= Split(base)
    ensures Deviation(base, draw) == r
  {
    draw := r + Split(base);
  }

  /** A deviation from `base`. A base that is not positive ends the program. */
  method Rand(base: int, draw: nat) returns (fatal: bool, r: int)
    ensures fatal <==> base <= 0
    ensures base > 0 ==> r == Deviation(base, draw)
  {
    if base <= 0 { return true, 0; }
    var split := (base - 1) / 10;
    if split == 0 { return false, 0; }
    var range := split * 2 + 1;
    r := draw % range - split;
    return false, r;
  }

  // ---- The computation on microseconds ----

  /** The next waiting time by doubling and the maximum. */
  function Doubled(p: Params, rt: int, d1: nat, d2: nat): (r: int)
    requires rt > 0
  {
    var r := 2 * rt + Deviation(rt, d1);
    if p.mrt != 0 && r > p.mrt then p.mrt + Deviation(p.mrt, d2) else r
  }

  /** Ticks from `after` until the maximum duration is reached, rounded up. */
  function TicksLeft(p: Params, after: int): (r: nat)
    ensures var left := p.mrd * USEC_MAX - after;
            if left <= 0 then r == 0 else left <= r * TICK < left + TICK
  {
    var left := p.mrd * USEC_MAX - after;
    if left <= 0 then 0 else (left + TICK - 1) / TICK
  }

  /** The waiting time for after the one under way, which ends `after` microseconds into the exchange. */
  function NextRT(p: Params, rt: int, after: int, d1: nat, d2: nat): (r: int)
    requires rt > 0
  {
    var r := Doubled(p, rt, d1, d2);
    if p.mrd != 0 && after + r * TICK >= p.mrd * USEC_MAX then TicksLeft(p, after) else r
  }

  /** The waiting time about doubles: it is within a tenth of the old one of twice that. */
  predicate AboutTwice(rt: int, r: int) {
    2 * rt - (rt - 1) / 10 <= r <= 2 * rt + (rt - 1) / 10
  }

  /** It is within a tenth of the maximum. */
  predicate AboutMax(mrt: int, r: int) {
    mrt - (mrt - 1) / 10 <= r <= mrt + (mrt - 1) / 10
  }

  /** What the next waiting time is, in terms of the old one: about twice it, if that is surely within the maximum;
      about the maximum, if twice it is surely beyond; one of the two in between; and the rest of the maximum duration,
      rounded up to a hundredth of a second, exactly when the wait would reach its end. */
  ghost predicate BacksOff(p: Params, rt: int, after: int, r: int) {
    exists w :: && (if p.mrd != 0 && after + w * TICK >= p.mrd * USEC_MAX
                    then r >= 0 && (r - 1) * TICK < Positive(p.mrd * USEC_MAX - after) <= r * TICK
                    else r == w)
                && Grown(p, rt, w)
  }

  predicate Grown(p: Params, rt: int, w: int) {
    && (p.mrt == 0 || 2 * rt + (rt - 1) / 10 <= p.mrt ==> AboutTwice(rt, w))
    && (p.mrt != 0 && 2 * rt - (rt - 1) / 10 > p.mrt ==> AboutMax(p.mrt, w))
    && (p.mrt != 0 ==> (AboutTwice(rt, w) && w <= p.mrt) || AboutMax(p.mrt, w))
  }

  function Positive(n: int): (r: nat) {
    if n < 0 then 0 else n
  }

  lemma {:induction false} NextBacksOff(p: Params, rt: int, after: int, d1: nat, d2: nat)
    requires rt > 0
    ensures BacksOff(p, rt, after, NextRT(p, rt, after, d1, d2))
  {
    var w := Doubled(p, rt, d1, d2);
    assert Grown(p, rt, w);
  }

  datatype Timing = Success | MrcExceeded | MrdExceeded

  function Check(p: Params, x: Exchange, now: int): (t: Timing) {
    if x.txcount != 0 && p.mrc != 0 && x.txcount > p.mrc then MrcExceeded
    else if p.mrd != 0 && Elapsed(x, now) >= p.mrd * USEC_MAX then MrdExceeded
    else Success
  }

  /** Microseconds since the first message, which starts the clock. */
  function Elapsed(x: Exchange, now: int): (e: int) {
    if x.txcount == 0 then 0 else now - x.start
  }

  /** The exchange after one message is sent at `now`. */
  function Sent(p: Params, x: Exchange, now: int, d1: nat, d2: nat): (x': Exchange)
    requires x.rt > 0
  {
    var e := Elapsed(x, now);
    Exchange(NextRT(p, x.rt, e + x.rt * TICK, d1, d2), x.txcount + 1, now - e)
  }

  // ---- The fields and the arithmetic on seconds and microseconds ----

  /** A difference of times, with a borrow. */
  method Since(now: Time, start: Time) returns (e: Time)
    requires now.Normal() && start.Normal()
    ensures e.Normal() && e.Micros() == now.Micros() - start.Micros()
  {
    e := Time(now.sec - start.sec, now.usec - start.usec);
    if e.usec < 0 { e := Time(e.sec - 1, e.usec + 1000000); }
  }

  /** A time plus hundredths of a second, with a carry. */
  method Plus(t: Time, rt: nat) returns (r: Time)
    requires t.Normal()
    ensures r.Normal() && r.Micros() == t.Micros() + rt * TICK
  {
    r := Time(t.sec + rt / 100, t.usec + rt % 100 * 10000);
    if r.usec >= 1000000 { r := Time(r.sec + 1, r.usec - 1000000); }
  }

  class Retransmission {
    const p: Params
    var RT: int
    var txcount: nat
    var startTime: Time

    constructor (p: Params)
      ensures this.p == p && startTime.Normal()
    {
      this.p, RT, txcount, startTime := p, 0, 0, Time(0, 0);
    }

    function View(): (x: Exchange)
      reads this
    {
      Exchange(RT, txcount, startTime.Micros())
    }

    /** Starts an exchange. */
    method RetransInit(draw: nat) returns (fatal: bool)
      modifies this`RT, this`txcount
      ensures fatal <==> p.irt == 0
      ensures !fatal ==> txcount == 0 && RT == p.irt + Deviation(p.irt, draw)
    {
      txcount := 0;
      var dev;
      fatal, dev := Rand(p.irt, draw);
      RT := p.irt + dev;
    }

    /** The first Solicit waits longer than the initial timeout. */
    method SolicitRT()
      requires p.irt > 0 && -Split(p.irt) <= RT - p.irt <= Split(p.irt)
      modifies this`RT
      ensures p.irt < RT <= p.irt + if Split(p.irt) == 0 then 1 else Split(p.irt)
      ensures old(RT) != p.irt ==> RT - p.irt in {old(RT) - p.irt, p.irt - old(RT)}
    {
      if RT <= p.irt { RT := p.irt + (p.irt - RT); }
      if RT <= p.irt { RT := p.irt + 1; }
    }

    /** Whether another message may be sent; for the first one, starts the clock. Gives the value of the elapsed-time
        option, in hundredths of a second up to its maximum. */
    method CheckTiming(now: Time) returns (t: Timing, elapsed: nat)
      requires now.Normal() && startTime.Normal()
      modifies this`startTime
      ensures startTime.Normal() && t == Check(p, old(View()), now.Micros())
      ensures View() == old(View()).(start := if txcount == 0 then now.Micros() else old(View()).start)
      ensures t == Success && txcount == 0 ==> elapsed == 0 && startTime == now
      ensures t == Success && txcount != 0 && now.Micros() >= startTime.Micros() ==>
                var ticks := (now.Micros() - startTime.Micros()) / TICK;
                elapsed == if ticks <= 0xFFFF then ticks else 0xFFFF
    {
      if txcount == 0 {
        startTime := now;
      } else if p.mrc != 0 && txcount > p.mrc {
        return MrcExceeded, 0;
      }
      var e := Since(now, startTime);
      if p.mrd != 0 && e.sec >= p.mrd { return MrdExceeded, 0; }
      if e.sec < 0 || e.sec > 655 || (e.sec == 655 && e.usec > 350000) {
        elapsed := 0xFFFF;
      } else {
        elapsed := e.sec * 100;
        elapsed := elapsed + e.usec / 10000;
      }
      return Success, elapsed;
    }

    /** Moves on to the next waiting time, while RT is the one under way. */
    method RetransAdvance(now: Time, d1: nat, d2: nat) returns (fatal: bool)
      requires now.Normal() && startTime.Normal() && RT >= 0
      modifies this`RT, this`txcount
      ensures fatal <==> old(RT) <= 0
      ensures !fatal ==> txcount == old(txcount) + 1
      ensures !fatal ==> RT == NextRT(p, old(RT), now.Micros() - startTime.Micros() + old(RT) * TICK, d1, d2)
      ensures !fatal ==> BacksOff(p, old(RT), now.Micros() - startTime.Micros() + old(RT) * TICK, RT)
    {
      var elapsed := Since(now, startTime);
      var plusRT := Plus(elapsed, RT);
      if RT > 0 { NextBacksOff(p, RT, plusRT.Micros(), d1, d2); }
      fatal := DoubleRT(d1, d2);
      if fatal { return; }
      LimitRT(plusRT);
      txcount := txcount + 1;
    }

    /** Cuts RT short at the maximum duration, when the wait under way ends `plusRT` into the exchange. */
    method LimitRT(plusRT: Time)
      requires plusRT.Normal() && RT > 0
      modifies this`RT
      ensures RT == if p.mrd != 0 && plusRT.Micros() + old(RT) * TICK >= p.mrd * USEC_MAX
                    then TicksLeft(p, plusRT.Micros()) else old(RT)
    {
      if p.mrd == 0 { return; }
      var elapsed := Plus(plusRT, RT);
      if elapsed.sec >= p.mrd {
        RT := p.mrd - plusRT.sec;
        RT := RT * 100 - plusRT.usec / 10000;
        if RT < 0 { RT := 0; }
      }
    }

    /** Doubles RT, with a deviation, up to the maximum. */
    method DoubleRT(d1: nat, d2: nat) returns (fatal: bool)
      requires RT >= 0
      modifies this`RT
      ensures fatal <==> old(RT) <= 0
      ensures !fatal ==> RT == Doubled(p, old(RT), d1, d2) && RT > 0
    {
      var dev;
      fatal, dev := Rand(RT, d1);
      if fatal { return; }
      RT := RT + (RT + dev);
      if p.mrt != 0 && RT > p.mrt {
        fatal, dev := Rand(p.mrt, d2);
        RT := p.mrt + dev;
      }
    }

    /** One wake-up: checks, sends, sets the timer for the next wake-up and moves on. */
    method Transmit(now: Time, d1: nat, d2: nat) returns (fatal: bool, t: Timing, wake: Time)
      requires now.Normal() && startTime.Normal() && RT >= 0
      modifies this
      ensures startTime.Normal() && t == Check(p, old(View()), now.Micros())
      ensures t == Success ==> (fatal <==> old(RT) <= 0)
      ensures t == Success && !fatal ==>
                && View() == Sent(p, old(View()), now.Micros(), d1, d2)
                && wake.Normal() && wake.Micros() == now.Micros() + old(RT) * TICK
    {
      fatal, wake := false, now;
      var elapsed;
      t, elapsed := CheckTiming(now);
      if t != Success { return; }
      wake := Plus(now, RT);
      fatal := RetransAdvance(now, d1, d2);
    }
  }

  // ---- Runs ----

  /** A message was sent at `now`, and the next wake-up at `now'` did not come early. */
  predicate Follows(p: Params, x: Exchange, now: int, draws: (nat, nat), x': Exchange, now': int) {
    && Check(p, x, now) == Success && now' >= now + x.rt * TICK
    && (x.rt > 0 ==> x' == Sent(p, x, now, draws.0, draws.1))
  }

  /** A run of messages: the i-th one is sent at nows[i] from xs[i]. The last wake-up need not send one. */
  predicate Run(p: Params, xs: seq<Exchange>, nows: seq<int>, draws: seq<(nat, nat)>) {
    && |xs| == |nows| == |draws| + 1 && Begun(p, xs[0])
    && forall i :: 0 <= i < |draws| ==> Follows(p, xs[i], nows[i], draws[i], xs[i + 1], nows[i + 1])
  }

  predicate WithinMax(p: Params, rt: int) {
    p.mrt != 0 ==> rt <= p.mrt + Split(p.mrt)
  }

  predicate Begun(p: Params, x: Exchange) {
    x.txcount == 0 && x.rt > 0 && WithinMax(p, x.rt)
  }

  /** The start of an exchange is a proper one. */
  lemma InitBegins(p: Params, draw: nat, start: int)
    requires p.Valid()
    ensures Begun(p, Exchange(p.irt + Deviation(p.irt, draw), 0, start))
  {
  }

  /** So is that of a Solicit, which waits longer than the initial timeout. */
  lemma SolicitBegins(p: Params, rt: int, start: int)
    requires p.irt > 0 && (p.mrt == 0 || p.irt < p.mrt)
    requires p.irt < rt <= p.irt + if Split(p.irt) == 0 then 1 else Split(p.irt)
    ensures Begun(p, Exchange(rt, 0, start))
  {
  }

  /** What holds at every wake-up: when another message may be sent, there is a time to wait after it. */
  predicate Sound(p: Params, x: Exchange, now: int) {
    && x.rt >= 0 && WithinMax(p, x.rt)
    && (x.rt == 0 ==> p.mrd != 0 && x.txcount > 0 && Elapsed(x, now) >= p.mrd * USEC_MAX)
  }

  lemma {:induction false} SentSound(p: Params, x: Exchange, now: int, d1: nat, d2: nat, now': int)
    requires x.rt > 0 && now' >= now + x.rt * TICK
    ensures Sound(p, Sent(p, x, now, d1, d2), now')
  {
    var r := Doubled(p, x.rt, d1, d2);
    assert r > 0 && WithinMax(p, r);
    var after := Elapsed(x, now) + x.rt * TICK;
    if p.mrd != 0 && after + r * TICK >= p.mrd * USEC_MAX { assert TicksLeft(p, after) <= r; }
  }

  /** No run ever takes a deviation from a base that is not positive; the waits stay within the maximum; the count
      bounds the messages. */
  lemma {:induction false} RunSound(p: Params, xs: seq<Exchange>, nows: seq<int>, draws: seq<(nat, nat)>)
    requires Run(p, xs, nows, draws)
    ensures forall i :: 0 <= i < |xs| ==> Sound(p, xs[i], nows[i]) && xs[i].txcount == i
    ensures forall i :: 0 <= i < |draws| ==> xs[i].rt > 0
    ensures p.mrc != 0 ==> |draws| <= p.mrc + 1
    decreases |draws|
  {
    var n := |draws|;
    if n > 0 {
      RunSound(p, xs[..n], nows[..n], draws[..n - 1]);
      var x, now := xs[n - 1], nows[n - 1];
      assert xs[..n][n - 1] == x && nows[..n][n - 1] == now;
      assert Follows(p, x, now, draws[n - 1], xs[n], nows[n]);
      assert x.rt > 0;
      SentSound(p, x, now, draws[n - 1].0, draws[n - 1].1, nows[n]);
    }
  }

  /** Each message takes at least a hundredth of a second of the maximum duration. */
  lemma {:induction false} RunTakesTime(p: Params, xs: seq<Exchange>, nows: seq<int>, draws: seq<(nat, nat)>)
    requires Run(p, xs, nows, draws)
    ensures Elapsed(xs[|draws|], nows[|draws|]) >= |draws| * TICK
    decreases |draws|
  {
    var n := |draws|;
    RunSound(p, xs, nows, draws);
    if n > 0 {
      RunTakesTime(p, xs[..n], nows[..n], draws[..n - 1]);
      assert Follows(p, xs[n - 1], nows[n - 1], draws[n - 1], xs[n], nows[n]);
    }
  }

  /** A maximum duration makes the exchange finite. */
  lemma {:induction false} RunFinite(p: Params, xs: seq<Exchange>, nows: seq<int>, draws: seq<(nat, nat)>)
    requires Run(p, xs, nows, draws) && p.mrd != 0
    ensures |draws| <= 100 * p.mrd
  {
    var n := |draws|;
    if n > 0 {
      RunTakesTime(p, xs[..n], nows[..n], draws[..n - 1]);
      assert Follows(p, xs[n - 1], nows[n - 1], draws[n - 1], xs[n], nows[n]);
    }
  }

  // ---- How the waits grow ----

  /** Neither the maximum time nor the maximum duration cuts in after this wait, whatever is drawn. */
  predicate Unlimited(p: Params, x: Exchange, now: int) {
    && (p.mrt == 0 || 2 * x.rt + (x.rt - 1) / 10 <= p.mrt)
    && (p.mrd == 0 || Elapsed(x, now) + (3 * x.rt + (x.rt - 1) / 10) * TICK < p.mrd * USEC_MAX)
  }

  /** Until then every wait is more than 19/10 of the one before, and less than 21/10. */
  lemma {:induction false} SentGrows(p: Params, x: Exchange, now: int, d1: nat, d2: nat)
    requires x.rt > 0 && Unlimited(p, x, now)
    ensures var r := Sent(p, x, now, d1, d2).rt; 19 * x.rt < 10 * r < 21 * x.rt
  {
    NextBacksOff(p, x.rt, Elapsed(x, now) + x.rt * TICK, d1, d2);
  }

  function Power(b: nat, n: nat): (r: nat) {
    if n == 0 then 1 else b * Power(b, n - 1)
  }

  /** So the waits grow exponentially: the n-th one is at least (19/10)^n times the first. */
  lemma {:induction false} RunGrows(p: Params, xs: seq<Exchange>, nows: seq<int>, draws: seq<(nat, nat)>)
    requires Run(p, xs, nows, draws)
    requires forall i :: 0 <= i < |draws| ==> Unlimited(p, xs[i], nows[i])
    ensures var n := |draws|; Power(19, n) * xs[0].rt <= Power(10, n) * xs[n].rt
    decreases |draws|
  {
    var n := |draws|;
    RunSound(p, xs, nows, draws);
    if n > 0 {
      RunGrows(p, xs[..n], nows[..n], draws[..n - 1]);
      var x := xs[n - 1];
      assert Follows(p, x, nows[n - 1], draws[n - 1], xs[n], nows[n]);
      SentGrows(p, x, nows[n - 1], draws[n - 1].0, draws[n - 1].1);
      GrowsOn(Power(19, n - 1), Power(10, n - 1), xs[0].rt, x.rt, xs[n].rt);
    }
  }

  lemma GrowsOn(a: nat, b: nat, first: nat, x: nat, y: nat)
    requires a * first <= b * x && 19 * x < 10 * y
    ensures (19 * a) * first <= (10 * b) * y
  {
    assert b * (19 * x) <= b * (10 * y) by { Mul(b, 19 * x, 10 * y); }
    assert (19 * a) * first == 19 * (a * first) && (10 * b) * y == b * (10 * y) && 19 * (b * x) == b * (19 * x);
  }

  lemma Mul(b: nat, x: nat, y: nat)
    requires x <= y
    ensures b * x <= b * y
  {
  }

  /** A wait of about the maximum is followed by another one, unless the maximum duration cuts in. */
  lemma {:induction false} StaysAtMax(p: Params, x: Exchange, now: int, d1: nat, d2: nat)
    requires p.mrt > 0 && x.rt > 0 && AboutMax(p.mrt, x.rt)
    requires p.mrd == 0 || Elapsed(x, now) + (x.rt + p.mrt + (p.mrt - 1) / 10) * TICK < p.mrd * USEC_MAX
    ensures AboutMax(p.mrt, Sent(p, x, now, d1, d2).rt)
  {
    NextBacksOff(p, x.rt, Elapsed(x, now) + x.rt * TICK, d1, d2);
    assert 2 * x.rt - (x.rt - 1) / 10 > p.mrt;
  }

  // ---- When an exchange ends ----

  /** The clock of an exchange starts with its first message. */
  lemma {:induction false} RunStart(p: Params, xs: seq<Exchange>, nows: seq<int>, draws: seq<(nat, nat)>)
    requires Run(p, xs, nows, draws) && draws != []
    ensures xs[|draws|].start == nows[0]
    decreases |draws|
  {
    var n := |draws|;
    RunSound(p, xs, nows, draws);
    if n > 1 {
      RunStart(p, xs[..n], nows[..n], draws[..n - 1]);
    }
    assert Follows(p, xs[n - 1], nows[n - 1], draws[n - 1], xs[n], nows[n]);
  }

  /** Another message is sent exactly as long as not more than MRC were sent again and MRD has not passed since the
      first one. */
  lemma {:induction false} RunEnds(p: Params, xs: seq<Exchange>, nows: seq<int>, draws: seq<(nat, nat)>)
    requires Run(p, xs, nows, draws)
    ensures var n := |draws|;
            Check(p, xs[n], nows[n]) == Success <==>
            && (p.mrc == 0 || n <= p.mrc)
            && (p.mrd == 0 || nows[n] - nows[0] < p.mrd * USEC_MAX)
  {
    RunSound(p, xs, nows, draws);
    if draws != [] { RunStart(p, xs, nows, draws); }
  }

  predicate Punctual(xs: seq<Exchange>, nows: seq<int>) {
    && |xs| == |nows|
    && forall i :: 0 <= i < |xs| - 1 ==> nows[i + 1] == nows[i] + xs[i].rt * TICK
  }

  /** The wait under way does not end a hundredth of a second or more past the maximum duration. */
  predicate EndsInTime(p: Params, x: Exchange, now: int) {
    Elapsed(x, now) + x.rt * TICK < p.mrd * USEC_MAX + TICK
  }

  lemma {:induction false} SentEndsInTime(p: Params, x: Exchange, now: int, d1: nat, d2: nat)
    requires p.mrd != 0 && x.rt > 0 && EndsInTime(p, x, now)
    ensures EndsInTime(p, Sent(p, x, now, d1, d2), now + x.rt * TICK)
  {
  }

  /** With punctual timers and a first wait shorter than the maximum duration, an exchange that the maximum duration
      ends is ended within a hundredth of a second after it. */
  lemma {:induction false} RunEndsInTime(p: Params, xs: seq<Exchange>, nows: seq<int>, draws: seq<(nat, nat)>)
    requires Run(p, xs, nows, draws) && Punctual(xs, nows) && p.mrd != 0 && xs[0].rt * TICK < p.mrd * USEC_MAX
    ensures var n := |draws|;
            && EndsInTime(p, xs[n], nows[n])
            && (Check(p, xs[n], nows[n]) == MrdExceeded ==>
                0 <= Elapsed(xs[n], nows[n]) - p.mrd * USEC_MAX < TICK)
    decreases |draws|
  {
    var n := |draws|;
    RunSound(p, xs, nows, draws);
    if n > 0 {
      RunEndsInTime(p, xs[..n], nows[..n], draws[..n - 1]);
      assert xs[..n][n - 1] == xs[n - 1] && nows[..n][n - 1] == nows[n - 1];
      assert Follows(p, xs[n - 1], nows[n - 1], draws[n - 1], xs[n], nows[n]);
      SentEndsInTime(p, xs[n - 1], nows[n - 1], draws[n - 1].0, draws[n - 1].1);
    }
  }
}
