/** client/dhclient.c, dhcpack: lease, renewal and rebinding times from what a server sends, in a 32-bit TIME. */
module LeaseTimes {
  import opened Timers
  import Bytes

  newtype TIME = x: int | -0x8000_0000 <= x < 0x8000_0000
  newtype uint32 = x: int | 0 <= x < 0x1_0000_0000

  const MAX: TIME := 0x7FFF_FFFF

  /** A 32-bit number stored in a TIME, and the sum of two TIMEs as the machine adds them. */
  function Stored(u: uint32): (t: TIME)
    ensures t as int == if u < 0x8000_0000 then u as int else u as int - 0x1_0000_0000
  {
    if u < 0x8000_0000 then u as TIME else (u as int - 0x1_0000_0000) as TIME
  }

  function WrapAdd(a: TIME, b: TIME): (t: TIME)
    ensures (t as int - (a as int + b as int)) % 0x1_0000_0000 == 0
  {
    var s := a as int + b as int;
    if s >= 0x8000_0000 then
      assert (-0x1_0000_0000) % 0x1_0000_0000 == 0;
      (s - 0x1_0000_0000) as TIME
    else if s < -0x8000_0000 then (s + 0x1_0000_0000) as TIME
    else s as TIME
  }

  // ---- What the times are, in unbounded arithmetic ----

  function Saturated(t: int): (r: int)
    ensures r <= t && r <= TIME_MAX && (r == t || r == TIME_MAX)
  {
    if t <= TIME_MAX then t else TIME_MAX
  }

  /** The lease time; one beyond the range of TIME counts as the longest. */
  function Duration(lease: uint32): (d: int)
    ensures 0 <= d <= TIME_MAX
  {
    Saturated(lease as int)
  }

  predicate Usable(t2: uint32) {
    0 < t2 < 0x8000_0000
  }

  /** The remainder of a division, by subtraction. */
  function Remainder(a: nat, m: nat): (r: nat)
    requires m > 0
    ensures r < m
  {
    if a < m then a else Remainder(a - m, m)
  }

  lemma {:induction false} RemainderIs(a: nat, m: nat)
    requires m > 0
    ensures Remainder(a, m) == a % m
  {
    if a < m {
      Bytes.ModUnique(a, m, 0, a);
    } else {
      RemainderIs(a - m, m);
      var q, r := (a - m) / m, (a - m) % m;
      assert a == (q + 1) * m + r;
      Bytes.ModUnique(a, m, q + 1, r);
    }
  }

  /** The renewal time asked for; without one it is half the lease time. */
  function AskedFor(d: int, t1: uint32): (r: int)
    requires 0 < d <= TIME_MAX
    ensures 0 < r <= TIME_MAX
  {
    if t1 == 0 then d / 2 + 1 else Saturated(t1 as int)
  }

  /** The renewal time before it is held against the rebinding time: about a quarter of it is drawn. */
  function Renewal(d: int, t1: uint32, draw: nat): (r: int)
    requires 0 < d <= TIME_MAX
    ensures r > 0
  {
    var r := AskedFor(d, t1);
    if r <= TIME_MAX / 3 - 3 then (r * 3 + 3) / 4 + (Remainder(draw, r) + 3) / 4 else r
  }

  /** A randomised renewal time is at least three quarters of the one asked for, and at most one second more. */
  lemma RenewalRange(d: int, t1: uint32, draw: nat)
    requires 0 < d <= TIME_MAX
    ensures var r := AskedFor(d, t1);
            r * 3 <= Renewal(d, t1, draw) * 4 && Renewal(d, t1, draw) <= r + 1
  {
  }

  function Rebind(d: int, t2: uint32): (r: int)
    requires 0 < d <= TIME_MAX
    ensures 0 <= r <= TIME_MAX
    ensures !Usable(t2) ==> r * 8 <= d * 7 < r * 8 + 56
  {
    if Usable(t2) then t2 as int else if d <= TIME_MAX / 7 then d * 7 / 8 else d / 8 * 7
  }

  /** A renewal time past the rebinding time becomes three quarters of that. */
  function Capped(x: int, y: int): (r: int)
    requires x > 0 && y >= 0
    ensures 0 <= r <= y
  {
    if x <= y then x else ThreeQuarters(y)
  }

  function ThreeQuarters(y: int): (r: int)
    requires y >= 0
    ensures 0 <= r * 4 <= y * 3 < r * 4 + 12
  {
    if y <= TIME_MAX / 3 then y * 3 / 4 else y / 4 * 3
  }

  datatype Terms = Terms(expiry: int, renewal: int, rebind: int)

  /** The times of a lease taken at `now`. */
  function TermsAt(lease: uint32, t1: uint32, t2: uint32, draw: nat, now: int): (t: Terms)
    requires lease != 0
  {
    var d := Duration(lease);
    var x, y := Renewal(d, t1, draw), Rebind(d, t2);
    Terms(Saturated(now + d), Saturated(now + Capped(x, y)), Saturated(now + y))
  }

  /** Renewal comes no later than rebinding, and rebinding no later than expiry unless the server sent a usable
      rebinding time beyond the lease time and the lease ends within the range of TIME. */
  lemma TermsOrdered(lease: uint32, t1: uint32, t2: uint32, draw: nat, now: int)
    requires lease != 0 && 0 <= now <= TIME_MAX
    ensures var t := TermsAt(lease, t1, t2, draw, now);
            && now <= t.renewal <= t.rebind && now <= t.expiry
            && (t.rebind <= t.expiry <==>
                !Usable(t2) || t2 as int <= Duration(lease) || now + Duration(lease) >= TIME_MAX)
  {
    var d := Duration(lease);
    RenewalRange(d, t1, draw);
  }

  /** Renewal comes after expiry exactly if the lease ends within the range of TIME, the server sent a usable rebinding
      time beyond the lease time, and the renewal time is beyond it too: the drawn one, or three quarters of the
      rebinding time if that is less. */
  lemma {:induction false} RenewalPastExpiryIff(lease: uint32, t1: uint32, t2: uint32, draw: nat, now: int)
    requires lease != 0 && 0 <= now <= TIME_MAX
    ensures var t, d := TermsAt(lease, t1, t2, draw, now), Duration(lease);
            var x := Renewal(d, t1, draw);
            t.renewal > t.expiry <==>
            && now + d < TIME_MAX && Usable(t2) && t2 as int > d
            && (if x <= t2 as int then x else ThreeQuarters(t2 as int)) > d
  {
  }

  /** No draw leads there if the renewal time asked for is less than the lease time, and every draw does if it is a
      third more than it and the rebinding time is larger still. */
  lemma {:induction false} RenewalAskedFor(lease: uint32, t1: uint32, t2: uint32, draw: nat, now: int)
    requires lease != 0 && 0 <= now && now + Duration(lease) < TIME_MAX
    ensures var t, d := TermsAt(lease, t1, t2, draw, now), Duration(lease);
            var r := AskedFor(d, t1);
            && (r < d ==> t.renewal <= t.expiry)
            && (Usable(t2) && r < t2 as int && r * 3 > d * 4 ==> t.renewal > t.expiry)
  {
    RenewalPastExpiryIff(lease, t1, t2, draw, now);
    RenewalRange(Duration(lease), t1, draw);
  }

  /** A time in the range of TIME that is meant to be `s` seconds from `now`. */
  predicate At(t: int, now: int, s: int) {
    t == if now + s <= TIME_MAX then now + s else TIME_MAX
  }

  /** What the times mean, in terms of what the server sent. The lease ends after the lease time. Rebinding is at the
      time sent, or without a usable one after seven eighths of the lease time. Renewal is between three quarters of
      the time asked for, half the lease time if none was, and one second more than it; but it is before rebinding,
      and where it would surely not be, after three quarters of that time. All saturate. */
  ghost predicate TermsMean(lease: uint32, t1: uint32, t2: uint32, now: int, t: Terms) {
    var d := if lease < 0x8000_0000 then lease as int else TIME_MAX;
    var asked := if t1 == 0 then d / 2 + 1 else if t1 < 0x8000_0000 then t1 as int else TIME_MAX;
    && At(t.expiry, now, lease as int)
    && exists x, y :: At(t.renewal, now, x) && At(t.rebind, now, y) && RebindAfter(d, t2, y) && Between(asked, x, y)
  }

  predicate RebindAfter(d: int, t2: uint32, y: int) {
    if 0 < t2 < 0x8000_0000 then y == t2 as int else 7 * d - 56 < 8 * y <= 7 * d
  }

  predicate Between(asked: int, x: int, y: int) {
    && 0 <= x <= y
    && (asked + 1 <= y ==> 3 * asked <= 4 * x && x <= asked + 1)
    && (3 * asked > 4 * y ==> 3 * y - 12 < 4 * x <= 3 * y)
  }

  lemma {:induction false} TermsAtMean(lease: uint32, t1: uint32, t2: uint32, draw: nat, now: int)
    requires lease != 0 && 0 <= now <= TIME_MAX
    ensures TermsMean(lease, t1, t2, now, TermsAt(lease, t1, t2, draw, now))
  {
    var d := Duration(lease);
    var x, y := Renewal(d, t1, draw), Rebind(d, t2);
    RenewalBetween(d, t1, draw, y);
    RebindIsAfter(d, t2);
    TermsMeanWith(lease, t1, t2, now, TermsAt(lease, t1, t2, draw, now), Capped(x, y), y);
  }

  lemma {:induction false} TermsMeanWith(lease: uint32, t1: uint32, t2: uint32, now: int, t: Terms, x: int, y: int)
    requires lease != 0 && 0 <= now <= TIME_MAX
    requires t == Terms(Saturated(now + Duration(lease)), Saturated(now + x), Saturated(now + y))
    requires RebindAfter(Duration(lease), t2, y)
    requires Between(AskedFor(Duration(lease), t1), x, y)
    ensures TermsMean(lease, t1, t2, now, t)
  {
    assert At(t.renewal, now, x) && At(t.rebind, now, y);
  }

  lemma RebindIsAfter(d: int, t2: uint32)
    requires 0 < d <= TIME_MAX
    ensures RebindAfter(d, t2, Rebind(d, t2))
  {
  }

  lemma {:induction false} RenewalBetween(d: int, t1: uint32, draw: nat, y: int)
    requires 0 < d <= TIME_MAX && y >= 0
    ensures Between(AskedFor(d, t1), Capped(Renewal(d, t1, draw), y), y)
  {
    RenewalRange(d, t1, draw);
    CappedBetween(AskedFor(d, t1), Renewal(d, t1, draw), y);
  }

  lemma CappedBetween(asked: int, x: int, y: int)
    requires x > 0 && y >= 0 && 3 * asked <= 4 * x && x <= asked + 1
    ensures Between(asked, Capped(x, y), y)
  {
  }

  /** Every renewal time from three quarters of the one asked for up to about it can be drawn. */
  lemma {:induction false} RenewalTotal(d: int, t1: uint32, x: int) returns (draw: nat)
    requires 0 < d <= TIME_MAX && 0 < t1 as int <= TIME_MAX / 3 - 3
    requires 0 <= 4 * (x - (t1 as int * 3 + 3) / 4) <= t1 as int + 2
    ensures Renewal(d, t1, draw) == x
  {
    draw := Quarter(t1 as int, x - (t1 as int * 3 + 3) / 4);
  }

  lemma Quarter(r: nat, k: int) returns (draw: nat)
    requires r > 0 && 0 <= 4 * k <= r + 2
    ensures (Remainder(draw, r) + 3) / 4 == k
  {
    draw := if k == 0 then 0 else 4 * k - 3;
  }

  lemma SmallRemainder(a: nat, m: nat)
    requires a < m
    ensures a % m == a
  {
  }

  /** The computation in 32 bits. Nothing before the last three additions overflows, and where those wrap around the
      checks after them make them saturate. */
  method ComputeTerms(lease: uint32, t1: uint32, t2: uint32, draw: TIME, now: TIME)
    returns (expiry: TIME, renewal: TIME, rebind: TIME)
    requires lease != 0 && draw >= 0 && now >= 0
    ensures Terms(expiry as int, renewal as int, rebind as int) == TermsAt(lease, t1, t2, draw as int, now as int)
    ensures TermsMean(lease, t1, t2, now as int, Terms(expiry as int, renewal as int, rebind as int))
  {
    TermsAtMean(lease, t1, t2, draw as int, now as int);
    expiry := Stored(lease);
    if expiry < 0 { expiry := MAX; }
    renewal := RenewalTime(expiry, t1, draw);
    rebind := RebindTime(expiry, t2);
    renewal := CapRenewal(renewal, rebind);
    expiry := AddNow(expiry, now);
    renewal := AddNow(renewal, now);
    rebind := AddNow(rebind, now);
  }

  method RenewalTime(expiry: TIME, t1: uint32, draw: TIME) returns (renewal: TIME)
    requires expiry > 0 && draw >= 0
    ensures renewal as int == Renewal(expiry as int, t1, draw as int)
  {
    renewal := Stored(t1);
    if renewal == 0 { renewal := expiry / 2 + 1; }
    if renewal <= 0 { renewal := MAX; }
    if renewal <= MAX / 3 - 3 {
      RemainderIs(draw as int, renewal as int);
      renewal := (renewal * 3 + 3) / 4 + (draw % renewal + 3) / 4;
    }
  }

  method RebindTime(expiry: TIME, t2: uint32) returns (rebind: TIME)
    requires expiry > 0
    ensures rebind as int == Rebind(expiry as int, t2)
  {
    rebind := Stored(t2);
    if rebind <= 0 {
      if expiry <= MAX / 7 { rebind := expiry * 7 / 8; } else { rebind := expiry / 8 * 7; }
    }
  }

  method CapRenewal(renewal: TIME, rebind: TIME) returns (r: TIME)
    requires renewal > 0 && rebind >= 0
    ensures r as int == Capped(renewal as int, rebind as int)
  {
    r := renewal;
    if renewal > rebind {
      if rebind <= MAX / 3 { r := rebind * 3 / 4; } else { r := rebind / 4 * 3; }
    }
  }

  /** Adds the current time; a sum that wrapped around is less than it. */
  method AddNow(t: TIME, now: TIME) returns (r: TIME)
    requires t >= 0 && now >= 0
    ensures r as int == Saturated(now as int + t as int)
  {
    r := WrapAdd(t, now);
    if r < now { r := MAX; }
  }
}
