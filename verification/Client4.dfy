/** client/dhclient.c: the DHCPv4 client as a state machine. Every handler is a function of the client's state, the
    clock and what the outside world answers; the methods of module Client4Handlers compute these functions. */
module Client4 {
  import opened Wrappers
  import opened Timers
  import opened Panic
  import LeaseTimes

  datatype Phase = INIT | SELECTING | REQUESTING | REBOOTING | BOUND | RENEWING

  /** The functions that timeouts call. Some belong to other parts of the program. */
  datatype Func = ToReboot | ToInit | ToSelect | ToDiscover | ToRequest | ToBound | ToDnsUpdate | Other(nat)

  type Table = map<Key<Func, nat>, int>

  datatype Config = Config(timeout: nat, initialInterval: nat, retryInterval: nat, selectInterval: nat,
                           rebootTimeout: nat, backoffCutoff: nat, media: seq<string>, onetry: bool,
                           forwardUpdate: bool)
  {
    /** The remainder modulo these is taken. */
    predicate Valid() { retryInterval > 0 && backoffCutoff > 0 }
  }

  /** What scripts and random numbers decide during one event, and the address of a new control block for DNS updates.
      No place that asks is passed twice in one event, except that media and leases are tried one after the other. */
  datatype Draws = Draws(bindWorks: bool, mediumWorks: bool, mediaWork: seq<string> -> bool, leaseWorks: nat -> bool,
                         grow: nat, cut: nat, usec: nat, retry: nat, renew: nat, block: nat)

  /** The surroundings of an event: who the client is, how it is configured, the clock and the draws. */
  datatype Env = Env(me: nat, config: Config, now: Time, draws: Draws)
  {
    predicate Valid() {
      && config.Valid() && now.Normal() && 0 <= now.sec <= TIME_MAX
      && draws.renew <= TIME_MAX && draws.block != me
    }
  }

  datatype Client = Client(state: Phase, active: Option<ClientLease>, leases: seq<ClientLease>,
                           offered: seq<ClientLease>, interval: nat, firstSending: int, medium: seq<string>,
                           requested: Option<nat>, exited: bool, timers: Table)
  {
    function Arm(v: Env, f: Func, when: Time): (c: Client)
      requires v.Valid()
    {
      this.(timers := timers[Key(Some(f), v.me) := Due(when, v.now)])
    }

    /** The client starts to send messages in a new state, asking for an address if it has one in mind. */
    function Begin(p: Phase, r: Option<nat>, v: Env): (c: Client) {
      this.(state := p, requested := r, firstSending := v.now.sec, interval := v.config.initialInterval)
    }

    /** dhclient_schedule_updates: the first DNS update for the address is due in a second. */
    function ScheduleUpdates(v: Env): (c: Client)
      requires v.Valid()
    {
      if !v.config.forwardUpdate then this
      else this.(timers := timers[UpdateTimer(v) := Due(Time(v.now.sec + 1, v.now.usec), v.now)])
    }

    function Disarm(v: Env, f: Func): (c: Client) {
      this.(timers := timers - {Key(Some(f), v.me)})
    }
  }

  /** The timeout for DNS updates. Its argument is the control block, not the client. */
  function UpdateTimer(v: Env): (k: Key<Func, nat>) {
    Key(Some(ToDnsUpdate), v.draws.block)
  }

  /** A time `s` seconds from now. More than one second from now its microseconds are drawn. */
  function Later(v: Env, s: int): (t: Time)
    requires v.Valid()
    ensures t.Normal() && t.sec == v.now.sec + s
  {
    Time(v.now.sec + s, if s > 1 then v.draws.usec % USEC_MAX else v.now.usec)
  }

  // ---- Handlers ----

  /** Randomised exponential backoff, limited by the cutoff. */
  function Backoff(interval: nat, v: Env): (r: nat)
    requires v.Valid()
  {
    var i := if interval == 0 then v.config.initialInterval else interval + v.draws.grow % (2 * interval);
    if i > v.config.backoffCutoff then v.config.backoffCutoff / 2 + v.draws.cut % v.config.backoffCutoff else i
  }

  /** The next medium that works, and whether the list was started over to find it; none if no medium of the
      list works. `failed` tells that one was tried in vain. */
  function NextMedium(medium: seq<string>, media: seq<string>, failed: bool, works: seq<string> -> bool):
    (r: Option<(seq<string>, bool)>)
    requires media != []
    ensures r.Some? ==> r.value.0 != [] && works(r.value.0)
    decreases if failed then 0 else 1, |medium|
  {
    if |medium| > 1 then
      if works(medium[1..]) then Some((medium[1..], false)) else NextMedium(medium[1..], media, true, works)
    else if failed then None
    else if works(media) then Some((media, true))
    else NextMedium(media, media, true, works)
  }

  function SendDiscover(c: Client, v: Env): (c': Client)
    requires v.Valid()
    decreases if v.now.sec - c.firstSending > v.config.timeout then 5 else 0
  {
    if v.now.sec - c.firstSending > v.config.timeout then StatePanic(c, v)
    else
      var next := if c.offered == [] && v.config.media != []
                  then NextMedium(c.medium, v.config.media, false, v.draws.mediaWork) else Some((c.medium, true));
      if next.None? then c.(exited := true) else Discover(c.(medium := next.value.0), next.value.1, v)
  }

  /** Sends a discover message. The next one is not due later than just past the panic timeout. */
  function Discover(c: Client, increase: bool, v: Env): (c': Client)
    requires v.Valid() && v.now.sec - c.firstSending <= v.config.timeout
  {
    var i := if increase then Backoff(c.interval, v)
             else if c.interval == 0 then v.config.initialInterval else c.interval;
    var left := c.firstSending + v.config.timeout - v.now.sec;
    var i' := if i > left then left + 1 else i;
    c.(interval := i').Arm(v, ToDiscover, Later(v, i'))
  }

  function StatePanic(c: Client, v: Env): (c': Client)
    requires v.Valid()
    decreases 4, 1
  {
    AfterSearch(c, SearchResult(c.active, c.leases, v.now.sec, v.draws.leaseWorks), v)
  }

  /** Takes over the lease that was found, or ends or sleeps if there is none. */
  function AfterSearch(c: Client, r: Search, v: Env): (c': Client)
    requires v.Valid() && (r.bound ==> r.active.Some?)
    decreases 4, 0
  {
    var c1 := c.(active := r.active, leases := r.leases);
    if r.bound then
      var b := c1.(state := BOUND);
      if v.now.sec < r.active.value.renewal
      then b.Arm(v, ToBound, Later(v, r.active.value.renewal - v.now.sec))
      else StateBound(b, v)
    else if v.config.onetry then c1.(exited := true)
    else c1.(state := INIT).Arm(v, ToInit, Later(v, Pause(v)))
  }

  function Pause(v: Env): (s: nat)
    requires v.Valid()
  {
    (v.config.retryInterval + 1) / 2 + v.draws.retry % v.config.retryInterval
  }

  function StateBound(c: Client, v: Env): (c': Client)
    requires v.Valid() && c.active.Some?
    decreases 3
  {
    SendRequest(c.Begin(RENEWING, None, v), v)
  }

  /** Waited too long for an answer, or the medium of the lease does not work: the request is given up. */
  predicate Cancels(c: Client, v: Env)
    requires c.state != REQUESTING ==> c.active.Some?
  {
    || (c.state in {REBOOTING, REQUESTING} && v.now.sec - c.firstSending > v.config.rebootTimeout)
    || (c.state == REBOOTING && c.medium == [] && c.active.value.medium != [] && !v.draws.mediumWorks)
  }

  function SendRequest(c: Client, v: Env): (c': Client)
    requires v.Valid() && (c.state != REQUESTING ==> c.active.Some?)
    decreases 2
  {
    if Cancels(c, v) then StateInit(c.(state := INIT).Disarm(v, ToRequest), v)
    else
      var d := if c.state == REBOOTING && c.medium == [] then c.(medium := c.active.value.medium) else c;
      if c.state != REQUESTING && v.now.sec > c.active.value.expiry then StateInit(d.(state := INIT), v)
      else Request(d, v)
  }

  /** Sends a request. With an active lease, the next one is not due later than just past its expiry. */
  function Request(c: Client, v: Env): (c': Client)
    requires v.Valid() && (c.state != REQUESTING ==> c.active.Some? && v.now.sec <= c.active.value.expiry)
  {
    var i := Backoff(c.interval, v);
    var i' := if c.state != REQUESTING && v.now.sec + i > c.active.value.expiry
              then c.active.value.expiry - v.now.sec + 1 else i;
    c.(interval := i').Arm(v, ToRequest, Later(v, i'))
  }

  function StateInit(c: Client, v: Env): (c': Client)
    requires v.Valid()
    decreases 1
  {
    SendDiscover(c.Begin(SELECTING, if c.active.Some? then Some(c.active.value.address) else None, v), v)
  }

  function StateReboot(c: Client, v: Env): (c': Client)
    requires v.Valid()
  {
    if c.active.None? || c.active.value.isBootp || c.active.value.expiry <= v.now.sec then StateInit(c, v)
    else SendRequest(c.(medium := []).Begin(REBOOTING, Some(c.active.value.address), v), v)
  }

  function BindLease(c: Client, lease: ClientLease, v: Env): (c': Client)
    requires v.Valid()
  {
    if !v.draws.bindWorks then if v.config.onetry then c.(exited := true) else StateInit(c, v)
    else
      c.(active := Some(lease.(medium := c.medium)), state := BOUND)
      .Arm(v, ToBound, Later(v, lease.renewal - v.now.sec)).ScheduleUpdates(v)
  }

  function StateSelecting(c: Client, v: Env): (c': Client)
    requires v.Valid()
  {
    var d := c.Disarm(v, ToSelect).Disarm(v, ToDiscover).(offered := []);
    if c.offered == [] then StateInit(d.(state := INIT), v) else TakeOffer(d, c.offered[0], v)
  }

  /** Binds to the address of a BOOTP server, and requests that of a DHCP server. */
  function TakeOffer(c: Client, picked: ClientLease, v: Env): (c': Client)
    requires v.Valid()
  {
    if picked.isBootp then BindLease(c.(state := REQUESTING), BootpLease(picked, v), v)
    else SendRequest(c.Begin(REQUESTING, Some(picked.address), v), v)
  }

  /** A BOOTP server gives no times. */
  function BootpLease(picked: ClientLease, v: Env): (l: ClientLease) {
    picked.(expiry := v.now.sec + 12000, renewal := picked.renewal + v.now.sec + 8000,
            rebind := picked.rebind + v.now.sec + 10000)
  }

  function DhcpOffer(c: Client, lease: ClientLease, v: Env): (c': Client)
    requires v.Valid()
  {
    if c.state != SELECTING || (exists l :: l in c.offered && l.address == lease.address) then c
    else AfterOffer(c.(offered := Record(c, lease.(medium := c.medium))), v)
  }

  /** The offers with a new one: at the head if it has the requested address, else at the end. */
  function Record(c: Client, l: ClientLease): (s: seq<ClientLease>) {
    if c.requested == Some(l.address) then [l] + c.offered else c.offered + [l]
  }

  function AfterOffer(c: Client, v: Env): (c': Client)
    requires v.Valid()
  {
    var stop := c.firstSending + v.config.selectInterval;
    if stop <= v.now.sec then StateSelecting(c, v)
    else c.Arm(v, ToSelect, Time(stop, v.now.usec)).Disarm(v, ToDiscover)
  }

  /** The states in which the client waits for an answer to a request. */
  predicate Asking(p: Phase) {
    p in {REBOOTING, REQUESTING, RENEWING}
  }

  function HalfASecond(now: Time): (t: Time)
    requires now.Normal()
    ensures t.Normal() && t.Micros() == now.Micros() + 500000
  {
    if now.usec + 500000 >= USEC_MAX then Time(now.sec + 1, now.usec + 500000 - USEC_MAX)
    else Time(now.sec, now.usec + 500000)
  }

  function DhcpAck(c: Client, lease: ClientLease, leaseTime: LeaseTimes.uint32, t1: LeaseTimes.uint32,
                   t2: LeaseTimes.uint32, v: Env): (c': Client)
    requires v.Valid()
  {
    if !Asking(c.state) then c
    else
      var d := c.Disarm(v, ToRequest);
      if leaseTime == 0 then d.Arm(v, ToInit, HalfASecond(v.now))
      else BindLease(d, WithTerms(lease, leaseTime, t1, t2, v), v)
  }

  /** The lease with the times that the server's answer gives it. */
  function WithTerms(lease: ClientLease, leaseTime: LeaseTimes.uint32, t1: LeaseTimes.uint32, t2: LeaseTimes.uint32,
                     v: Env): (l: ClientLease)
    requires v.Valid() && leaseTime != 0
    ensures l.node == lease.node && l.address == lease.address
  {
    var t := LeaseTimes.TermsAt(leaseTime, t1, t2, v.draws.renew, v.now.sec);
    lease.(expiry := t.expiry, renewal := t.renewal, rebind := t.rebind)
  }

  function DhcpNak(c: Client, v: Env): (c': Client)
    requires v.Valid()
  {
    if !Asking(c.state) || c.active.None? then c
    else StateInit(c.(active := None, state := INIT).Disarm(v, ToRequest), v)
  }

  // ---- Events and runs ----

  /** A packet for this client, from which a lease could be built where one is needed, or a timer that ran out. */
  datatype Event =
    | Offer(lease: ClientLease)
    | Ack(lease: ClientLease, leaseTime: LeaseTimes.uint32, t1: LeaseTimes.uint32, t2: LeaseTimes.uint32)
    | Nak
    | Fire(func: Func)

  /** The timer that runs out is pending, and a lease made from a packet has a structure of its own. */
  predicate Possible(c: Client, e: Event, v: Env) {
    match e
    case Offer(l) => Unused(l.node, Order(c.active, c.leases) + c.offered)
    case Ack(l, _, _, _) => Unused(l.node, Order(c.active, c.leases) + c.offered)
    case Nak => true
    case Fire(f) => !f.Other? && f != ToDnsUpdate && Key(Some(f), v.me) in c.timers
  }

  /** The handler has the active lease it looks into. */
  predicate Ready(c: Client, e: Event) {
    match e
    case Fire(ToBound) => c.active.Some?
    case Fire(ToRequest) => c.state != REQUESTING ==> c.active.Some?
    case _ => true
  }

  function Step(c: Client, e: Event, v: Env): (c': Client)
    requires v.Valid() && Ready(c, e)
  {
    match e
    case Offer(l) => DhcpOffer(c, l, v)
    case Ack(l, t, t1, t2) => DhcpAck(c, l, t, t1, t2, v)
    case Nak => DhcpNak(c, v)
    case Fire(f) =>
      var d := c.Disarm(v, f);
      match f
      case ToReboot => StateReboot(d, v)
      case ToInit => StateInit(d, v)
      case ToSelect => StateSelecting(d, v)
      case ToDiscover => SendDiscover(d, v)
      case ToRequest => SendRequest(d, v)
      case ToBound => StateBound(d, v)
      case ToDnsUpdate => c
      case Other(_) => c
  }

  // ---- The invariant ----

  /** The only pending timer of client `me` is the one for `f`. */
  predicate Only(t: Table, me: nat, f: Func) {
    Key(Some(f), me) in t && forall k :: k in t && k.what == me ==> k == Key(Some(f), me)
  }

  predicate Quiet(t: Table, me: nat) {
    forall k :: k in t ==> k.what != me
  }

  /** Nothing changed for the arguments other than `me`, apart from some timeouts. */
  ghost predicate OthersKept(t: Table, t': Table, me: nat, apart: set<Key<Func, nat>>) {
    forall k: Key<Func, nat> ::
      k.what != me && k !in apart ==> (k in t <==> k in t') && (k in t ==> t[k] == t'[k])
  }

  /** The timeout for other arguments that an event may set: a DNS update, if it leaves the client bound. */
  function Updates(c': Client, v: Env): (ks: set<Key<Func, nat>>) {
    if v.config.forwardUpdate && c'.state == BOUND then {UpdateTimer(v)} else {}
  }

  /** The state fixes which timer is pending. */
  predicate OneTimer(c: Client, me: nat) {
    match c.state
    case INIT => Only(c.timers, me, ToInit) || Only(c.timers, me, ToReboot)
    case SELECTING => Only(c.timers, me, if c.offered == [] then ToDiscover else ToSelect)
    case BOUND => Only(c.timers, me, ToBound)
    case _ => Only(c.timers, me, ToRequest)
  }

  /** Structures are not shared between leases, and offers only exist while selecting. */
  predicate WellHeld(c: Client) {
    && Distinct(Order(c.active, c.leases))
    && OutsideOf(c.offered, Order(c.active, c.leases))
    && (c.offered != [] ==> c.state == SELECTING)
  }

  predicate OutsideOf(offered: seq<ClientLease>, s: seq<ClientLease>) {
    forall i :: 0 <= i < |offered| ==> Unused(offered[i].node, s)
  }

  predicate HasItsLease(c: Client) {
    c.state in {BOUND, RENEWING, REBOOTING} ==> c.active.Some?
  }

  /** The invariant of a running client. */
  predicate Inv(c: Client, me: nat) {
    !c.exited && OneTimer(c, me) && WellHeld(c) && HasItsLease(c)
  }

  /** The program ends only when told to try once, or when it has media and none of them works. */
  predicate MayEnd(v: Env) {
    v.config.onetry || v.config.media != []
  }

  /** What a handler leaves behind: the program ended, or the invariant holds; other arguments keep their timers. */
  ghost predicate Settled(c: Client, c': Client, v: Env) {
    (if c'.exited then MayEnd(v) else Inv(c', v.me)) && OthersKept(c.timers, c'.timers, v.me, Updates(c', v))
  }

  /** What a handler finds: no timer of this client, no offers, and every lease in its own structure. */
  predicate Clear(c: Client, me: nat) {
    !c.exited && Quiet(c.timers, me) && c.offered == [] && WellHeld(c)
  }

  /** No timer of the client is pending but those two. */
  predicate Either(t: Table, me: nat, f: Func, g: Func) {
    forall k :: k in t && k.what == me ==> k in {Key(Some(f), me), Key(Some(g), me)}
  }

  /** An acknowledgement without a lease time, at a time when the client listens to it. */
  predicate ZeroAck(c: Client, e: Event) {
    e.Ack? && e.leaseTime == 0 && Asking(c.state)
  }
}
