/** Runs of the DHCPv4 client. */
module Client4Runs {
  import opened Wrappers
  import opened Timers
  import opened Panic
  import opened Client4
  import opened Client4Settles
  import LeaseTimes

  /** Every event finds the lease it looks into and leaves the timers of other arguments alone, apart from the DNS
      update that binding sets; and it leaves one timer of the client, the one for the new state, exactly when it is
      not an acknowledgement without a lease time. */
  lemma {:induction false} StepKeeps(c: Client, e: Event, v: Env)
    requires v.Valid() && Inv(c, v.me) && Possible(c, e, v)
    ensures Ready(c, e)
    ensures var c' := Step(c, e, v);
            && OthersKept(c.timers, c'.timers, v.me, Updates(c', v))
            && (if c'.exited then MayEnd(v) else (Inv(c', v.me) <==> !ZeroAck(c, e)))
  {
    match e
    case Offer(l) =>
      UnusedApart(l.node, Order(c.active, c.leases), c.offered);
      DhcpOfferSettles(c, l, v);
    case Ack(l, t, t1, t2) =>
      UnusedApart(l.node, Order(c.active, c.leases), c.offered);
      if t != 0 { DhcpAckSettles(c, l, t, t1, t2, v); }
    case Nak => DhcpNakSettles(c, v);
    case Fire(f) => FireSettles(c, f, v);
  }

  /** A run: each state follows from the one before by an event that can happen there, in an environment of the same
      client. */
  predicate Run(cs: seq<Client>, es: seq<Event>, vs: seq<Env>, me: nat) {
    && |cs| == |es| + 1 && |vs| == |es|
    && forall i :: 0 <= i < |es| ==> Follows(cs[i], es[i], vs[i], cs[i + 1], me)
  }

  predicate Follows(c: Client, e: Event, v: Env, c': Client, me: nat) {
    !c.exited && v.Valid() && v.me == me && Possible(c, e, v) && (Ready(c, e) ==> c' == Step(c, e, v))
  }

  lemma {:induction false} FollowsKeeps(c: Client, e: Event, v: Env, c': Client, me: nat)
    requires Inv(c, me) && Follows(c, e, v, c', me) && !ZeroAck(c, e)
    ensures Ready(c, e) && (c'.exited || Inv(c', me)) && OthersKept(c.timers, c'.timers, me, Updates(c', v))
  {
    StepKeeps(c, e, v);
  }

  /** As long as no acknowledgement without a lease time is accepted, every state of a run has exactly one timer
      pending, the right one, and an active lease where it needs one; so every handler finds the lease it looks into.
      Other arguments keep their timers, apart from DNS updates that were set. */
  lemma {:induction false} RunKeeps(cs: seq<Client>, es: seq<Event>, vs: seq<Env>, me: nat)
    requires Run(cs, es, vs, me) && Inv(cs[0], me)
    requires forall i :: 0 <= i < |es| ==> !ZeroAck(cs[i], es[i])
    ensures forall i :: 0 <= i < |es| ==> Inv(cs[i], me) && Ready(cs[i], es[i])
    ensures cs[|es|].exited || Inv(cs[|es|], me)
    ensures OthersKept(cs[0].timers, cs[|es|].timers, me, AllUpdates(cs, vs))
  {
    forall k | 0 <= k <= |es| ensures if k < |es| then Inv(cs[k], me) && Ready(cs[k], es[k])
                                      else cs[k].exited || Inv(cs[k], me)
    {
      RunInv(cs, es, vs, me, k);
    }
    RunOthers(cs, es, vs, me);
  }

  lemma {:induction false} RunInv(cs: seq<Client>, es: seq<Event>, vs: seq<Env>, me: nat, k: nat)
    requires Run(cs, es, vs, me) && Inv(cs[0], me) && k <= |es|
    requires forall i :: 0 <= i < |es| ==> !ZeroAck(cs[i], es[i])
    ensures if k < |es| then Inv(cs[k], me) && Ready(cs[k], es[k]) else cs[k].exited || Inv(cs[k], me)
  {
    if k > 0 {
      RunInv(cs, es, vs, me, k - 1);
      FollowsKeeps(cs[k - 1], es[k - 1], vs[k - 1], cs[k], me);
    }
    if k < |es| { InvReady(cs[k], es[k], vs[k], cs[k + 1], me); }
  }

  lemma {:induction false} InvReady(c: Client, e: Event, v: Env, c': Client, me: nat)
    requires Inv(c, me) && Follows(c, e, v, c', me) && !ZeroAck(c, e)
    ensures Ready(c, e)
  {
    FollowsKeeps(c, e, v, c', me);
  }

  lemma {:induction false} RunOthers(cs: seq<Client>, es: seq<Event>, vs: seq<Env>, me: nat)
    requires Run(cs, es, vs, me)
    requires forall i :: 0 <= i < |es| ==> Inv(cs[i], me) && !ZeroAck(cs[i], es[i])
    ensures OthersKept(cs[0].timers, cs[|es|].timers, me, AllUpdates(cs, vs))
    decreases |es|
  {
    if es != [] {
      var n := |es| - 1;
      RunOthers(cs[..n + 1], es[..n], vs[..n], me);
      FollowsKeeps(cs[n], es[n], vs[n], cs[n + 1], me);
      KeptTwice(cs[0].timers, cs[n].timers, cs[n + 1].timers, me, AllUpdates(cs[..n + 1], vs[..n]),
                Updates(cs[n + 1], vs[n]));
    }
  }

  /** The DNS updates that a run may set. */
  function AllUpdates(cs: seq<Client>, vs: seq<Env>): (ks: set<Key<Func, nat>>)
    requires |cs| == |vs| + 1
    decreases |vs|
  {
    if vs == [] then {}
    else AllUpdates(cs[..|vs|], vs[..|vs| - 1]) + Updates(cs[|vs|], vs[|vs| - 1])
  }

  lemma {:induction false} KeptTwice(t: Table, t': Table, t'': Table, me: nat, apart: set<Key<Func, nat>>,
                                     apart': set<Key<Func, nat>>)
    requires OthersKept(t, t', me, apart) && OthersKept(t', t'', me, apart')
    ensures OthersKept(t, t'', me, apart + apart')
  {
  }

  /** The client starts with a delayed timer or by calling state_reboot. */
  lemma {:induction false} StartSettles(c: Client, v: Env, delay: nat)
    requires v.Valid() && c.state == INIT && Clear(c, v.me)
    ensures Settled(c, c.Arm(v, ToReboot, Time(delay, v.draws.usec % USEC_MAX)), v)
    ensures Settled(c, StateReboot(c, v), v)
  {
    ArmQuiet(c, v, ToReboot, Time(delay, v.draws.usec % USEC_MAX));
    StateRebootSettles(c, v);
  }

  /** After an acknowledgement without a lease time the next one, with a lease time, leaves two timers. */
  lemma {:induction false} ZeroAckLeavesTwoTimers(c: Client, a: Event, b: Event, v: Env)
    requires v.Valid() && Inv(c, v.me) && ZeroAck(c, a) && b.Ack? && b.leaseTime != 0 && v.draws.bindWorks
    ensures var c' := Step(Step(c, a, v), b, v);
            && c'.state == BOUND
            && Key(Some(ToInit), v.me) in c'.timers && Key(Some(ToBound), v.me) in c'.timers
  {
  }
}
