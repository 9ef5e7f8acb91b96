/** client/dhclient.c: leases of the DHCPv4 client, and the search through the recorded ones when no server
    answers. */
module Panic {
  import opened Wrappers
  import opened Timers

  /** A lease. `node` is the identity of the structure that holds it, and a medium is the rest of the list of media
      from the chosen one on, empty for none. */
  datatype ClientLease = ClientLease(node: nat, address: nat, isBootp: bool, expiry: int, renewal: int, rebind: int,
                                     medium: seq<string>)

  predicate Distinct(s: seq<ClientLease>) {
    forall i, j :: 0 <= i < j < |s| ==> s[i].node != s[j].node
  }

  /** No lease of the list is held in the structure `node`. */
  predicate Unused(node: nat, s: seq<ClientLease>) {
    forall i :: 0 <= i < |s| ==> s[i].node != node
  }

  /** The active lease and the recorded ones, in the order in which they are tried. */
  function Order(active: Option<ClientLease>, leases: seq<ClientLease>): (s: seq<ClientLease>) {
    if active.Some? then [active.value] + leases else leases
  }

  /** Whether the script is asked about a lease, and accepts it. */
  predicate Accepted(l: ClientLease, now: int, works: nat -> bool) {
    l.expiry > now && works(l.node)
  }

  /** The place of the first lease that is accepted, or the length of the list. */
  function FirstAccepted(s: seq<ClientLease>, now: int, works: nat -> bool): (i: nat)
    ensures i <= |s|
  {
    if s == [] || Accepted(s[0], now, works) then 0 else 1 + FirstAccepted(s[1..], now, works)
  }

  predicate NoneAccepted(s: seq<ClientLease>, now: int, works: nat -> bool, k: nat)
    requires k <= |s|
  {
    forall j :: 0 <= j < k ==> !Accepted(s[j], now, works)
  }

  /** It is the only place with an accepted lease, or the end, and none accepted in front of it. */
  lemma {:induction false} FirstAcceptedIs(s: seq<ClientLease>, now: int, works: nat -> bool, k: nat)
    requires k <= |s|
    ensures k == FirstAccepted(s, now, works) <==>
            NoneAccepted(s, now, works, k) && (k < |s| ==> Accepted(s[k], now, works))
  {
    if s != [] && !Accepted(s[0], now, works) {
      if k > 0 {
        FirstAcceptedIs(s[1..], now, works, k - 1);
        NoneAcceptedTail(s, now, works, k);
      }
    }
  }

  lemma {:induction false} NoneAcceptedTail(s: seq<ClientLease>, now: int, works: nat -> bool, k: nat)
    requires 0 < k <= |s|
    ensures NoneAccepted(s, now, works, k) <==> !Accepted(s[0], now, works) && NoneAccepted(s[1..], now, works, k - 1)
  {
    assert forall j :: 0 < j < k ==> s[j] == s[1..][j - 1];
    assert forall j :: 0 <= j < k - 1 ==> s[1..][j] == s[j + 1];
  }

  /** The leases of a list that have not expired. */
  function Unexpired(s: seq<ClientLease>, now: int): (r: seq<ClientLease>) {
    if s == [] then [] else
      var rest := Unexpired(s[..|s| - 1], now);
      if s[|s| - 1].expiry > now then rest + [s[|s| - 1]] else rest
  }

  lemma {:induction false} UnexpiredMeans(s: seq<ClientLease>, now: int)
    ensures forall l :: l in Unexpired(s, now) <==> l in s && l.expiry > now
  {
    if s != [] {
      UnexpiredMeans(s[..|s| - 1], now);
      assert s == s[..|s| - 1] + [s[|s| - 1]];
    }
  }

  /** The list turned so that its i-th lease comes first. */
  function Turned(s: seq<ClientLease>, i: nat): (r: seq<ClientLease>)
    requires i < |s|
    ensures |r| == |s| && r[0] == s[i] && multiset(r) == multiset(s)
  {
    assert s == s[..i] + s[i..];
    s[i..] + s[..i]
  }

  lemma {:induction false} TurnedDistinct(s: seq<ClientLease>, i: nat)
    requires Distinct(s) && i < |s|
    ensures Distinct(Turned(s, i))
  {
    var r := Turned(s, i);
    assert forall j :: 0 <= j < |s| ==> r[j] == if i + j < |s| then s[i + j] else s[i + j - |s|];
  }

  lemma {:induction false} UnexpiredAppend(s: seq<ClientLease>, l: ClientLease, now: int)
    ensures Unexpired(s + [l], now) == Unexpired(s, now) + if l.expiry > now then [l] else []
  {
    assert (s + [l])[..|s|] == s;
  }

  /** No lease is handed to the script twice. */
  lemma {:induction false} UnexpiredDistinct(s: seq<ClientLease>, now: int)
    requires Distinct(s)
    ensures Distinct(Unexpired(s, now))
  {
    if s != [] {
      var front := s[..|s| - 1];
      UnexpiredDistinct(front, now);
      UnexpiredMeans(front, now);
      assert forall l :: l in front ==> l.node != s[|s| - 1].node;
    }
  }

  /** What the search makes of the active lease and the recorded ones. */
  datatype Search = Search(bound: bool, active: Option<ClientLease>, leases: seq<ClientLease>)

  /** With an accepted lease the lists are turned to it. Without one they are as before, except that without an
      active lease, or without another one, the first lease changes places. */
  function SearchResult(active: Option<ClientLease>, leases: seq<ClientLease>, now: int, works: nat -> bool):
    (r: Search)
    ensures r.bound ==> r.active.Some?
    ensures multiset(Order(r.active, r.leases)) == multiset(Order(active, leases))
  {
    var s := Order(active, leases);
    var i := FirstAccepted(s, now, works);
    if i < |s| then
      var t := Turned(s, i);
      assert Order(Some(t[0]), t[1..]) == t;
      Search(true, Some(t[0]), t[1..])
    else Given(s)
  }

  /** A search in vain leaves the leases as they were, but a lease that is the only one is not active. */
  function Given(s: seq<ClientLease>): (r: Search)
    ensures !r.bound && Order(r.active, r.leases) == s
  {
    if |s| <= 1 then Search(false, None, s)
    else
      assert Order(Some(s[0]), s[1..]) == s;
      Search(false, Some(s[0]), s[1..])
  }

  /** The order in which the leases would be tried next begins with the accepted one, or is as before. Only a lease that
      is the only one is not active after it was tried in vain. */
  lemma {:induction false} SearchTurns(active: Option<ClientLease>, leases: seq<ClientLease>, now: int,
                                       works: nat -> bool)
    ensures var s, r := Order(active, leases), SearchResult(active, leases, now, works);
            var i := FirstAccepted(s, now, works);
            && Order(r.active, r.leases) == (if i < |s| then Turned(s, i) else s)
            && (r.active.None? <==> i == |s| <= 1)
  {
  }

  /** The lease that the client is bound to has not expired, works, and is the first such one in the order in which they
      are tried; the client is not bound only if there is none. */
  lemma {:induction false} SearchMeans(active: Option<ClientLease>, leases: seq<ClientLease>, now: int,
                                       works: nat -> bool)
    ensures var s, r := Order(active, leases), SearchResult(active, leases, now, works);
            if r.bound
            then exists i :: && 0 <= i < |s| && r.active == Some(s[i]) && s[i].expiry > now && works(s[i].node)
                             && forall j :: 0 <= j < i ==> s[j].expiry <= now || !works(s[j].node)
            else forall j :: 0 <= j < |s| ==> s[j].expiry <= now || !works(s[j].node)
  {
    var s := Order(active, leases);
    FirstAcceptedIs(s, now, works, FirstAccepted(s, now, works));
  }

  lemma {:induction false} SearchDistinct(active: Option<ClientLease>, leases: seq<ClientLease>, now: int,
                                          works: nat -> bool)
    requires Distinct(Order(active, leases))
    ensures var r := SearchResult(active, leases, now, works); Distinct(Order(r.active, r.leases))
  {
    var s := Order(active, leases);
    var i := FirstAccepted(s, now, works);
    SearchTurns(active, leases, now, works);
    if i < |s| { TurnedDistinct(s, i); }
  }

  /** The leases handed to the script: the ones not expired, up to the accepted one. */
  function Asked(s: seq<ClientLease>, now: int, works: nat -> bool): (r: seq<ClientLease>) {
    var i := FirstAccepted(s, now, works);
    Unexpired(if i < |s| then s[..i + 1] else s, now)
  }

  /** Each lease is handed over at most once. */
  lemma {:induction false} AskedOnce(s: seq<ClientLease>, now: int, works: nat -> bool)
    requires Distinct(s)
    ensures Distinct(Asked(s, now, works))
  {
    var i := FirstAccepted(s, now, works);
    UnexpiredDistinct(if i < |s| then s[..i + 1] else s, now);
  }

  /** All leases but the accepted one are handed over in vain. */
  lemma {:induction false} AskedInVain(s: seq<ClientLease>, now: int, works: nat -> bool, l: ClientLease)
    requires l in Asked(s, now, works) && works(l.node)
    ensures FirstAccepted(s, now, works) < |s| && l == s[FirstAccepted(s, now, works)]
  {
    var i := FirstAccepted(s, now, works);
    var t := if i < |s| then s[..i + 1] else s;
    UnexpiredMeans(t, now);
    var j :| 0 <= j < |t| && t[j] == l;
    FirstAcceptedIs(s, now, works, i);
    assert j < i ==> !Accepted(s[j], now, works);
  }

  /** The loop of state_panic: hands one lease after the other to the script. `asked` lists those handed over. */
  method SearchLeases(active: Option<ClientLease>, leases: seq<ClientLease>, now: int, works: nat -> bool)
    returns (r: Search, asked: seq<ClientLease>)
    requires Distinct(Order(active, leases))
    ensures r == SearchResult(active, leases, now, works)
    ensures asked == Asked(Order(active, leases), now, works)
  {
    ghost var s := Order(active, leases);
    var a, l, loop := active, leases, if active.Some? then Some(active.value.node) else None;
    asked := [];
    var k: nat := 0;
    var again := false;
    if a.None? && l != [] { a, l, loop, again := ActivateNext(a, l, loop, s, -1); }
    while a.Some?
      invariant k <= |s|
      invariant if a.None? then s == l == [] else At(s, k, a, l, loop)
      invariant Passed(s, k, now, works, asked)
      decreases |s| - k
    {
      var found;
      found, asked := TryLease(a.value, now, works, asked);
      if found {
        Found(active, leases, now, works, k, asked);
        return Search(true, a, l), asked;
      }
      PassOn(s, k, now, works, asked);
      a, l, loop, again := MoveOn(a, l, loop, s, k);
      k := k + 1;
      if again { break; }
    }
    NotFound(active, leases, now, works, asked);
    return Search(false, a, l), asked;
  }

  /** Goes on behind the k-th lease, or ends the search: a lease that is the only one goes back to the list. */
  method MoveOn(a: Option<ClientLease>, l: seq<ClientLease>, loop: Option<nat>, ghost s: seq<ClientLease>, ghost k: nat)
    returns (a': Option<ClientLease>, l': seq<ClientLease>, loop': Option<nat>, end: bool)
    requires Distinct(s) && a.Some? && At(s, k, a, l, loop)
    ensures end <==> k + 1 == |s|
    ensures if end then Search(false, a', l') == Given(s) else a'.Some? && At(s, k + 1, a', l', loop')
  {
    if l == [] { return None, [a.value], loop, true; }
    a', l', loop', end := ActivateNext(a, l, loop, s, k);
  }

  /** Hands a lease to the script unless it has expired. */
  method TryLease(l: ClientLease, now: int, works: nat -> bool, asked: seq<ClientLease>)
    returns (found: bool, asked': seq<ClientLease>)
    ensures found == Accepted(l, now, works) && asked' == asked + if l.expiry > now then [l] else []
  {
    found, asked' := false, asked;
    if l.expiry > now {
      asked' := asked + [l];
      found := works(l.node);
    }
  }

  /** The k-th lease is active, or with k = -1 none yet, and the search will end where it started. */
  predicate At(s: seq<ClientLease>, k: int, a: Option<ClientLease>, l: seq<ClientLease>, loop: Option<nat>) {
    if a.None? then k == -1 && l == s && loop == None
    else 0 <= k < |s| && a.value == s[k] && l == Behind(s, k) && loop == Some(s[0].node)
  }

  /** Moves the active lease, if there is one, to the end of the list and makes the first one of the list active.
      `again` tells that it was tried before. */
  method ActivateNext(a: Option<ClientLease>, l: seq<ClientLease>, loop: Option<nat>, ghost s: seq<ClientLease>,
                      ghost k: int)
    returns (a': Option<ClientLease>, l': seq<ClientLease>, loop': Option<nat>, again: bool)
    requires Distinct(s) && At(s, k, a, l, loop) && l != []
    ensures again <==> k + 1 == |s|
    ensures if again then a' == Some(s[0]) && l' == s[1..] else At(s, k + 1, a', l', loop')
  {
    l', loop' := l, loop;
    if a.Some? {
      l' := l' + [a.value];
      TurnOn(s, k);
    }
    a', l' := Some(l'[0]), l'[1..];
    again := loop' == Some(a'.value.node);
    if loop'.None? { loop' := Some(a'.value.node); }
  }

  /** What stands in the list of recorded leases while the k-th lease is active. */
  function Behind(s: seq<ClientLease>, k: nat): (r: seq<ClientLease>)
    requires k < |s|
  {
    s[k + 1..] + s[..k]
  }

  lemma {:induction false} TurnOn(s: seq<ClientLease>, k: nat)
    requires k < |s|
    ensures var t := Behind(s, k) + [s[k]];
            if k + 1 < |s| then t[0] == s[k + 1] && t[1..] == Behind(s, k + 1) else t == s
  {
    assert s[..k + 1] == s[..k] + [s[k]];
  }

  lemma {:induction false} UnexpiredUpTo(s: seq<ClientLease>, k: nat, now: int)
    requires k < |s|
    ensures Unexpired(s[..k + 1], now) == Unexpired(s[..k], now) + if s[k].expiry > now then [s[k]] else []
  {
    assert s[..k + 1] == s[..k] + [s[k]];
    UnexpiredAppend(s[..k], s[k], now);
  }

  /** The first k leases were asked about, if they had not expired, and none was accepted. */
  predicate Passed(s: seq<ClientLease>, k: nat, now: int, works: nat -> bool, asked: seq<ClientLease>) {
    k <= |s| && asked == Unexpired(s[..k], now) && NoneAccepted(s, now, works, k)
  }

  lemma {:induction false} PassOn(s: seq<ClientLease>, k: nat, now: int, works: nat -> bool, asked: seq<ClientLease>)
    requires k < |s| && !Accepted(s[k], now, works) && NoneAccepted(s, now, works, k)
    requires asked == Unexpired(s[..k], now) + if s[k].expiry > now then [s[k]] else []
    ensures Passed(s, k + 1, now, works, asked)
  {
    UnexpiredUpTo(s, k, now);
  }

  lemma {:induction false} Found(active: Option<ClientLease>, leases: seq<ClientLease>, now: int, works: nat -> bool,
                                 k: nat, asked: seq<ClientLease>)
    requires k < |Order(active, leases)|
    requires Accepted(Order(active, leases)[k], now, works) && NoneAccepted(Order(active, leases), now, works, k)
    requires var s := Order(active, leases); asked == Unexpired(s[..k], now) + [s[k]]
    ensures var s := Order(active, leases);
            && SearchResult(active, leases, now, works) == Search(true, Some(s[k]), Behind(s, k))
            && asked == Asked(s, now, works)
  {
    var s := Order(active, leases);
    FirstAcceptedIs(s, now, works, k);
    assert Turned(s, k)[1..] == Behind(s, k);
    UnexpiredUpTo(s, k, now);
  }

  lemma {:induction false} NotFound(active: Option<ClientLease>, leases: seq<ClientLease>, now: int,
                                    works: nat -> bool, asked: seq<ClientLease>)
    requires Passed(Order(active, leases), |Order(active, leases)|, now, works, asked)
    ensures var s := Order(active, leases);
            && SearchResult(active, leases, now, works) == Given(s)
            && asked == Asked(s, now, works)
  {
    var s := Order(active, leases);
    FirstAcceptedIs(s, now, works, |s|);
    assert s[..|s|] == s;
  }
}
