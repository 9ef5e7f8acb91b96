/** client/dhc6.c: collecting advertised leases, and choosing the best of them. */
module Select6 {
  import opened Wrappers
  import opened Bytes
  import opened Dhc6

  const SCORE_BINDING := 10000
  const SCORE_ADDRESS := 100
  const SCORE_OPTION := 1
  const SCORE_MIN := SCORE_BINDING + SCORE_ADDRESS

  // ---- Collecting ----

  predicate DistinctIds(s: seq<Lease>) {
    forall i, j :: 0 <= i < j < |s| ==> s[i].serverId != s[j].serverId
  }

  predicate NewId(s: seq<Lease>, id: seq<byte>) {
    forall i :: 0 <= i < |s| ==> s[i].serverId != id
  }

  /** Inserts a lease: in the place of the one from the same server, or at the end. */
  method InsertLease(head: seq<Lease>, lease: Lease) returns (head': seq<Lease>)
    ensures if NewId(head, lease.serverId) then head' == head + [lease]
            else exists i :: 0 <= i < |head| && head[i].serverId == lease.serverId && NewId(head[..i], lease.serverId)
                             && head' == head[i := lease]
    ensures DistinctIds(head) ==> DistinctIds(head')
  {
    var i := 0;
    while i < |head|
      invariant i <= |head| && NewId(head[..i], lease.serverId)
    {
      if head[i].serverId == lease.serverId { return head[i := lease]; }
      assert head[..i + 1] == head[..i] + [head[i]];
      i := i + 1;
    }
    assert head[..i] == head;
    return head + [lease];
  }

  // ---- Scoring ----

  /** The options the client requires, and those it requests. */
  datatype Wishes = Wishes(required: seq<nat>, requested: seq<nat>)

  predicate HasAll(o: Options, codes: seq<nat>) {
    forall c :: c in codes ==> c in o
  }

  function CountOf(o: Options, codes: seq<nat>): (n: nat) {
    if codes == [] then 0 else CountOf(o, codes[..|codes| - 1]) + if codes[|codes| - 1] in o then 1 else 0
  }

  function AddrCount(ias: seq<IA>): (n: nat) {
    if ias == [] then 0 else AddrCount(ias[..|ias| - 1]) + |ias[|ias| - 1].addrs|
  }

  /** A score that was computed before is kept; zero stands for a lease without a score or without a required option. */
  function Score(w: Wishes, l: Lease): (s: nat) {
    if l.score != 0 then l.score
    else if !HasAll(l.options, w.required) then 0
    else
      SCORE_OPTION * (1 + CountOf(l.options, w.requested)) + SCORE_BINDING * |l.bindings|
      + SCORE_ADDRESS * AddrCount(l.bindings)
  }

  method ScoreLease(w: Wishes, l: Lease) returns (score: nat)
    ensures score == Score(w, l)
  {
    if l.score != 0 { return l.score; }
    score := SCORE_OPTION;
    for i := 0 to |w.required|
      invariant score == 1 && HasAll(l.options, w.required[..i])
    {
      if w.required[i] !in l.options { return 0; }
      assert w.required[..i + 1] == w.required[..i] + [w.required[i]];
    }
    assert w.required[..|w.required|] == w.required;
    for i := 0 to |w.requested|
      invariant score == 1 + CountOf(l.options, w.requested[..i])
    {
      if w.requested[i] in l.options { score := score + SCORE_OPTION; }
      assert w.requested[..i + 1][..i] == w.requested[..i];
    }
    assert w.requested[..|w.requested|] == w.requested;
    ghost var base := score;
    for i := 0 to |l.bindings|
      invariant score == base + SCORE_BINDING * i + SCORE_ADDRESS * AddrCount(l.bindings[..i])
    {
      score := score + SCORE_BINDING;
      ghost var before := score;
      for j := 0 to |l.bindings[i].addrs|
        invariant score == before + SCORE_ADDRESS * j
      {
        score := score + SCORE_ADDRESS;
      }
      assert l.bindings[..i + 1][..i] == l.bindings[..i];
    }
    assert l.bindings[..|l.bindings|] == l.bindings;
  }

  /** Without options asked for and without bindings a lease scores one point. */
  lemma ScoreOfNothing(w: Wishes, l: Lease)
    requires l.score == 0 && l.bindings == [] && w == Wishes([], [])
    ensures Score(w, l) == 1
  {
  }

  /** An option asked for counts one point if the lease has it. */
  lemma {:induction false} ScoreOfOption(w: Wishes, l: Lease, c: nat)
    requires l.score == 0 && forall x :: x in w.required ==> x in l.options
    ensures Score(w.(requested := w.requested + [c]), l) == Score(w, l) + if c in l.options then 1 else 0
  {
    assert (w.requested + [c])[..|w.requested|] == w.requested;
  }

  /** A binding counts ten thousand points, and each of its addresses a hundred. */
  lemma {:induction false} ScoreOfBinding(w: Wishes, l: Lease, ia: IA)
    requires l.score == 0 && forall x :: x in w.required ==> x in l.options
    ensures Score(w, l.(bindings := l.bindings + [ia])) == Score(w, l) + 10000 + 100 * |ia.addrs|
  {
    assert (l.bindings + [ia])[..|l.bindings|] == l.bindings;
  }

  /** An option that is required takes all points away if the lease does not have it, and else none. */
  lemma {:induction false} ScoreOfRequired(w: Wishes, l: Lease, c: nat)
    requires l.score == 0
    ensures Score(w.(required := w.required + [c]), l) == if c in l.options then Score(w, l) else 0
  {
    assert HasAll(l.options, w.required + [c]) <==> HasAll(l.options, w.required) && c in l.options by {
      assert c in w.required + [c];
      assert forall x :: x in w.required + [c] <==> x in w.required || x == c;
    }
  }

  /** A score given before stays. */
  lemma ScoreStays(w: Wishes, l: Lease)
    requires l.score != 0
    ensures Score(w, l) == l.score
  {
  }

  /** A fresh score reaches the minimum, for up to 98 options of interest, exactly for a lease with all required
      options and either an address or two bindings, with or without addresses. */
  lemma ScoreMinMeans(w: Wishes, l: Lease)
    requires l.score == 0 && CountOf(l.options, w.requested) < 99
    ensures Score(w, l) >= SCORE_MIN <==>
            HasAll(l.options, w.required) && (AddrCount(l.bindings) > 0 || |l.bindings| > 1)
  {
    if l.bindings == [] { assert AddrCount(l.bindings) == 0; }
  }

  // ---- Choosing ----

  predicate High(l: Lease) {
    l.score >= SCORE_MIN
  }

  /** A shorter identifier comes first, and of two of the same length the numerically lower one. */
  predicate LowerId(a: seq<byte>, b: seq<byte>) {
    |a| < |b| || (|a| == |b| && Val(a) < Val(b))
  }

  /** Preference decides, then score, then the server identifier. */
  predicate Better(a: Lease, b: Lease) {
    || a.pref > b.pref
    || (a.pref == b.pref && a.score > b.score)
    || (a.pref == b.pref && a.score == b.score && LowerId(a.serverId, b.serverId))
  }

  /** Whether a candidate replaces the lease selected so far. */
  predicate Beats(c: Lease, r: Lease) {
    (!High(r) && High(c)) || Better(c, r)
  }

  /** The place of the lease that is selected when the list is gone through. */
  function Leader(s: seq<Lease>): (i: nat)
    requires s != []
    ensures i < |s|
  {
    var n := |s| - 1;
    if n == 0 then 0
    else
      var r := Leader(s[..n]);
      if Beats(s[n], s[r]) then n else r
  }

  function Scored(w: Wishes, s: seq<Lease>): (r: seq<Lease>)
    ensures |r| == |s| && forall i :: 0 <= i < |s| ==> r[i] == s[i].(score := Score(w, s[i]))
  {
    seq(|s|, i requires 0 <= i < |s| => s[i].(score := Score(w, s[i])))
  }

  function Without(s: seq<Lease>, i: nat): (r: seq<Lease>)
    requires i < |s|
    ensures |r| == |s| - 1 && forall j :: 0 <= j < |r| ==> r[j] == s[if j < i then j else j + 1]
  {
    s[..i] + s[i + 1..]
  }

  /** Compares memory of equal length. */
  method MemCmp(a: seq<byte>, b: seq<byte>) returns (r: int)
    requires |a| == |b|
    ensures r < 0 <==> Val(a) < Val(b)
  {
    for i := 0 to |a|
      invariant a[..i] == b[..i]
    {
      if a[i] < b[i] {
        ValFirstDifference(a, b, i);
        return -1;
      }
      if a[i] > b[i] {
        ValFirstDifference(b, a, i);
        return 1;
      }
    }
    assert a == a[..|a|] == b[..|a|] == b;
    return 0;
  }

  /** Selects a lease and removes it, and only it, from the list. All leases keep the score they were given. */
  method BestLease(w: Wishes, head: seq<Lease>) returns (best: Option<Lease>, head': seq<Lease>)
    ensures head == [] ==> best == None && head' == []
    ensures head != [] ==> var s := Scored(w, head); best == Some(s[Leader(s)]) && head' == Without(s, Leader(s))
  {
    if head == [] { return None, []; }
    var list, rpos: nat := head, 0;
    var score := ScoreLease(w, list[0]);
    list := list[0 := list[0].(score := score)];
    for i := 1 to |list|
      invariant ScoredUpTo(w, list, head, i) && LeaderUpTo(Scored(w, head), i, rpos)
    {
      list, rpos := Weigh(w, head, list, i, rpos);
    }
    LeaderAll(Scored(w, head), rpos);
    assert list == Scored(w, head);
    return Some(list[rpos]), list[..rpos] + list[rpos + 1..];
  }

  /** Scores the i-th lease and compares it with the one selected so far. */
  method Weigh(w: Wishes, ghost head: seq<Lease>, list: seq<Lease>, i: nat, rpos: nat)
    returns (list': seq<Lease>, rpos': nat)
    requires i < |list| && ScoredUpTo(w, list, head, i) && LeaderUpTo(Scored(w, head), i, rpos)
    ensures ScoredUpTo(w, list', head, i + 1) && LeaderUpTo(Scored(w, head), i + 1, rpos')
  {
    var score := ScoreLease(w, list[i]);
    list' := list[i := list[i].(score := score)];
    var select := Considered(list'[i], list'[rpos]);
    LeaderNext(Scored(w, head), i, rpos);
    rpos' := if select then i else rpos;
  }

  /** The first i leases of the list have their scores. */
  predicate ScoredUpTo(w: Wishes, list: seq<Lease>, head: seq<Lease>, i: nat) {
    && |list| == |head| && i <= |head|
    && forall j :: 0 <= j < |head| ==> list[j] == if j < i then Scored(w, head)[j] else head[j]
  }

  predicate LeaderUpTo(s: seq<Lease>, i: nat, r: nat) {
    0 < i <= |s| && r < i && r == Leader(s[..i])
  }

  lemma {:induction false} LeaderNext(s: seq<Lease>, i: nat, r: nat)
    requires i < |s| && LeaderUpTo(s, i, r)
    ensures LeaderUpTo(s, i + 1, if Beats(s[i], s[r]) then i else r)
  {
    assert s[..i + 1][..i] == s[..i];
  }

  lemma {:induction false} LeaderAll(s: seq<Lease>, r: nat)
    requires LeaderUpTo(s, |s|, r)
    ensures r == Leader(s)
  {
    assert s[..|s|] == s;
  }

  /** The chain of tests on a candidate. */
  method Considered(cand: Lease, rval: Lease) returns (select: bool)
    ensures select == Beats(cand, rval)
  {
    if rval.score < SCORE_MIN && cand.score >= SCORE_MIN { return true; }
    if cand.pref < rval.pref { return false; }
    if cand.pref > rval.pref { return true; }
    if cand.score > rval.score { return true; }
    if cand.score < rval.score { return false; }
    if |cand.serverId| != |rval.serverId| { return |cand.serverId| < |rval.serverId|; }
    var order := MemCmp(cand.serverId, rval.serverId);
    return order < 0;
  }

  /** In the order of selection: leases that reach the minimum score come first. */
  predicate Above(a: Lease, b: Lease) {
    (High(a) && !High(b)) || (High(a) == High(b) && Better(a, b))
  }

  /** Of two leases from different servers exactly one is above the other. */
  lemma {:induction false} AboveTotal(a: Lease, b: Lease)
    requires a.serverId != b.serverId
    ensures Above(a, b) <==> !Above(b, a)
  {
    if |a.serverId| == |b.serverId| && Val(a.serverId) == Val(b.serverId) { ValInjective(a.serverId, b.serverId); }
  }

  /** The lease is above all others of the list. */
  predicate Top(m: Lease, s: seq<Lease>) {
    m in s && forall x :: x in s && x != m ==> Above(m, x)
  }

  lemma {:induction false} TopExists(s: seq<Lease>) returns (i: nat)
    requires s != [] && DistinctIds(s)
    ensures i < |s| && Top(s[i], s)
  {
    var n := |s| - 1;
    if n == 0 { return 0; }
    i := TopExists(s[..n]);
    assert s == s[..n] + [s[n]];
    AboveTotal(s[i], s[n]);
    if Above(s[n], s[i]) { i := n; }
  }

  /** What the top lease is, field by field: it reaches the minimum if any does; among those with it on the same side,
      no lease is preferred to it, none of the same preference scores higher, none of the same score has a shorter
      server identifier, and none of the same length a lower one. */
  lemma {:induction false} TopMeans(s: seq<Lease>, m: Lease, x: Lease)
    requires Top(m, s) && x in s
    ensures x.score >= 10100 ==> m.score >= 10100
    ensures (x.score >= 10100 <==> m.score >= 10100) ==>
              && m.pref >= x.pref
              && (m.pref == x.pref ==> m.score >= x.score)
              && (m.pref == x.pref && m.score == x.score ==> |m.serverId| <= |x.serverId|)
              && (m.pref == x.pref && m.score == x.score && |m.serverId| == |x.serverId| ==>
                    Val(m.serverId) <= Val(x.serverId))
  {
    assert x != m ==> Above(m, x);
  }

  /** Some lease without the minimum score has a higher preference than every lease that has it, and there is one. */
  predicate Conflict(s: seq<Lease>) {
    && (exists h :: h in s && High(h))
    && exists l :: l in s && !High(l) && forall h :: h in s && High(h) ==> l.pref > h.pref
  }

  /** Without a conflict the top lease wins every comparison with another one. */
  lemma {:induction false} TopWins(s: seq<Lease>, m: nat, k: nat)
    requires m < |s| && k < |s| && m != k && DistinctIds(s) && Top(s[m], s) && !Conflict(s)
    ensures Beats(s[m], s[k]) && !Beats(s[k], s[m])
  {
    assert s[k].serverId != s[m].serverId && s[k] in s;
    assert Above(s[m], s[k]);
    AboveTotal(s[m], s[k]);
  }

  /** Once the top lease is reached it stays selected. */
  lemma {:induction false} LeaderReachesTop(s: seq<Lease>, m: nat, k: nat)
    requires m < k <= |s| && DistinctIds(s) && Top(s[m], s) && !Conflict(s)
    ensures Leader(s[..k]) == m
  {
    var t := s[..k];
    assert k > 1 ==> t[..k - 1] == s[..k - 1];
    if k > m + 1 {
      LeaderReachesTop(s, m, k - 1);
      TopWins(s, m, k - 1);
    } else if k > 1 {
      TopWins(s, m, Leader(s[..k - 1]));
    }
  }

  /** Without a conflict the selected lease is the unique top one. */
  lemma {:induction false} LeaderIsTop(s: seq<Lease>)
    requires s != [] && DistinctIds(s) && !Conflict(s)
    ensures Top(s[Leader(s)], s) && forall x :: Top(x, s) ==> x == s[Leader(s)]
  {
    var m := TopExists(s);
    LeaderReachesTop(s, m, |s|);
    assert s[..|s|] == s;
    forall x | Top(x, s) ensures x == s[m] {
      if x != s[m] {
        var j :| 0 <= j < |s| && s[j] == x;
        assert j != m;
        AboveTotal(x, s[m]);
      }
    }
  }

  /** When all scores are on one side of the minimum, the top lease is the best by preference, score and server. */
  lemma {:induction false} OneSided(s: seq<Lease>)
    requires forall x, y :: x in s && y in s ==> High(x) == High(y)
    ensures !Conflict(s) && forall m :: Top(m, s) <==> m in s && forall x :: x in s && x != m ==> Better(m, x)
  {
  }

  predicate SameLeases(s: seq<Lease>, t: seq<Lease>) {
    (forall x :: x in s ==> x in t) && forall x :: x in t ==> x in s
  }

  /** Without a conflict the order of arrival has no influence. */
  lemma {:induction false} OrderIndependent(s: seq<Lease>, t: seq<Lease>)
    requires s != [] && t != [] && DistinctIds(s) && DistinctIds(t) && SameLeases(s, t) && !Conflict(s)
    ensures s[Leader(s)] == t[Leader(t)]
  {
    assert !Conflict(t);
    LeaderIsTop(s);
    LeaderIsTop(t);
    assert Top(s[Leader(s)], t);
  }

  // ---- With a conflict ----

  function Side(s: seq<Lease>, high: bool): (r: seq<Lease>)
  {
    if s == [] then []
    else if High(s[0]) == high then [s[0]] + Side(s[1..], high) else Side(s[1..], high)
  }

  lemma {:induction false} SideHas(s: seq<Lease>, high: bool, x: Lease)
    ensures x in Side(s, high) <==> x in s && High(x) == high
  {
    if s != [] {
      SideHas(s[1..], high, x);
      assert s == [s[0]] + s[1..];
    }
  }

  lemma {:induction false} SidesMakeUp(s: seq<Lease>)
    ensures multiset(Side(s, true)) + multiset(Side(s, false)) == multiset(s)
  {
    if s != [] {
      SidesMakeUp(s[1..]);
      assert s == [s[0]] + s[1..];
    }
  }

  /** After leases without the minimum score, those with it win. */
  lemma {:induction false} HighLast(a: seq<Lease>, b: seq<Lease>)
    requires b != [] && forall x :: x in b ==> High(x)
    ensures High((a + b)[Leader(a + b)])
    decreases |b|
  {
    var s, n := a + b, |a + b| - 1;
    assert s[n] == b[|b| - 1] && High(s[n]);
    if n > 0 && |b| > 1 {
      assert s[..n] == a + b[..|b| - 1];
      HighLast(a, b[..|b| - 1]);
    }
  }

  /** After leases with the minimum score, one without it and of higher preference wins, or another one without it. */
  lemma {:induction false} LowLast(a: seq<Lease>, b: seq<Lease>, l: Lease)
    requires l in b && forall x :: x in b ==> !High(x)
    requires forall h :: h in a ==> l.pref > h.pref
    ensures !High((a + b)[Leader(a + b)])
    decreases |b|
  {
    var s, n := a + b, |a + b| - 1;
    assert s[n] == b[|b| - 1] && !High(s[n]);
    if n > 0 {
      assert s[..n] == a + b[..|b| - 1];
      if l in b[..|b| - 1] {
        LowLast(a, b[..|b| - 1], l);
      } else {
        assert l == s[n];
        var r := Leader(s[..n]);
        if High(s[r]) { assert s[r] in a; }
      }
    }
  }

  /** With a conflict, two orders of arrival lead to different leases. */
  lemma {:induction false} OrderDependent(s: seq<Lease>) returns (t: seq<Lease>, u: seq<Lease>)
    requires Conflict(s)
    ensures multiset(t) == multiset(s) == multiset(u) && t != [] && u != [] && t[Leader(t)] != u[Leader(u)]
  {
    var a, b := Side(s, true), Side(s, false);
    var h :| h in s && High(h);
    var l :| l in s && !High(l) && forall h :: h in s && High(h) ==> l.pref > h.pref;
    t, u := b + a, a + b;
    SidesMakeUp(s);
    forall x ensures (x in a <==> x in s && High(x)) && (x in b <==> x in s && !High(x)) {
      SideHas(s, true, x);
      SideHas(s, false, x);
    }
    HighLast(b, a);
    LowLast(a, b, l);
  }
}
