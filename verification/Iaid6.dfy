/** client/dhc6.c: the identity associations that a Renew or Rebind message carries. */
module Iaid6 {
  import opened Bytes
  import opened Dhc6

  /** An IA as it stands in a message: type, identifier and the addresses it asks for. */
  datatype Ask = Ask(iaType: IaType, iaid: seq<byte>, addrs: seq<seq<byte>>)

  function Ids(asks: seq<Ask>): (r: seq<seq<byte>>)
    ensures |r| == |asks|
  {
    seq(|asks|, i requires 0 <= i < |asks| => asks[i].iaid)
  }

  predicate Distinct(ids: seq<seq<byte>>) {
    forall i, j :: 0 <= i < j < |ids| ==> ids[i] != ids[j]
  }

  // ---- Candidates ----

  /** Candidates repeat after so many. */
  const ROUND: nat := 256

  /** The last four bytes of the hardware address, filled up with zeros if it has fewer. */
  function BaseId(hw: seq<byte>): (id: seq<byte>)
    ensures |id| == 4
  {
    if |hw| > 4 then hw[|hw| - 4..] else hw + seq(4 - |hw|, _ => 0 as byte)
  }

  /** The idx-th candidate: the last byte is counted up, and wraps around. */
  function Candidate(hw: seq<byte>, idx: nat): (id: seq<byte>)
    ensures |id| == 4
  {
    BaseId(hw)[3 := (BaseId(hw)[3] as int + idx) % 256]
  }

  /** Of a hardware address only the last four bytes count: the first three of them stand in every candidate, and the
      last one is counted up. */
  lemma {:induction false} CandidateOfTail(front: seq<byte>, tail: seq<byte>, idx: nat)
    requires |tail| == 4
    ensures Candidate(front + tail, idx) == tail[..3] + [(tail[3] as int + idx) % 256]
  {
    assert (front + tail)[|front + tail| - 4..] == tail;
    if front == [] { assert BaseId(front + tail) == tail; }
  }

  /** A shorter one stands at the front, and the rest is zero. */
  lemma {:induction false} CandidateOfShort(hw: seq<byte>, i: nat)
    requires |hw| < 4 && i < 4
    ensures Candidate(hw, 0)[i] == if i < |hw| then hw[i] else 0
  {
  }

  lemma CandidatesDiffer(hw: seq<byte>, i: nat, j: nat)
    requires i < j < i + 256
    ensures Candidate(hw, i) != Candidate(hw, j)
  {
    assert Candidate(hw, i)[3] != Candidate(hw, j)[3];
  }

  method CreateIaid(hw: seq<byte>, idx: nat) returns (id: seq<byte>)
    ensures id == Candidate(hw, idx)
    ensures |hw| >= 4 ==> id[..3] == hw[|hw| - 4..|hw| - 1] && id[3] as int == (hw[|hw| - 1] as int + idx) % 256
  {
    if |hw| > 4 { id := hw[|hw| - 4..]; } else { id := hw + seq(4 - |hw|, _ => 0 as byte); }
    if idx != 0 { id := id[3 := (id[3] as int + idx) % 256]; }
  }

  predicate InUse(bs: seq<IA>, t: IaType, id: seq<byte>) {
    exists i :: 0 <= i < |bs| && bs[i].iaType == t && bs[i].iaid == id
  }

  method FindId(bs: seq<IA>, t: IaType, id: seq<byte>) returns (found: bool)
    ensures found == InUse(bs, t, id)
  {
    for i := 0 to |bs|
      invariant forall j :: 0 <= j < i ==> !(bs[j].iaType == t && bs[j].iaid == id)
    {
      if bs[i].iaType == t && bs[i].iaid == id { return true; }
    }
    return false;
  }

  /** The unused ones among the first n candidates, in order. */
  function Free(hw: seq<byte>, bs: seq<IA>, t: IaType, n: nat): (r: seq<seq<byte>>) {
    if n == 0 then []
    else Free(hw, bs, t, n - 1) + if InUse(bs, t, Candidate(hw, n - 1)) then [] else [Candidate(hw, n - 1)]
  }

  /** How many candidates are unused; there are no others than the first 256. */
  function FreeCount(hw: seq<byte>, bs: seq<IA>, t: IaType): (n: nat) {
    |Free(hw, bs, t, ROUND)|
  }

  predicate IsFree(hw: seq<byte>, bs: seq<IA>, t: IaType, id: seq<byte>) {
    !InUse(bs, t, id) && exists i: nat :: i < 256 && id == Candidate(hw, i)
  }

  lemma {:induction false} FreeSound(hw: seq<byte>, bs: seq<IA>, t: IaType, n: nat, id: seq<byte>)
    requires n <= 256 && id in Free(hw, bs, t, n)
    ensures IsFree(hw, bs, t, id)
  {
    if id in Free(hw, bs, t, n - 1) { FreeSound(hw, bs, t, n - 1, id); }
  }

  lemma {:induction false} FreeComplete(hw: seq<byte>, bs: seq<IA>, t: IaType, n: nat, i: nat)
    requires i < n && !InUse(bs, t, Candidate(hw, i))
    ensures Candidate(hw, i) in Free(hw, bs, t, n)
  {
    if i < n - 1 { FreeComplete(hw, bs, t, n - 1, i); }
  }

  lemma {:induction false} FreeEarlier(hw: seq<byte>, bs: seq<IA>, t: IaType, n: nat, i: nat)
    requires n <= i < 256
    ensures Candidate(hw, i) !in Free(hw, bs, t, n)
  {
    if n > 0 {
      FreeEarlier(hw, bs, t, n - 1, i);
      CandidatesDiffer(hw, n - 1, i);
    }
  }

  lemma {:induction false} FreeDistinct(hw: seq<byte>, bs: seq<IA>, t: IaType, n: nat)
    requires n <= 256
    ensures Distinct(Free(hw, bs, t, n))
  {
    if n > 0 {
      FreeDistinct(hw, bs, t, n - 1);
      FreeEarlier(hw, bs, t, n - 1, n - 1);
    }
  }

  // ---- Pigeonhole ----

  lemma {:induction false} SubsetCard<T>(a: set<T>, b: set<T>)
    requires a <= b
    ensures |a| <= |b|
  {
    if a != {} {
      var x :| x in a;
      SubsetCard(a - {x}, b - {x});
    }
  }

  /** A list without repetitions has as many elements as its set. */
  lemma {:induction false} DistinctCard(ids: seq<seq<byte>>, s: set<seq<byte>>)
    requires Distinct(ids) && forall i :: 0 <= i < |ids| ==> ids[i] in s
    ensures |ids| <= |s|
  {
    if ids != [] {
      var n := |ids| - 1;
      DistinctCard(ids[..n], s - {ids[n]});
    }
  }

  /** The IAs of a type in a lease, in order. */
  function OfType(bs: seq<IA>, t: IaType): (r: seq<IA>) {
    if bs == [] then []
    else
      var n := |bs| - 1;
      OfType(bs[..n], t) + if bs[n].iaType == t then [bs[n]] else []
  }

  lemma {:induction false} OfTypeMeans(bs: seq<IA>, t: IaType, ia: IA)
    ensures ia in OfType(bs, t) <==> ia in bs && ia.iaType == t
  {
    if bs != [] {
      var n := |bs| - 1;
      assert bs == bs[..n] + [bs[n]];
      OfTypeMeans(bs[..n], t, ia);
    }
  }

  function IdsOf(ias: seq<IA>): (r: seq<seq<byte>>)
    ensures |r| == |ias|
  {
    Ids(AsksFor(ias))
  }

  /** The identifiers of a type in a lease. */
  function UsedIds(bs: seq<IA>, t: IaType): (r: seq<seq<byte>>) {
    IdsOf(OfType(bs, t))
  }

  lemma {:induction false} UsedIdsMeans(bs: seq<IA>, t: IaType, id: seq<byte>)
    ensures id in UsedIds(bs, t) <==> InUse(bs, t, id)
  {
    var r := OfType(bs, t);
    if id in UsedIds(bs, t) {
      var i :| 0 <= i < |r| && r[i].iaid == id;
      OfTypeMeans(bs, t, r[i]);
    }
    if InUse(bs, t, id) {
      var j :| 0 <= j < |bs| && bs[j].iaType == t && bs[j].iaid == id;
      OfTypeMeans(bs, t, bs[j]);
      var i :| 0 <= i < |r| && r[i] == bs[j];
      assert UsedIds(bs, t)[i] == id;
    }
  }

  function AsSet(ids: seq<seq<byte>>): (s: set<seq<byte>>)
    ensures |s| <= |ids| && forall id :: id in s <==> id in ids
  {
    if ids == [] then {} else AsSet(ids[..|ids| - 1]) + {ids[|ids| - 1]}
  }

  /** The used ones among the first n candidates. */
  ghost function Blocked(hw: seq<byte>, bs: seq<IA>, t: IaType, n: nat): (s: set<seq<byte>>)
    requires n <= 256
    ensures |s| + |Free(hw, bs, t, n)| == n
    ensures forall id :: id in s ==> InUse(bs, t, id) && exists i: nat :: i < n && id == Candidate(hw, i)
  {
    if n == 0 then {}
    else
      var c, s := Candidate(hw, n - 1), Blocked(hw, bs, t, n - 1);
      assert c !in s by {
        forall i: nat | i < n - 1 ensures Candidate(hw, i) != c { CandidatesDiffer(hw, i, n - 1); }
      }
      if InUse(bs, t, c) then s + {c} else s
  }

  /** Each identifier in use takes away at most one candidate. */
  lemma {:induction false} EnoughFree(hw: seq<byte>, bs: seq<IA>, t: IaType)
    ensures FreeCount(hw, bs, t) + |UsedIds(bs, t)| >= 256
  {
    var b, u := Blocked(hw, bs, t, ROUND), AsSet(UsedIds(bs, t));
    forall id | id in b ensures id in u { UsedIdsMeans(bs, t, id); }
    SubsetCard(b, u);
  }

  /** No list of different unused candidates is longer than their number. */
  lemma {:induction false} AtMostFree(hw: seq<byte>, bs: seq<IA>, t: IaType, ids: seq<seq<byte>>)
    requires Distinct(ids) && forall i :: 0 <= i < |ids| ==> IsFree(hw, bs, t, ids[i])
    ensures |ids| <= FreeCount(hw, bs, t)
  {
    var f := Free(hw, bs, t, ROUND);
    forall i | 0 <= i < |ids| ensures ids[i] in AsSet(f) {
      assert IsFree(hw, bs, t, ids[i]);
      var k: nat :| k < 256 && ids[i] == Candidate(hw, k);
      FreeComplete(hw, bs, t, ROUND, k);
    }
    DistinctCard(ids, AsSet(f));
  }

  // ---- Building the message ----

  /** How far the loop counter is from an index with the same candidate as `target`. */
  function Away(target: nat, i: nat): (n: nat) {
    (target - i) % 256
  }

  /** As long as no unused candidate is found, the counter comes nearer to one. */
  lemma SkipUsed(hw: seq<byte>, bs: seq<IA>, t: IaType, target: nat, i: nat)
    requires InUse(bs, t, Candidate(hw, i)) && !InUse(bs, t, Candidate(hw, target))
    ensures Away(target, i + 1) < Away(target, i)
  {
    assert Away(target, i) != 0 by { CandidatesRepeat(hw, target, i); }
    Nearer(target, i);
  }

  lemma Nearer(target: nat, i: nat)
    requires Away(target, i) != 0
    ensures Away(target, i + 1) < Away(target, i)
  {
    var q, r := (target - i) / 256, (target - i) % 256;
    assert target - (i + 1) == 256 * q + (r - 1);
  }

  lemma SameLastByte(b: nat, i: nat, j: nat)
    ensures (b + i) % 256 == (b + j) % 256 <==> (i - j) % 256 == 0
  {
  }

  lemma SameAgain(b: nat, i: nat)
    ensures (b + i) % 256 == (b + i % 256) % 256
  {
  }

  lemma CandidatesRepeat(hw: seq<byte>, i: nat, j: nat)
    ensures Candidate(hw, i) == Candidate(hw, j) <==> (i - j) % 256 == 0
    ensures Candidate(hw, i) == Candidate(hw, i % 256)
  {
    SameLastByte(BaseId(hw)[3], i, j);
    SameAgain(BaseId(hw)[3], i);
    assert Candidate(hw, i) == Candidate(hw, j) <==> Candidate(hw, i)[3] == Candidate(hw, j)[3];
  }

  /** IAs without addresses, one for each identifier. */
  function BareAsks(t: IaType, ids: seq<seq<byte>>): (r: seq<Ask>)
    ensures |r| == |ids|
  {
    seq(|ids|, k requires 0 <= k < |ids| => Ask(t, ids[k], []))
  }

  lemma {:induction false} BareAppend(packet: seq<Ask>, t: IaType, ids: seq<seq<byte>>, id: seq<byte>)
    ensures packet + BareAsks(t, ids + [id]) == packet + BareAsks(t, ids) + [Ask(t, id, [])]
  {
  }

  predicate AllFree(hw: seq<byte>, bs: seq<IA>, t: IaType, ids: seq<seq<byte>>) {
    forall k :: 0 <= k < |ids| ==> IsFree(hw, bs, t, ids[k])
  }

  /** The first i candidates have been gone through; past all of them, more are wanted than are unused. */
  ghost predicate GoneThrough(hw: seq<byte>, bs: seq<IA>, t: IaType, i: nat, ids: seq<seq<byte>>, wanted: nat) {
    AllFree(hw, bs, t, ids) && if i <= 256 then ids == Free(hw, bs, t, i) else wanted > FreeCount(hw, bs, t)
  }

  lemma {:induction false} GoOn(hw: seq<byte>, bs: seq<IA>, t: IaType, i: nat, ids: seq<seq<byte>>, wanted: nat)
    requires GoneThrough(hw, bs, t, i, ids, wanted) && |ids| < wanted
    ensures var id := Candidate(hw, i);
            GoneThrough(hw, bs, t, i + 1, if InUse(bs, t, id) then ids else ids + [id], wanted)
  {
    CandidatesRepeat(hw, i, i);
    if i == 256 { assert ids == Free(hw, bs, t, ROUND); }
  }

  lemma {:induction false} AllGone(hw: seq<byte>, bs: seq<IA>, t: IaType, i: nat, ids: seq<seq<byte>>)
    requires GoneThrough(hw, bs, t, i, ids, |ids|)
    ensures Distinct(ids) <==> |ids| <= FreeCount(hw, bs, t)
  {
    if i <= 256 { FreeDistinct(hw, bs, t, i); }
    if Distinct(ids) { AtMostFree(hw, bs, t, ids); }
  }

  /** Without an unused candidate all that the loop ever tries are in use. */
  lemma {:induction false} NeverFree(hw: seq<byte>, bs: seq<IA>, t: IaType, i: nat)
    requires FreeCount(hw, bs, t) == 0
    ensures InUse(bs, t, Candidate(hw, i))
  {
    CandidatesRepeat(hw, i, i);
    if !InUse(bs, t, Candidate(hw, i)) { FreeComplete(hw, bs, t, ROUND, i % 256); }
  }

  /** Appends new IAs under unused identifiers, which are different exactly if there are enough of those. `ends` tells
      whether the loop of the source comes to an end; if not, nothing is promised of the packet. */
  method BareIA(hw: seq<byte>, bs: seq<IA>, packet: seq<Ask>, wanted: nat, t: IaType)
    returns (ends: bool, packet': seq<Ask>)
    ensures ends <==> wanted == 0 || exists i: nat :: !InUse(bs, t, Candidate(hw, i))
    ensures ends ==> packet <= packet' && |packet'| == |packet| + wanted
    ensures ends ==>
              var ids := Ids(packet'[|packet|..]);
              && packet'[|packet|..] == BareAsks(t, ids) && AllFree(hw, bs, t, ids)
              && (Distinct(ids) <==> wanted <= FreeCount(hw, bs, t))
  {
    packet' := packet;
    ends := wanted == 0 || FreeCount(hw, bs, t) > 0;
    if !ends {
      forall i: nat ensures InUse(bs, t, Candidate(hw, i)) { NeverFree(hw, bs, t, i); }
      return;
    }
    ghost var target: nat := if wanted > 0 then SomeFree(hw, bs, t) else 0;
    packet' := AddBare(hw, bs, packet, wanted, t, target);
  }

  /** The loop, given that it meets an unused candidate from time to time. */
  method AddBare(hw: seq<byte>, bs: seq<IA>, packet: seq<Ask>, wanted: nat, t: IaType, ghost target: nat)
    returns (packet': seq<Ask>)
    requires wanted > 0 ==> !InUse(bs, t, Candidate(hw, target))
    ensures packet <= packet' && |packet'| == |packet| + wanted
    ensures var ids := Ids(packet'[|packet|..]);
            && packet'[|packet|..] == BareAsks(t, ids) && AllFree(hw, bs, t, ids)
            && (Distinct(ids) <==> wanted <= FreeCount(hw, bs, t))
  {
    packet' := packet;
    ghost var ids: seq<seq<byte>> := [];
    var left, i: nat := wanted, 0;
    while left != 0
      invariant 0 <= left && |ids| + left == wanted
      invariant packet' == packet + BareAsks(t, ids)
      invariant GoneThrough(hw, bs, t, i, ids, wanted)
      decreases left, Away(target, i)
    {
      var id := CreateIaid(hw, i);
      var used := FindId(bs, t, id);
      GoOn(hw, bs, t, i, ids, wanted);
      if used {
        SkipUsed(hw, bs, t, target, i);
      } else {
        BareAppend(packet, t, ids, id);
        packet' := packet' + [Ask(t, id, [])];
        ids := ids + [id];
        left := left - 1;
      }
      i := i + 1;
    }
    AllGone(hw, bs, t, i, ids);
    assert packet'[|packet|..] == BareAsks(t, ids);
    IdsOfBare(t, ids);
  }

  lemma {:induction false} IdsOfBare(t: IaType, ids: seq<seq<byte>>)
    ensures Ids(BareAsks(t, ids)) == ids
  {
  }

  ghost function SomeFree(hw: seq<byte>, bs: seq<IA>, t: IaType): (i: nat)
    requires FreeCount(hw, bs, t) > 0
    ensures i < 256 && !InUse(bs, t, Candidate(hw, i))
  {
    var id := Free(hw, bs, t, ROUND)[0];
    FreeSound(hw, bs, t, ROUND, id);
    var i: nat :| i < 256 && id == Candidate(hw, i);
    i
  }

  /** The addresses that a message asks for: those not expired and of the right length. */
  function Asked(addrs: seq<Addr>): (r: seq<seq<byte>>) {
    if addrs == [] then []
    else
      var n := |addrs| - 1;
      Asked(addrs[..n]) + if !addrs[n].expired && |addrs[n].address| == 16 then [addrs[n].address] else []
  }

  /** These are the addresses asked for, and no others, */
  lemma {:induction false} AskedMeans(addrs: seq<Addr>, x: seq<byte>)
    ensures x in Asked(addrs) <==> exists a :: a in addrs && !a.expired && |a.address| == 16 && a.address == x
  {
    if addrs != [] {
      var n := |addrs| - 1;
      AskedMeans(addrs[..n], x);
      assert addrs == addrs[..n] + [addrs[n]];
    }
  }

  /** in their order. */
  lemma {:induction false} AskedInOrder(a: seq<Addr>, b: seq<Addr>)
    ensures Asked(a + b) == Asked(a) + Asked(b)
  {
    if b == [] {
      assert a + b == a;
    } else {
      var n := |b| - 1;
      AskedInOrder(a, b[..n]);
      assert (a + b)[..|a + b| - 1] == a + b[..n];
    }
  }

  function AskFor(ia: IA): (a: Ask) {
    Ask(ia.iaType, ia.iaid, Asked(ia.addrs))
  }

  function AsksFor(ias: seq<IA>): (r: seq<Ask>)
    ensures |r| == |ias|
  {
    seq(|ias|, i requires 0 <= i < |ias| => AskFor(ias[i]))
  }

  method AskAddrs(addrs: seq<Addr>) returns (r: seq<seq<byte>>)
    ensures r == Asked(addrs)
  {
    r := [];
    for i := 0 to |addrs|
      invariant r == Asked(addrs[..i])
    {
      assert addrs[..i + 1][..i] == addrs[..i];
      if addrs[i].expired { continue; }
      if |addrs[i].address| != 16 { continue; }
      r := r + [addrs[i].address];
    }
    assert addrs[..|addrs|] == addrs;
  }

  predicate AllHaveAddrs(ias: seq<IA>) {
    forall i :: 0 <= i < |ias| ==> ias[i].addrs != []
  }

  /** The first IAs of a type, as many as wanted; zero means all. */
  function Selected(bs: seq<IA>, t: IaType, wanted: nat): (r: seq<IA>) {
    var s := OfType(bs, t);
    if wanted == 0 || |s| <= wanted then s else s[..wanted]
  }

  /** A prefix of the lease has a prefix of the IAs. */
  lemma {:induction false} OfTypePrefix(bs: seq<IA>, t: IaType, n: nat)
    requires n <= |bs|
    ensures var a, b := OfType(bs[..n], t), OfType(bs, t); |a| <= |b| && b[..|a|] == a
  {
    if n == |bs| {
      assert bs[..n] == bs;
    } else {
      var m := |bs| - 1;
      assert bs[..m][..n] == bs[..n];
      OfTypePrefix(bs[..m], t, n);
    }
  }

  /** The IAs chosen are IAs of the type, and where all are wanted, or no more than there are, they are all of them; and
      the message asks for each under its own type and identifier, for live addresses that it has. */
  lemma {:induction false} SelectedMeans(bs: seq<IA>, t: IaType, wanted: nat, k: nat)
    requires k < |Selected(bs, t, wanted)|
    ensures var ia, ask := Selected(bs, t, wanted)[k], AsksFor(Selected(bs, t, wanted))[k];
            && ia in bs && ia.iaType == t && ask.iaType == t && ask.iaid == ia.iaid
            && forall x :: x in ask.addrs ==> exists a :: a in ia.addrs && !a.expired && a.address == x
  {
    var ia := Selected(bs, t, wanted)[k];
    assert OfType(bs, t)[k] == ia;
    OfTypeMeans(bs, t, ia);
    forall x | x in Asked(ia.addrs) ensures exists a :: a in ia.addrs && !a.expired && a.address == x {
      AskedMeans(ia.addrs, x);
    }
  }

  lemma {:induction false} SelectedAll(bs: seq<IA>, t: IaType, wanted: nat, ia: IA)
    requires ia in bs && ia.iaType == t && (wanted == 0 || |Selected(bs, t, wanted)| < wanted)
    ensures ia in Selected(bs, t, wanted)
  {
    OfTypeMeans(bs, t, ia);
  }

  /** What the message is after the IAs `ias` were gone through, or that one of them has no addresses. */
  predicate AddedFor(ias: seq<IA>, packet: seq<Ask>, ok: bool, packet': seq<Ask>) {
    (ok <==> AllHaveAddrs(ias)) && (ok ==> packet' == packet + AsksFor(ias))
  }

  lemma {:induction false} AddedNext(ias: seq<IA>, ia: IA, packet: seq<Ask>, packet': seq<Ask>)
    requires AddedFor(ias, packet, true, packet')
    ensures if ia.addrs == [] then AddedFor(ias + [ia], packet, false, packet')
            else AddedFor(ias + [ia], packet, true, packet' + [AskFor(ia)])
  {
    assert (ias + [ia])[|ias|] == ia;
    assert AsksFor(ias + [ia]) == AsksFor(ias) + [AskFor(ia)];
  }

  lemma AddrsMissing(ias: seq<IA>, n: nat)
    requires n <= |ias| && !AllHaveAddrs(ias[..n])
    ensures !AllHaveAddrs(ias)
  {
    var i :| 0 <= i < n && ias[..n][i].addrs == [];
    assert ias[i].addrs == [];
  }

  lemma {:induction false} OfTypeNext(bs: seq<IA>, t: IaType, j: nat)
    requires j < |bs|
    ensures OfType(bs[..j + 1], t) == if bs[j].iaType == t then OfType(bs[..j], t) + [bs[j]] else OfType(bs[..j], t)
  {
    assert bs[..j + 1][..j] == bs[..j];
  }

  lemma {:induction false} SelectedUpTo(bs: seq<IA>, t: IaType, wanted: nat, j: nat)
    requires j <= |bs| && (wanted == 0 || |OfType(bs[..j], t)| <= wanted)
    ensures var a, b := OfType(bs[..j], t), Selected(bs, t, wanted); |a| <= |b| && b[..|a|] == a
    ensures j == |bs| || (wanted != 0 && |OfType(bs[..j], t)| == wanted) ==>
              OfType(bs[..j], t) == Selected(bs, t, wanted)
  {
    OfTypePrefix(bs, t, j);
    assert bs[..|bs|] == bs;
  }

  /** Appends the IAs that the lease has, up to the number wanted; fails on one without addresses. */
  method AddIA(bs: seq<IA>, packet: seq<Ask>, wanted: nat, t: IaType) returns (ok: bool, packet': seq<Ask>, added: nat)
    ensures ok <==> AllHaveAddrs(Selected(bs, t, wanted))
    ensures ok ==> packet' == packet + AsksFor(Selected(bs, t, wanted)) && added == |Selected(bs, t, wanted)|
  {
    packet', ok, added := packet, true, 0;
    var i, j := 0, 0;
    while j < |bs| && ok && (wanted == 0 || i < wanted)
      invariant j <= |bs| && i == |OfType(bs[..j], t)| && (wanted == 0 || i <= wanted)
      invariant AddedFor(OfType(bs[..j], t), packet, ok, packet')
    {
      var ia := bs[j];
      OfTypeNext(bs, t, j);
      ghost var sel := OfType(bs[..j], t);
      j := j + 1;
      if ia.iaType != t { continue; }
      i := i + 1;
      ok, packet' := AddOne(ia, packet', packet, sel);
    }
    AddedUpTo(bs, t, wanted, j, packet, ok, packet');
    if ok { added := i; }
  }

  /** Appends one IA, unless it has no addresses. */
  method AddOne(ia: IA, packet: seq<Ask>, ghost start: seq<Ask>, ghost sel: seq<IA>)
    returns (ok: bool, packet': seq<Ask>)
    requires AddedFor(sel, start, true, packet)
    ensures AddedFor(sel + [ia], start, ok, packet')
  {
    AddedNext(sel, ia, start, packet);
    var addrs := AskAddrs(ia.addrs);
    if ia.addrs == [] { return false, packet; }
    return true, packet + [Ask(ia.iaType, ia.iaid, addrs)];
  }

  lemma {:induction false} AddedUpTo(bs: seq<IA>, t: IaType, wanted: nat, j: nat, packet: seq<Ask>, ok: bool,
                                     packet': seq<Ask>)
    requires j <= |bs| && (wanted == 0 || |OfType(bs[..j], t)| <= wanted)
    requires AddedFor(OfType(bs[..j], t), packet, ok, packet')
    requires ok ==> j == |bs| || (wanted != 0 && |OfType(bs[..j], t)| == wanted)
    ensures AddedFor(Selected(bs, t, wanted), packet, ok, packet')
    ensures ok ==> |Selected(bs, t, wanted)| == |OfType(bs[..j], t)|
  {
    SelectedUpTo(bs, t, wanted, j);
    if !ok { AddrsMissing(Selected(bs, t, wanted), |OfType(bs[..j], t)|); }
  }

  // ---- Renew and Rebind ----

  /** With at most 256 wanted, there are enough unused identifiers for those that the lease does not have. */
  lemma {:induction false} EnoughFor256(hw: seq<byte>, bs: seq<IA>, t: IaType, wanted: nat)
    requires 0 < wanted <= 256
    ensures wanted - |Selected(bs, t, wanted)| <= FreeCount(hw, bs, t)
  {
    EnoughFree(hw, bs, t);
  }

  lemma {:induction false} SelectedDistinct(bs: seq<IA>, t: IaType, wanted: nat)
    requires Distinct(UsedIds(bs, t))
    ensures Distinct(IdsOf(Selected(bs, t, wanted)))
    ensures forall id :: id in IdsOf(Selected(bs, t, wanted)) ==> InUse(bs, t, id)
  {
    var s, u := IdsOf(Selected(bs, t, wanted)), UsedIds(bs, t);
    assert forall i :: 0 <= i < |s| ==> s[i] == u[i];
    forall id | id in s ensures InUse(bs, t, id) { UsedIdsMeans(bs, t, id); }
  }

  lemma {:induction false} DistinctBoth(a: seq<seq<byte>>, b: seq<seq<byte>>)
    requires Distinct(a) && forall id :: id in a ==> id !in b
    ensures Distinct(a + b) <==> Distinct(b)
  {
    var c := a + b;
    assert forall i :: 0 <= i < |c| ==> c[i] == if i < |a| then a[i] else b[i - |a|];
    if Distinct(c) {
      forall i, j | 0 <= i < j < |b| ensures b[i] != b[j] { assert c[|a| + i] == b[i] && c[|a| + j] == b[j]; }
    }
    forall i, j | 0 <= i < |a| && 0 <= j < |b| ensures a[i] != b[j] { assert a[i] in a && b[j] in b; }
  }

  /** The IAs of one type in a Renew or Rebind: those of the active lease come first, new ones make up the number. It
      fails exactly on an IA without addresses, and comes to an end unless more are wanted than the lease has and every
      candidate is in use. With different identifiers in the lease, all are different exactly when there are enough
      unused ones, and so for up to 256. */
  method RefreshIAs(hw: seq<byte>, bs: seq<IA>, wanted: nat, t: IaType) returns (ok: bool, ends: bool, asks: seq<Ask>)
    requires wanted > 0
    ensures ok <==> AllHaveAddrs(Selected(bs, t, wanted))
    ensures ok ==> (ends <==> |Selected(bs, t, wanted)| == wanted || exists i: nat :: !InUse(bs, t, Candidate(hw, i)))
    ensures ok && ends ==> |asks| == wanted && AsksFor(Selected(bs, t, wanted)) <= asks
    ensures ok && ends && Distinct(UsedIds(bs, t)) ==>
              (Distinct(Ids(asks)) <==> wanted - |Selected(bs, t, wanted)| <= FreeCount(hw, bs, t))
    ensures ok && wanted <= 256 ==> ends && (Distinct(UsedIds(bs, t)) ==> Distinct(Ids(asks)))
  {
    ghost var sel := Selected(bs, t, wanted);
    var added;
    ends := true;
    ok, asks, added := AddIA(bs, [], wanted, t);
    if !ok { return; }
    assert asks == AsksFor(sel);
    if wanted <= 256 { EnoughToEnd(hw, bs, t, wanted); }
    ends, asks := BareIA(hw, bs, asks, wanted - added, t);
    if !ends { return; }
    ghost var ids := Ids(asks[|sel|..]);
    if Distinct(UsedIds(bs, t)) { NewAndOld(hw, bs, t, wanted, ids); }
    assert asks == AsksFor(sel) + BareAsks(t, ids);
    IdsOfAsks(t, sel, ids);
  }

  lemma {:induction false} EnoughToEnd(hw: seq<byte>, bs: seq<IA>, t: IaType, wanted: nat)
    requires 0 < wanted <= 256
    ensures wanted - |Selected(bs, t, wanted)| <= FreeCount(hw, bs, t)
    ensures |Selected(bs, t, wanted)| < wanted ==> exists i: nat :: !InUse(bs, t, Candidate(hw, i))
  {
    EnoughFor256(hw, bs, t, wanted);
    if |Selected(bs, t, wanted)| < wanted {
      var i := SomeFree(hw, bs, t);
      assert !InUse(bs, t, Candidate(hw, i));
    }
  }

  lemma {:induction false} IdsOfAsks(t: IaType, sel: seq<IA>, ids: seq<seq<byte>>)
    ensures Ids(AsksFor(sel) + BareAsks(t, ids)) == IdsOf(sel) + ids
  {
  }

  /** New identifiers never equal those of the lease. */
  lemma {:induction false} NewAndOld(hw: seq<byte>, bs: seq<IA>, t: IaType, wanted: nat, ids: seq<seq<byte>>)
    requires Distinct(UsedIds(bs, t)) && AllFree(hw, bs, t, ids)
    ensures Distinct(IdsOf(Selected(bs, t, wanted)) + ids) <==> Distinct(ids)
  {
    SelectedDistinct(bs, t, wanted);
    forall id | id in ids ensures !InUse(bs, t, id) {
      var k :| 0 <= k < |ids| && ids[k] == id;
      assert IsFree(hw, bs, t, ids[k]);
    }
    DistinctBoth(IdsOf(Selected(bs, t, wanted)), ids);
  }
}
