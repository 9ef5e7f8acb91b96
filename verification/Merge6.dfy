/** client/dhc6.c: merging the bindings of an older lease into the one just received. */
module Merge6 {
  import opened Dhc6

  /** The IA has that type and identifier. */
  predicate SameIA(a: IA, b: IA) {
    a.iaType == b.iaType && a.iaid == b.iaid
  }

  /** Addresses are the same by address, prefixes by address and length. */
  predicate SameAddr(t: IaType, a: Addr, b: Addr) {
    a.address == b.address && (t == PD ==> a.plen == b.plen)
  }

  // ---- Searches ----

  function IndexOfIA(bs: seq<IA>, x: IA): (i: nat)
    ensures i <= |bs| && (i < |bs| ==> SameIA(bs[i], x)) && forall j :: 0 <= j < i ==> !SameIA(bs[j], x)
  {
    if bs == [] || SameIA(bs[0], x) then 0 else 1 + IndexOfIA(bs[1..], x)
  }

  predicate HasAddr(t: IaType, addrs: seq<Addr>, a: Addr) {
    exists i :: 0 <= i < |addrs| && SameAddr(t, addrs[i], a)
  }

  method FindIA(head: seq<IA>, x: IA) returns (i: nat)
    ensures i == IndexOfIA(head, x)
    ensures i < |head| ==> head[i].iaType == x.iaType && head[i].iaid == x.iaid
    ensures forall j :: 0 <= j < i ==> head[j].iaType != x.iaType || head[j].iaid != x.iaid
  {
    i := 0;
    while i < |head|
      invariant i <= |head| && forall j :: 0 <= j < i ==> !SameIA(head[j], x)
    {
      if SameIA(head[i], x) { return; }
      i := i + 1;
    }
  }

  /** find_addr and find_pref. */
  method FindAddr(t: IaType, head: seq<Addr>, a: Addr) returns (found: bool)
    ensures found == HasAddr(t, head, a)
    ensures found <==>
            exists i :: 0 <= i < |head| && head[i].address == a.address && (t == PD ==> head[i].plen == a.plen)
  {
    for i := 0 to |head|
      invariant forall j :: 0 <= j < i ==> !SameAddr(t, head[j], a)
    {
      if SameAddr(t, head[i], a) { return true; }
    }
    return false;
  }

  // ---- Merging ----

  function MergeAddrs(t: IaType, dst: seq<Addr>, src: seq<Addr>): (r: seq<Addr>) {
    if src == [] then dst
    else
      var r := MergeAddrs(t, dst, src[..|src| - 1]);
      if HasAddr(t, r, src[|src| - 1]) then r else [src[|src| - 1]] + r
  }

  function MergeIA(bs: seq<IA>, x: IA): (r: seq<IA>) {
    var i := IndexOfIA(bs, x);
    if i == |bs| then bs + [x] else bs[i := bs[i].(addrs := MergeAddrs(x.iaType, bs[i].addrs, x.addrs))]
  }

  function MergeAll(bs: seq<IA>, src: seq<IA>): (r: seq<IA>) {
    if src == [] then bs else MergeIA(MergeAll(bs, src[..|src| - 1]), src[|src| - 1])
  }

  /** The lease that a merge leaves: the score is reset exactly when the bindings changed. */
  function Merged(src: Lease, dst: Lease): (r: Lease) {
    var bs := MergeAll(dst.bindings, src.bindings);
    dst.(bindings := bs, score := if bs == dst.bindings then dst.score else 0)
  }

  lemma {:induction false} MergeAddrsGrows(t: IaType, dst: seq<Addr>, src: seq<Addr>)
    ensures var r := MergeAddrs(t, dst, src);
            |r| >= |dst| && r[|r| - |dst|..] == dst && (|r| == |dst| ==> r == dst)
  {
    if src != [] {
      var r := MergeAddrs(t, dst, src[..|src| - 1]);
      MergeAddrsGrows(t, dst, src[..|src| - 1]);
      SameEnd(src[|src| - 1], r, |r| - |dst|);
    }
  }

  lemma {:induction false} SameEnd(x: Addr, r: seq<Addr>, n: nat)
    requires n <= |r|
    ensures ([x] + r)[n + 1..] == r[n..]
  {
  }

  method MergeAddrList(t: IaType, dst: seq<Addr>, src: seq<Addr>) returns (addrs: seq<Addr>, changes: bool)
    ensures addrs == MergeAddrs(t, dst, src) && changes == (addrs != dst)
  {
    addrs, changes := dst, false;
    for i := 0 to |src|
      invariant addrs == MergeAddrs(t, dst, src[..i]) && changes == (|addrs| != |dst|) && |addrs| >= |dst|
    {
      assert src[..i + 1][..i] == src[..i];
      var found := FindAddr(t, addrs, src[i]);
      if !found { addrs, changes := [src[i]] + addrs, true; }
    }
    assert src[..|src|] == src;
    MergeAddrsGrows(t, dst, src);
  }

  method MergeLease(src: Lease, dst: Lease) returns (dst': Lease)
    ensures dst' == Merged(src, dst)
    ensures if dst'.bindings == dst.bindings then dst' == dst else dst' == dst.(bindings := dst'.bindings, score := 0)
  {
    var bs, changes := dst.bindings, false;
    for i := 0 to |src.bindings|
      invariant bs == MergeAll(dst.bindings, src.bindings[..i])
      invariant changes == (bs != dst.bindings)
    {
      assert src.bindings[..i + 1][..i] == src.bindings[..i];
      var sia := src.bindings[i];
      ghost var before := bs;
      var d := FindIA(bs, sia);
      if d == |bs| {
        bs, changes := bs + [sia], true;
      } else {
        var addrs, c := MergeAddrList(sia.iaType, bs[d].addrs, sia.addrs);
        bs := bs[d := bs[d].(addrs := addrs)];
        changes := changes || c;
      }
      assert bs == MergeIA(before, sia);
      ChangesStay(dst.bindings, src.bindings[..i], sia);
    }
    assert src.bindings[..|src.bindings|] == src.bindings;
    dst' := dst.(bindings := bs);
    if changes { dst' := dst'.(score := 0); }
  }

  // ---- What is kept ----

  /** The IA has only gained addresses, in front. */
  predicate Grown(a: IA, b: IA) {
    && b.(addrs := a.addrs) == a
    && |b.addrs| >= |a.addrs| && b.addrs[|b.addrs| - |a.addrs|..] == a.addrs
  }

  /** Every IA is still there, in its place and with its addresses; new ones come behind. */
  predicate Keeps(bs: seq<IA>, bs': seq<IA>) {
    |bs| <= |bs'| && forall i :: 0 <= i < |bs| ==> Grown(bs[i], bs'[i])
  }

  lemma {:induction false} MergeIAKeeps(bs: seq<IA>, x: IA)
    ensures Keeps(bs, MergeIA(bs, x))
  {
    var i := IndexOfIA(bs, x);
    if i < |bs| { MergeAddrsGrows(x.iaType, bs[i].addrs, x.addrs); }
  }

  lemma {:induction false} GrownTwice(a: IA, b: IA, c: IA)
    requires Grown(a, b) && Grown(b, c)
    ensures Grown(a, c)
  {
    assert c.addrs[|c.addrs| - |a.addrs|..] == c.addrs[|c.addrs| - |b.addrs|..][|b.addrs| - |a.addrs|..];
  }

  lemma {:induction false} KeepsTwice(a: seq<IA>, b: seq<IA>, c: seq<IA>)
    requires Keeps(a, b) && Keeps(b, c)
    ensures Keeps(a, c) && (a == c ==> a == b)
  {
    forall i | 0 <= i < |a| ensures Grown(a[i], c[i]) && (a == c ==> a[i] == b[i]) {
      GrownTwice(a[i], b[i], c[i]);
    }
  }

  lemma {:induction false} MergeKeeps(bs: seq<IA>, src: seq<IA>)
    ensures Keeps(bs, MergeAll(bs, src))
  {
    if src != [] {
      var mid := MergeAll(bs, src[..|src| - 1]);
      MergeKeeps(bs, src[..|src| - 1]);
      MergeIAKeeps(mid, src[|src| - 1]);
      KeepsTwice(bs, mid, MergeAll(bs, src));
    }
  }

  /** A change is never undone. */
  lemma {:induction false} ChangesStay(bs: seq<IA>, src: seq<IA>, x: IA)
    ensures MergeIA(MergeAll(bs, src), x) == bs ==> MergeAll(bs, src) == bs
  {
    MergeKeeps(bs, src);
    MergeIAKeeps(MergeAll(bs, src), x);
    KeepsTwice(bs, MergeAll(bs, src), MergeIA(MergeAll(bs, src), x));
  }

  /** No two IAs have the same type and identifier. */
  predicate DistinctIAs(bs: seq<IA>) {
    forall i, j :: 0 <= i < j < |bs| ==> !SameIA(bs[i], bs[j])
  }

  lemma {:induction false} MergeDistinct(bs: seq<IA>, src: seq<IA>)
    requires DistinctIAs(bs)
    ensures DistinctIAs(MergeAll(bs, src))
  {
    if src != [] { MergeDistinct(bs, src[..|src| - 1]); }
  }

  // ---- What is gained ----

  /** The bindings hold the IA and all its addresses. */
  predicate Covers(bs: seq<IA>, x: IA) {
    var i := IndexOfIA(bs, x);
    i < |bs| && forall a :: a in x.addrs ==> HasAddr(x.iaType, bs[i].addrs, a)
  }

  lemma {:induction false} MergeAddrsHas(t: IaType, dst: seq<Addr>, src: seq<Addr>)
    ensures forall a :: a in src || HasAddr(t, dst, a) ==> HasAddr(t, MergeAddrs(t, dst, src), a)
  {
    if src != [] {
      var r, n := MergeAddrs(t, dst, src[..|src| - 1]), |src| - 1;
      MergeAddrsHas(t, dst, src[..n]);
      assert src == src[..n] + [src[n]];
      forall a | a in src || HasAddr(t, dst, a) ensures HasAddr(t, MergeAddrs(t, dst, src), a) {
        if HasAddr(t, r, a) {
          HasAddrBehind(t, src[n], r, a);
        } else {
          assert a == src[n] && ([a] + r)[0] == a;
        }
      }
    }
  }

  lemma {:induction false} HasAddrBehind(t: IaType, x: Addr, r: seq<Addr>, a: Addr)
    requires HasAddr(t, r, a)
    ensures HasAddr(t, [x] + r, a)
  {
    var i :| 0 <= i < |r| && SameAddr(t, r[i], a);
    assert ([x] + r)[i + 1] == r[i];
  }

  lemma {:induction false} SameIndex(bs: seq<IA>, bs': seq<IA>, y: IA)
    requires |bs| <= |bs'| && forall j :: 0 <= j < |bs| ==> (SameIA(bs[j], y) <==> SameIA(bs'[j], y))
    ensures IndexOfIA(bs, y) < |bs| ==> IndexOfIA(bs', y) == IndexOfIA(bs, y)
  {
    if bs != [] && !SameIA(bs[0], y) {
      assert forall j :: 0 <= j < |bs| - 1 ==> bs[1..][j] == bs[j + 1] && bs'[1..][j] == bs'[j + 1];
      SameIndex(bs[1..], bs'[1..], y);
    }
  }

  /** The places of IAs do not change. */
  lemma {:induction false} SamePlace(bs: seq<IA>, x: IA, y: IA)
    ensures IndexOfIA(bs, y) < |bs| ==> IndexOfIA(MergeIA(bs, x), y) == IndexOfIA(bs, y)
  {
    MergeIAKeeps(bs, x);
    assert forall j :: 0 <= j < |bs| ==> Grown(bs[j], MergeIA(bs, x)[j]);
    SameIndex(bs, MergeIA(bs, x), y);
  }

  lemma {:induction false} MergeIACovers(bs: seq<IA>, x: IA, y: IA)
    requires y == x || Covers(bs, y)
    ensures Covers(MergeIA(bs, x), y)
  {
    var i, j, bs' := IndexOfIA(bs, x), IndexOfIA(bs, y), MergeIA(bs, x);
    if i < |bs| { MergeAddrsHas(x.iaType, bs[i].addrs, x.addrs); }
    if j < |bs| {
      SamePlace(bs, x, y);
    } else {
      assert bs' == bs + [x] && bs'[|bs|] == x;
      assert SameIA(bs'[|bs|], x) && forall k :: 0 <= k < |bs| ==> bs'[k] == bs[k];
      assert IndexOfIA(bs', x) == |bs|;
      forall a | a in x.addrs ensures HasAddr(x.iaType, x.addrs, a) { }
    }
  }

  /** Every source IA and address is there afterwards. */
  lemma {:induction false} MergeCovers(bs: seq<IA>, src: seq<IA>)
    ensures forall x :: x in src ==> Covers(MergeAll(bs, src), x)
  {
    if src != [] {
      var n := |src| - 1;
      MergeCovers(bs, src[..n]);
      assert src == src[..n] + [src[n]];
      forall x | x in src ensures Covers(MergeAll(bs, src), x) {
        MergeIACovers(MergeAll(bs, src[..n]), src[n], x);
      }
    }
  }

  // ---- Nothing is invented ----

  /** The address was in the IA's own place before, or is one of a source IA of the same type and identifier. */
  predicate Traced(bs: seq<IA>, src: seq<IA>, bs': seq<IA>, i: nat, a: Addr)
    requires i < |bs'|
  {
    (i < |bs| && a in bs[i].addrs) || exists x :: x in src && SameIA(x, bs'[i]) && a in x.addrs
  }

  /** Apart from its addresses, a new IA is one of the source. */
  predicate Copied(src: seq<IA>, b: IA) {
    exists x :: x in src && b.(addrs := x.addrs) == x
  }

  predicate NothingInvented(bs: seq<IA>, src: seq<IA>, bs': seq<IA>) {
    && (forall i, a :: 0 <= i < |bs'| && a in bs'[i].addrs ==> Traced(bs, src, bs', i, a))
    && forall i :: |bs| <= i < |bs'| ==> Copied(src, bs'[i])
  }

  lemma {:induction false} MergeAddrsFrom(t: IaType, dst: seq<Addr>, src: seq<Addr>)
    ensures forall a :: a in MergeAddrs(t, dst, src) ==> a in dst || a in src
  {
    if src != [] { MergeAddrsFrom(t, dst, src[..|src| - 1]); }
  }

  lemma {:induction false} MergeInventsNothing(bs: seq<IA>, src: seq<IA>)
    ensures NothingInvented(bs, src, MergeAll(bs, src))
  {
    if src != [] {
      var n := |src| - 1;
      var mid, r, x := MergeAll(bs, src[..n]), MergeAll(bs, src), src[n];
      MergeInventsNothing(bs, src[..n]);
      MergeKeeps(bs, src[..n]);
      MergeIAKeeps(mid, x);
      assert forall y :: y in src[..n] ==> y in src;
      forall i, a | 0 <= i < |r| && a in r[i].addrs ensures Traced(bs, src, r, i, a) {
        if i < |mid| {
          assert Grown(mid[i], r[i]);
          MergeAddrsFrom(x.iaType, mid[i].addrs, x.addrs);
          if a in mid[i].addrs { assert Traced(bs, src[..n], mid, i, a); }
        }
      }
      forall i | |bs| <= i < |r| ensures Copied(src, r[i]) {
        if i < |mid| {
          assert Grown(mid[i], r[i]) && Copied(src[..n], mid[i]);
        }
      }
    }
  }

  // ---- Once is enough ----

  lemma {:induction false} MergeAddrsCovered(t: IaType, dst: seq<Addr>, src: seq<Addr>)
    requires forall a :: a in src ==> HasAddr(t, dst, a)
    ensures MergeAddrs(t, dst, src) == dst
  {
    if src != [] { MergeAddrsCovered(t, dst, src[..|src| - 1]); }
  }

  lemma {:induction false} MergeCovered(bs: seq<IA>, src: seq<IA>)
    requires forall x :: x in src ==> Covers(bs, x)
    ensures MergeAll(bs, src) == bs
  {
    if src != [] {
      var n := |src| - 1;
      MergeCovered(bs, src[..n]);
      assert Covers(bs, src[n]);
      MergeAddrsCovered(src[n].iaType, bs[IndexOfIA(bs, src[n])].addrs, src[n].addrs);
    }
  }

  /** Merging the same lease a second time changes nothing, not even the score. */
  lemma {:induction false} MergeTwice(src: Lease, dst: Lease)
    ensures Merged(src, Merged(src, dst)) == Merged(src, dst)
  {
    MergeCovers(dst.bindings, src.bindings);
    MergeCovered(MergeAll(dst.bindings, src.bindings), src.bindings);
  }
}
