/** What is written of a DHCPv6 lease is read back as the same lease, exactly when the lease is canonical. */
module LeaseRoundTrip {
  import opened Wrappers
  import opened Bytes
  import opened Dhc6
  import opened LeaseText

  lemma Assoc<T>(a: seq<T>, b: seq<T>, c: seq<T>)
    ensures (a + b) + c == a + (b + c)
  {
  }

  // ---- Reading single statements ----

  /** Options saved one after the other. */
  function Saved(base: Options, o: Options, keys: seq<nat>): (r: Options)
    decreases |keys|
  {
    if keys == [] then base
    else if keys[0] !in o then Saved(base, o, keys[1..])
    else Saved(base[keys[0] := o[keys[0]]], o, keys[1..])
  }

  lemma {:induction false} SavedMeans(base: Options, o: Options, keys: seq<nat>)
    requires forall c :: c in base ==> c in o && base[c] == o[c]
    ensures var r := Saved(base, o, keys);
            && (forall c :: c in r ==> c in o && r[c] == o[c])
            && (forall c :: c in base || (c in keys && c in o) ==> c in r)
    decreases |keys|
  {
    if keys != [] {
      var next := if keys[0] in o then base[keys[0] := o[keys[0]]] else base;
      SavedMeans(next, o, keys[1..]);
    }
  }

  lemma {:induction false} SavedAll(o: Options, keys: seq<nat>)
    requires Lists(keys, o)
    ensures Saved(map[], o, keys) == o
  {
    SavedMeans(map[], o, keys);
  }

  lemma {:induction false} NumberRead(n: nat, r: seq<Token>, atoi: nat -> int)
    ensures NumberLine([NUMBER(n), SEMI] + r, atoi) == Parsed(Some(atoi(n)), r)
  {
    assert ([NUMBER(n), SEMI] + r)[1..] == [SEMI] + r;
  }

  lemma {:induction false} OptionRead(c: nat, data: seq<byte>, r: seq<Token>, o: Options)
    ensures OptionLine(([OPTION, DECL(c, data)] + r)[1..], o) == Parsed(o[c := data], r)
  {
    assert ([OPTION, DECL(c, data)] + r)[1..] == [DECL(c, data)] + r;
  }

  lemma {:induction false} OptionsSplit(o: Options, keys: seq<nat>, r: seq<Token>)
    requires keys != [] && keys[0] in o
    ensures PrintOptions(o, keys) + r == [OPTION, DECL(keys[0], o[keys[0]])] + (PrintOptions(o, keys[1..]) + r)
  {
  }

  lemma {:induction false} AddrLine(k: Token, n: nat, r: seq<Token>, a: Addr, atoi: nat -> int)
    requires k in {STARTS, PREFERRED_LIFE, MAX_LIFE}
    ensures AddrLoop(Line(k, n) + r, a, atoi) == AddrLoop(r,
              match k
              case STARTS => a.(starts := atoi(n))
              case PREFERRED_LIFE => a.(preferred := AsU32(atoi(n)))
              case _ => a.(maxLife := AsU32(atoi(n))), atoi)
  {
    var ts := Line(k, n) + r;
    assert ts[0] == k && ts[1..] == [NUMBER(n), SEMI] + r;
    NumberRead(n, r, atoi);
  }

  lemma {:induction false} AddrOption(c: nat, data: seq<byte>, r: seq<Token>, a: Addr, atoi: nat -> int)
    ensures AddrLoop([OPTION, DECL(c, data)] + r, a, atoi) == AddrLoop(r, a.(options := a.options[c := data]), atoi)
  {
    OptionRead(c, data, r, a.options);
    assert ([OPTION, DECL(c, data)] + r)[0] == OPTION;
  }

  lemma {:induction false} AddrOptions(keys: seq<nat>, o: Options, r: seq<Token>, a: Addr, atoi: nat -> int)
    ensures AddrLoop(PrintOptions(o, keys) + r, a, atoi)
            == AddrLoop(r, a.(options := Saved(a.options, o, keys)), atoi)
    decreases |keys|
  {
    if keys == [] {
      assert PrintOptions(o, keys) + r == r;
    } else if keys[0] !in o {
      AddrOptions(keys[1..], o, r, a, atoi);
    } else {
      OptionsSplit(o, keys, r);
      AddrOption(keys[0], o[keys[0]], PrintOptions(o, keys[1..]) + r, a, atoi);
      AddrOptions(keys[1..], o, r, a.(options := a.options[keys[0] := o[keys[0]]]), atoi);
    }
  }

  // ---- Addresses and prefixes ----

  /** The parts of an address that the text keeps. */
  predicate AddrShape(t: IaType, a: Addr) {
    && |a.address| == 16 && !a.depreffed && !a.expired
    && if t == PD then PrefixOk(a.address, a.plen) else a.plen == 0
  }

  /** The address with its lifetimes read as numbers. */
  function ReadAddr(a: Addr, atoi: nat -> int): (r: Addr) {
    a.(preferred := AsU32(atoi(a.preferred)), maxLife := AsU32(atoi(a.maxLife)))
  }

  predicate InRange(starts: int) {
    0 <= starts <= INT_MAX
  }

  lemma {:induction false} AddrBodyRead(a: Addr, keys: seq<nat>, r: seq<Token>, atoi: nat -> int)
    requires InRange(a.starts) && ReadsInts(atoi) && Lists(keys, a.options) && !a.depreffed && !a.expired
    ensures AddrLoop(Line(STARTS, a.starts) + (Line(PREFERRED_LIFE, a.preferred) + (Line(MAX_LIFE, a.maxLife)
              + (PrintOptions(a.options, keys) + ([RBRACE] + r)))), NewAddr(a.address, a.plen), atoi)
            == Parsed(ReadAddr(a, atoi), r)
  {
    var t3 := PrintOptions(a.options, keys) + ([RBRACE] + r);
    var t2 := Line(MAX_LIFE, a.maxLife) + t3;
    var t1 := Line(PREFERRED_LIFE, a.preferred) + t2;
    var a0 := NewAddr(a.address, a.plen);
    var a1 := a0.(starts := a.starts);
    var a2 := a1.(preferred := AsU32(atoi(a.preferred)));
    var a3 := a2.(maxLife := AsU32(atoi(a.maxLife)));
    AddrLine(STARTS, a.starts, t1, a0, atoi);
    AddrLine(PREFERRED_LIFE, a.preferred, t2, a1, atoi);
    AddrLine(MAX_LIFE, a.maxLife, t3, a2, atoi);
    AddrOptions(keys, a.options, [RBRACE] + r, a3, atoi);
    SavedAll(a.options, keys);
    assert ([RBRACE] + r)[1..] == r;
  }

  /** The text of an address behind its keyword. */
  function AddrTail(a: Addr, keys: seq<nat>, r: seq<Token>): (ts: seq<Token>)
    requires a.starts >= 0
  {
    Line(STARTS, a.starts) + (Line(PREFERRED_LIFE, a.preferred) + (Line(MAX_LIFE, a.maxLife)
    + (PrintOptions(a.options, keys) + ([RBRACE] + r))))
  }

  lemma {:induction false} PrintAddrSplit(t: IaType, a: Addr, order: Options -> seq<nat>, r: seq<Token>)
    requires a.starts >= 0
    ensures PrintAddr(t, a, order) + r ==
            (if t == PD then [IAPREFIX, IP6(a.address), SLASH, NUMBER(a.plen), LBRACE]
             else [IAADDR, IP6(a.address), LBRACE]) + AddrTail(a, order(a.options), r)
  {
  }

  lemma {:induction false} AddrRead(t: IaType, a: Addr, order: Options -> seq<nat>, r: seq<Token>, atoi: nat -> int)
    requires t != PD && AddrShape(t, a) && InRange(a.starts) && Order(order) && ReadsInts(atoi)
    ensures var ts := PrintAddr(t, a, order) + r;
            ts != [] && ts[0] == IAADDR && ParseAddr(ts[1..], atoi) == Parsed(Some(ReadAddr(a, atoi)), r)
  {
    var tail := AddrTail(a, order(a.options), r);
    PrintAddrSplit(t, a, order, r);
    var ts := [IAADDR, IP6(a.address), LBRACE] + tail;
    assert ts[1..] == [IP6(a.address), LBRACE] + tail && ts[1..][2..] == tail;
    AddrBodyRead(a, order(a.options), r, atoi);
  }

  lemma {:induction false} PrefixRead(a: Addr, order: Options -> seq<nat>, r: seq<Token>, atoi: nat -> int)
    requires AddrShape(PD, a) && InRange(a.starts) && Order(order) && ReadsInts(atoi)
    ensures var ts := PrintAddr(PD, a, order) + r;
            ts != [] && ts[0] == IAPREFIX && ParseIaPrefix(ts[1..], atoi) == Parsed(Some(ReadAddr(a, atoi)), r)
  {
    var tail := AddrTail(a, order(a.options), r);
    PrefixTokens(a, order, r);
    ValidPrefix(a.address, a.plen, [LBRACE] + tail, atoi);
    assert ([LBRACE] + tail)[1..] == tail;
    AddrBodyRead(a, order(a.options), r, atoi);
  }

  lemma {:induction false} PrefixTokens(a: Addr, order: Options -> seq<nat>, r: seq<Token>)
    requires a.starts >= 0
    ensures var ts := PrintAddr(PD, a, order) + r;
            && ts != [] && ts[0] == IAPREFIX
            && ts[1..] == [IP6(a.address), SLASH, NUMBER(a.plen)] + ([LBRACE] + AddrTail(a, order(a.options), r))
  {
    PrintAddrSplit(PD, a, order, r);
  }

  lemma {:induction false} ValidPrefix(address: seq<byte>, plen: nat, r: seq<Token>, atoi: nat -> int)
    requires PrefixOk(address, plen) && ReadsInts(atoi)
    ensures ParsePrefix([IP6(address), SLASH, NUMBER(plen)] + r, atoi) == Parsed(Some(NewAddr(address, plen)), r)
  {
    assert ([IP6(address), SLASH, NUMBER(plen)] + r)[3..] == r;
  }

  // ---- IAs ----

  function ReadAddrs(addrs: seq<Addr>, atoi: nat -> int): (r: seq<Addr>) {
    if addrs == [] then [] else [ReadAddr(addrs[0], atoi)] + ReadAddrs(addrs[1..], atoi)
  }

  predicate AddrsShape(t: IaType, addrs: seq<Addr>) {
    forall i :: 0 <= i < |addrs| ==> AddrShape(t, addrs[i])
  }

  predicate AddrsInRange(addrs: seq<Addr>) {
    forall i :: 0 <= i < |addrs| ==> InRange(addrs[i].starts)
  }

  lemma {:induction false} OneAddrRead(a: Addr, order: Options -> seq<nat>, r: seq<Token>, ia: IA, atoi: nat -> int)
    requires AddrShape(ia.iaType, a) && InRange(a.starts) && Order(order) && ReadsInts(atoi)
    ensures IaLoop(PrintAddr(ia.iaType, a, order) + r, ia, atoi)
            == IaLoop(r, ia.(addrs := ia.addrs + [ReadAddr(a, atoi)]), atoi)
  {
    if ia.iaType == PD { PrefixRead(a, order, r, atoi); } else { AddrRead(ia.iaType, a, order, r, atoi); }
  }

  lemma {:induction false} AddrsRead(addrs: seq<Addr>, order: Options -> seq<nat>, r: seq<Token>, ia: IA,
                                     atoi: nat -> int)
    requires AddrsShape(ia.iaType, addrs) && AddrsInRange(addrs) && Order(order) && ReadsInts(atoi)
    ensures IaLoop(PrintAddrs(ia.iaType, addrs, order) + r, ia, atoi)
            == IaLoop(r, ia.(addrs := ia.addrs + ReadAddrs(addrs, atoi)), atoi)
    decreases |addrs|
  {
    var t := ia.iaType;
    if addrs == [] {
      assert PrintAddrs(t, addrs, order) + r == r && ia.addrs + ReadAddrs(addrs, atoi) == ia.addrs;
    } else {
      var rest := PrintAddrs(t, addrs[1..], order) + r;
      Assoc(PrintAddr(t, addrs[0], order), PrintAddrs(t, addrs[1..], order), r);
      OneAddrRead(addrs[0], order, rest, ia, atoi);
      var next := ia.(addrs := ia.addrs + [ReadAddr(addrs[0], atoi)]);
      Assoc(ia.addrs, [ReadAddr(addrs[0], atoi)], ReadAddrs(addrs[1..], atoi));
      AddrsRead(addrs[1..], order, r, next, atoi);
    }
  }

  lemma {:induction false} IaLine(k: Token, n: nat, r: seq<Token>, ia: IA, atoi: nat -> int)
    requires k == STARTS || (k in {RENEW, REBIND} && ia.iaType != TA)
    ensures IaLoop(Line(k, n) + r, ia, atoi) == IaLoop(r,
              match k
              case STARTS => ia.(starts := atoi(n))
              case RENEW => ia.(renew := AsU32(atoi(n)))
              case _ => ia.(rebind := AsU32(atoi(n))), atoi)
  {
    var ts := Line(k, n) + r;
    assert ts[0] == k && ts[1..] == [NUMBER(n), SEMI] + r;
    NumberRead(n, r, atoi);
  }

  lemma {:induction false} IaOption(c: nat, data: seq<byte>, r: seq<Token>, ia: IA, atoi: nat -> int)
    ensures IaLoop([OPTION, DECL(c, data)] + r, ia, atoi) == IaLoop(r, ia.(options := ia.options[c := data]), atoi)
  {
    OptionRead(c, data, r, ia.options);
    assert ([OPTION, DECL(c, data)] + r)[0] == OPTION;
  }

  lemma {:induction false} IaOptions(keys: seq<nat>, o: Options, r: seq<Token>, ia: IA, atoi: nat -> int)
    ensures IaLoop(PrintOptions(o, keys) + r, ia, atoi)
            == IaLoop(r, ia.(options := Saved(ia.options, o, keys)), atoi)
    decreases |keys|
  {
    if keys == [] {
      assert PrintOptions(o, keys) + r == r;
    } else if keys[0] !in o {
      IaOptions(keys[1..], o, r, ia, atoi);
    } else {
      OptionsSplit(o, keys, r);
      IaOption(keys[0], o[keys[0]], PrintOptions(o, keys[1..]) + r, ia, atoi);
      IaOptions(keys[1..], o, r, ia.(options := ia.options[keys[0] := o[keys[0]]]), atoi);
    }
  }

  predicate IaShape(ia: IA) {
    |ia.iaid| == 4 && AddrsShape(ia.iaType, ia.addrs) && (ia.iaType == TA ==> ia.renew == 0 && ia.rebind == 0)
  }

  predicate IaInRange(ia: IA) {
    InRange(ia.starts) && AddrsInRange(ia.addrs)
  }

  function ReadIA(ia: IA, atoi: nat -> int): (r: IA) {
    var x := ia.(addrs := ReadAddrs(ia.addrs, atoi));
    if ia.iaType == TA then x else x.(renew := AsU32(atoi(ia.renew)), rebind := AsU32(atoi(ia.rebind)))
  }

  /** The text of an IA behind its times, and behind its addresses. */
  function IaMid(ia: IA, order: Options -> seq<nat>, r: seq<Token>): (ts: seq<Token>)
    requires Printable(ia)
  {
    PrintAddrs(ia.iaType, ia.addrs, order) + IaEnd(ia, order, r)
  }

  function IaEnd(ia: IA, order: Options -> seq<nat>, r: seq<Token>): (ts: seq<Token>) {
    PrintOptions(ia.options, order(ia.options)) + ([RBRACE] + r)
  }

  function IaTimes(ia: IA, rest: seq<Token>): (ts: seq<Token>) {
    if ia.iaType == TA then rest else Line(RENEW, ia.renew) + (Line(REBIND, ia.rebind) + rest)
  }

  lemma {:induction false} PrintIaSplit(ia: IA, order: Options -> seq<nat>, r: seq<Token>)
    requires Printable(ia)
    ensures PrintIA(ia, order) + r ==
            [Keyword(ia.iaType), IAID(ia.iaid), LBRACE]
            + (Line(STARTS, ia.starts) + IaTimes(ia, IaMid(ia, order, r)))
  {
    var head, starts := [Keyword(ia.iaType), IAID(ia.iaid), LBRACE], Line(STARTS, ia.starts);
    var times := if ia.iaType == TA then [] else Line(RENEW, ia.renew) + Line(REBIND, ia.rebind);
    var addrs, opts := PrintAddrs(ia.iaType, ia.addrs, order), PrintOptions(ia.options, order(ia.options));
    assert (opts + [RBRACE]) + r == IaEnd(ia, order, r);
    Assoc(addrs, opts + [RBRACE], r);
    Assoc(times, addrs + (opts + [RBRACE]), r);
    assert times + IaMid(ia, order, r) == IaTimes(ia, IaMid(ia, order, r));
    Assoc(starts, times + (addrs + (opts + [RBRACE])), r);
    Assoc(head, starts + (times + (addrs + (opts + [RBRACE]))), r);
  }

  lemma {:induction false} IaTimesRead(ia: IA, rest: seq<Token>, x: IA, atoi: nat -> int)
    requires x.iaType == ia.iaType
    ensures IaLoop(IaTimes(ia, rest), x, atoi) == IaLoop(rest,
              if ia.iaType == TA then x
              else x.(renew := AsU32(atoi(ia.renew)), rebind := AsU32(atoi(ia.rebind))), atoi)
  {
    if ia.iaType != TA {
      IaLine(RENEW, ia.renew, Line(REBIND, ia.rebind) + rest, x, atoi);
      IaLine(REBIND, ia.rebind, rest, x.(renew := AsU32(atoi(ia.renew))), atoi);
    }
  }

  lemma {:induction false} IaEndRead(ia: IA, order: Options -> seq<nat>, r: seq<Token>, x: IA, atoi: nat -> int)
    requires Order(order) && x.options == map[]
    ensures IaLoop(IaEnd(ia, order, r), x, atoi) == Parsed(x.(options := ia.options), r)
  {
    var keys := order(ia.options);
    IaOptions(keys, ia.options, [RBRACE] + r, x, atoi);
    SavedAll(ia.options, keys);
    assert ([RBRACE] + r)[1..] == r;
  }

  lemma {:induction false} IaMidRead(ia: IA, order: Options -> seq<nat>, r: seq<Token>, x: IA, atoi: nat -> int)
    requires IaShape(ia) && IaInRange(ia) && Order(order) && ReadsInts(atoi)
    requires x.iaType == ia.iaType && x.addrs == [] && x.options == map[]
    ensures IaLoop(IaMid(ia, order, r), x, atoi)
            == Parsed(x.(addrs := ReadAddrs(ia.addrs, atoi), options := ia.options), r)
  {
    var x' := x.(addrs := ReadAddrs(ia.addrs, atoi));
    AddrsRead(ia.addrs, order, IaEnd(ia, order, r), x, atoi);
    assert x.addrs + ReadAddrs(ia.addrs, atoi) == x'.addrs;
    IaEndRead(ia, order, r, x', atoi);
  }

  lemma {:induction false} IaBodyRead(ia: IA, order: Options -> seq<nat>, r: seq<Token>, atoi: nat -> int)
    requires IaShape(ia) && IaInRange(ia) && Order(order) && ReadsInts(atoi)
    ensures IaLoop(Line(STARTS, ia.starts) + IaTimes(ia, IaMid(ia, order, r)), NewIA(ia.iaType, ia.iaid), atoi)
            == Parsed(ReadIA(ia, atoi), r)
  {
    var x0 := NewIA(ia.iaType, ia.iaid);
    var x1 := x0.(starts := ia.starts);
    var x2 := if ia.iaType == TA then x1 else x1.(renew := AsU32(atoi(ia.renew)), rebind := AsU32(atoi(ia.rebind)));
    IaLine(STARTS, ia.starts, IaTimes(ia, IaMid(ia, order, r)), x0, atoi);
    IaTimesRead(ia, IaMid(ia, order, r), x1, atoi);
    IaMidRead(ia, order, r, x2, atoi);
  }

  lemma {:induction false} IaRead(ia: IA, order: Options -> seq<nat>, r: seq<Token>, atoi: nat -> int)
    requires IaShape(ia) && IaInRange(ia) && Order(order) && ReadsInts(atoi)
    ensures var ts := PrintIA(ia, order) + r;
            && ts != [] && ts[0] == Keyword(ia.iaType)
            && ParseIA(ts[1..], ia.iaType, atoi) == Parsed(Some(ReadIA(ia, atoi)), r)
  {
    var tail := Line(STARTS, ia.starts) + IaTimes(ia, IaMid(ia, order, r));
    PrintIaSplit(ia, order, r);
    IaHeadRead(Keyword(ia.iaType), ia.iaid, tail, ia.iaType, atoi);
    IaBodyRead(ia, order, r, atoi);
  }

  lemma {:induction false} IaHeadRead(k: Token, iaid: seq<byte>, tail: seq<Token>, t: IaType, atoi: nat -> int)
    requires |iaid| == 4
    ensures var ts, p := [k, IAID(iaid), LBRACE] + tail, IaLoop(tail, NewIA(t, iaid), atoi);
            ts[0] == k && ParseIA(ts[1..], t, atoi) == Parsed(Some(p.value), p.rest)
  {
    var ts := [k, IAID(iaid), LBRACE] + tail;
    assert ts[1..] == [IAID(iaid), LBRACE] + tail && ts[1..][2..] == tail;
  }

  // ---- The lease ----

  lemma {:induction false} OneIaRead(ia: IA, order: Options -> seq<nat>, r: seq<Token>, d: Draft, known: Interfaces,
                                     atoi: nat -> int)
    requires IaShape(ia) && IaInRange(ia) && Order(order) && ReadsInts(atoi)
    ensures LeaseLoop(PrintIA(ia, order) + r, d, known, atoi)
            == LeaseLoop(r, AddIA(d, Some(ReadIA(ia, atoi))), known, atoi)
  {
    IaRead(ia, order, r, atoi);
    IaKeyword(PrintIA(ia, order) + r, ia.iaType, d, known, atoi);
  }

  lemma {:induction false} IaKeyword(ts: seq<Token>, t: IaType, d: Draft, known: Interfaces, atoi: nat -> int)
    requires ts != [] && ts[0] == Keyword(t)
    ensures var p := ParseIA(ts[1..], t, atoi);
            LeaseLoop(ts, d, known, atoi) == LeaseLoop(p.rest, AddIA(d, p.value), known, atoi)
  {
  }

  function ReadIAs(ias: seq<IA>, atoi: nat -> int): (r: seq<IA>)
    ensures |r| == |ias|
  {
    if ias == [] then [] else [ReadIA(ias[0], atoi)] + ReadIAs(ias[1..], atoi)
  }

  predicate IasShape(ias: seq<IA>) {
    forall i :: 0 <= i < |ias| ==> IaShape(ias[i])
  }

  predicate IasInRange(ias: seq<IA>) {
    forall i :: 0 <= i < |ias| ==> IaInRange(ias[i])
  }

  function AddIAs(d: Draft, ias: seq<IA>): (r: Draft) {
    d.(lease := d.lease.(bindings := d.lease.bindings + ias))
  }

  lemma {:induction false} IasRead(ias: seq<IA>, order: Options -> seq<nat>, r: seq<Token>, d: Draft,
                                   known: Interfaces, atoi: nat -> int)
    requires IasShape(ias) && IasInRange(ias) && Order(order) && ReadsInts(atoi)
    ensures LeaseLoop(PrintIAs(ias, order) + r, d, known, atoi)
            == LeaseLoop(r, AddIAs(d, ReadIAs(ias, atoi)), known, atoi)
    decreases |ias|
  {
    if ias == [] {
      assert PrintIAs(ias, order) + r == r && AddIAs(d, ReadIAs(ias, atoi)) == d;
    } else {
      var x := ReadIA(ias[0], atoi);
      Assoc(PrintIA(ias[0], order), PrintIAs(ias[1..], order), r);
      OneIaRead(ias[0], order, PrintIAs(ias[1..], order) + r, d, known, atoi);
      Assoc(d.lease.bindings, [x], ReadIAs(ias[1..], atoi));
      IasRead(ias[1..], order, r, AddIA(d, Some(x)), known, atoi);
    }
  }

  lemma {:induction false} LeaseOption(c: nat, data: seq<byte>, r: seq<Token>, d: Draft, known: Interfaces,
                                       atoi: nat -> int)
    ensures LeaseLoop([OPTION, DECL(c, data)] + r, d, known, atoi)
            == LeaseLoop(r, d.(lease := d.lease.(options := d.lease.options[c := data])), known, atoi)
  {
    OptionRead(c, data, r, d.lease.options);
    assert [OPTION, DECL(c, data)] + r == [OPTION] + ([DECL(c, data)] + r);
    assert ([OPTION, DECL(c, data)] + r)[1..] == [DECL(c, data)] + r;
    LeaseNext(OPTION, [DECL(c, data)] + r, d, d.(lease := d.lease.(options := d.lease.options[c := data])), r,
              known, atoi);
  }

  /** One statement is read, and the loop goes on behind it. */
  lemma {:induction false} LeaseNext(token: Token, ts: seq<Token>, d: Draft, d': Draft, r: seq<Token>,
                                     known: Interfaces, atoi: nat -> int)
    requires token != RBRACE && LeaseStatement(token, ts, d, known, atoi) == Parsed(d', r)
    ensures LeaseLoop([token] + ts, d, known, atoi) == LeaseLoop(r, d', known, atoi)
  {
    assert ([token] + ts)[1..] == ts;
  }

  lemma {:induction false} LeaseOptions(keys: seq<nat>, o: Options, r: seq<Token>, d: Draft, known: Interfaces,
                                        atoi: nat -> int)
    ensures LeaseLoop(PrintOptions(o, keys) + r, d, known, atoi)
            == LeaseLoop(r, d.(lease := d.lease.(options := Saved(d.lease.options, o, keys))), known, atoi)
    decreases |keys|
  {
    if keys == [] {
      assert PrintOptions(o, keys) + r == r;
    } else if keys[0] !in o {
      LeaseOptions(keys[1..], o, r, d, known, atoi);
    } else {
      OptionsSplit(o, keys, r);
      LeaseOption(keys[0], o[keys[0]], PrintOptions(o, keys[1..]) + r, d, known, atoi);
      var next := d.(lease := d.lease.(options := d.lease.options[keys[0] := o[keys[0]]]));
      LeaseOptions(keys[1..], o, r, next, known, atoi);
    }
  }

  /** The parts of a lease that the text keeps. */
  predicate LeaseShape(l: Lease) {
    && l.bindings != [] && IasShape(l.bindings) && l.score == 0
    && D6O_SERVERID in l.options && l.serverId == l.options[D6O_SERVERID] && l.serverId != []
    && (if D6O_PREFERENCE in l.options then l.options[D6O_PREFERENCE] == [l.pref] else l.pref == 0)
  }

  function ReadLease(l: Lease, atoi: nat -> int): (r: Lease) {
    l.(bindings := ReadIAs(l.bindings, atoi))
  }

  /** The text of a lease behind its IAs. */
  function LeaseEnd(l: Lease, order: Options -> seq<nat>, r: seq<Token>): (ts: seq<Token>) {
    (if l.released then [RELEASED, SEMI] else []) + (PrintOptions(l.options, order(l.options)) + ([RBRACE] + r))
  }

  lemma {:induction false} PrintBodySplit(iface: string, l: Lease, order: Options -> seq<nat>, r: seq<Token>)
    requires forall i :: 0 <= i < |l.bindings| ==> Printable(l.bindings[i])
    ensures PrintBody(iface, l, order) + r ==
            [LBRACE, INTERFACE, STRING(iface), SEMI] + (PrintIAs(l.bindings, order) + LeaseEnd(l, order, r))
  {
    var head, ias := [LBRACE, INTERFACE, STRING(iface), SEMI], PrintIAs(l.bindings, order);
    var rel := if l.released then [RELEASED, SEMI] else [];
    var opts := PrintOptions(l.options, order(l.options));
    assert (opts + [RBRACE]) + r == opts + ([RBRACE] + r);
    Assoc(rel, opts + [RBRACE], r);
    Assoc(ias, rel + (opts + [RBRACE]), r);
    Assoc(head, ias + (rel + (opts + [RBRACE])), r);
  }

  lemma {:induction false} LeaseEndRead(l: Lease, order: Options -> seq<nat>, r: seq<Token>, d: Draft,
                                        known: Interfaces, atoi: nat -> int)
    requires Order(order) && d.lease.options == map[] && !d.lease.released
    ensures LeaseLoop(LeaseEnd(l, order, r), d, known, atoi)
            == Parsed(d.(lease := d.lease.(released := l.released, options := l.options)), r)
  {
    var keys := order(l.options);
    var d1 := d.(lease := d.lease.(released := l.released));
    ReleasedRead(l.released, PrintOptions(l.options, keys) + ([RBRACE] + r), d, known, atoi);
    LeaseOptions(keys, l.options, [RBRACE] + r, d1, known, atoi);
    SavedAll(l.options, keys);
    assert ([RBRACE] + r)[1..] == r;
  }

  lemma {:induction false} ReleasedRead(released: bool, ts: seq<Token>, d: Draft, known: Interfaces, atoi: nat -> int)
    requires !d.lease.released
    ensures LeaseLoop((if released then [RELEASED, SEMI] else []) + ts, d, known, atoi)
            == LeaseLoop(ts, d.(lease := d.lease.(released := released)), known, atoi)
  {
    if released { ReleasedLine(ts, d, known, atoi); } else { assert [] + ts == ts; }
  }

  lemma {:induction false} ReleasedLine(ts: seq<Token>, d: Draft, known: Interfaces, atoi: nat -> int)
    ensures LeaseLoop([RELEASED, SEMI] + ts, d, known, atoi)
            == LeaseLoop(ts, d.(lease := d.lease.(released := true)), known, atoi)
  {
    assert [RELEASED, SEMI] + ts == [RELEASED] + ([SEMI] + ts) && ([SEMI] + ts)[1..] == ts;
    LeaseNext(RELEASED, [SEMI] + ts, d, d.(lease := d.lease.(released := true)), ts, known, atoi);
  }

  lemma {:induction false} InterfaceRead(iface: string, ts: seq<Token>, known: Interfaces)
    requires iface in known
    ensures InterfaceLine([STRING(iface), SEMI] + ts, NewDraft(), known)
            == Parsed(NewDraft().(iface := Some(iface)), ts)
  {
    var us := [STRING(iface), SEMI] + ts;
    assert us[1..] == [SEMI] + ts && us[1..][1..] == ts;
  }

  lemma {:induction false} HeadRead(iface: string, ts: seq<Token>, known: Interfaces, atoi: nat -> int)
    requires iface in known
    ensures LeaseLoop([INTERFACE, STRING(iface), SEMI] + ts, NewDraft(), known, atoi)
            == LeaseLoop(ts, NewDraft().(iface := Some(iface)), known, atoi)
  {
    var us := [STRING(iface), SEMI] + ts;
    assert [INTERFACE, STRING(iface), SEMI] + ts == [INTERFACE] + us;
    InterfaceRead(iface, ts, known);
    LeaseNext(INTERFACE, us, NewDraft(), NewDraft().(iface := Some(iface)), ts, known, atoi);
  }

  /** What is read back of a lease that has nothing the text does not keep: the same lease, its numbers as the library
      reads them. */
  lemma {:induction false} ReadBack(iface: string, l: Lease, order: Options -> seq<nat>, r: seq<Token>,
                                    known: Interfaces, atoi: nat -> int)
    requires LeaseShape(l) && IasInRange(l.bindings) && Order(order) && ReadsInts(atoi)
    requires iface in known && None in known[iface]
    ensures ParseLease(PrintBody(iface, l, order) + r, known, atoi)
            == Parsed(Some(Active(iface, FindClient(known[iface], None).value, ReadLease(l, atoi))), r)
  {
    BodyRead(iface, l, order, r, known, atoi);
    Accepted(iface, l, known, atoi);
  }

  lemma {:induction false} Accepted(iface: string, l: Lease, known: Interfaces, atoi: nat -> int)
    requires LeaseShape(l) && iface in known && None in known[iface]
    ensures Accept(Draft(ReadLease(l, atoi).(pref := 0, serverId := []), Some(iface), None, false), known)
            == Some(Active(iface, FindClient(known[iface], None).value, ReadLease(l, atoi)))
  {
  }

  lemma {:induction false} BodyRead(iface: string, l: Lease, order: Options -> seq<nat>, r: seq<Token>,
                                    known: Interfaces, atoi: nat -> int)
    requires LeaseShape(l) && IasInRange(l.bindings) && Order(order) && ReadsInts(atoi) && iface in known
    ensures var ts := PrintBody(iface, l, order) + r;
            && ts[0] == LBRACE
            && LeaseLoop(ts[1..], NewDraft(), known, atoi)
               == Parsed(Draft(ReadLease(l, atoi).(pref := 0, serverId := []), Some(iface), None, false), r)
  {
    BodyStart(iface, l, order, r);
    HeadRead(iface, PrintIAs(l.bindings, order) + LeaseEnd(l, order, r), known, atoi);
    BehindHeadRead(l, order, r, NewDraft().(iface := Some(iface)), known, atoi);
  }

  lemma {:induction false} BodyStart(iface: string, l: Lease, order: Options -> seq<nat>, r: seq<Token>)
    requires forall i :: 0 <= i < |l.bindings| ==> Printable(l.bindings[i])
    ensures var ts := PrintBody(iface, l, order) + r;
            && ts != [] && ts[0] == LBRACE
            && ts[1..] == [INTERFACE, STRING(iface), SEMI] + (PrintIAs(l.bindings, order) + LeaseEnd(l, order, r))
  {
    PrintBodySplit(iface, l, order, r);
    var ts := PrintIAs(l.bindings, order) + LeaseEnd(l, order, r);
    assert [LBRACE, INTERFACE, STRING(iface), SEMI] == [LBRACE] + [INTERFACE, STRING(iface), SEMI];
    Assoc([LBRACE], [INTERFACE, STRING(iface), SEMI], ts);
    HeadAndTimes([LBRACE], [], [INTERFACE, STRING(iface), SEMI] + ts);
  }

  lemma {:induction false} BehindHeadRead(l: Lease, order: Options -> seq<nat>, r: seq<Token>, d: Draft,
                                          known: Interfaces, atoi: nat -> int)
    requires LeaseShape(l) && IasInRange(l.bindings) && Order(order) && ReadsInts(atoi)
    requires d.lease == NewDraft().lease
    ensures LeaseLoop(PrintIAs(l.bindings, order) + LeaseEnd(l, order, r), d, known, atoi)
            == Parsed(d.(lease := ReadLease(l, atoi).(pref := 0, serverId := [])), r)
  {
    var d1 := AddIAs(d, ReadIAs(l.bindings, atoi));
    IasRead(l.bindings, order, LeaseEnd(l, order, r), d, known, atoi);
    LeaseEndRead(l, order, r, d1, known, atoi);
    assert d1.lease.bindings == ReadIAs(l.bindings, atoi);
  }

  // ---- Whatever is read has the shape ----

  lemma {:induction false} AddrLoopShape(ts: seq<Token>, a: Addr, atoi: nat -> int, t: IaType)
    requires AddrShape(t, a)
    ensures AddrShape(t, AddrLoop(ts, a, atoi).value)
    decreases |ts|
  {
    if ts != [] && ts[0] != RBRACE {
      var p := AddrStatement(ts[0], ts[1..], a, atoi);
      assert AddrShape(t, p.value);
      AddrLoopShape(p.rest, p.value, atoi, t);
    }
  }

  lemma {:induction false} ParseAddrShape(ts: seq<Token>, atoi: nat -> int, t: IaType)
    requires t != PD
    ensures var p := ParseAddr(ts, atoi); p.value.Some? ==> AddrShape(t, p.value.value)
  {
    if |ts| >= 2 && ts[0].IP6? && |ts[0].address| == 16 {
      AddrLoopShape(ts[2..], NewAddr(ts[0].address, 0), atoi, t);
    }
  }

  lemma {:induction false} ParseIaPrefixShape(ts: seq<Token>, atoi: nat -> int)
    ensures var p := ParseIaPrefix(ts, atoi); p.value.Some? ==> AddrShape(PD, p.value.value)
  {
    var x := ParsePrefix(ts, atoi);
    if x.value.Some? && x.rest != [] { AddrLoopShape(x.rest[1..], x.value.value, atoi, PD); }
  }

  lemma {:induction false} AppendShape(ia: IA, a: Option<Addr>)
    requires IaShape(ia) && (a.Some? ==> AddrShape(ia.iaType, a.value))
    ensures IaShape(ia.(addrs := Append(ia.addrs, a)))
  {
  }

  lemma {:induction false} IaStatementShape(token: Token, r: seq<Token>, ia: IA, atoi: nat -> int)
    requires IaShape(ia)
    ensures IaShape(IaStatement(token, r, ia, atoi).value)
  {
    if token == IAADDR && ia.iaType != PD {
      ParseAddrShape(r, atoi, ia.iaType);
      AppendShape(ia, ParseAddr(r, atoi).value);
    } else if token == IAPREFIX && ia.iaType == PD {
      ParseIaPrefixShape(r, atoi);
      AppendShape(ia, ParseIaPrefix(r, atoi).value);
    }
  }

  lemma {:induction false} IaLoopShape(ts: seq<Token>, ia: IA, atoi: nat -> int)
    requires IaShape(ia)
    ensures IaShape(IaLoop(ts, ia, atoi).value)
    decreases |ts|
  {
    if ts != [] && ts[0] != RBRACE {
      var p := IaStatement(ts[0], ts[1..], ia, atoi);
      IaStatementShape(ts[0], ts[1..], ia, atoi);
      IaLoopShape(p.rest, p.value, atoi);
    }
  }

  lemma {:induction false} ParseIaShape(ts: seq<Token>, t: IaType, atoi: nat -> int)
    ensures var p := ParseIA(ts, t, atoi); p.value.Some? ==> IaShape(p.value.value)
  {
    if |ts| >= 2 && ts[0].IAID? && |ts[0].id| == 4 { IaLoopShape(ts[2..], NewIA(t, ts[0].id), atoi); }
  }

  predicate DraftShape(d: Draft) {
    IasShape(d.lease.bindings) && d.lease.score == 0
  }

  lemma {:induction false} LeaseLoopShape(ts: seq<Token>, d: Draft, known: Interfaces, atoi: nat -> int)
    requires DraftShape(d)
    ensures DraftShape(LeaseLoop(ts, d, known, atoi).value)
    decreases |ts|
  {
    if ts != [] && ts[0] != RBRACE {
      var p := LeaseStatement(ts[0], ts[1..], d, known, atoi);
      LeaseStatementShape(ts[0], ts[1..], d, known, atoi);
      LeaseLoopShape(p.rest, p.value, known, atoi);
    }
  }

  lemma {:induction false} LeaseStatementShape(token: Token, r: seq<Token>, d: Draft, known: Interfaces,
                                               atoi: nat -> int)
    requires DraftShape(d)
    ensures DraftShape(LeaseStatement(token, r, d, known, atoi).value)
  {
    match token
    case IA_NA => ParseIaShape(r, NA, atoi);
    case IA_TA => ParseIaShape(r, TA, atoi);
    case IA_PD => ParseIaShape(r, PD, atoi);
    case _ =>
  }

  /** No text at all is read as a lease without the shape. */
  lemma {:induction false} ParseLeaseShape(ts: seq<Token>, known: Interfaces, atoi: nat -> int)
    ensures var p := ParseLease(ts, known, atoi); p.value.Some? ==> LeaseShape(p.value.value.lease)
  {
    if ts != [] { LeaseLoopShape(ts[1..], NewDraft(), known, atoi); }
  }

  /** The round trip gives back the lease exactly when it has nothing that the text does not keep and the library
      reads its numbers right. */
  lemma {:induction false} RoundTrip(iface: string, l: Lease, order: Options -> seq<nat>, r: seq<Token>,
                                     known: Interfaces, atoi: nat -> int)
    requires IasInRange(l.bindings) && Order(order) && ReadsInts(atoi) && iface in known && None in known[iface]
    ensures ParseLease(PrintBody(iface, l, order) + r, known, atoi)
            == Parsed(Some(Active(iface, FindClient(known[iface], None).value, l)), r)
            <==> LeaseShape(l) && ReadLease(l, atoi) == l
  {
    if LeaseShape(l) {
      ReadBack(iface, l, order, r, known, atoi);
    } else {
      ParseLeaseShape(PrintBody(iface, l, order) + r, known, atoi);
    }
  }

  /** Lifetimes and renewal times up to the largest int are read right. */
  predicate NumbersInRange(ias: seq<IA>) {
    forall i :: 0 <= i < |ias| ==>
      && ias[i].renew <= INT_MAX && ias[i].rebind <= INT_MAX
      && forall j :: 0 <= j < |ias[i].addrs| ==>
           ias[i].addrs[j].preferred <= INT_MAX && ias[i].addrs[j].maxLife <= INT_MAX
  }

  lemma {:induction false} AddrsReadRight(addrs: seq<Addr>, atoi: nat -> int)
    requires ReadsInts(atoi)
    requires forall j :: 0 <= j < |addrs| ==> addrs[j].preferred <= INT_MAX && addrs[j].maxLife <= INT_MAX
    ensures ReadAddrs(addrs, atoi) == addrs
  {
    if addrs != [] {
      AddrsReadRight(addrs[1..], atoi);
      assert addrs == [addrs[0]] + addrs[1..];
    }
  }

  lemma {:induction false} NumbersReadRight(ias: seq<IA>, atoi: nat -> int)
    requires ReadsInts(atoi) && NumbersInRange(ias)
    ensures ReadIAs(ias, atoi) == ias
  {
    if ias != [] {
      AddrsReadRight(ias[0].addrs, atoi);
      assert ReadIA(ias[0], atoi) == ias[0];
      NumbersReadRight(ias[1..], atoi);
      assert ias == [ias[0]] + ias[1..];
    }
  }

  // ---- A prefix that is not read back ----

  predicate NoBraces(ts: seq<Token>) {
    forall i :: 0 <= i < |ts| ==> ts[i] != LBRACE && ts[i] != RBRACE
  }

  lemma {:induction false} SkipPlain(ts: seq<Token>, r: seq<Token>, braces: nat)
    requires NoBraces(ts) && (braces > 0 || SEMI !in ts)
    ensures SkipToRbrace(ts + r, braces) == SkipToRbrace(r, braces)
  {
    if ts == [] {
      assert ts + r == r;
    } else {
      assert (ts + r)[1..] == ts[1..] + r;
      SkipPlain(ts[1..], r, braces);
    }
  }

  lemma {:induction false} OptionsPlain(o: Options, keys: seq<nat>)
    ensures NoBraces(PrintOptions(o, keys))
    decreases |keys|
  {
    if keys != [] { OptionsPlain(o, keys[1..]); }
  }

  /** Skipping from the brace of an address on skips the whole address. */
  lemma {:induction false} SkipAddr(a: Addr, keys: seq<nat>, r: seq<Token>)
    requires a.starts >= 0
    ensures SkipToSemi([LBRACE] + AddrTail(a, keys, r)) == r
  {
    var lines := Line(STARTS, a.starts) + (Line(PREFERRED_LIFE, a.preferred) + Line(MAX_LIFE, a.maxLife));
    var opts := PrintOptions(a.options, keys);
    OptionsPlain(a.options, keys);
    assert AddrTail(a, keys, r) == (lines + opts) + ([RBRACE] + r);
    assert ([LBRACE] + AddrTail(a, keys, r))[1..] == AddrTail(a, keys, r);
    SkipPlain(lines + opts, [RBRACE] + r, 1);
    assert ([RBRACE] + r)[1..] == r;
  }

  /** A prefix with an invalid length or with bits below it is not only lost itself: the statement behind it, here
      another prefix, is skipped as well. */
  lemma {:induction false} InvalidPrefixTakesNext(a: Addr, b: Addr, order: Options -> seq<nat>, r: seq<Token>,
                                                  atoi: nat -> int)
    requires a.starts >= 0 && b.starts >= 0 && |a.address| == 16 && !PrefixOk(a.address, atoi(a.plen))
    ensures ParseIaPrefix((PrintAddr(PD, a, order) + (PrintAddr(PD, b, order) + r))[1..], atoi) == Parsed(None, r)
  {
    var next := PrintAddr(PD, b, order) + r;
    PrefixTokens(a, order, next);
    SkipAddr(a, order(a.options), next);
    InvalidPrefix(a.address, a.plen, [LBRACE] + AddrTail(a, order(a.options), next), atoi);
    PrintAddrSplit(PD, b, order, r);
    SkipPrefix(b, order(b.options), r);
  }

  lemma {:induction false} InvalidPrefix(address: seq<byte>, plen: nat, r: seq<Token>, atoi: nat -> int)
    requires |address| == 16 && !PrefixOk(address, atoi(plen))
    ensures ParsePrefix([IP6(address), SLASH, NUMBER(plen)] + r, atoi) == Parsed(None, SkipToSemi(r))
  {
    assert ([IP6(address), SLASH, NUMBER(plen)] + r)[3..] == r;
  }

  lemma {:induction false} SkipPrefix(b: Addr, keys: seq<nat>, r: seq<Token>)
    requires b.starts >= 0
    ensures SkipToSemi([IAPREFIX, IP6(b.address), SLASH, NUMBER(b.plen), LBRACE] + AddrTail(b, keys, r)) == r
  {
    var words, tail := [IAPREFIX, IP6(b.address), SLASH, NUMBER(b.plen)], [LBRACE] + AddrTail(b, keys, r);
    assert [IAPREFIX, IP6(b.address), SLASH, NUMBER(b.plen), LBRACE] + AddrTail(b, keys, r) == words + tail;
    SkipPlain(words, tail, 0);
    SkipAddr(b, keys, r);
  }

  // ---- The text itself ----

  /** How an IA begins. Temporary addresses have no times but the start. */
  lemma {:induction false} WrittenIA(ia: IA, order: Options -> seq<nat>) returns (rest: seq<Token>)
    requires Printable(ia)
    ensures rest != [] && rest[|rest| - 1] == RBRACE
    ensures PrintIA(ia, order) ==
            ([Keyword(ia.iaType), IAID(ia.iaid), LBRACE] + Line(STARTS, ia.starts))
            + ((if ia.iaType == TA then [] else Line(RENEW, ia.renew) + Line(REBIND, ia.rebind)) + rest)
  {
    rest := PrintAddrs(ia.iaType, ia.addrs, order) + (PrintOptions(ia.options, order(ia.options)) + [RBRACE]);
    var times := if ia.iaType == TA then [] else Line(RENEW, ia.renew) + Line(REBIND, ia.rebind);
    Assoc([Keyword(ia.iaType), IAID(ia.iaid), LBRACE], Line(STARTS, ia.starts), times + rest);
  }

  lemma {:induction false} HeadAndTimes(head: seq<Token>, times: seq<Token>, rest: seq<Token>)
    requires rest != []
    ensures var ts := head + (times + rest);
            && |ts| > |head| + |times| && ts[..|head|] == head && ts[|head|..|head| + |times|] == times
            && ts[|ts| - 1] == rest[|rest| - 1]
  {
  }

  /** How an address begins. */
  lemma {:induction false} WrittenAddr(t: IaType, a: Addr, order: Options -> seq<nat>)
    requires a.starts >= 0 && t != PD
    ensures var ts := PrintAddr(t, a, order);
            && |ts| >= 13 && ts[..3] == [IAADDR, IP6(a.address), LBRACE] && ts[|ts| - 1] == RBRACE
            && ts[3..12] == [STARTS, NUMBER(a.starts), SEMI, PREFERRED_LIFE, NUMBER(a.preferred), SEMI,
                             MAX_LIFE, NUMBER(a.maxLife), SEMI]
  {
  }

  /** And how a prefix does. */
  lemma {:induction false} WrittenPrefix(a: Addr, order: Options -> seq<nat>)
    requires a.starts >= 0
    ensures var ts := PrintAddr(PD, a, order);
            && |ts| >= 15 && ts[..5] == [IAPREFIX, IP6(a.address), SLASH, NUMBER(a.plen), LBRACE]
            && ts[5..14] == [STARTS, NUMBER(a.starts), SEMI, PREFERRED_LIFE, NUMBER(a.preferred), SEMI,
                             MAX_LIFE, NUMBER(a.maxLife), SEMI]
  {
  }
}
