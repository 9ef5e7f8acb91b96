/** client/dhclient.c, client/clparse.c and common/parse.c: the loops that write and read the text of a DHCPv6 lease. */
module LeaseFile {
  import opened Wrappers
  import opened Bytes
  import opened Dhc6
  import opened LeaseText
  import Inet
  import LeaseRoundTrip

  // ---- Writing ----

  lemma Pieces<T>(a: seq<T>, b: seq<T>, c: seq<T>, d: seq<T>, e: seq<T>)
    ensures a + b + c + d + e == a + (b + (c + (d + e)))
  {
  }

  function Times(ia: IA): (r: seq<Token>) {
    if ia.iaType == TA then [] else Line(RENEW, ia.renew) + Line(REBIND, ia.rebind)
  }

  /** The text of an IA, as it is written piece by piece. */
  lemma {:induction false} IaPieces(ia: IA, order: Options -> seq<nat>)
    requires Printable(ia)
    ensures PrintIA(ia, order) ==
            [Keyword(ia.iaType), IAID(ia.iaid), LBRACE] + Line(STARTS, ia.starts) + Times(ia)
            + PrintAddrs(ia.iaType, ia.addrs, order) + PrintOptions(ia.options, order(ia.options)) + [RBRACE]
  {
    var head, starts := [Keyword(ia.iaType), IAID(ia.iaid), LBRACE], Line(STARTS, ia.starts);
    var addrs, opts := PrintAddrs(ia.iaType, ia.addrs, order), PrintOptions(ia.options, order(ia.options));
    Pieces(head + starts, Times(ia), addrs, opts, [RBRACE]);
    Both(head, starts, Times(ia) + (addrs + (opts + [RBRACE])));
  }

  lemma Both<T>(a: seq<T>, b: seq<T>, c: seq<T>)
    ensures a + b + c == a + (b + c)
  {
  }

  /** The text of a lease, likewise. */
  lemma {:induction false} BodyPieces(iface: string, l: Lease, order: Options -> seq<nat>)
    requires forall i :: 0 <= i < |l.bindings| ==> Printable(l.bindings[i])
    ensures PrintBody(iface, l, order) ==
            [LBRACE, INTERFACE, STRING(iface), SEMI] + PrintIAs(l.bindings, order)
            + (if l.released then [RELEASED, SEMI] else []) + PrintOptions(l.options, order(l.options)) + [RBRACE]
  {
    Pieces([LBRACE, INTERFACE, STRING(iface), SEMI], PrintIAs(l.bindings, order),
           if l.released then [RELEASED, SEMI] else [], PrintOptions(l.options, order(l.options)), [RBRACE]);
  }

  method WriteOptions(out: seq<Token>, o: Options, keys: seq<nat>) returns (out': seq<Token>)
    ensures out' == out + PrintOptions(o, keys)
  {
    out' := out;
    assert keys[0..] == keys;
    for i := 0 to |keys|
      invariant out' + PrintOptions(o, keys[i..]) == out + PrintOptions(o, keys)
    {
      assert keys[i..][1..] == keys[i + 1..];
      if keys[i] in o {
        assert out' + PrintOptions(o, keys[i..])
            == out' + [OPTION, DECL(keys[i], o[keys[i]])] + PrintOptions(o, keys[i + 1..]);
        out' := out' + [OPTION, DECL(keys[i], o[keys[i]])];
      }
    }
    assert keys[|keys|..] == [];
  }

  method WriteAddr(out: seq<Token>, t: IaType, a: Addr, order: Options -> seq<nat>) returns (out': seq<Token>)
    requires a.starts >= 0
    ensures out' == out + PrintAddr(t, a, order)
  {
    out' := if t != PD then [IAADDR, IP6(a.address), LBRACE]
            else [IAPREFIX, IP6(a.address), SLASH, NUMBER(a.plen), LBRACE];
    ghost var head := out';
    out' := out' + Line(STARTS, a.starts) + Line(PREFERRED_LIFE, a.preferred) + Line(MAX_LIFE, a.maxLife);
    out' := WriteOptions(out', a.options, order(a.options));
    out' := out + (out' + [RBRACE]);
    assert out' == out + PrintAddr(t, a, order);
  }

  method WriteAddrs(out: seq<Token>, t: IaType, addrs: seq<Addr>, order: Options -> seq<nat>)
    returns (out': seq<Token>)
    requires forall i :: 0 <= i < |addrs| ==> addrs[i].starts >= 0
    ensures out' == out + PrintAddrs(t, addrs, order)
  {
    out' := out;
    assert addrs[0..] == addrs;
    for i := 0 to |addrs|
      invariant out' + PrintAddrs(t, addrs[i..], order) == out + PrintAddrs(t, addrs, order)
    {
      assert addrs[i..][1..] == addrs[i + 1..];
      ghost var one, rest := PrintAddr(t, addrs[i], order), PrintAddrs(t, addrs[i + 1..], order);
      assert out' + (one + rest) == (out' + one) + rest;
      out' := WriteAddr(out', t, addrs[i], order);
    }
    assert addrs[|addrs|..] == [];
  }

  method WriteIA(out: seq<Token>, ia: IA, order: Options -> seq<nat>) returns (out': seq<Token>)
    requires Printable(ia)
    ensures out' == out + PrintIA(ia, order)
  {
    out' := [Keyword(ia.iaType), IAID(ia.iaid), LBRACE] + Line(STARTS, ia.starts) + Times(ia);
    out' := WriteAddrs(out', ia.iaType, ia.addrs, order);
    out' := WriteOptions(out', ia.options, order(ia.options));
    out' := out' + [RBRACE];
    IaPieces(ia, order);
    out' := out + out';
  }

  method WriteIAs(out: seq<Token>, ias: seq<IA>, order: Options -> seq<nat>) returns (out': seq<Token>)
    requires forall i :: 0 <= i < |ias| ==> Printable(ias[i])
    ensures out <= out' && out'[|out|..] == PrintIAs(ias, order)
  {
    out' := out;
    assert ias[0..] == ias;
    for i := 0 to |ias|
      invariant out' + PrintIAs(ias[i..], order) == out + PrintIAs(ias, order)
    {
      assert ias[i..][1..] == ias[i + 1..];
      Both(out', PrintIA(ias[i], order), PrintIAs(ias[i + 1..], order));
      out' := WriteIA(out', ias[i], order);
    }
    assert ias[|ias|..] == [];
    assert out' == out + PrintIAs(ias, order);
  }

  /** The lease statement with its keyword. */
  method WriteLease(iface: string, l: Lease, order: Options -> seq<nat>) returns (out: seq<Token>)
    requires forall i :: 0 <= i < |l.bindings| ==> Printable(l.bindings[i])
    ensures out == [LEASE6] + PrintBody(iface, l, order)
  {
    out := [LBRACE, INTERFACE, STRING(iface), SEMI];
    ghost var head := out;
    out := WriteIAs(out, l.bindings, order);
    assert out == head + PrintIAs(l.bindings, order);
    out := out + if l.released then [RELEASED, SEMI] else [];
    out := WriteOptions(out, l.options, order(l.options));
    out := out + [RBRACE];
    BodyPieces(iface, l, order);
    out := [LEASE6] + out;
  }

  // ---- Reading ----

  lemma {:induction false} SkipsPrefix(ts: seq<Token>, braces: nat)
    ensures var r := SkipToRbrace(ts, braces); |r| <= |ts| && r == ts[|ts| - |r|..]
    decreases |ts|
  {
    if ts != [] {
      var b := if ts[0] == LBRACE then braces + 1 else if ts[0] == RBRACE && braces > 0 then braces - 1 else braces;
      SkipsPrefix(ts[1..], b);
    }
  }

  /** Skips over balanced braces. */
  method SkipTokens(ts0: seq<Token>, braces0: nat) returns (ts: seq<Token>)
    ensures ts == SkipToRbrace(ts0, braces0)
    ensures |ts| <= |ts0| && ts == ts0[|ts0| - |ts|..]
  {
    SkipsPrefix(ts0, braces0);
    ts := ts0;
    var braces := braces0;
    while ts != []
      invariant SkipToRbrace(ts, braces) == SkipToRbrace(ts0, braces0)
      decreases |ts|
    {
      var token := ts[0];
      if token == RBRACE {
        if braces > 0 { braces := braces - 1; }
        if braces == 0 { return ts[1..]; }
      } else if token == LBRACE {
        braces := braces + 1;
      } else if token == SEMI && braces == 0 {
        return ts[1..];
      }
      ts := ts[1..];
    }
  }

  /** The body of an address or prefix. */
  method ReadAddrBody(ts0: seq<Token>, a0: Addr, atoi: nat -> int) returns (a: Addr, ts: seq<Token>)
    ensures Parsed(a, ts) == AddrLoop(ts0, a0, atoi)
  {
    a, ts := a0, ts0;
    while ts != [] && ts[0] != RBRACE
      invariant AddrLoop(ts, a, atoi) == AddrLoop(ts0, a0, atoi)
      decreases |ts|
    {
      a, ts := ReadAddrStatement(ts[0], ts[1..], a, atoi);
    }
    if ts != [] { ts := ts[1..]; }
  }

  method ReadAddrStatement(token: Token, ts0: seq<Token>, a0: Addr, atoi: nat -> int) returns (a: Addr, ts: seq<Token>)
    ensures Parsed(a, ts) == AddrStatement(token, ts0, a0, atoi)
  {
    a, ts := a0, ts0;
    match token
    case STARTS =>
      var n := NumberLine(ts, atoi);
      if n.value.Some? { a := a.(starts := n.value.value); }
      ts := n.rest;
    case PREFERRED_LIFE =>
      var n := NumberLine(ts, atoi);
      if n.value.Some? { a := a.(preferred := AsU32(n.value.value)); }
      ts := n.rest;
    case MAX_LIFE =>
      var n := NumberLine(ts, atoi);
      if n.value.Some? { a := a.(maxLife := AsU32(n.value.value)); }
      ts := n.rest;
    case OPTION =>
      var o := OptionLine(ts, a.options);
      a, ts := a.(options := o.value), o.rest;
    case _ =>
      ts := SkipTokens(ts, 1);
  }

  /** iaaddr. */
  method ReadAddr(ts0: seq<Token>, atoi: nat -> int) returns (a: Option<Addr>, ts: seq<Token>)
    ensures Parsed(a, ts) == ParseAddr(ts0, atoi)
    ensures a.Some? ==> LeaseRoundTrip.AddrShape(NA, a.value)
  {
    LeaseRoundTrip.ParseAddrShape(ts0, atoi, NA);
    ts := ts0;
    if ts == [] || !ts[0].IP6? || |ts[0].address| != 16 {
      ts := SkipTokens(ts, 0);
      ts := SkipTokens(ts, 0);
      return None, ts;
    }
    var address := ts[0].address;
    ts := ts[1..];
    if ts == [] || ts[0] != LBRACE {
      ts := SkipTokens(Rest(ts), 0);
      return None, ts;
    }
    assert ts[1..] == ts0[2..];
    var body;
    body, ts := ReadAddrBody(ts[1..], NewAddr(address, 0), atoi);
    return Some(body), ts;
  }

  /** iaprefix, with its length checked. */
  method ReadPrefix(ts0: seq<Token>, atoi: nat -> int) returns (a: Option<Addr>, ts: seq<Token>)
    ensures Parsed(a, ts) == ParsePrefix(ts0, atoi)
    ensures a.Some? ==> PrefixOk(a.value.address, a.value.plen)
  {
    ts := ts0;
    if ts == [] || !ts[0].IP6? || |ts[0].address| != 16 {
      ts := SkipTokens(ts, 0);
      return None, ts;
    }
    if |ts| == 1 { return None, []; }
    if ts[1] != SLASH {
      if ts[1] == SEMI { return None, ts[2..]; }
      ts := SkipTokens(ts[2..], 0);
      return None, ts;
    }
    if |ts| == 2 { return None, []; }
    if !ts[2].NUMBER? {
      if ts[2] == SEMI { return None, ts[3..]; }
      ts := SkipTokens(ts[3..], 0);
      return None, ts;
    }
    var n := atoi(ts[2].n);
    var valid := Inet.IsCidrMaskValid(ts[0].address, n);
    if n < 0 || n > 128 || !valid {
      ts := SkipTokens(ts[3..], 0);
      return None, ts;
    }
    return Some(NewAddr(ts[0].address, n)), ts[3..];
  }

  method ReadIaPrefix(ts0: seq<Token>, atoi: nat -> int) returns (a: Option<Addr>, ts: seq<Token>)
    ensures Parsed(a, ts) == ParseIaPrefix(ts0, atoi)
    ensures a.Some? ==> LeaseRoundTrip.AddrShape(PD, a.value)
  {
    LeaseRoundTrip.ParseIaPrefixShape(ts0, atoi);
    a, ts := ReadPrefix(ts0, atoi);
    if a.None? {
      ts := SkipTokens(ts, 0);
      return None, ts;
    }
    if ts == [] || ts[0] != LBRACE {
      ts := SkipTokens(Rest(ts), 0);
      return None, ts;
    }
    var body;
    body, ts := ReadAddrBody(ts[1..], a.value, atoi);
    return Some(body), ts;
  }

  /** The body of an IA. */
  method ReadIaBody(ts0: seq<Token>, ia0: IA, atoi: nat -> int) returns (ia: IA, ts: seq<Token>)
    ensures Parsed(ia, ts) == IaLoop(ts0, ia0, atoi)
  {
    ia, ts := ia0, ts0;
    while ts != [] && ts[0] != RBRACE
      invariant IaLoop(ts, ia, atoi) == IaLoop(ts0, ia0, atoi)
      decreases |ts|
    {
      ia, ts := ReadIaStatement(ts[0], ts[1..], ia, atoi);
    }
    if ts != [] { ts := ts[1..]; }
  }

  /** The start of an IA, and its renewal and rebinding times, which one for temporary addresses does not have. */
  method ReadIaTime(token: Token, ts0: seq<Token>, ia0: IA, atoi: nat -> int) returns (ia: IA, ts: seq<Token>)
    requires token == STARTS || (ia0.iaType != TA && (token == RENEW || token == REBIND))
    ensures Parsed(ia, ts) == IaStatement(token, ts0, ia0, atoi)
  {
    var n := NumberLine(ts0, atoi);
    ia, ts := ia0, n.rest;
    if n.value.Some? {
      if token == STARTS {
        ia := ia.(starts := n.value.value);
      } else if token == RENEW {
        ia := ia.(renew := AsU32(n.value.value));
      } else {
        ia := ia.(rebind := AsU32(n.value.value));
      }
    }
  }

  method ReadIaStatement(token: Token, ts0: seq<Token>, ia0: IA, atoi: nat -> int) returns (ia: IA, ts: seq<Token>)
    ensures Parsed(ia, ts) == IaStatement(token, ts0, ia0, atoi)
  {
    ia, ts := ia0, ts0;
    if token == STARTS || (ia.iaType != TA && (token == RENEW || token == REBIND)) {
      ia, ts := ReadIaTime(token, ts, ia, atoi);
    } else if (token == IAADDR && ia.iaType != PD) || (token == IAPREFIX && ia.iaType == PD) {
      ia, ts := ReadBinding(ts, ia, atoi);
    } else if token == OPTION {
      var o := OptionLine(ts, ia.options);
      ia, ts := ia.(options := o.value), o.rest;
    } else {
      ts := SkipTokens(ts, 0);
    }
  }

  /** An address or a prefix, as the type of the IA has it, goes to the end of the IA's list. */
  method ReadBinding(ts0: seq<Token>, ia0: IA, atoi: nat -> int) returns (ia: IA, ts: seq<Token>)
    ensures var a := if ia0.iaType == PD then ParseIaPrefix(ts0, atoi) else ParseAddr(ts0, atoi);
            ia == ia0.(addrs := Append(ia0.addrs, a.value)) && ts == a.rest
  {
    var a;
    if ia0.iaType == PD { a, ts := ReadIaPrefix(ts0, atoi); } else { a, ts := ReadAddr(ts0, atoi); }
    ia := if a.Some? then ia0.(addrs := ia0.addrs + [a.value]) else ia0;
  }

  method ReadIA(ts0: seq<Token>, t: IaType, atoi: nat -> int) returns (ia: Option<IA>, ts: seq<Token>)
    ensures Parsed(ia, ts) == ParseIA(ts0, t, atoi)
    ensures ia.Some? ==> LeaseRoundTrip.IaShape(ia.value)
  {
    LeaseRoundTrip.ParseIaShape(ts0, t, atoi);
    ts := ts0;
    if ts == [] || !ts[0].IAID? {
      ts := SkipTokens(ts, 0);
      ts := SkipTokens(ts, 0);
      return None, ts;
    }
    var iaid := ts[0].id;
    ts := ts[1..];
    if |iaid| != 4 {
      ts := SkipTokens(ts, 0);
      return None, ts;
    }
    if ts == [] || ts[0] != LBRACE {
      ts := SkipTokens(Rest(ts), 0);
      return None, ts;
    }
    assert ts[1..] == ts0[2..];
    var body;
    body, ts := ReadIaBody(ts[1..], NewIA(t, iaid), atoi);
    return Some(body), ts;
  }

  /** The body of a lease. */
  method ReadLeaseBody(ts0: seq<Token>, d0: Draft, known: Interfaces, atoi: nat -> int)
    returns (d: Draft, ts: seq<Token>)
    ensures Parsed(d, ts) == LeaseLoop(ts0, d0, known, atoi)
  {
    d, ts := d0, ts0;
    while ts != [] && ts[0] != RBRACE
      invariant LeaseLoop(ts, d, known, atoi) == LeaseLoop(ts0, d0, known, atoi)
      decreases |ts|
    {
      d, ts := ReadLeaseStatement(ts[0], ts[1..], d, known, atoi);
    }
    if ts != [] { ts := ts[1..]; }
  }

  method ReadLeaseStatement(token: Token, ts0: seq<Token>, d0: Draft, known: Interfaces, atoi: nat -> int)
    returns (d: Draft, ts: seq<Token>)
    ensures Parsed(d, ts) == LeaseStatement(token, ts0, d0, known, atoi)
  {
    d, ts := d0, ts0;
    match token
    case IA_NA =>
      var ia, r := ReadIA(ts, NA, atoi);
      d, ts := AddIA(d, ia), r;
    case IA_TA =>
      var ia, r := ReadIA(ts, TA, atoi);
      d, ts := AddIA(d, ia), r;
    case IA_PD =>
      var ia, r := ReadIA(ts, PD, atoi);
      d, ts := AddIA(d, ia), r;
    case INTERFACE =>
      var p := InterfaceLine(ts, d, known);
      d, ts := p.value, p.rest;
    case NAME =>
      var p := NameLine(ts, d, known);
      d, ts := p.value, p.rest;
    case OPTION =>
      var o := OptionLine(ts, d.lease.options);
      d, ts := d.(lease := d.lease.(options := o.value)), o.rest;
    case RELEASED =>
      d, ts := d.(lease := d.lease.(released := true)), ParseSemi(ts);
    case ABANDONED =>
      d, ts := d.(lease := d.lease.(released := true)), ParseSemi(ts);
    case _ =>
      ts := SkipTokens(ts, 0);
  }

  /** Reads a lease statement behind its keyword. Whatever the tokens are, only a lease that the text can keep is
      read. */
  method ReadLease(ts0: seq<Token>, known: Interfaces, atoi: nat -> int) returns (a: Option<Active>, ts: seq<Token>)
    ensures Parsed(a, ts) == ParseLease(ts0, known, atoi)
    ensures a.Some? ==> LeaseRoundTrip.LeaseShape(a.value.lease)
  {
    LeaseRoundTrip.ParseLeaseShape(ts0, known, atoi);
    ts := ts0;
    if ts == [] || ts[0] != LBRACE {
      ts := SkipTokens(Rest(ts), 0);
      return None, ts;
    }
    var d;
    d, ts := ReadLeaseBody(ts[1..], NewDraft(), known, atoi);
    return Accept(d, known), ts;
  }

  /** What the client reads at its next start of a lease that it wrote: the same lease, for the unnamed client of the
      interface and with nothing left over, exactly if the lease has nothing that the text does not keep and its numbers
      are read right. */
  method WriteThenRead(iface: string, l: Lease, order: Options -> seq<nat>, known: Interfaces, atoi: nat -> int)
    returns (a: Option<Active>, rest: seq<Token>)
    requires LeaseRoundTrip.IasInRange(l.bindings) && Order(order) && ReadsInts(atoi)
    requires iface in known && None in known[iface]
    ensures a == Some(Active(iface, FindClient(known[iface], None).value, l)) && rest == [] <==>
            LeaseRoundTrip.LeaseShape(l) && LeaseRoundTrip.ReadLease(l, atoi) == l
  {
    var out := WriteLease(iface, l, order);
    assert out[1..] == PrintBody(iface, l, order) + [];
    a, rest := ReadLease(out[1..], known, atoi);
    LeaseRoundTrip.RoundTrip(iface, l, order, [], known, atoi);
  }
}
