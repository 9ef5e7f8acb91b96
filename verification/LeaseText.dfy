/** client/dhclient.c and client/clparse.c: the text of a DHCPv6 lease in the lease database, as tokens. */
module LeaseText {
  import opened Wrappers
  import opened Bytes
  import opened Dhc6
  import Inet

  const D6O_SERVERID := 2
  const D6O_PREFERENCE := 7
  const INT_MAX := 0x7FFF_FFFF

  /** Tokens of the lease file. An IAID, an IPv6 address and the rest of an option statement are one token each. */
  datatype Token =
    | LEASE6 | LBRACE | RBRACE | SEMI | SLASH
    | IA_NA | IA_TA | IA_PD | IAADDR | IAPREFIX
    | INTERFACE | NAME | OPTION | RELEASED | ABANDONED
    | STARTS | RENEW | REBIND | PREFERRED_LIFE | MAX_LIFE
    | NUMBER(n: nat) | STRING(s: string) | IAID(id: seq<byte>) | IP6(address: seq<byte>)
    | DECL(code: nat, data: seq<byte>) | UNKNOWN(text: string)

  /** What a parser returns: a value, and the tokens it left. */
  datatype Parsed<T> = Parsed(value: T, rest: seq<Token>)

  // ---- Printing ----

  /** An order in which the options of a set are written. */
  predicate Lists(keys: seq<nat>, o: Options) {
    && (forall i :: 0 <= i < |keys| ==> keys[i] in o)
    && (forall c :: c in o ==> c in keys)
    && forall i, j :: 0 <= i < j < |keys| ==> keys[i] != keys[j]
  }

  /** Whatever order the options are kept in. */
  ghost predicate Order(order: Options -> seq<nat>) {
    forall o :: Lists(order(o), o)
  }

  function PrintOptions(o: Options, keys: seq<nat>): (r: seq<Token>) {
    if keys == [] then []
    else if keys[0] !in o then PrintOptions(o, keys[1..])
    else [OPTION, DECL(keys[0], o[keys[0]])] + PrintOptions(o, keys[1..])
  }

  function Line(keyword: Token, n: nat): (r: seq<Token>) {
    [keyword, NUMBER(n), SEMI]
  }

  function PrintAddr(t: IaType, a: Addr, order: Options -> seq<nat>): (r: seq<Token>)
    requires a.starts >= 0
  {
    (if t == PD then [IAPREFIX, IP6(a.address), SLASH, NUMBER(a.plen), LBRACE] else [IAADDR, IP6(a.address), LBRACE])
    + (Line(STARTS, a.starts) + (Line(PREFERRED_LIFE, a.preferred) + (Line(MAX_LIFE, a.maxLife)
    + (PrintOptions(a.options, order(a.options)) + [RBRACE]))))
  }

  predicate Printable(ia: IA) {
    ia.starts >= 0 && forall i :: 0 <= i < |ia.addrs| ==> ia.addrs[i].starts >= 0
  }

  function PrintAddrs(t: IaType, addrs: seq<Addr>, order: Options -> seq<nat>): (r: seq<Token>)
    requires forall i :: 0 <= i < |addrs| ==> addrs[i].starts >= 0
  {
    if addrs == [] then [] else PrintAddr(t, addrs[0], order) + PrintAddrs(t, addrs[1..], order)
  }

  function Keyword(t: IaType): (k: Token) {
    match t case NA => IA_NA case TA => IA_TA case PD => IA_PD
  }

  function PrintIA(ia: IA, order: Options -> seq<nat>): (r: seq<Token>)
    requires Printable(ia)
  {
    [Keyword(ia.iaType), IAID(ia.iaid), LBRACE]
    + (Line(STARTS, ia.starts)
    + ((if ia.iaType == TA then [] else Line(RENEW, ia.renew) + Line(REBIND, ia.rebind))
    + (PrintAddrs(ia.iaType, ia.addrs, order) + (PrintOptions(ia.options, order(ia.options)) + [RBRACE]))))
  }

  function PrintIAs(ias: seq<IA>, order: Options -> seq<nat>): (r: seq<Token>)
    requires forall i :: 0 <= i < |ias| ==> Printable(ias[i])
  {
    if ias == [] then [] else PrintIA(ias[0], order) + PrintIAs(ias[1..], order)
  }

  /** The lease statement behind its keyword. */
  function PrintBody(iface: string, l: Lease, order: Options -> seq<nat>): (r: seq<Token>)
    requires forall i :: 0 <= i < |l.bindings| ==> Printable(l.bindings[i])
  {
    [LBRACE, INTERFACE, STRING(iface), SEMI]
    + (PrintIAs(l.bindings, order)
    + ((if l.released then [RELEASED, SEMI] else [])
    + (PrintOptions(l.options, order(l.options)) + [RBRACE])))
  }

  // ---- Skipping ----

  function Rest(ts: seq<Token>): (r: seq<Token>)
    ensures |r| <= |ts|
  {
    if ts == [] then [] else ts[1..]
  }

  /** Skips to the brace that closes the open ones, or without open ones past the next semicolon or brace. */
  function SkipToRbrace(ts: seq<Token>, braces: nat): (r: seq<Token>)
    ensures |r| <= |ts|
  {
    if ts == [] then []
    else if ts[0] == RBRACE then if braces <= 1 then ts[1..] else SkipToRbrace(ts[1..], braces - 1)
    else if ts[0] == LBRACE then SkipToRbrace(ts[1..], braces + 1)
    else if ts[0] == SEMI && braces == 0 then ts[1..]
    else SkipToRbrace(ts[1..], braces)
  }

  function SkipToSemi(ts: seq<Token>): (r: seq<Token>)
    ensures |r| <= |ts|
  {
    SkipToRbrace(ts, 0)
  }

  function ParseSemi(ts: seq<Token>): (r: seq<Token>)
    ensures |r| <= |ts|
  {
    if ts != [] && ts[0] == SEMI then ts[1..] else SkipToSemi(Rest(ts))
  }

  // ---- Parsing ----

  /** The library function that reads numbers is exact for non-negative ints; beyond them nothing is promised. */
  ghost predicate ReadsInts(atoi: nat -> int) {
    forall n: nat :: n <= INT_MAX ==> atoi(n) == n
  }

  /** A number stored in an unsigned 32-bit field. */
  function AsU32(n: int): (r: nat) {
    n % 0x1_0000_0000
  }

  /** A number and a semicolon; without the number the statement is skipped. */
  function NumberLine(ts: seq<Token>, atoi: nat -> int): (p: Parsed<Option<int>>)
    ensures |p.rest| <= |ts|
  {
    if ts != [] && ts[0].NUMBER? then Parsed(Some(atoi(ts[0].n)), ParseSemi(ts[1..]))
    else Parsed(None, SkipToSemi(Rest(ts)))
  }

  /** The rest of an option statement, with which the options are updated. */
  function OptionLine(ts: seq<Token>, o: Options): (p: Parsed<Options>)
    ensures |p.rest| <= |ts|
  {
    if ts != [] && ts[0].DECL? then Parsed(o[ts[0].code := ts[0].data], ts[1..]) else Parsed(o, SkipToSemi(ts))
  }

  /** A statement of an address or prefix, behind its first token. */
  function AddrStatement(token: Token, r: seq<Token>, a: Addr, atoi: nat -> int): (p: Parsed<Addr>)
    ensures |p.rest| <= |r|
  {
    match token
    case STARTS =>
      var n := NumberLine(r, atoi);
      Parsed(if n.value.Some? then a.(starts := n.value.value) else a, n.rest)
    case PREFERRED_LIFE =>
      var n := NumberLine(r, atoi);
      Parsed(if n.value.Some? then a.(preferred := AsU32(n.value.value)) else a, n.rest)
    case MAX_LIFE =>
      var n := NumberLine(r, atoi);
      Parsed(if n.value.Some? then a.(maxLife := AsU32(n.value.value)) else a, n.rest)
    case OPTION =>
      var o := OptionLine(r, a.options);
      Parsed(a.(options := o.value), o.rest)
    case _ => Parsed(a, SkipToRbrace(r, 1))
  }

  /** The statements of an address or prefix up to its closing brace. */
  function AddrLoop(ts: seq<Token>, a: Addr, atoi: nat -> int): (p: Parsed<Addr>)
    ensures |p.rest| <= |ts|
    decreases |ts|
  {
    if ts == [] then Parsed(a, [])
    else if ts[0] == RBRACE then Parsed(a, ts[1..])
    else
      var p := AddrStatement(ts[0], ts[1..], a, atoi);
      AddrLoop(p.rest, p.value, atoi)
  }

  function NewAddr(address: seq<byte>, plen: nat): (a: Addr) {
    Addr(address, plen, false, false, 0, 0, 0, map[])
  }

  /** An address. Where it is missing, the statement is skipped by the address parser and once more. */
  function ParseAddr(ts: seq<Token>, atoi: nat -> int): (p: Parsed<Option<Addr>>)
    ensures |p.rest| <= |ts|
  {
    if ts == [] || !ts[0].IP6? || |ts[0].address| != 16 then Parsed(None, SkipToSemi(SkipToSemi(ts)))
    else if |ts| == 1 || ts[1] != LBRACE then Parsed(None, SkipToSemi(Rest(ts[1..])))
    else
      var p := AddrLoop(ts[2..], NewAddr(ts[0].address, 0), atoi);
      Parsed(Some(p.value), p.rest)
  }

  /** The network mask leaves all bits of the prefix. */
  predicate PrefixOk(address: seq<byte>, n: int) {
    |address| == 16 && 0 <= n <= 128 && Inet.BlockOf(Inet.Net(address, n)).Aligned()
  }

  /** The prefix and its length. */
  function ParsePrefix(ts: seq<Token>, atoi: nat -> int): (p: Parsed<Option<Addr>>)
    ensures |p.rest| <= |ts|
  {
    if ts == [] || !ts[0].IP6? || |ts[0].address| != 16 then Parsed(None, SkipToSemi(ts))
    else if |ts| == 1 then Parsed(None, [])
    else if ts[1] != SLASH then Parsed(None, if ts[1] == SEMI then ts[2..] else SkipToSemi(ts[2..]))
    else if |ts| == 2 then Parsed(None, [])
    else if !ts[2].NUMBER? then Parsed(None, if ts[2] == SEMI then ts[3..] else SkipToSemi(ts[3..]))
    else if !PrefixOk(ts[0].address, atoi(ts[2].n)) then Parsed(None, SkipToSemi(ts[3..]))
    else Parsed(Some(NewAddr(ts[0].address, atoi(ts[2].n))), ts[3..])
  }

  function ParseIaPrefix(ts: seq<Token>, atoi: nat -> int): (p: Parsed<Option<Addr>>)
    ensures |p.rest| <= |ts|
  {
    var x := ParsePrefix(ts, atoi);
    if x.value.None? then Parsed(None, SkipToSemi(x.rest))
    else if x.rest == [] || x.rest[0] != LBRACE then Parsed(None, SkipToSemi(Rest(x.rest)))
    else
      var p := AddrLoop(x.rest[1..], x.value.value, atoi);
      Parsed(Some(p.value), p.rest)
  }

  function Append<T>(s: seq<T>, x: Option<T>): (r: seq<T>) {
    if x.Some? then s + [x.value] else s
  }

  /** A statement of an IA, behind its first token. */
  function IaStatement(token: Token, r: seq<Token>, ia: IA, atoi: nat -> int): (p: Parsed<IA>)
    ensures |p.rest| <= |r|
  {
    match token
    case STARTS =>
      var n := NumberLine(r, atoi);
      Parsed(if n.value.Some? then ia.(starts := n.value.value) else ia, n.rest)
    case RENEW =>
      if ia.iaType == TA then Parsed(ia, SkipToSemi(r))
      else
        var n := NumberLine(r, atoi);
        Parsed(if n.value.Some? then ia.(renew := AsU32(n.value.value)) else ia, n.rest)
    case REBIND =>
      if ia.iaType == TA then Parsed(ia, SkipToSemi(r))
      else
        var n := NumberLine(r, atoi);
        Parsed(if n.value.Some? then ia.(rebind := AsU32(n.value.value)) else ia, n.rest)
    case IAADDR =>
      if ia.iaType == PD then Parsed(ia, SkipToSemi(r))
      else
        var a := ParseAddr(r, atoi);
        Parsed(ia.(addrs := Append(ia.addrs, a.value)), a.rest)
    case IAPREFIX =>
      if ia.iaType != PD then Parsed(ia, SkipToSemi(r))
      else
        var a := ParseIaPrefix(r, atoi);
        Parsed(ia.(addrs := Append(ia.addrs, a.value)), a.rest)
    case OPTION =>
      var o := OptionLine(r, ia.options);
      Parsed(ia.(options := o.value), o.rest)
    case _ => Parsed(ia, SkipToSemi(r))
  }

  /** The statements of an IA up to its closing brace. */
  function IaLoop(ts: seq<Token>, ia: IA, atoi: nat -> int): (p: Parsed<IA>)
    ensures |p.rest| <= |ts|
    decreases |ts|
  {
    if ts == [] then Parsed(ia, [])
    else if ts[0] == RBRACE then Parsed(ia, ts[1..])
    else
      var p := IaStatement(ts[0], ts[1..], ia, atoi);
      IaLoop(p.rest, p.value, atoi)
  }

  function NewIA(t: IaType, iaid: seq<byte>): (ia: IA) {
    IA(iaid, t, 0, 0, 0, [], map[])
  }

  function ParseIA(ts: seq<Token>, t: IaType, atoi: nat -> int): (p: Parsed<Option<IA>>)
    ensures |p.rest| <= |ts|
  {
    if ts == [] || !ts[0].IAID? then Parsed(None, SkipToSemi(SkipToSemi(ts)))
    else if |ts[0].id| != 4 then Parsed(None, SkipToSemi(ts[1..]))
    else if |ts| == 1 || ts[1] != LBRACE then Parsed(None, SkipToSemi(Rest(ts[1..])))
    else
      var p := IaLoop(ts[2..], NewIA(t, ts[0].id), atoi);
      Parsed(Some(p.value), p.rest)
  }

  /** The names of the clients of each interface; a client may have none. */
  type Interfaces = map<string, seq<Option<string>>>

  /** A lease statement under construction: the lease, its interface and client as found so far. */
  datatype Draft = Draft(lease: Lease, iface: Option<string>, client: Option<nat>, hasName: bool)

  /** The place of the first client of that name. */
  function FindClient(names: seq<Option<string>>, name: Option<string>): (i: Option<nat>)
    ensures i.Some? ==> i.value < |names| && names[i.value] == name
    ensures i.None? ==> name !in names
  {
    if names == [] then None
    else if names[0] == name then Some(0)
    else
      var i := FindClient(names[1..], name);
      if i.Some? then Some(i.value + 1) else None
  }

  function InterfaceLine(ts: seq<Token>, d: Draft, known: Interfaces): (p: Parsed<Draft>)
    ensures |p.rest| <= |ts|
  {
    if d.iface.Some? then Parsed(d, SkipToSemi(ts))
    else if ts == [] || !ts[0].STRING? then Parsed(d, SkipToSemi(Rest(ts)))
    else Parsed(if ts[0].s in known then d.(iface := Some(ts[0].s)) else d, ParseSemi(ts[1..]))
  }

  function NameLine(ts: seq<Token>, d0: Draft, known: Interfaces): (p: Parsed<Draft>)
    ensures |p.rest| <= |ts|
  {
    var d := d0.(hasName := true);
    if d.client.Some? || d.iface.None? then Parsed(d, SkipToSemi(ts))
    else if ts == [] || !ts[0].STRING? then Parsed(d, SkipToSemi(Rest(ts)))
    else
      var names := if d.iface.value in known then known[d.iface.value] else [];
      Parsed(d.(client := FindClient(names, Some(ts[0].s))), ParseSemi(ts[1..]))
  }

  function AddIA(d: Draft, ia: Option<IA>): (r: Draft) {
    d.(lease := d.lease.(bindings := Append(d.lease.bindings, ia)))
  }

  /** A statement of a lease, behind its first token. */
  function LeaseStatement(token: Token, r: seq<Token>, d: Draft, known: Interfaces, atoi: nat -> int):
    (p: Parsed<Draft>)
    ensures |p.rest| <= |r|
  {
    match token
    case IA_NA => var ia := ParseIA(r, NA, atoi); Parsed(AddIA(d, ia.value), ia.rest)
    case IA_TA => var ia := ParseIA(r, TA, atoi); Parsed(AddIA(d, ia.value), ia.rest)
    case IA_PD => var ia := ParseIA(r, PD, atoi); Parsed(AddIA(d, ia.value), ia.rest)
    case INTERFACE => InterfaceLine(r, d, known)
    case NAME => NameLine(r, d, known)
    case OPTION =>
      var o := OptionLine(r, d.lease.options);
      Parsed(d.(lease := d.lease.(options := o.value)), o.rest)
    case RELEASED => Parsed(d.(lease := d.lease.(released := true)), ParseSemi(r))
    case ABANDONED => Parsed(d.(lease := d.lease.(released := true)), ParseSemi(r))
    case _ => Parsed(d, SkipToSemi(r))
  }

  /** The statements of a lease up to its closing brace. */
  function LeaseLoop(ts: seq<Token>, d: Draft, known: Interfaces, atoi: nat -> int): (p: Parsed<Draft>)
    ensures |p.rest| <= |ts|
    decreases |ts|
  {
    if ts == [] then Parsed(d, [])
    else if ts[0] == RBRACE then Parsed(d, ts[1..])
    else
      var p := LeaseStatement(ts[0], ts[1..], d, known, atoi);
      LeaseLoop(p.rest, p.value, known, atoi)
  }

  /** A lease that became the active one of a client, the i-th of an interface. */
  datatype Active = Active(iface: string, client: nat, lease: Lease)

  /** What becomes of a finished draft. It is discarded without an IA, without a client, or without the identifier of
      its server, or with a preference that is not one byte. */
  function Accept(d: Draft, known: Interfaces): (a: Option<Active>) {
    if d.lease.bindings == [] || d.iface.None? then None
    else
      var names := if d.iface.value in known then known[d.iface.value] else [];
      var client := if !d.hasName && d.client.None? then FindClient(names, None) else d.client;
      var o := d.lease.options;
      if client.None? then None
      else if D6O_PREFERENCE in o && |o[D6O_PREFERENCE]| != 1 then None
      else if D6O_SERVERID !in o || o[D6O_SERVERID] == [] then None
      else
        var pref := if D6O_PREFERENCE in o then o[D6O_PREFERENCE][0] as nat else 0;
        Some(Active(d.iface.value, client.value, d.lease.(pref := pref, serverId := o[D6O_SERVERID])))
  }

  function NewDraft(): (d: Draft) {
    Draft(Lease([], false, 0, 0, [], map[]), None, None, false)
  }

  /** The lease statement behind its keyword. */
  function ParseLease(ts: seq<Token>, known: Interfaces, atoi: nat -> int): (p: Parsed<Option<Active>>)
    ensures |p.rest| <= |ts|
  {
    if ts == [] || ts[0] != LBRACE then Parsed(None, SkipToSemi(Rest(ts)))
    else
      var p := LeaseLoop(ts[1..], NewDraft(), known, atoi);
      Parsed(Accept(p.value, known), p.rest)
  }
}
