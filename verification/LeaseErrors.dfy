/** client/clparse.c: what the parsers of the lease file make of statements that they do not understand. */
module LeaseErrors {
  import opened Wrappers
  import opened Bytes
  import opened Dhc6
  import opened LeaseText
  import opened LeaseRoundTrip

  /** Tokens that neither end a statement nor open or close a block. */
  predicate Words(ts: seq<Token>) {
    NoBraces(ts) && SEMI !in ts
  }

  lemma {:induction false} SkipWords(ws: seq<Token>, ts: seq<Token>)
    requires Words(ws)
    ensures SkipToSemi(ws + ([SEMI] + ts)) == ts
  {
    SkipPlain(ws, [SEMI] + ts, 0);
    assert ([SEMI] + ts)[1..] == ts;
  }

  lemma {:induction false} SkipBlock(ws: seq<Token>, body: seq<Token>, ts: seq<Token>)
    requires Words(ws) && NoBraces(body)
    ensures SkipToSemi(ws + ([LBRACE] + (body + ([RBRACE] + ts)))) == ts
  {
    var inner := body + ([RBRACE] + ts);
    SkipPlain(ws, [LBRACE] + inner, 0);
    assert ([LBRACE] + inner)[1..] == inner;
    SkipPlain(body, [RBRACE] + ts, 1);
    assert ([RBRACE] + ts)[1..] == ts;
  }

  // ---- Unknown statements ----

  /** An unknown statement of a lease, with or without a block, is passed over and nothing else. */
  lemma {:induction false} UnknownInLease(text: string, ws: seq<Token>, ts: seq<Token>, d: Draft, known: Interfaces,
                                          atoi: nat -> int)
    requires Words(ws)
    ensures LeaseLoop([UNKNOWN(text)] + (ws + ([SEMI] + ts)), d, known, atoi) == LeaseLoop(ts, d, known, atoi)
  {
    SkipWords(ws, ts);
    LeaseNext(UNKNOWN(text), ws + ([SEMI] + ts), d, d, ts, known, atoi);
  }

  lemma {:induction false} UnknownBlockInLease(text: string, ws: seq<Token>, body: seq<Token>, ts: seq<Token>,
                                               d: Draft, known: Interfaces, atoi: nat -> int)
    requires Words(ws) && NoBraces(body)
    ensures LeaseLoop([UNKNOWN(text)] + (ws + ([LBRACE] + (body + ([RBRACE] + ts)))), d, known, atoi)
            == LeaseLoop(ts, d, known, atoi)
  {
    SkipBlock(ws, body, ts);
    LeaseNext(UNKNOWN(text), ws + ([LBRACE] + (body + ([RBRACE] + ts))), d, d, ts, known, atoi);
  }

  /** The same for an IA. */
  lemma {:induction false} UnknownInIA(text: string, ws: seq<Token>, ts: seq<Token>, ia: IA, atoi: nat -> int)
    requires Words(ws)
    ensures IaLoop([UNKNOWN(text)] + (ws + ([SEMI] + ts)), ia, atoi) == IaLoop(ts, ia, atoi)
  {
    var us := ws + ([SEMI] + ts);
    SkipWords(ws, ts);
    assert ([UNKNOWN(text)] + us)[1..] == us;
    assert IaStatement(UNKNOWN(text), us, ia, atoi) == Parsed(ia, ts);
  }

  lemma {:induction false} AddrLoopConsumes(ts: seq<Token>, a: Addr, atoi: nat -> int)
    requires ts != []
    ensures |AddrLoop(ts, a, atoi).rest| < |ts|
  {
  }

  /** In an address it is not: all up to the end of the address is passed over, and what stands behind the address is
      read as if it were in it. Only where nothing does is that no harm. */
  lemma {:induction false} UnknownInAddr(text: string, more: seq<Token>, ts: seq<Token>, a: Addr, atoi: nat -> int)
    requires NoBraces(more)
    ensures var p := AddrLoop([UNKNOWN(text)] + (more + ([RBRACE] + ts)), a, atoi);
            p == AddrLoop(ts, a, atoi) && (p == Parsed(a, ts) <==> ts == [])
  {
    var us := more + ([RBRACE] + ts);
    SkipPlain(more, [RBRACE] + ts, 1);
    assert ([RBRACE] + ts)[1..] == ts && ([UNKNOWN(text)] + us)[1..] == us;
    assert AddrStatement(UNKNOWN(text), us, a, atoi) == Parsed(a, ts);
    if ts != [] { AddrLoopConsumes(ts, a, atoi); }
  }

  // ---- Statements without what they need ----

  /** Where a number is missing, the statement is passed over; a semicolon in its place takes the next one with it. */
  lemma {:induction false} MissingNumber(x: Token, ws: seq<Token>, ts: seq<Token>, atoi: nat -> int)
    requires Words(ws) && !x.NUMBER?
    ensures NumberLine([x] + (ws + ([SEMI] + ts)), atoi) == Parsed(None, ts)
  {
    var us := ws + ([SEMI] + ts);
    SkipWords(ws, ts);
    assert ([x] + us)[1..] == us;
  }

  /** What stands between a number and the next semicolon is passed over: a statement without its own takes the next one
      with it. */
  lemma {:induction false} MissingSemi(n: nat, x: Token, ws: seq<Token>, ts: seq<Token>, atoi: nat -> int)
    requires Words([x] + ws)
    ensures NumberLine([NUMBER(n), x] + (ws + ([SEMI] + ts)), atoi) == Parsed(Some(atoi(n)), ts)
  {
    var us := ws + ([SEMI] + ts);
    assert ([x] + ws)[0] == x && ([x] + ws)[1..] == ws;
    assert Words(ws) by { assert forall i :: 0 <= i < |ws| ==> ws[i] == ([x] + ws)[i + 1]; }
    SkipWords(ws, ts);
    assert ([NUMBER(n), x] + us)[1..] == [x] + us && ([x] + us)[1..] == us;
  }

  /** Where the address of an iaaddr statement is missing, the statement behind it is lost too. */
  lemma {:induction false} BadAddressTakesNext(ws: seq<Token>, next: seq<Token>, ts: seq<Token>, atoi: nat -> int)
    requires Words(ws) && Words(next) && (ws == [] || !ws[0].IP6? || |ws[0].address| != 16)
    ensures ParseAddr(ws + ([SEMI] + (next + ([SEMI] + ts))), atoi) == Parsed(None, ts)
  {
    var us := next + ([SEMI] + ts);
    SkipWords(ws, us);
    SkipWords(next, ts);
    assert (ws + ([SEMI] + us))[0] == if ws == [] then SEMI else ws[0];
  }

  /** So is it behind an IA without an identifier. */
  lemma {:induction false} BadIaidTakesNext(ws: seq<Token>, next: seq<Token>, ts: seq<Token>, t: IaType,
                                            atoi: nat -> int)
    requires Words(ws) && Words(next) && (ws == [] || !ws[0].IAID?)
    ensures ParseIA(ws + ([SEMI] + (next + ([SEMI] + ts))), t, atoi) == Parsed(None, ts)
  {
    var us := next + ([SEMI] + ts);
    SkipWords(ws, us);
    SkipWords(next, ts);
    assert (ws + ([SEMI] + us))[0] == if ws == [] then SEMI else ws[0];
  }

  /** A statement that has no block where it needs one is passed over, */
  lemma {:induction false} MissingBlock(address: seq<byte>, id: seq<byte>, x: Token, ws: seq<Token>, ts: seq<Token>,
                                        t: IaType, known: Interfaces, atoi: nat -> int)
    requires Words(ws) && x != LBRACE && |address| == 16 && |id| == 4
    ensures var us := ws + ([SEMI] + ts);
            && ParseAddr([IP6(address), x] + us, atoi) == Parsed(None, ts)
            && ParseIA([IAID(id), x] + us, t, atoi) == Parsed(None, ts)
            && ParseLease([x] + us, known, atoi) == Parsed(None, ts)
  {
    var us := ws + ([SEMI] + ts);
    SkipWords(ws, ts);
    assert ([x] + us)[1..] == us;
    assert ([IP6(address), x] + us)[1..] == [x] + us && ([IAID(id), x] + us)[1..] == [x] + us;
  }

  /** and so is an IA with an identifier that is not of four bytes. */
  lemma {:induction false} WrongIaid(id: seq<byte>, ws: seq<Token>, ts: seq<Token>, t: IaType, atoi: nat -> int)
    requires Words(ws) && |id| != 4
    ensures ParseIA([IAID(id)] + (ws + ([SEMI] + ts)), t, atoi) == Parsed(None, ts)
  {
    SkipWords(ws, ts);
    assert ([IAID(id)] + (ws + ([SEMI] + ts)))[1..] == ws + ([SEMI] + ts);
  }

  /** A prefix without its slash or its length ends with its semicolon, and the statement behind it is lost. */
  lemma {:induction false} PrefixWithoutLength(address: seq<byte>, x: Token, ws: seq<Token>, next: seq<Token>,
                                               ts: seq<Token>, atoi: nat -> int)
    requires Words([x]) && Words(ws) && Words(next) && |address| == 16 && x != SLASH && !x.NUMBER?
    ensures var us := ws + ([SEMI] + (next + ([SEMI] + ts)));
            && ParseIaPrefix([IP6(address), x] + us, atoi) == Parsed(None, ts)
            && ParseIaPrefix([IP6(address), SLASH, x] + us, atoi) == Parsed(None, ts)
  {
    var us := ws + ([SEMI] + (next + ([SEMI] + ts)));
    assert [x][0] == x;
    SkipWords(ws, next + ([SEMI] + ts));
    SkipWords(next, ts);
    assert ([IP6(address), x] + us)[2..] == us && ([IP6(address), SLASH, x] + us)[3..] == us;
  }

  // ---- Which leases are taken over ----

  /** An abandoned lease counts as released. */
  lemma {:induction false} AbandonedIsReleased(ts: seq<Token>, d: Draft, known: Interfaces, atoi: nat -> int)
    ensures LeaseLoop([ABANDONED, SEMI] + ts, d, known, atoi)
            == LeaseLoop(ts, d.(lease := d.lease.(released := true)), known, atoi)
  {
    assert [ABANDONED, SEMI] + ts == [ABANDONED] + ([SEMI] + ts) && ([SEMI] + ts)[1..] == ts;
    LeaseNext(ABANDONED, [SEMI] + ts, d, d.(lease := d.lease.(released := true)), ts, known, atoi);
  }

  /** The first interface that the client knows is the lease's; others before and behind it are passed over. */
  lemma {:induction false} InterfacePicked(name: string, ts: seq<Token>, d: Draft, known: Interfaces, atoi: nat -> int)
    ensures var p := LeaseStatement(INTERFACE, [STRING(name), SEMI] + ts, d, known, atoi);
            && p.rest == ts
            && p.value == d.(iface := if d.iface.None? && name in known then Some(name) else d.iface)
  {
    var us := [STRING(name), SEMI] + ts;
    assert us[1..] == [SEMI] + ts && ([SEMI] + ts)[1..] == ts;
    assert us == [STRING(name)] + ([SEMI] + ts);
    SkipWords([STRING(name)], ts);
  }

  /** The name of a client of the interface names that client; any other name none. */
  lemma {:induction false} NameRead(name: string, ts: seq<Token>, d: Draft, known: Interfaces, atoi: nat -> int)
    requires d.iface.Some? && d.iface.value in known && d.client.None?
    ensures var p := LeaseStatement(NAME, [STRING(name), SEMI] + ts, d, known, atoi);
            && p.rest == ts && p.value.hasName && p.value.lease == d.lease && p.value.iface == d.iface
            && (p.value.client.Some? ==> && p.value.client.value < |known[d.iface.value]|
                                         && known[d.iface.value][p.value.client.value] == Some(name))
            && (p.value.client.None? ==> Some(name) !in known[d.iface.value])
  {
    var us := [STRING(name), SEMI] + ts;
    assert us[1..] == [SEMI] + ts && ([SEMI] + ts)[1..] == ts;
  }

  /** A draft becomes the lease of a client exactly if it has an IA, an interface with that client (the one it names, or
      without a name the one without), the identifier of its server, and no preference or one of one byte. */
  lemma {:induction false} AcceptedIff(d: Draft, known: Interfaces)
    requires d.client.Some? ==> d.hasName
    ensures Accept(d, known).Some? <==>
            && d.lease.bindings != [] && d.iface.Some?
            && (if d.hasName then d.client.Some? else d.iface.value in known && None in known[d.iface.value])
            && 2 in d.lease.options && d.lease.options[2] != []
            && (7 in d.lease.options ==> |d.lease.options[7]| == 1)
  {
  }

  /** It is then the lease of that draft, with server and preference from its options. */
  lemma {:induction false} AcceptedMeans(d: Draft, known: Interfaces)
    requires Accept(d, known).Some?
    ensures var a := Accept(d, known).value;
            && d.iface == Some(a.iface) && (d.client.Some? ==> a.client == d.client.value)
            && 2 in d.lease.options && a.lease.serverId == d.lease.options[2]
            && a.lease.pref == (if 7 in d.lease.options then Val(d.lease.options[7]) else 0)
            && a.lease.(serverId := d.lease.serverId, pref := d.lease.pref) == d.lease
  {
    var o := d.lease.options;
    if 7 in o { assert o[7][..0] == [] && Val(o[7]) == Val(o[7][..0]) * 256 + o[7][0]; }
  }
}
