/** No client takes another client's address out of the DNS. */
module DdnsSafety {
  import opened Wrappers
  import opened Bytes
  import opened Ddns
  import opened DdnsMessages

  // ---- Many clients ----

  /** How each client, known by its identity, is set up: the type of its identity record, and whether the first stage
      asks for the address type only (DDNS_INCLUDE_RRSET). */
  datatype Setup = Setup(idType: seq<byte> -> RRType, flag: seq<byte> -> bool)

  ghost predicate Proper(s: Setup) {
    forall c :: IdTyped(s.idType(c))
  }

  /** A block of a client of that setup, without conflict override. */
  predicate Fits(s: Setup, b: Block) {
    b.idType == s.idType(b.who) && b.rrsetFlag == s.flag(b.who) && !b.overrideFlag
  }

  /** The records of the name, which client added which address record, and the control blocks at work. */
  datatype World = World(zone: set<RR>, added: set<(RR, seq<byte>)>, blocks: map<nat, Block>)

  predicate Succeeds(zone: set<RR>, b: Block) {
    MessageOf(b).Some? && Answer(zone, MessageOf(b).value) == Success
  }

  /** The records that the message of a block deletes. */
  function GoneBy(zone: set<RR>, b: Block): (r: set<RR>) {
    if Succeeds(zone, b) then Deleted(zone, MessageOf(b).value.updates) else {}
  }

  predicate Adding(b: Block) {
    b.state in {ADD_FW_NXDOMAIN, ADD_FW_YXDHCID}
  }

  /** The name server applies the message of a block: who added the deleted records no longer counts. */
  function Applied(w: World, b: Block): (w': World) {
    if !Succeeds(w.zone, b) then w
    else
      var gone := GoneBy(w.zone, b);
      var kept := set p | p in w.added && p.0 !in gone;
      w.(zone := Apply(w.zone, MessageOf(b).value.updates),
         added := if Adding(b) then kept + {(RR(AddressType(b.address).value, b.address), b.who)} else kept)
  }

  /** What becomes of a message: the answer arrives; the message is lost; the answer is lost; or the server refuses. */
  datatype Fate = Answered | Lost | AnswerLost | Refused

  /** A block is set up, or set up anew with what was looked up again; or the message of a block is sent. */
  datatype Event = Start(n: nat, b: Block) | Send(n: nat, fate: Fate)

  function SetBlock(w: World, n: nat, b: Block): (w': World) {
    w.(blocks := w.blocks[n := b])
  }

  function ResultOf(zone: set<RR>, b: Block, fate: Fate): (r: Result) {
    match fate
    case Answered => if MessageOf(b).None? then Failure else Answer(zone, MessageOf(b).value)
    case Lost => TimedOut
    case AnswerLost => TimedOut
    case Refused => Failure
  }

  function Step(w: World, e: Event): (w': World) {
    match e
    case Start(n, b) => SetBlock(w, n, b)
    case Send(n, fate) =>
      if n !in w.blocks then w
      else
        var b := w.blocks[n];
        var w1 := if fate in {Answered, AnswerLost} then Applied(w, b) else w;
        SetBlock(w1, n, b.(state := Next(b, ResultOf(w.zone, b, fate))))
  }

  /** The event deletes no address record that another client added. */
  ghost predicate Harmless(w: World, e: Event) {
    e.Send? && e.n in w.blocks && e.fate in {Answered, AnswerLost} ==>
      var b := w.blocks[e.n];
      forall p :: p in w.added && p.0 in GoneBy(w.zone, b) ==> p.1 == b.who
  }

  // ---- The invariant ----

  ghost predicate HasAdder(w: World, r: RR) {
    exists c :: (r, c) in w.added
  }

  /** Every address record has an adder, and the identity of every adder is there. */
  ghost predicate Owned(w: World, s: Setup) {
    && (forall p :: p in w.added ==> p.0 in w.zone && IsAddress(p.0) && RR(s.idType(p.1), p.1) in w.zone)
    && (forall r :: r in w.zone && IsAddress(r) ==> HasAdder(w, r))
    && (forall r :: r in w.zone && !IsAddress(r) ==> r == RR(s.idType(r.data), r.data))
  }

  /** All identity records are of one client. */
  predicate OneOwner(zone: set<RR>) {
    forall x, y :: x in zone && y in zone && !IsAddress(x) && !IsAddress(y) ==> x.data == y.data
  }

  ghost predicate SameType(s: Setup) {
    forall c, d :: s.idType(c) == s.idType(d)
  }

  ghost predicate NobodyFlags(s: Setup) {
    forall c :: !s.flag(c)
  }

  ghost predicate Inv(w: World, s: Setup) {
    && Owned(w, s) && (NobodyFlags(s) ==> OneOwner(w.zone))
    && forall n :: n in w.blocks ==> Fits(s, w.blocks[n])
  }

  /** When only the identity of one client is found, all address records are that client's. */
  lemma {:induction false} OnlyMine(w: World, s: Setup, b: Block)
    requires Inv(w, s) && Proper(s) && (SameType(s) || NobodyFlags(s)) && Fits(s, b)
    requires OfType(w.zone, b.idType) == {IdOf(b)}
    ensures forall p :: p in w.added ==> p.1 == b.who
  {
    forall p | p in w.added ensures p.1 == b.who {
      var x := RR(s.idType(p.1), p.1);
      assert x in w.zone && IdOf(b) in OfType(w.zone, b.idType);
      if SameType(s) {
        assert s.idType(p.1) == s.idType(b.who);
        assert x in OfType(w.zone, b.idType);
      }
    }
  }

  lemma {:induction false} AppliedKeeps(w: World, s: Setup, b: Block)
    requires Inv(w, s) && Proper(s) && (SameType(s) || NobodyFlags(s)) && Fits(s, b) && Succeeds(w.zone, b)
    ensures Inv(Applied(w, b), s)
    ensures forall p :: p in w.added && p.0 in GoneBy(w.zone, b) ==> p.1 == b.who
  {
    var t := AddressType(b.address).value;
    match b.state
    case ADD_FW_NXDOMAIN => Add1Keeps(w, s, b, t);
    case ADD_FW_YXDHCID => Add2Keeps(w, s, b, t);
    case REM_FW_YXDHCID => Rem1Keeps(w, s, b, t);
    case REM_FW_NXRR => Rem2Keeps(w, s, b);
  }

  lemma {:induction false} AdderKept(w: World, b: Block, x: RR)
    requires HasAdder(w, x) && x !in GoneBy(w.zone, b)
    ensures HasAdder(Applied(w, b), x)
  {
    var c :| (x, c) in w.added;
    assert (x, c) in Applied(w, b).added;
  }

  lemma {:induction false} Add1Keeps(w: World, s: Setup, b: Block, t: RRType)
    requires Inv(w, s) && Proper(s) && Fits(s, b) && Succeeds(w.zone, b)
    requires b.state == ADD_FW_NXDOMAIN && AddressType(b.address) == Some(t)
    ensures Inv(Applied(w, b), s) && GoneBy(w.zone, b) == {}
  {
    Add1Does(w.zone, b, t);
    var w' := Applied(w, b);
    var r := RR(t, b.address);
    assert (r, b.who) in w'.added;
    forall x | x in w'.zone && IsAddress(x) ensures HasAdder(w', x) {
      if x in w.zone { AdderKept(w, b, x); } else { assert x == r; }
    }
  }

  lemma {:induction false} Add2Keeps(w: World, s: Setup, b: Block, t: RRType)
    requires Inv(w, s) && Proper(s) && (SameType(s) || NobodyFlags(s)) && Fits(s, b) && Succeeds(w.zone, b)
    requires b.state == ADD_FW_YXDHCID && AddressType(b.address) == Some(t)
    ensures Inv(Applied(w, b), s)
    ensures forall p :: p in w.added ==> p.1 == b.who
  {
    Add2Does(w.zone, b, t);
    OnlyMine(w, s, b);
    Add2Owned(w, s, b, t);
  }

  lemma {:induction false} Add2Owned(w: World, s: Setup, b: Block, t: RRType)
    requires Owned(w, s) && Proper(s) && Fits(s, b) && Succeeds(w.zone, b)
    requires b.state == ADD_FW_YXDHCID && AddressType(b.address) == Some(t)
    ensures Owned(Applied(w, b), s)
  {
    Add2Does(w.zone, b, t);
    Add2Adders(w, s, b, t);
    assert IdOf(b) in OfType(w.zone, b.idType);
  }

  lemma {:induction false} Add2Adders(w: World, s: Setup, b: Block, t: RRType)
    requires Owned(w, s) && Fits(s, b) && Succeeds(w.zone, b)
    requires b.state == ADD_FW_YXDHCID && AddressType(b.address) == Some(t)
    ensures forall x :: x in Applied(w, b).zone && IsAddress(x) ==> HasAdder(Applied(w, b), x)
  {
    Add2Does(w.zone, b, t);
    var w' := Applied(w, b);
    var r := RR(t, b.address);
    assert (r, b.who) in w'.added;
    forall x | x in w'.zone && IsAddress(x) ensures HasAdder(w', x) {
      if x != r { AdderKept(w, b, x); }
    }
  }

  lemma {:induction false} Rem1Keeps(w: World, s: Setup, b: Block, t: RRType)
    requires Inv(w, s) && Proper(s) && (SameType(s) || NobodyFlags(s)) && Fits(s, b) && Succeeds(w.zone, b)
    requires b.state == REM_FW_YXDHCID && AddressType(b.address) == Some(t)
    ensures Inv(Applied(w, b), s)
    ensures forall p :: p in w.added ==> p.1 == b.who
  {
    Rem1Does(w.zone, b, t);
    OnlyMine(w, s, b);
    var w' := Applied(w, b);
    forall x | x in w'.zone && IsAddress(x) ensures HasAdder(w', x) {
      AdderKept(w, b, x);
    }
  }

  lemma {:induction false} Rem2Keeps(w: World, s: Setup, b: Block)
    requires Inv(w, s) && Proper(s) && Fits(s, b) && Succeeds(w.zone, b) && b.state == REM_FW_NXRR
    ensures Inv(Applied(w, b), s) && w.added == {}
  {
    assert forall r :: r in w.zone && IsAddress(r) ==> r in OfType(w.zone, A) + OfType(w.zone, AAAA);
    Rem2Does(w.zone, b);
    assert forall p :: p !in w.added;
  }

  /** Every event keeps the invariant and takes no other client's address record. */
  lemma {:induction false} StepKeeps(w: World, s: Setup, e: Event)
    requires Inv(w, s) && Proper(s) && (SameType(s) || NobodyFlags(s)) && (e.Start? ==> Fits(s, e.b))
    ensures Inv(Step(w, e), s) && Harmless(w, e)
  {
    if e.Send? && e.n in w.blocks && e.fate in {Answered, AnswerLost} && Succeeds(w.zone, w.blocks[e.n]) {
      AppliedKeeps(w, s, w.blocks[e.n]);
    }
  }

  // ---- Runs ----

  /** A run from the empty name: any events of any clients of the setup. */
  ghost predicate Run(ws: seq<World>, es: seq<Event>, s: Setup) {
    && |ws| == |es| + 1 && ws[0] == World({}, {}, map[])
    && forall i :: 0 <= i < |es| ==> (es[i].Start? ==> Fits(s, es[i].b)) && ws[i + 1] == Step(ws[i], es[i])
  }

  lemma {:induction false} RunKeeps(ws: seq<World>, es: seq<Event>, s: Setup)
    requires Run(ws, es, s) && Proper(s) && (SameType(s) || NobodyFlags(s))
    ensures Inv(ws[|es|], s) && forall i :: 0 <= i < |es| ==> Harmless(ws[i], es[i])
    decreases |es|
  {
    if es != [] {
      var n := |es| - 1;
      RunKeeps(ws[..n + 1], es[..n], s);
      StepKeeps(ws[n], s, es[n]);
    }
  }

  /** No run of clients of that setup ever harms an address record of another client. */
  ghost predicate AlwaysHarmless(s: Setup) {
    forall ws, es :: Run(ws, es, s) ==> forall i :: 0 <= i < |es| ==> Harmless(ws[i], es[i])
  }

  // ---- Where it goes wrong ----

  /** The address type only is asked for by client c, and client d has another type of identity record: d adds an IPv4
      address, c adds an IPv6 address, and then c replaces its IPv4 addresses, of which it has none. */
  function HarmfulEvents(s: Setup, c: seq<byte>, d: seq<byte>): (es: seq<Event>) {
    var v4, v4', v6 := [1, 1, 1, 1], [2, 2, 2, 2], seq(16, _ => 1 as byte);
    [Start(0, Block(d, s.idType(d), s.flag(d), false, v4, ADD_FW_NXDOMAIN)), Send(0, Answered),
     Start(1, Block(c, s.idType(c), s.flag(c), false, v6, ADD_FW_NXDOMAIN)), Send(1, Answered),
     Start(2, Block(c, s.idType(c), s.flag(c), false, v4', ADD_FW_NXDOMAIN)), Send(2, Answered), Send(2, Answered)]
  }

  function Worlds(w: World, es: seq<Event>): (ws: seq<World>)
    ensures |ws| == |es| + 1 && ws[0] == w
    ensures forall i :: 0 <= i < |es| ==> ws[i + 1] == Step(ws[i], es[i])
    decreases |es|
  {
    if es == [] then [w] else [w] + Worlds(Step(w, es[0]), es[1..])
  }

  lemma {:induction false} FirstAddSucceeds(w: World, b: Block, t: RRType)
    requires b.state == ADD_FW_NXDOMAIN && AddressType(b.address) == Some(t)
    requires if b.rrsetFlag then OfType(w.zone, t) == {} else w.zone == {}
    ensures Applied(w, b) == w.(zone := w.zone + {RR(t, b.address), IdOf(b)},
                                added := w.added + {(RR(t, b.address), b.who)})
  {
    Add1Does(w.zone, b, t);
    assert (set p | p in w.added && p.0 !in GoneBy(w.zone, b)) == w.added;
  }

  lemma {:induction false} FirstAddFails(w: World, b: Block, t: RRType)
    requires b.state == ADD_FW_NXDOMAIN && AddressType(b.address) == Some(t) && b.rrsetFlag && OfType(w.zone, t) != {}
    ensures Applied(w, b) == w && ResultOf(w.zone, b, Answered) == YXRRSET
  {
    Add1Does(w.zone, b, t);
    assert CheckOne(w.zone, Add1(b, t).prereqs, Add1(b, t).prereqs[0]) == YXRRSET;
  }

  function Round(w: World, n: nat, b: Block): (w': World) {
    Step(Step(w, Start(n, b)), Send(n, Answered))
  }

  lemma {:induction false} AddRound(w: World, n: nat, b: Block, t: RRType)
    requires b.state == ADD_FW_NXDOMAIN && AddressType(b.address) == Some(t)
    requires if b.rrsetFlag then OfType(w.zone, t) == {} else w.zone == {}
    ensures var w' := Round(w, n, b);
            w'.zone == w.zone + {RR(t, b.address), IdOf(b)} && w'.added == w.added + {(RR(t, b.address), b.who)}
  {
    FirstAddSucceeds(Step(w, Start(n, b)), b, t);
  }

  lemma {:induction false} FailRound(w: World, n: nat, b: Block, t: RRType)
    requires b.state == ADD_FW_NXDOMAIN && AddressType(b.address) == Some(t) && b.rrsetFlag && OfType(w.zone, t) != {}
    ensures var w' := Round(w, n, b);
            w'.zone == w.zone && w'.added == w.added && w'.blocks == w.blocks[n := b.(state := ADD_FW_YXDHCID)]
  {
    FirstAddFails(Step(w, Start(n, b)), b, t);
  }

  /** Two clients with different types of identity record get their addresses onto the name. */
  lemma {:induction false} TwoOwners(w0: World, b0: Block, b1: Block)
    requires w0.zone == {} && b0.state == b1.state == ADD_FW_NXDOMAIN && b1.rrsetFlag
    requires |b0.address| == 4 && |b1.address| == 16 && IdTyped(b0.idType)
    ensures var w := Round(Round(w0, 0, b0), 1, b1);
            && w.zone == {RR(A, b0.address), IdOf(b0), RR(AAAA, b1.address), IdOf(b1)}
            && (RR(A, b0.address), b0.who) in w.added
  {
    var w1 := Round(w0, 0, b0);
    AddRound(w0, 0, b0, A);
    assert w1.zone == {RR(A, b0.address), IdOf(b0)};
    assert OfType(w1.zone, AAAA) == {};
    AddRound(w1, 1, b1, AAAA);
  }

  lemma {:induction false} HarmfulRounds(w0: World, b0: Block, b1: Block, b2: Block)
    requires w0.zone == {} && b0.state == b1.state == b2.state == ADD_FW_NXDOMAIN
    requires |b0.address| == 4 && |b1.address| == 16 && |b2.address| == 4 && !b2.overrideFlag
    requires b1.rrsetFlag && b2.rrsetFlag && b1.who == b2.who && b1.idType == b2.idType
    requires IdTyped(b0.idType) && IdTyped(b1.idType) && b0.idType != b1.idType && b0.who != b1.who
    ensures !Harmless(Round(Round(Round(w0, 0, b0), 1, b1), 2, b2), Send(2, Answered))
  {
    var w2 := Round(Round(w0, 0, b0), 1, b1);
    TwoOwners(w0, b0, b1);
    assert RR(A, b0.address) in OfType(w2.zone, A);
    FailRound(w2, 2, b2, A);
    assert OfType(w2.zone, b1.idType) == {IdOf(b1)};
    LastHarms(Round(w2, 2, b2), b2.(state := ADD_FW_YXDHCID), RR(A, b0.address), b0.who);
  }

  lemma {:induction false} Harm(s: Setup, c: seq<byte>, d: seq<byte>)
    requires Proper(s) && s.flag(c) && s.idType(c) != s.idType(d)
    ensures var es := HarmfulEvents(s, c, d); !Harmless(Worlds(World({}, {}, map[]), es)[6], es[6])
  {
    var es := HarmfulEvents(s, c, d);
    var ws := Worlds(World({}, {}, map[]), es);
    HarmfulRounds(ws[0], es[0].b, es[2].b, es[4].b);
    assert ws[2] == Step(ws[1], es[1]) == Round(ws[0], 0, es[0].b);
    assert ws[4] == Step(ws[3], es[3]) == Round(ws[2], 1, es[2].b);
    assert ws[6] == Step(ws[5], es[5]) == Round(ws[4], 2, es[4].b);
  }

  lemma {:induction false} LastHarms(w: World, b: Block, r: RR, d: seq<byte>)
    requires b.state == ADD_FW_YXDHCID && |b.address| == 4 && !b.overrideFlag && 2 in w.blocks && w.blocks[2] == b
    requires OfType(w.zone, b.idType) == {IdOf(b)} && r in w.zone && r.rtype == A && (r, d) in w.added && d != b.who
    ensures !Harmless(w, Send(2, Answered))
  {
    Add2Does(w.zone, b, A);
    assert r in GoneBy(w.zone, b);
    var p := (r, d);
    assert p in w.added && p.0 in GoneBy(w.zone, b) && p.1 != b.who;
  }

  /** Clients are safe from each other exactly when all use the same type of identity record, or none sets the flag to
      ask for the address type only. */
  lemma {:induction false} SafeIff(s: Setup)
    requires Proper(s)
    ensures AlwaysHarmless(s) <==> SameType(s) || NobodyFlags(s)
  {
    if SameType(s) || NobodyFlags(s) { Safe(s); } else { Unsafe(s); }
  }

  lemma {:induction false} Safe(s: Setup)
    requires Proper(s) && (SameType(s) || NobodyFlags(s))
    ensures AlwaysHarmless(s)
  {
    forall ws, es | Run(ws, es, s) ensures forall i :: 0 <= i < |es| ==> Harmless(ws[i], es[i]) {
      RunKeeps(ws, es, s);
    }
  }

  lemma {:induction false} Unsafe(s: Setup)
    requires Proper(s) && !SameType(s) && !NobodyFlags(s)
    ensures !AlwaysHarmless(s)
  {
    var c :| s.flag(c);
    var x, y :| s.idType(x) != s.idType(y);
    var d := if s.idType(x) != s.idType(c) then x else y;
    HarmfulRun(s, c, d);
    Harm(s, c, d);
  }

  lemma {:induction false} HarmfulRun(s: Setup, c: seq<byte>, d: seq<byte>)
    ensures var es := HarmfulEvents(s, c, d); Run(Worlds(World({}, {}, map[]), es), es, s)
  {
  }
}
