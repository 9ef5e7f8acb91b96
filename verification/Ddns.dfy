/** common/dns.c and client/dhclient.c: DNS updates for the name of a client, by many clients at the same time. */
module Ddns {
  import opened Wrappers
  import opened Bytes

  // ---- Records and messages ----

  datatype RRType = A | AAAA | DHCID | TXT | ANYTYPE

  /** A record of the name in question. The identity of a client is the data of its DHCID or TXT record. */
  datatype RR = RR(rtype: RRType, data: seq<byte>)

  datatype RRClass = IN | NONE | ANY

  /** A line of the prerequisite or update section. */
  datatype Item = Item(class_: RRClass, rtype: RRType, data: Option<seq<byte>>)

  datatype Message = Message(prereqs: seq<Item>, updates: seq<Item>)

  datatype Result = Success | YXDOMAIN | YXRRSET | NXRRSET | Failure | TimedOut

  function OfType(zone: set<RR>, t: RRType): (r: set<RR>) {
    set x | x in zone && x.rtype == t
  }

  // ---- The name server: sections 2.4, 2.5, 3.2 and 3.4 of RFC 2136 ----

  /** The records of a type that the prerequisites list with their values. */
  function Listed(ps: seq<Item>, t: RRType): (r: set<RR>) {
    set i | 0 <= i < |ps| && ps[i].class_ == IN && ps[i].rtype == t && ps[i].data.Some? :: RR(t, ps[i].data.value)
  }

  /** What one prerequisite says of the name. One with a value is about the whole RRset. */
  function CheckOne(zone: set<RR>, ps: seq<Item>, p: Item): (r: Result) {
    match p.class_
    case NONE =>
      if p.rtype == ANYTYPE then if zone == {} then Success else YXDOMAIN
      else if OfType(zone, p.rtype) == {} then Success else YXRRSET
    case IN => if OfType(zone, p.rtype) == Listed(ps, p.rtype) then Success else NXRRSET
    case ANY => if OfType(zone, p.rtype) != {} then Success else NXRRSET
  }

  /** The first prerequisite that does not hold decides the answer. */
  function Check(zone: set<RR>, ps: seq<Item>, k: nat): (r: Result)
    requires k <= |ps|
    decreases |ps| - k
  {
    if k == |ps| then Success
    else if CheckOne(zone, ps, ps[k]) != Success then CheckOne(zone, ps, ps[k])
    else Check(zone, ps, k + 1)
  }

  /** The records that a line of the update section deletes, and those it adds. */
  function Deletes(zone: set<RR>, u: Item): (r: set<RR>) {
    match u.class_
    case ANY => if u.rtype == ANYTYPE then zone else OfType(zone, u.rtype)
    case NONE => if u.data.Some? then {RR(u.rtype, u.data.value)} else {}
    case IN => {}
  }

  function Adds(u: Item): (r: set<RR>) {
    if u.class_ == IN && u.data.Some? then {RR(u.rtype, u.data.value)} else {}
  }

  function Apply(zone: set<RR>, us: seq<Item>): (r: set<RR>)
    decreases |us|
  {
    if us == [] then zone else Apply(zone - Deletes(zone, us[0]) + Adds(us[0]), us[1..])
  }

  /** All records that an update section deletes on its way. */
  function Deleted(zone: set<RR>, us: seq<Item>): (r: set<RR>)
    decreases |us|
  {
    if us == [] then {}
    else Deletes(zone, us[0]) * zone + Deleted(zone - Deletes(zone, us[0]) + Adds(us[0]), us[1..])
  }

  function Answer(zone: set<RR>, m: Message): (r: Result) {
    Check(zone, m.prereqs, 0)
  }

  // ---- Control blocks ----

  datatype State = ADD_FW_NXDOMAIN | ADD_FW_YXDHCID | REM_FW_YXDHCID | REM_FW_NXRR | DONE

  /** A client's wish to have its name and address in the DNS, or no longer. */
  datatype Block = Block(who: seq<byte>, idType: RRType, rrsetFlag: bool, overrideFlag: bool, address: seq<byte>,
                         state: State)

  function AddressType(address: seq<byte>): (t: Option<RRType>) {
    if |address| == 4 then Some(A) else if |address| == 16 then Some(AAAA) else None
  }

  function Add1(b: Block, t: RRType): (m: Message) {
    Message([Item(NONE, if b.rrsetFlag then t else ANYTYPE, None)],
            [Item(IN, t, Some(b.address)), Item(IN, b.idType, Some(b.who))])
  }

  function Add2(b: Block, t: RRType): (m: Message) {
    var replace := [Item(ANY, t, None), Item(IN, t, Some(b.address))];
    if b.overrideFlag then Message([], [Item(ANY, b.idType, None), Item(IN, b.idType, Some(b.who))] + replace)
    else Message([Item(IN, b.idType, Some(b.who))], replace)
  }

  function Rem1(b: Block, t: RRType): (m: Message) {
    Message([Item(IN, b.idType, Some(b.who))], [Item(NONE, t, Some(b.address))])
  }

  function Rem2(b: Block): (m: Message) {
    Message([Item(NONE, A, None), Item(NONE, AAAA, None)], [Item(NONE, b.idType, Some(b.who))])
  }

  /** The message for a state; there is none for an address of another length. */
  function MessageOf(b: Block): (m: Option<Message>) {
    var t := AddressType(b.address);
    if t.None? then None
    else
      match b.state
      case ADD_FW_NXDOMAIN => Some(Add1(b, t.value))
      case ADD_FW_YXDHCID => Some(Add2(b, t.value))
      case REM_FW_YXDHCID => Some(Rem1(b, t.value))
      case REM_FW_NXRR => Some(Rem2(b))
      case DONE => None
  }

  /** What a block does upon an answer. Of the first stage of an addition, only YXRRSET leads to the second. */
  function Next(b: Block, r: Result): (s: State) {
    match b.state
    case ADD_FW_NXDOMAIN =>
      if r == YXRRSET then ADD_FW_YXDHCID else if r == TimedOut then ADD_FW_NXDOMAIN else DONE
    case ADD_FW_YXDHCID => if r == TimedOut then ADD_FW_NXDOMAIN else DONE
    case REM_FW_YXDHCID => if r == Success then REM_FW_NXRR else DONE
    case REM_FW_NXRR => DONE
    case DONE => DONE
  }
}
