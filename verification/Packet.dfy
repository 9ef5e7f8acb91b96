/** common/packet.c: the Internet checksum, and the IP and UDP headers around a DHCP packet. */
module Packet {
  import opened Wrappers
  import opened Bytes

  const IPPROTO_UDP := 17
  const IPTOS_LOWDELAY := 0x10

  // ---- Checksum ----

  function Word(hi: byte, lo: byte): (w: nat)
    ensures w <= 0xFFFF
  {
    hi as int * 256 + lo as int
  }

  /** The sum of the 16-bit big-endian words of a buffer; a last odd byte is the high byte of a word. */
  function WordSum(b: seq<byte>): (r: nat) {
    if |b| == 0 then 0
    else if |b| == 1 then Word(b[0], 0)
    else Word(b[0], b[1]) + WordSum(b[2..])
  }

  /** The ones-complement sum that stands for a total: 0 for 0, else the representative in 1..0xFFFF. */
  function OnesSum(total: nat): (r: nat)
    ensures r <= 0xFFFF && (r == 0 <==> total == 0)
  {
    if total <= 0xFFFF then total else OnesSum(total - 0xFFFF)
  }

  /** One step of the running sum. */
  function AddWord(sum: nat, w: nat): (r: nat) {
    if sum + w > 0xFFFF then sum + w - 0xFFFF else sum + w
  }

  /** The running sum over a buffer, from any start value. */
  function Folded(b: seq<byte>, sum: nat): (r: nat)
    ensures r <= sum || r <= 0xFFFF
  {
    if |b| == 0 then sum
    else if |b| == 1 then AddWord(sum, Word(b[0], 0))
    else Folded(b[2..], AddWord(sum, Word(b[0], b[1])))
  }

  /** How often the running sum carries. */
  ghost function Carries(b: seq<byte>, sum: nat): (c: nat)
    ensures sum + WordSum(b) == Folded(b, sum) + 0xFFFF * c
    ensures Folded(b, sum) == 0 <==> sum + WordSum(b) == 0
  {
    if |b| == 0 then 0
    else
      var w := if |b| == 1 then Word(b[0], 0) else Word(b[0], b[1]);
      (if sum + w > 0xFFFF then 1 else 0) + if |b| == 1 then 0 else Carries(b[2..], AddWord(sum, w))
  }

  /** The sum that stands for a total is the only one in range with the total's remainder and its zeroness. */
  lemma {:induction false} OnesSumUnique(r: nat, total: nat, c: nat)
    requires total == r + 0xFFFF * c && r <= 0xFFFF && (r == 0 <==> total == 0)
    ensures r == OnesSum(total)
  {
    if c > 0 && total > 0xFFFF { OnesSumUnique(r, total - 0xFFFF, c - 1); }
  }

  ghost function Excess(total: nat): (c: nat)
    ensures total == OnesSum(total) + 0xFFFF * c
  {
    if total <= 0xFFFF then 0 else Excess(total - 0xFFFF) + 1
  }

  /** From a start value of 16 bits the running sum is the ones-complement sum of start and words. */
  lemma {:induction false} FoldedIsOnesSum(b: seq<byte>, sum: nat)
    requires sum <= 0xFFFF
    ensures Folded(b, sum) == OnesSum(sum + WordSum(b))
  {
    OnesSumUnique(Folded(b, sum), sum + WordSum(b), Carries(b, sum));
  }

  /** A multiple of 0xFFFF. */
  predicate Multiple(n: nat) {
    n == 0 || (n >= 0xFFFF && Multiple(n - 0xFFFF))
  }

  /** No two multiples are closer to each other than 0xFFFF. */
  lemma {:induction false} NoMultipleNear(n: nat, d: nat)
    requires Multiple(n) && 0 < d < 0xFFFF
    ensures !Multiple(n + d)
  {
    if n > 0 { NoMultipleNear(n - 0xFFFF, d); }
  }

  /** A sum is all ones exactly when its total is a positive multiple of 0xFFFF. */
  lemma {:induction false} AllOnes(total: nat)
    ensures OnesSum(total) == 0xFFFF <==> total > 0 && Multiple(total)
  {
    if total > 0xFFFF { AllOnes(total - 0xFFFF); }
  }

  /** Sums all pairs of bytes, then the byte left over. The start value leaves room for one word in 32 bits, and
      so does every intermediate sum. */
  method Checksum(buf: seq<byte>, start: nat) returns (sum: nat)
    requires start <= 0xFFFF_0000
    ensures sum == Folded(buf, start) <= 0xFFFF_0000
  {
    sum := start;
    var i, n := 0, |buf|;
    var even := EvenPart(n);
    assert buf[0..] == buf;
    while i < even
      invariant i <= even && EvenPart(i) == i && sum <= 0xFFFF_0000
      invariant Folded(buf[i..], sum) == Folded(buf, start)
    {
      EvenNext(i, n);
      FoldedNext(buf, i, sum);
      sum := sum + Word(buf[i], buf[i + 1]);
      if sum > 0xFFFF { sum := sum - 0xFFFF; }
      i := i + 2;
    }
    if i < n {
      assert |buf[i..]| == 1;
      sum := sum + Word(buf[i], 0);
      if sum > 0xFFFF { sum := sum - 0xFFFF; }
    }
  }

  /** A number with its lowest bit cleared. */
  function EvenPart(n: nat): (r: nat)
    ensures r <= n <= r + 1
  {
    if n < 2 then 0 else 2 + EvenPart(n - 2)
  }

  lemma {:induction false} EvenNext(i: nat, n: nat)
    requires EvenPart(i) == i < EvenPart(n)
    ensures EvenPart(i + 2) == i + 2 <= EvenPart(n)
  {
    if i > 0 { EvenNext(i - 2, n - 2); }
  }

  lemma {:induction false} FoldedNext(buf: seq<byte>, i: nat, sum: nat)
    requires i + 2 <= |buf|
    ensures Folded(buf[i..], sum) == Folded(buf[i + 2..], AddWord(sum, Word(buf[i], buf[i + 1])))
  {
    assert buf[i..][2..] == buf[i + 2..];
  }

  /** The low 16 bits of a number. */
  function Low16(n: nat): (r: nat)
    ensures r == n % 0x10000
  {
    if n < 0x10000 then n else n % 0x10000
  }

  /** Finishes a checksum: the 16-bit complement. */
  function WrapSum(sum: nat): (r: nat)
    ensures r <= 0xFFFF && (sum <= 0xFFFF ==> r + sum == 0xFFFF)
  {
    0xFFFF - Low16(sum)
  }

  /** Summing a sum on is summing the total. */
  lemma {:induction false} OnesSumOn(total: nat, more: nat)
    ensures OnesSum(OnesSum(total) + more) == OnesSum(total + more)
  {
    var r := OnesSum(OnesSum(total) + more);
    OnesSumUnique(r, total + more, Excess(total) + Excess(OnesSum(total) + more));
  }

  lemma {:induction false} WordSumConcat(a: seq<byte>, b: seq<byte>)
    requires |a| % 2 == 0
    ensures WordSum(a + b) == WordSum(a) + WordSum(b)
  {
    if a == [] {
      assert a + b == b;
    } else {
      assert (a + b)[2..] == a[2..] + b;
      WordSumConcat(a[2..], b);
    }
  }

  /** The checksum composes over chunks, as long as only the last one has odd length. */
  lemma {:induction false} FoldedConcat(a: seq<byte>, b: seq<byte>, sum: nat)
    requires |a| % 2 == 0
    ensures Folded(a + b, sum) == Folded(b, Folded(a, sum))
  {
    if a == [] {
      assert a + b == b;
    } else {
      assert (a + b)[2..] == a[2..] + b;
      FoldedConcat(a[2..], b, AddWord(sum, Word(a[0], a[1])));
    }
  }

  /** Changing a byte changes the sum by the difference times the byte's weight in its word. */
  lemma {:induction false} WordSumUpdate(b: seq<byte>, i: nat, x: byte)
    requires i < |b|
    ensures WordSum(b[i := x]) == WordSum(b) + (x as int - b[i]) * (if i % 2 == 0 then 256 else 1)
  {
    if i >= 2 {
      assert b[i := x][2..] == b[2..][i - 2 := x];
      WordSumUpdate(b[2..], i - 2, x);
    } else if |b| >= 2 {
      assert b[i := x][2..] == b[2..];
    }
  }

  /** A byte can not change without changing the sum modulo 0xFFFF. */
  lemma {:induction false} ChangeShows(b: seq<byte>, i: nat, x: byte, base: nat)
    requires i < |b| && x != b[i] && Multiple(base + WordSum(b))
    ensures !Multiple(base + WordSum(b[i := x]))
  {
    WordSumUpdate(b, i, x);
    var d := (x as int - b[i]) * (if i % 2 == 0 then 256 else 1);
    assert -0xFFFF < d < 0xFFFF && d != 0;
    var old_, new_ := base + WordSum(b), base + WordSum(b[i := x]);
    if d > 0 {
      NoMultipleNear(old_, d);
    } else if Multiple(new_) {
      NoMultipleNear(new_, -d);
      assert false;
    }
  }

  // ---- Headers ----

  /** The low byte of a number, and the number without it. */
  function LowByte(n: nat): (b: byte) {
    if n < 256 then n else LowByte(n - 256)
  }

  function HighPart(n: nat): (q: nat)
    ensures n == q * 256 + LowByte(n) as int
  {
    if n < 256 then 0 else 1 + HighPart(n - 256)
  }

  /** A 16-bit number in network byte order. */
  function U16(n: nat): (r: seq<byte>)
    ensures |r| == 2
  {
    [LowByte(HighPart(n)), LowByte(n)]
  }

  /** The 16-bit number at an index. */
  function At16(p: seq<byte>, i: nat): (r: nat)
    requires i + 2 <= |p|
    ensures r <= 0xFFFF
  {
    Word(p[i], p[i + 1])
  }

  lemma {:induction false} U16Value(n: nat)
    ensures At16(U16(n), 0) == Low16(n)
  {
    ModUnique(n, 0x10000, HighPart(HighPart(n)), Word(LowByte(HighPart(n)), LowByte(n)));
  }

  lemma {:induction false} U16Sum(n: nat)
    requires n <= 0xFFFF
    ensures WordSum(U16(n)) == n == At16(U16(n), 0)
  {
    assert HighPart(n) < 256;
    assert WordSum(U16(n)[2..]) == 0;
  }

  /** Numbers stand in network byte order. */
  lemma {:induction false} At16IsValue(p: seq<byte>, i: nat)
    requires i + 2 <= |p|
    ensures At16(p, i) == Val(p[i..i + 2])
  {
    var s := p[i..i + 2];
    assert s[..1] == [p[i]] && s[..1][..0] == [] && Val(s[..1]) == p[i];
  }

  /** Addresses, as four bytes each, and ports of a datagram. */
  datatype Ends = Ends(src: seq<byte>, dst: seq<byte>, sport: nat, dport: nat) {
    predicate Valid() {
      |src| == 4 && |dst| == 4 && sport <= 0xFFFF && dport <= 0xFFFF
    }
  }

  /** The IP header up to its checksum. */
  function IpFront(len: nat): (h: seq<byte>)
    ensures |h| == 10 && h[0] == 0x45
  {
    [0x45, IPTOS_LOWDELAY] + U16(28 + len) + [0, 0, 0, 0, 128, IPPROTO_UDP]
  }

  function IpSum(e: Ends, len: nat): (r: nat)
    requires e.Valid()
  {
    WrapSum(Folded(IpFront(len) + U16(0) + e.src + e.dst, 0))
  }

  function IpHeader(e: Ends, len: nat): (h: seq<byte>)
    requires e.Valid()
    ensures |h| == 20
  {
    IpFront(len) + U16(IpSum(e, len)) + e.src + e.dst
  }

  function UdpFront(e: Ends, len: nat): (h: seq<byte>)
    requires e.Valid()
    ensures |h| == 6
  {
    U16(e.sport) + U16(e.dport) + U16(8 + len)
  }

  /** The checksum over pseudo-header, payload and UDP header. */
  function UdpFolded(addrs: seq<byte>, ulen: nat, udp: seq<byte>, data: seq<byte>): (r: nat) {
    Folded(udp, Folded(data, Folded(addrs, IPPROTO_UDP + ulen)))
  }

  function UdpSum(e: Ends, data: seq<byte>): (r: nat)
    requires e.Valid()
  {
    WrapSum(UdpFolded(e.src + e.dst, Low16(8 + |data|), UdpFront(e, |data|) + U16(0), data))
  }

  function UdpHeader(e: Ends, data: seq<byte>): (h: seq<byte>)
    requires e.Valid()
    ensures |h| == 8
  {
    UdpFront(e, |data|) + U16(UdpSum(e, data))
  }

  /** Puts both headers for the payload into the buffer and moves the index behind them. */
  method AssembleUdpIpHeader(buf: array<byte>, bufix: nat, e: Ends, data: seq<byte>) returns (bufix': nat)
    requires e.Valid() && bufix + 28 <= buf.Length
    modifies buf
    ensures bufix' == bufix + 28
    ensures buf[..] == old(buf[..bufix]) + IpHeader(e, |data|) + UdpHeader(e, data) + old(buf[bufix'..])
  {
    var ip := FinishIp(e, |data|);
    Put(buf, bufix, ip);
    ghost var mid := buf[..];
    var udp := FinishUdp(e, data);
    assert buf[..] == mid;
    Put(buf, bufix + 20, udp);
    bufix' := bufix + 28;
    assert mid[..bufix + 20] == old(buf[..bufix]) + ip && mid[bufix'..] == old(buf[bufix'..]);
  }

  /** The IP header with its checksum filled in. */
  method FinishIp(e: Ends, len: nat) returns (ip: seq<byte>)
    requires e.Valid()
    ensures ip == IpHeader(e, len)
  {
    ip := IpFront(len) + U16(0) + e.src + e.dst;
    var sum := Checksum(ip, 0);
    ip := ip[..10] + U16(WrapSum(sum)) + ip[12..];
  }

  /** The UDP header with its checksum filled in. */
  method FinishUdp(e: Ends, data: seq<byte>) returns (udp: seq<byte>)
    requires e.Valid()
    ensures udp == UdpHeader(e, data)
  {
    udp := UdpFront(e, |data|) + U16(0);
    var ulen := At16(udp, 4);
    assert ulen == Low16(8 + |data|) by {
      U16Value(8 + |data|);
      assert udp[4] == U16(8 + |data|)[0] && udp[5] == U16(8 + |data|)[1];
    }
    var sum := Checksum(e.src + e.dst, IPPROTO_UDP + ulen);
    sum := Checksum(data, sum);
    sum := Checksum(udp, sum);
    udp := udp[..6] + U16(WrapSum(sum));
  }

  /** Copies bytes into the buffer. */
  method Put(buf: array<byte>, at: nat, bytes: seq<byte>)
    requires at + |bytes| <= buf.Length
    modifies buf
    ensures buf[..] == old(buf[..at]) + bytes + old(buf[at + |bytes|..])
  {
    forall i | 0 <= i < |bytes| { buf[at + i] := bytes[i]; }
  }

  // ---- Decoding ----

  /** What the decoder makes of a packet: the sender's address and port, and place and length of the payload. */
  datatype Decoded = Reject | Accept(addr: seq<byte>, port: nat, offset: nat, len: nat)

  function HeaderLen(p: seq<byte>): (n: nat)
    requires |p| > 0
    ensures n <= 60
  {
    p[0] as int % 16 * 4
  }

  /** The packet holds both headers, its IP length is not longer than the buffer, and the filter for a port, if
      one is compiled in, lets it pass. */
  predicate Framed(p: seq<byte>, filter: Option<nat>) {
    && |p| >= 20 && At16(p, 2) <= |p| && HeaderLen(p) + 8 <= |p|
    && (filter.Some? ==> p[9] == IPPROTO_UDP && At16(p, HeaderLen(p) + 2) == filter.value)
    && UdpLen(p) >= 8
  }

  function UdpLen(p: seq<byte>): (n: nat)
    requires |p| >= 20 && HeaderLen(p) + 8 <= |p|
  {
    At16(p, HeaderLen(p) + 4)
  }

  function UdpSumField(p: seq<byte>): (n: nat)
    requires |p| >= 20 && HeaderLen(p) + 8 <= |p|
  {
    At16(p, HeaderLen(p) + 6)
  }

  predicate LengthFits(p: seq<byte>)
    requires Framed(p, None)
  {
    HeaderLen(p) + UdpLen(p) <= |p|
  }

  predicate IpSumGood(p: seq<byte>)
    requires Framed(p, None)
  {
    WrapSum(Folded(p[..HeaderLen(p)], 0)) == 0
  }

  predicate UdpSumGood(p: seq<byte>)
    requires Framed(p, None) && LengthFits(p)
  {
    var h := HeaderLen(p);
    WrapSum(UdpFolded(p[12..20], UdpLen(p), p[h..h + 8], p[h + 8..h + UdpLen(p)])) == 0
  }

  /** The decoder's verdict on the bytes of a packet. */
  function Verdict(p: seq<byte>, filter: Option<nat>, csumReady: bool): (d: Decoded) {
    if !Framed(p, filter) || !LengthFits(p) || !IpSumGood(p) then Reject
    else if UdpSumField(p) != 0 && csumReady && !UdpSumGood(p) then Reject
    else Accept(p[12..16], At16(p, HeaderLen(p)), HeaderLen(p) + 8, UdpLen(p) - 8)
  }

  /** A count of packets seen and of bad ones among them, as kept for the log. */
  datatype Tally = Tally(seen: nat, bad: nat) {
    /** Every tally the decoder can reach; so no count passes 8, far from wrapping around. */
    predicate Valid() {
      if seen <= 4 then bad <= seen else 2 * bad <= seen <= bad + 4
    }
  }

  /** Counts a packet. Past four packets a good one starts the count over, and a bad one does when it makes more
      than half of them bad. */
  method Count(t: Tally, isBad: bool) returns (t': Tally)
    requires t.Valid()
    ensures t'.Valid() && t'.seen <= 8 && t'.bad <= 8
    ensures t' == if t.seen >= 4 && (isBad ==> 2 * (t.bad + 1) > t.seen + 1) then Tally(0, 0)
                  else Tally(t.seen + 1, if isBad then t.bad + 1 else t.bad)
  {
    var seen, bad := t.seen + 1, t.bad;
    if isBad {
      bad := bad + 1;
      if seen > 4 && bad != 0 && seen / bad < 2 { seen, bad := 0, 0; }
    } else if seen > 4 {
      seen, bad := 0, 0;
    }
    t' := Tally(seen, bad);
  }

  /** The decoder with its static counters. */
  class Decoder {
    var length: Tally
    var ip: Tally
    var udp: Tally

    predicate Valid()
      reads this
    {
      length.Valid() && ip.Valid() && udp.Valid()
    }

    constructor ()
      ensures Valid()
    {
      length, ip, udp := Tally(0, 0), Tally(0, 0), Tally(0, 0);
    }

    /** Decodes the headers at the start of `p`, the rest of the receive buffer. The counters have no influence on
        the verdict. */
    method Decode(p: seq<byte>, filter: Option<nat>, csumReady: bool) returns (d: Decoded)
      requires Valid()
      modifies this
      ensures Valid() && d == Verdict(p, filter, csumReady)
    {
      var framed, ipLen, ulen := Frame(p, filter);
      if !framed { return Reject; }
      length := Count(length, ipLen + ulen > |p|);
      if ipLen + ulen > |p| { return Reject; }
      var good := CheckSums(p, ipLen, ulen, csumReady);
      if !good { return Reject; }
      return Accept(p[12..16], At16(p, ipLen), ipLen + 8, ulen - 8);
    }

    /** Both checksums: the UDP one only if the packet has it and the caller wants it tested. */
    method CheckSums(p: seq<byte>, ipLen: nat, ulen: nat, csumReady: bool) returns (good: bool)
      requires Valid() && Framed(p, None) && LengthFits(p) && ipLen == HeaderLen(p) && ulen == UdpLen(p)
      modifies this
      ensures Valid() && (good <==> IpSumGood(p) && (UdpSumField(p) != 0 && csumReady ==> UdpSumGood(p)))
    {
      good := CheckIp(p, ipLen);
      ip := Count(ip, !good);
      if good {
        if At16(p, ipLen + 6) != 0 && csumReady { good := CheckUdp(p, ipLen, ulen); }
        udp := Count(udp, !good);
      }
    }
  }

  /** The tests on lengths, protocol and port, before any counter is touched. */
  method Frame(p: seq<byte>, filter: Option<nat>) returns (framed: bool, ipLen: nat, ulen: nat)
    ensures framed == Framed(p, filter)
    ensures framed ==> Framed(p, None) && ipLen == HeaderLen(p) && ulen == UdpLen(p)
  {
    framed, ipLen, ulen := false, 0, 0;
    if 20 > |p| { return; }
    ipLen := HeaderLen(p);
    var pktLen := At16(p, 2);
    if ipLen > |p| || pktLen > |p| || ipLen + 8 > |p| { return; }
    if filter.Some? {
      if p[9] != IPPROTO_UDP { return; }
      if At16(p, ipLen + 2) != filter.value { return; }
    }
    ulen := At16(p, ipLen + 4);
    framed := ulen >= 8;
  }

  method CheckIp(p: seq<byte>, ipLen: nat) returns (good: bool)
    requires Framed(p, None) && ipLen == HeaderLen(p)
    ensures good == IpSumGood(p)
  {
    var sum := Checksum(p[..ipLen], 0);
    good := WrapSum(sum) == 0;
  }

  method CheckUdp(p: seq<byte>, ipLen: nat, ulen: nat) returns (good: bool)
    requires Framed(p, None) && LengthFits(p) && ipLen == HeaderLen(p) && ulen == UdpLen(p)
    ensures good == UdpSumGood(p)
  {
    var sum := Checksum(p[12..20], IPPROTO_UDP + ulen);
    sum := Checksum(p[ipLen + 8..ipLen + ulen], sum);
    sum := Checksum(p[ipLen..ipLen + 8], sum);
    good := WrapSum(sum) == 0;
  }

  // ---- Round trip ----

  /** The whole datagram: headers, payload, and whatever padding the link adds. */
  function Datagram(e: Ends, data: seq<byte>, pad: seq<byte>): (p: seq<byte>)
    requires e.Valid()
  {
    IpHeader(e, |data|) + UdpHeader(e, data) + data + pad
  }

  /** Where the decoder finds the parts of a packet with a 20-byte IP header. */
  lemma {:induction false} PartsFound(ip: seq<byte>, udp: seq<byte>, data: seq<byte>, pad: seq<byte>)
    requires |ip| >= 20 && |ip| == 4 * (ip[0] as int % 16) && |udp| == 8
    ensures var p, h := ip + udp + data + pad, |ip|;
            && |p| == h + 8 + |data| + |pad| && HeaderLen(p) == h
            && p[..h] == ip && p[h..h + 8] == udp && p[h + 8..h + 8 + |data|] == data
            && p[12..20] == ip[12..20] && p[12..16] == ip[12..16]
            && At16(p, 2) == At16(ip, 2) && p[9] == ip[9]
            && At16(p, h) == At16(udp, 0) && At16(p, h + 2) == At16(udp, 2)
            && At16(p, h + 4) == At16(udp, 4) && At16(p, h + 6) == At16(udp, 6)
  {
    var p, h := ip + udp + data + pad, |ip|;
    assert forall i :: 0 <= i < 8 ==> p[h + i] == udp[i];
  }

  predicate IpOk(ip: seq<byte>) {
    WordSum(ip) > 0 && Multiple(WordSum(ip))
  }

  /** The total that a UDP checksum makes a multiple of 0xFFFF. */
  function UdpWords(addrs: seq<byte>, udp: seq<byte>, data: seq<byte>): (r: nat) {
    IPPROTO_UDP + 8 + |data| + WordSum(addrs) + WordSum(data) + WordSum(udp)
  }

  predicate UdpOk(addrs: seq<byte>, udp: seq<byte>, data: seq<byte>) {
    Multiple(UdpWords(addrs, udp, data))
  }

  lemma {:induction false} IpSumOfParts(p: seq<byte>, ip: seq<byte>)
    requires Framed(p, None) && p[..HeaderLen(p)] == ip
    ensures IpSumGood(p) <==> IpOk(ip)
  {
    FoldedIsOnesSum(ip, 0);
    AllOnes(WordSum(ip));
  }

  lemma {:induction false} UdpSumOfParts(p: seq<byte>, addrs: seq<byte>, udp: seq<byte>, data: seq<byte>)
    requires Framed(p, None) && LengthFits(p) && UdpLen(p) == 8 + |data| && 28 + |data| <= 0xFFFF
    requires var h := HeaderLen(p);
             p[12..20] == addrs && p[h..h + 8] == udp && p[h + 8..h + 8 + |data|] == data
    ensures UdpSumGood(p) <==> UdpOk(addrs, udp, data)
  {
    UdpSumMeans(addrs, udp, data);
  }

  lemma {:induction false} UdpSumMeans(addrs: seq<byte>, udp: seq<byte>, data: seq<byte>)
    requires 28 + |data| <= 0xFFFF
    ensures WrapSum(UdpFolded(addrs, 8 + |data|, udp, data)) == 0 <==> UdpOk(addrs, udp, data)
  {
    UdpFoldedTotal(addrs, 8 + |data|, udp, data);
    AllOnes(UdpWords(addrs, udp, data));
  }

  /** The verdict in terms of the parts of the packet, for any length of the IP header that its options need. */
  lemma {:induction false} VerdictOfParts(ip: seq<byte>, udp: seq<byte>, data: seq<byte>, pad: seq<byte>,
                                          filter: Option<nat>, csumReady: bool)
    requires |ip| >= 20 && |ip| == 4 * (ip[0] as int % 16)
    requires |udp| == 8 && At16(udp, 4) == 8 + |data| && 28 + |data| <= 0xFFFF
    ensures var p := ip + udp + data + pad;
            Verdict(p, filter, csumReady) ==
            if At16(ip, 2) > |p| || (filter.Some? && (ip[9] != IPPROTO_UDP || At16(udp, 2) != filter.value)) then Reject
            else if !IpOk(ip) then Reject
            else if At16(udp, 6) != 0 && csumReady && !UdpOk(ip[12..20], udp, data) then Reject
            else Accept(ip[12..16], At16(udp, 0), |ip| + 8, |data|)
  {
    var p := ip + udp + data + pad;
    PartsFound(ip, udp, data, pad);
    if Framed(p, filter) {
      assert LengthFits(p) && UdpLen(p) == 8 + |data|;
      IpSumOfParts(p, ip);
      UdpSumOfParts(p, ip[12..20], udp, data);
    }
  }

  /** A packet too short for its headers, or with a length that reaches past its end or is too small for the UDP header,
      is rejected. */
  lemma {:induction false} MalformedRejected(p: seq<byte>, filter: Option<nat>, csumReady: bool)
    requires || |p| < 20 || 4 * (p[0] as int % 16) + 8 > |p| || Val(p[2..4]) > |p|
             || (var h := 4 * (p[0] as int % 16); var n := Val(p[h + 4..h + 6]); n < 8 || h + n > |p|)
    ensures Verdict(p, filter, csumReady) == Reject
  {
    if |p| >= 20 {
      var h := HeaderLen(p);
      At16IsValue(p, 2);
      if h + 8 <= |p| { At16IsValue(p, h + 4); }
    }
  }

  /** Filling in the complement of the sum makes the sum all ones. */
  lemma {:induction false} FilledIn(base: nat, s: nat)
    requires base > 0 && s == WrapSum(OnesSum(base))
    ensures OnesSum(base + s) == 0xFFFF && Multiple(base + s)
  {
    OnesSumUnique(0xFFFF, base + s, Excess(base));
    AllOnes(base + s);
  }

  lemma {:induction false} WithSumField(f: seq<byte>, s: nat, t: seq<byte>)
    requires |f| % 2 == 0 && s <= 0xFFFF
    ensures WordSum(f + U16(s) + t) == WordSum(f) + s + WordSum(t)
  {
    WordSumConcat(f + U16(s), t);
    WordSumConcat(f, U16(s));
    U16Sum(s);
  }

  lemma {:induction false} IpTotal(e: Ends, len: nat)
    requires e.Valid()
    ensures IpOk(IpHeader(e, len)) && Folded(IpHeader(e, len), 0) == 0xFFFF
  {
    var f, a, s := IpFront(len), e.src + e.dst, IpSum(e, len);
    var base := WordSum(f) + WordSum(a);
    assert s == WrapSum(OnesSum(base)) by {
      assert f + U16(0) + e.src + e.dst == f + U16(0) + a;
      WithSumField(f, 0, a);
      FoldedIsOnesSum(f + U16(0) + a, 0);
    }
    assert IpHeader(e, len) == f + U16(s) + a;
    WithSumField(f, s, a);
    FoldedIsOnesSum(f + U16(s) + a, 0);
    assert base > 0 by { assert Word(f[0], f[1]) > 0; }
    FilledIn(base, s);
  }

  /** The total behind a UDP checksum, with the header's own checksum field apart. */
  function UdpBase(e: Ends, data: seq<byte>): (r: nat)
    requires e.Valid()
  {
    IPPROTO_UDP + 8 + |data| + WordSum(e.src + e.dst) + WordSum(data) + WordSum(UdpFront(e, |data|))
  }

  lemma {:induction false} FoldOn(b: seq<byte>, total: nat)
    ensures Folded(b, OnesSum(total)) == OnesSum(total + WordSum(b))
  {
    FoldedIsOnesSum(b, OnesSum(total));
    OnesSumOn(total, WordSum(b));
  }

  lemma {:induction false} UdpFoldedTotal(addrs: seq<byte>, ulen: nat, udp: seq<byte>, data: seq<byte>)
    requires IPPROTO_UDP + ulen <= 0xFFFF
    ensures UdpFolded(addrs, ulen, udp, data)
            == OnesSum(IPPROTO_UDP + ulen + WordSum(addrs) + WordSum(data) + WordSum(udp))
  {
    var t0 := IPPROTO_UDP + ulen;
    var t1 := t0 + WordSum(addrs);
    var t2 := t1 + WordSum(data);
    assert Folded(addrs, t0) == OnesSum(t1) by {
      assert OnesSum(t0) == t0;
      FoldOn(addrs, t0);
    }
    assert Folded(data, OnesSum(t1)) == OnesSum(t2) by { FoldOn(data, t1); }
    assert Folded(udp, OnesSum(t2)) == OnesSum(t2 + WordSum(udp)) by { FoldOn(udp, t2); }
  }

  lemma {:induction false} UdpTotal(e: Ends, data: seq<byte>)
    requires e.Valid() && 28 + |data| <= 0xFFFF
    ensures Multiple(UdpBase(e, data) + UdpSum(e, data))
    ensures UdpFolded(e.src + e.dst, 8 + |data|, UdpHeader(e, data), data) == 0xFFFF
    ensures WordSum(UdpHeader(e, data)) == WordSum(UdpFront(e, |data|)) + UdpSum(e, data)
  {
    var f, s, base := UdpFront(e, |data|), UdpSum(e, data), UdpBase(e, data);
    assert UdpFolded(e.src + e.dst, 8 + |data|, f + U16(0), data) == OnesSum(base) by { UdpSumOf(e, data, 0); }
    assert Low16(8 + |data|) == 8 + |data|;
    UdpSumOf(e, data, s);
    FilledIn(base, s);
  }

  lemma {:induction false} UdpSumOf(e: Ends, data: seq<byte>, s: nat)
    requires e.Valid() && 28 + |data| <= 0xFFFF && s <= 0xFFFF
    ensures WordSum(UdpFront(e, |data|) + U16(s)) == WordSum(UdpFront(e, |data|)) + s
    ensures UdpFolded(e.src + e.dst, 8 + |data|, UdpFront(e, |data|) + U16(s), data) == OnesSum(UdpBase(e, data) + s)
  {
    var f := UdpFront(e, |data|);
    assert f + U16(s) + [] == f + U16(s);
    WithSumField(f, s, []);
    UdpFoldedTotal(e.src + e.dst, 8 + |data|, f + U16(s), data);
  }

  /** Parts of a datagram with correct lengths and checksums. */
  predicate Sound(ip: seq<byte>, udp: seq<byte>, data: seq<byte>) {
    && 28 + |data| <= 0xFFFF && |ip| == 20 && |udp| == 8
    && ip[0] % 16 == 5 && ip[9] == IPPROTO_UDP && At16(ip, 2) == 28 + |data| && At16(udp, 4) == 8 + |data|
    && IpOk(ip) && UdpOk(ip[12..20], udp, data)
  }

  lemma {:induction false} IpFields(e: Ends, len: nat)
    requires e.Valid() && 28 + len <= 0xFFFF
    ensures var ip := IpHeader(e, len);
            && ip[0] == 0x45 && ip[9] == IPPROTO_UDP && At16(ip, 2) == 28 + len
            && ip[12..16] == e.src && ip[12..20] == e.src + e.dst
  {
    U16Sum(28 + len);
  }

  lemma {:induction false} UdpFields(e: Ends, data: seq<byte>)
    requires e.Valid() && 28 + |data| <= 0xFFFF
    ensures var udp := UdpHeader(e, data);
            && At16(udp, 0) == e.sport && At16(udp, 2) == e.dport && At16(udp, 4) == 8 + |data|
            && At16(udp, 6) == UdpSum(e, data)
  {
    U16Sum(e.sport);
    U16Sum(e.dport);
    U16Sum(8 + |data|);
    U16Sum(UdpSum(e, data));
  }

  /** The fields of both headers, by their places in sections 3.1 of RFC 791 and the format of RFC 768: version, header
      length, type of service, total length, identification, flags and fragment offset, time to live, protocol and
      addresses; then ports and length. */
  lemma {:induction false} HeaderFields(e: Ends, data: seq<byte>)
    requires e.Valid() && 28 + |data| <= 0xFFFF
    ensures var ip := IpHeader(e, |data|);
            && ip[0] as int == 4 * 16 + 5 && ip[1] == 0x10 && Val(ip[2..4]) == 28 + |data|
            && Val(ip[4..6]) == 0 && Val(ip[6..8]) == 0 && ip[8] == 128 && ip[9] == 17
            && ip[12..16] == e.src && ip[16..20] == e.dst
    ensures var udp := UdpHeader(e, data);
            Val(udp[0..2]) == e.sport && Val(udp[2..4]) == e.dport && Val(udp[4..6]) == 8 + |data|
  {
    var ip, udp := IpHeader(e, |data|), UdpHeader(e, data);
    IpFields(e, |data|);
    UdpFields(e, data);
    At16IsValue(ip, 2);
    At16IsValue(ip, 4);
    At16IsValue(ip, 6);
    At16IsValue(udp, 0);
    At16IsValue(udp, 2);
    At16IsValue(udp, 4);
  }

  lemma {:induction false} AssembledSound(e: Ends, data: seq<byte>)
    requires e.Valid() && 28 + |data| <= 0xFFFF
    ensures Sound(IpHeader(e, |data|), UdpHeader(e, data), data)
  {
    var ip, udp := IpHeader(e, |data|), UdpHeader(e, data);
    IpFields(e, |data|);
    UdpFields(e, data);
    assert IpOk(ip) by { IpTotal(e, |data|); }
    assert UdpOk(ip[12..20], udp, data) by { UdpHeaderOk(e, data); }
  }

  lemma {:induction false} SumFieldApart(addrs: seq<byte>, front: seq<byte>, udp: seq<byte>, data: seq<byte>, s: nat,
                                         total: nat)
    requires WordSum(udp) == WordSum(front) + s && Multiple(total)
    requires total == IPPROTO_UDP + 8 + |data| + WordSum(addrs) + WordSum(data) + WordSum(front) + s
    ensures UdpOk(addrs, udp, data)
  {
  }

  lemma {:induction false} UdpHeaderOk(e: Ends, data: seq<byte>)
    requires e.Valid() && 28 + |data| <= 0xFFFF
    ensures UdpOk(e.src + e.dst, UdpHeader(e, data), data)
  {
    var total := UdpBase(e, data) + UdpSum(e, data);
    UdpTotal(e, data);
    SumFieldApart(e.src + e.dst, UdpFront(e, |data|), UdpHeader(e, data), data, UdpSum(e, data), total);
  }

  /** Decoding an assembled datagram gives back its sender and its payload, whatever follows it in the buffer,
      whether or not the UDP checksum came out as zero, and for odd payload lengths too. */
  lemma {:induction false} RoundTrip(e: Ends, data: seq<byte>, pad: seq<byte>, filter: Option<nat>,
                                     csumReady: bool)
    requires e.Valid() && 28 + |data| <= 0xFFFF && (filter.Some? ==> filter.value == e.dport)
    ensures Verdict(Datagram(e, data, pad), filter, csumReady) == Accept(e.src, e.sport, 28, |data|)
  {
    AssembledSound(e, data);
    IpFields(e, |data|);
    UdpFields(e, data);
    VerdictOfParts(IpHeader(e, |data|), UdpHeader(e, data), data, pad, filter, csumReady);
  }

  // ---- Detection of changes ----

  lemma {:induction false} IpByteChanged(ip: seq<byte>, udp: seq<byte>, data: seq<byte>, pad: seq<byte>, i: nat,
                                         x: byte, filter: Option<nat>, csumReady: bool)
    requires Sound(ip, udp, data) && i < 20 && x != ip[i] && (i == 0 ==> x % 16 == 5)
    ensures Verdict(ip[i := x] + udp + data + pad, filter, csumReady) == Reject
  {
    assert !IpOk(ip[i := x]) by { ChangeShows(ip, i, x, 0); }
    VerdictOfParts(ip[i := x], udp, data, pad, filter, csumReady);
  }

  lemma {:induction false} UdpByteChanged(ip: seq<byte>, udp: seq<byte>, data: seq<byte>, pad: seq<byte>, i: nat,
                                          x: byte, filter: Option<nat>)
    requires Sound(ip, udp, data) && (i < 4 || 6 <= i < 8) && x != udp[i] && At16(udp[i := x], 6) != 0
    ensures Verdict(ip + udp[i := x] + data + pad, filter, true) == Reject
  {
    var a := ip[12..20];
    assert !UdpOk(a, udp[i := x], data) by {
      ChangeShows(udp, i, x, IPPROTO_UDP + 8 + |data| + WordSum(a) + WordSum(data));
    }
    VerdictOfParts(ip, udp[i := x], data, pad, filter, true);
  }

  lemma {:induction false} DataByteChanged(ip: seq<byte>, udp: seq<byte>, data: seq<byte>, pad: seq<byte>, i: nat,
                                           x: byte, filter: Option<nat>)
    requires Sound(ip, udp, data) && i < |data| && x != data[i] && At16(udp, 6) != 0
    ensures Verdict(ip + udp + data[i := x] + pad, filter, true) == Reject
  {
    var a := ip[12..20];
    assert !UdpOk(a, udp, data[i := x]) by {
      ChangeShows(data, i, x, IPPROTO_UDP + 8 + |data| + WordSum(a) + WordSum(udp));
    }
    VerdictOfParts(ip, udp, data[i := x], pad, filter, true);
  }

  lemma {:induction false} UpdateParts(ip: seq<byte>, udp: seq<byte>, data: seq<byte>, pad: seq<byte>, i: nat, x: byte)
    requires |ip| == 20 && |udp| == 8 && i < 28 + |data|
    ensures (ip + udp + data + pad)[i := x] ==
            if i < 20 then ip[i := x] + udp + data + pad
            else if i < 28 then ip + udp[i - 20 := x] + data + pad
            else ip + udp + data[i - 28 := x] + pad
  {
  }

  /** Changing any one byte of the IP header, as long as the header length stays, makes the decoder reject. */
  lemma {:induction false} HeaderChangeRejected(e: Ends, data: seq<byte>, pad: seq<byte>, i: nat, x: byte,
                                                filter: Option<nat>, csumReady: bool)
    requires e.Valid() && 28 + |data| <= 0xFFFF && i < 20 && x != IpHeader(e, |data|)[i]
    requires i == 0 ==> x % 16 == 5
    ensures Verdict(Datagram(e, data, pad)[i := x], filter, csumReady) == Reject
  {
    var ip, udp := IpHeader(e, |data|), UdpHeader(e, data);
    AssembledSound(e, data);
    UpdateParts(ip, udp, data, pad, i, x);
    IpByteChanged(ip, udp, data, pad, i, x, filter, csumReady);
  }

  /** Changing any one byte of the ports makes a decoder that checks UDP checksums reject, when the datagram
      carries one. */
  lemma {:induction false} PortChangeRejected(e: Ends, data: seq<byte>, pad: seq<byte>, i: nat, x: byte,
                                              filter: Option<nat>)
    requires e.Valid() && 28 + |data| <= 0xFFFF && UdpSum(e, data) != 0 && i < 4 && x != UdpHeader(e, data)[i]
    ensures Verdict(Datagram(e, data, pad)[20 + i := x], filter, true) == Reject
  {
    var ip, udp := IpHeader(e, |data|), UdpHeader(e, data);
    AssembledSound(e, data);
    UdpFields(e, data);
    UpdateParts(ip, udp, data, pad, 20 + i, x);
    UdpByteChanged(ip, udp, data, pad, i, x, filter);
  }

  /** So does changing any one byte of the payload. */
  lemma {:induction false} PayloadChangeRejected(e: Ends, data: seq<byte>, pad: seq<byte>, i: nat, x: byte,
                                                 filter: Option<nat>)
    requires e.Valid() && 28 + |data| <= 0xFFFF && UdpSum(e, data) != 0 && i < |data| && x != data[i]
    ensures Verdict(Datagram(e, data, pad)[28 + i := x], filter, true) == Reject
  {
    var ip, udp := IpHeader(e, |data|), UdpHeader(e, data);
    AssembledSound(e, data);
    UdpFields(e, data);
    UpdateParts(ip, udp, data, pad, 28 + i, x);
    DataByteChanged(ip, udp, data, pad, i, x, filter);
  }

  /** Changing a byte of the UDP checksum itself goes unnoticed exactly when it turns the checksum into zero, which
      stands for "no checksum". */
  lemma {:induction false} SumFieldChange(e: Ends, data: seq<byte>, pad: seq<byte>, i: nat, x: byte)
    requires e.Valid() && 28 + |data| <= 0xFFFF && 6 <= i < 8 && x != UdpHeader(e, data)[i]
    ensures Verdict(Datagram(e, data, pad)[20 + i := x], None, true) ==
            if At16(UdpHeader(e, data)[i := x], 6) == 0 then Accept(e.src, e.sport, 28, |data|) else Reject
  {
    var ip, udp := IpHeader(e, |data|), UdpHeader(e, data);
    AssembledSound(e, data);
    IpFields(e, |data|);
    UdpFields(e, data);
    UpdateParts(ip, udp, data, pad, 20 + i, x);
    if At16(udp[i := x], 6) == 0 {
      SumFieldCleared(ip, udp, data, pad, i, x);
    } else {
      UdpByteChanged(ip, udp, data, pad, i, x, None);
    }
  }

  lemma {:induction false} SumFieldCleared(ip: seq<byte>, udp: seq<byte>, data: seq<byte>, pad: seq<byte>, i: nat,
                                           x: byte)
    requires Sound(ip, udp, data) && 6 <= i < 8 && At16(udp[i := x], 6) == 0
    ensures Verdict(ip + udp[i := x] + data + pad, None, true) == Accept(ip[12..16], At16(udp, 0), 28, |data|)
  {
    VerdictOfParts(ip, udp[i := x], data, pad, None, true);
  }
}
