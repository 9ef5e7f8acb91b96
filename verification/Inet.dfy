/** common/inet.c: address comparison, masks and the conversion of an address range to CIDR networks. */
module Inet {
  import opened Bytes
  import opened Dyadic

  /** A network as the source lists it: first address and prefix length. */
  datatype Net = Net(addr: seq<byte>, bits: int)

  datatype Status = Success | InvalidArg

  /** The block of address numbers that a network of n-byte addresses denotes. */
  function BlockOf(net: Net): (b: Block)
    requires net.bits <= 8 * |net.addr|
  {
    Block(Val(net.addr), 8 * |net.addr| - net.bits)
  }

  predicate WellSized(nets: seq<Net>, n: nat) {
    forall i :: 0 <= i < |nets| ==> |nets[i].addr| == n && 0 <= nets[i].bits <= 8 * n
  }

  /** The blocks of a result list from its tail to its head. */
  function FromTail(nets: seq<Net>, n: nat): (bs: seq<Block>)
    requires WellSized(nets, n)
    ensures |bs| == |nets|
  {
    seq(|nets|, i requires 0 <= i < |nets| => BlockOf(nets[|nets| - 1 - i]))
  }

  /** Compares two addresses; addresses of different lengths compare as equal. */
  method AddrCmp(a1: seq<byte>, a2: seq<byte>) returns (r: int)
    ensures |a1| != |a2| ==> r == 0
    ensures |a1| == |a2| ==> (r < 0 <==> Val(a1) < Val(a2)) && (r > 0 <==> Val(a1) > Val(a2))
  {
    if |a1| != |a2| { return 0; }
    for i := 0 to |a1|
      invariant a1[..i] == a2[..i]
    {
      if a1[i] < a2[i] {
        ValFirstDifference(a1, a2, i);
        return -1;
      }
      if a1[i] > a2[i] {
        ValFirstDifference(a2, a1, i);
        return 1;
      }
    }
    assert a1 == a1[..|a1|] == a2[..|a1|] == a2;
    return 0;
  }

  function OrByte(a: byte, b: byte): (r: byte) {
    Pow2Small(); OrBound(a, b, 8); BitOr(a, b)
  }

  /** Bytewise OR into `result`; tells whether any byte of it is non-zero. */
  method AddrOr(result: array<byte>, a1: seq<byte>, a2: seq<byte>) returns (nonzero: bool)
    requires result.Length == |a1|
    modifies result
    ensures |a1| != |a2| ==> !nonzero && result[..] == old(result[..])
    ensures |a1| == |a2| ==> forall i :: 0 <= i < |a1| ==> result[i] == OrByte(a1[i], a2[i])
    ensures |a1| == |a2| ==> (nonzero <==> exists i :: 0 <= i < |a1| && result[i] != 0)
  {
    if |a1| != |a2| { return false; }
    var allZero := true;
    for i := 0 to |a1|
      invariant forall j :: 0 <= j < i ==> result[j] == OrByte(a1[j], a2[j])
      invariant allZero <==> forall j :: 0 <= j < i ==> result[j] == 0
    {
      result[i] := OrByte(a1[i], a2[i]);
      if result[i] != 0 { allZero := false; }
    }
    return !allZero;
  }

  /** Bytewise AND into `result`; tells whether any byte of it is non-zero. */
  method AddrAnd(result: array<byte>, a1: seq<byte>, a2: seq<byte>) returns (nonzero: bool)
    requires result.Length == |a1|
    modifies result
    ensures |a1| != |a2| ==> !nonzero && result[..] == old(result[..])
    ensures |a1| == |a2| ==> forall i :: 0 <= i < |a1| ==> result[i] == BitAnd(a1[i], a2[i])
    ensures |a1| == |a2| ==> (nonzero <==> exists i :: 0 <= i < |a1| && result[i] != 0)
  {
    if |a1| != |a2| { return false; }
    var allZero := true;
    for i := 0 to |a1|
      invariant forall j :: 0 <= j < i ==> result[j] == BitAnd(a1[j], a2[j])
      invariant allZero <==> forall j :: 0 <= j < i ==> result[j] == 0
    {
      result[i] := BitAnd(a1[i], a2[i]);
      if result[i] != 0 { allZero := false; }
    }
    return !allZero;
  }

  /** How many of the k low bits of n bytes lie in byte i. */
  function Ones(n: nat, k: nat, i: nat): (r: nat)
    requires i < n
    ensures r <= 8
  {
    var below := 8 * (n - 1 - i);
    if k <= below then 0 else if k >= below + 8 then 8 else k - below
  }

  /** The byte with r low ones. */
  function OnesByte(r: nat): (b: byte)
    requires r <= 8
    ensures b == Pow2(r) - 1
  {
    Pow2Mono(r, 8); Pow2Small();
    Pow2(r) - 1
  }

  /** n bytes whose k low bits are ones: the complement of a netmask. */
  function HostMask(n: nat, k: nat): (m: seq<byte>)
    ensures |m| == n
  {
    seq(n, i requires 0 <= i < n => OnesByte(Ones(n, k, i)))
  }

  lemma {:induction false} OrNewBit(k: nat)
    requires k < 8
    ensures Pow2(k) < 256 && Pow2(k + 1) <= 256 && BitOr(Pow2(k) - 1, Pow2(k)) == Pow2(k + 1) - 1
  {
    var p := Pow2(k);
    assert p < 256 && Pow2(k + 1) == 2 * p <= 256 by { Pow2Byte(k); }
    assert BitAnd(p - 1, p) == 0 by {
      LowZeroOfZero(k);
      LowZeroNext(0, k);
      AndLowMask(p, k);
      AndComm(p - 1, p);
    }
    OrDisjoint(p - 1, p);
  }

  lemma {:induction false} AndComm(a: nat, b: nat)
    ensures BitAnd(a, b) == BitAnd(b, a)
  {
    if a != 0 && b != 0 { AndComm(a / 2, b / 2); }
  }

  /** Setting the next bit turns a host mask into the next host mask. */
  lemma {:induction false} HostMaskGrow(n: nat, k: nat)
    requires k < 8 * n
    ensures 0 <= n - 1 - k / 8 < n && Pow2(k % 8) < 256
    ensures var ofs := n - 1 - k / 8;
            HostMask(n, k + 1) == HostMask(n, k)[ofs := OrByte(HostMask(n, k)[ofs], Pow2(k % 8))]
  {
    var ofs := n - 1 - k / 8;
    OrNewBit(k % 8);
    assert Ones(n, k, ofs) == k % 8 && Ones(n, k + 1, ofs) == k % 8 + 1;
    assert forall i :: 0 <= i < n && i != ofs ==> Ones(n, k + 1, i) == Ones(n, k, i);
  }

  predicate AndZero(a: seq<byte>, m: seq<byte>)
    requires |a| == |m|
  {
    forall i :: 0 <= i < |a| ==> BitAnd(a[i], m[i]) == 0
  }

  lemma AndZeroSnoc(a: seq<byte>, l: byte, m: seq<byte>, h: byte)
    requires |a| == |m|
    ensures AndZero(a + [l], m + [h]) <==> AndZero(a, m) && BitAnd(l, h) == 0
  {
    var a', m' := a + [l], m + [h];
    assert a'[|a|] == l && m'[|a|] == h;
    assert forall i :: 0 <= i < |a| ==> a'[i] == a[i] && m'[i] == m[i];
  }

  /** How many of the k low bits lie in the last byte, and how many in front of it. */
  function LastOnes(k: nat): (r: nat)
    ensures r <= 8
  {
    if k >= 8 then 8 else k
  }

  function FrontOnes(k: nat): (r: nat) {
    if k >= 8 then k - 8 else 0
  }

  /** The mask of all bytes but the last, and the mask of the last. */
  lemma {:induction false} HostMaskParts(n: nat, k: nat)
    requires n > 0
    ensures HostMask(n, k) == HostMask(n - 1, FrontOnes(k)) + [OnesByte(LastOnes(k))]
  {
    assert forall i :: 0 <= i < n - 1 ==> Ones(n, k, i) == Ones(n - 1, FrontOnes(k), i);
    assert Ones(n, k, n - 1) == LastOnes(k);
  }

  lemma {:induction false} AndZeroParts(a: seq<byte>, k: nat)
    requires a != []
    ensures AndZero(a, HostMask(|a|, k)) <==>
            && AndZero(a[..|a| - 1], HostMask(|a| - 1, FrontOnes(k)))
            && BitAnd(a[|a| - 1], OnesByte(LastOnes(k))) == 0
  {
    var m, h := HostMask(|a| - 1, FrontOnes(k)), OnesByte(LastOnes(k));
    assert HostMask(|a|, k) == m + [h] by { HostMaskParts(|a|, k); }
    assert a == a[..|a| - 1] + [a[|a| - 1]];
    AndZeroSnoc(a[..|a| - 1], a[|a| - 1], m, h);
  }

  lemma {:induction false} LowZeroParts(a: seq<byte>, k: nat)
    requires a != []
    ensures LowZero(Val(a), k) <==>
            LowZero(Val(a[..|a| - 1]), FrontOnes(k)) && LowZero(a[|a| - 1], LastOnes(k))
  {
    SplitByte(Val(a[..|a| - 1]), a[|a| - 1], k);
  }

  /** An address has no bit in the mask exactly when its number is a multiple of the block size. */
  lemma {:induction false} AndHostMask(a: seq<byte>, k: nat)
    requires k <= 8 * |a|
    ensures AndZero(a, HostMask(|a|, k)) <==> LowZero(Val(a), k)
  {
    if a != [] {
      AndZeroParts(a, k);
      LowZeroParts(a, k);
      AndHostMask(a[..|a| - 1], FrontOnes(k));
      AndLowMask(a[|a| - 1], LastOnes(k));
    }
  }

  /** The byte string `o` is `a` with the mask's bits set. */
  predicate OrOf(o: seq<byte>, a: seq<byte>, m: seq<byte>) {
    |o| == |a| == |m| && forall i :: 0 <= i < |a| ==> o[i] == OrByte(a[i], m[i])
  }

  /** With no common bit, OR with the mask gives the last number of the block. */
  lemma {:induction false} OrHostMask(a: seq<byte>, o: seq<byte>, k: nat)
    requires k <= 8 * |a| && AndZero(a, HostMask(|a|, k)) && OrOf(o, a, HostMask(|a|, k))
    ensures Val(o) == Val(a) + Pow2(k) - 1
  {
    var m := HostMask(|a|, k);
    forall i | 0 <= i < |a| ensures o[i] as int == a[i] as int + m[i] {
      OrDisjoint(a[i], m[i]);
    }
    ValSum(a, m, o);
    HostMaskVal(|a|, k);
  }

  lemma {:induction false} ValSum(a: seq<byte>, b: seq<byte>, c: seq<byte>)
    requires |a| == |b| == |c| && forall i :: 0 <= i < |a| ==> c[i] as int == a[i] as int + b[i]
    ensures Val(c) == Val(a) + Val(b)
  {
    if a != [] { ValSum(a[..|a| - 1], b[..|b| - 1], c[..|c| - 1]); }
  }

  lemma {:induction false} HostMaskVal(n: nat, k: nat)
    requires k <= 8 * n
    ensures Val(HostMask(n, k)) == Pow2(k) - 1
  {
    if n > 0 {
      var hi, lo := FrontOnes(k), LastOnes(k);
      HostMaskParts(n, k);
      assert HostMask(n, k)[..n - 1] == HostMask(n - 1, hi);
      HostMaskVal(n - 1, hi);
      assert Pow2(hi) * 256 + Pow2(lo) - 256 == Pow2(k) by { Pow2Small(); if k >= 8 { Pow2Add(hi, 8); } }
    }
  }

  /** Whether the address has only zeros below its first `bits` bits. The byte that the boundary divides is
      read as a signed char and shifted down and up again. */
  method IsCidrMaskValid(addr: seq<byte>, bits: int) returns (valid: bool)
    ensures valid <==> 0 <= bits <= 8 * |addr| && BlockOf(Net(addr, bits)).Aligned()
  {
    if bits < 0 { return false; }
    if bits > |addr| * 8 { return false; }
    var zeroBits := |addr| * 8 - bits;
    var zeroBytes := zeroBits / 8;
    AlignedBytes(addr, zeroBits);
    for i := 1 to zeroBytes + 1
      invariant forall j :: |addr| - i < j < |addr| ==> addr[j] == 0
    {
      if addr[|addr| - i] != 0 { return false; }
    }
    var shiftBits := zeroBits % 8;
    if shiftBits == 0 { return true; }
    var b := addr[|addr| - zeroBytes - 1];
    var signed := SignedChar(b);
    SignedShift(b, shiftBits);
    valid := (signed / Pow2(shiftBits)) * Pow2(shiftBits) == signed;
  }

  /** An address number is a multiple of 2^k exactly when its last k / 8 bytes are zero and the byte before them
      is a multiple of the remaining power. */
  lemma {:induction false} AlignedBytes(a: seq<byte>, k: nat)
    requires k <= 8 * |a|
    ensures LowZero(Val(a), k) <==>
            && (forall j :: |a| - k / 8 <= j < |a| ==> a[j] == 0)
            && (k % 8 != 0 ==> LowZero(a[|a| - 1 - k / 8], k % 8))
  {
    if a != [] && k > 0 {
      var init, l := a[..|a| - 1], a[|a| - 1];
      SplitByte(Val(init), l, k);
      if k >= 8 {
        Pow2Small();
        LowZeroBelow(l, 8);
        AlignedBytes(init, k - 8);
      }
    }
  }

  function SignedChar(b: byte): (s: int) {
    if b < 128 then b as int else b as int - 256
  }

  lemma {:induction false} SignedShift(b: byte, k: nat)
    requires 0 < k < 8
    ensures (SignedChar(b) / Pow2(k)) * Pow2(k) == SignedChar(b) <==> LowZero(b, k)
  {
    LowZeroMeans(b, k);
    ShiftBack(SignedChar(b), Pow2(k));
    SignedMod(b, k);
  }

  lemma ShiftBack(s: int, p: nat)
    requires p > 0
    ensures s / p * p == s <==> s % p == 0
  {
  }

  lemma {:induction false} AddMultiple(s: int, p: nat, d: int, t: int)
    requires p > 0 && t == s + d * p
    ensures t % p == s % p
  {
    assert t == (s / p + d) * p + s % p by { MulDist(s / p, d, p); }
    ModUnique(t, p, s / p + d, s % p);
  }

  /** Taking 256 away does not change a remainder. */
  lemma {:induction false} SignedMod(b: byte, k: nat)
    requires 0 < k < 8
    ensures SignedChar(b) % Pow2(k) == b as int % Pow2(k)
  {
    var p, d, s := Pow2(k), Pow2(8 - k), SignedChar(b);
    assert d * p == 256 by { Pow2Add(8 - k, k); Pow2Small(); }
    if b >= 128 { AddMultiple(s, p, d, b); }
  }

  /** The weight of byte `ofs` of n. */
  function Weight(n: nat, ofs: int): (w: nat)
    requires -1 <= ofs < n
  {
    Pow2(8 * (n - 1 - ofs))
  }

  lemma {:induction false} WeightOfBit(n: nat, bit: nat)
    requires bit <= 8 * n
    ensures -1 <= n - bit / 8 - 1 < n && Pow2(bit % 8) <= 128
    ensures Pow2(bit) == Pow2(bit % 8) * Weight(n, n - bit / 8 - 1)
  {
    Pow2Add(bit % 8, 8 * (bit / 8));
    Pow2Small();
    Pow2Mono(bit % 8, 7);
  }

  /** The sum `goal` is the bytes with `tmp` in place of byte `ofs`; in front of the first byte there is only the
      carry. */
  ghost predicate Carrying(s: seq<byte>, ofs: int, tmp: int, goal: nat) {
    -1 <= ofs < |s|
    && if ofs >= 0 then 0 <= tmp < 512 && Val(s) + (tmp - s[ofs]) * Weight(|s|, ofs) == goal
       else Val(s) + Weight(|s|, -1) == goal
  }

  lemma {:induction false} CarryStart(s: seq<byte>, bit: nat, tmp: int)
    requires bit <= 8 * |s|
    requires -1 <= |s| - bit / 8 - 1 < |s|
    requires bit < 8 * |s| ==> tmp == s[|s| - bit / 8 - 1] + Pow2(bit % 8)
    ensures Carrying(s, |s| - bit / 8 - 1, tmp, Val(s) + Pow2(bit))
  {
    WeightOfBit(|s|, bit);
    if bit == 8 * |s| { Pow2Small(); }
  }

  lemma {:induction false} CarryStep(s: seq<byte>, ofs: int, tmp: int, goal: nat, tmp': int)
    requires Carrying(s, ofs, tmp, goal) && ofs >= 0 && tmp > 255
    requires ofs > 0 ==> tmp' - 1 == s[ofs - 1]
    ensures Carrying(s[ofs := tmp - 256], ofs - 1, tmp', goal)
  {
    var w, t := Weight(|s|, ofs), s[ofs := tmp - 256];
    assert Val(t) == Val(s) + (tmp - 256 - s[ofs]) * w by { ValUpdate(s, ofs, tmp - 256); }
    assert Weight(|s|, ofs - 1) == 256 * w by {
      Pow2Add(8, 8 * (|s| - 1 - ofs));
      Pow2Small();
    }
    Distribute(tmp - s[ofs], 0, -256, w);
    assert Val(t) + Weight(|s|, ofs - 1) == goal;
    if ofs > 0 { assert tmp' - t[ofs - 1] == 1; }
  }

  lemma {:induction false} CarryStop(s: seq<byte>, ofs: int, tmp: int, goal: nat)
    requires Carrying(s, ofs, tmp, goal) && (ofs < 0 || tmp <= 255)
    ensures ofs < 0 <==> goal >= Pow2(8 * |s|)
    ensures ofs >= 0 ==> Val(s[ofs := tmp]) == goal
  {
    if ofs >= 0 {
      ValUpdate(s, ofs, tmp);
      ValBound(s[ofs := tmp]);
    }
  }

  /** Adds 2^bit to the address in place, carrying by hand from the byte that holds the bit towards the front.
      `past` tells that the sum is beyond the last address. Reads before the first byte yield `stray`. */
  method AddBlock(addr: array<byte>, bit: nat, stray: byte) returns (past: bool)
    requires bit <= 8 * addr.Length
    modifies addr
    ensures past <==> Val(old(addr[..])) + Pow2(bit) >= Pow2(8 * addr.Length)
    ensures !past ==> Val(addr[..]) == Val(old(addr[..])) + Pow2(bit)
  {
    var ofs := addr.Length - bit / 8 - 1;
    var tmp: int := (if ofs >= 0 then addr[ofs] else stray) as int + Pow2(bit % 8);
    ghost var goal := Val(addr[..]) + Pow2(bit);
    CarryStart(addr[..], bit, tmp);
    while ofs >= 0 && tmp > 255
      invariant Carrying(addr[..], ofs, tmp, goal)
      decreases ofs
    {
      ghost var before, at, sum := addr[..], ofs, tmp;
      var digit: byte := tmp - 256;
      addr[ofs] := digit;
      ofs := ofs - 1;
      tmp := (if ofs >= 0 then addr[ofs] else stray) as int + 1;
      CarryStep(before, at, sum, goal, tmp);
      assert addr[..] == before[at := digit];
    }
    CarryStop(addr[..], ofs, tmp, goal);
    if ofs < 0 { return true; }
    ghost var before := addr[..];
    var digit: byte := tmp;
    addr[ofs] := digit;
    assert addr[..] == before[ofs := digit];
    return false;
  }

  /** A list of networks of n-byte addresses that pass IsCidrMaskValid. */
  predicate NetworkList(nets: seq<Net>, n: nat) {
    WellSized(nets, n) && forall i :: 0 <= i < |nets| ==> BlockOf(nets[i]).Aligned()
  }

  lemma {:induction false} FromTailPrepend(net: Net, nets: seq<Net>, n: nat)
    requires WellSized(nets, n) && |net.addr| == n && 0 <= net.bits <= 8 * n
    ensures WellSized([net] + nets, n) && FromTail([net] + nets, n) == FromTail(nets, n) + [BlockOf(net)]
  {
    forall i | 0 <= i <= |nets|
      ensures FromTail([net] + nets, n)[i] == (FromTail(nets, n) + [BlockOf(net)])[i]
    {
      if i < |nets| { assert ([net] + nets)[|nets| - i] == nets[|nets| - 1 - i]; }
    }
  }

  lemma {:induction false} TilesAppend(bs: seq<Block>, lo: nat, b: Block)
    requires Tiles(bs, lo, b.start) && b.Aligned()
    ensures Tiles(bs + [b], lo, b.Last() + 1)
  {
    var t := bs + [b];
    forall i | 0 < i < |t| ensures t[i].start == t[i - 1].Last() + 1 {
    }
  }

  /** The lower and the higher of two addresses, as numbers. */
  function Low(a: seq<byte>, b: seq<byte>): (r: nat) {
    if Val(a) <= Val(b) then Val(a) else Val(b)
  }

  function High(a: seq<byte>, b: seq<byte>): (r: nat) {
    if Val(a) <= Val(b) then Val(b) else Val(a)
  }

  /** Converts a range, given by its ends in either order, to CIDR networks. The list must be empty on entry.
      Read from its tail the result tiles the range from left to right, its networks are exactly the maximal
      ones of the range, and no list of networks with the same addresses is shorter. */
  method Range2Cidr(prior: seq<Net>, lo: seq<byte>, hi: seq<byte>, stray: byte)
    returns (status: Status, nets: seq<Net>)
    ensures prior != [] || |lo| != |hi| ==> status == InvalidArg && nets == prior
    ensures prior == [] && |lo| == |hi| ==> status == Success && NetworkList(nets, |lo|)
    ensures status == Success ==> Tiles(FromTail(nets, |lo|), Low(lo, hi), High(lo, hi) + 1)
    ensures status == Success ==>
              forall b: Block :: b in FromTail(nets, |lo|) <==> Maximal(b, Low(lo, hi), High(lo, hi))
    ensures status == Success ==> Fewest(nets, |lo|, Low(lo, hi), High(lo, hi))
  {
    if prior != [] || |lo| != |hi| { return InvalidArg, prior; }
    var first, last := lo, hi;
    var order := AddrCmp(lo, hi);
    if order > 0 { first, last := hi, lo; }
    nets := Tile(first, last, stray);
    TilesAreMaximal(FromTail(nets, |lo|), Val(first), Val(last));
    ListIsFewest(nets, first, last);
    return Success, nets;
  }

  /** No list of networks that covers the range is shorter. */
  ghost predicate Fewest(nets: seq<Net>, n: nat, lo: nat, hi: nat) {
    forall other: seq<Net> :: NetworkList(other, n) && Covers(FromTail(other, n), lo, hi) ==> |nets| <= |other|
  }

  lemma {:induction false} ListAligned(nets: seq<Net>, n: nat)
    requires NetworkList(nets, n)
    ensures AllAligned(FromTail(nets, n))
  {
  }

  lemma {:induction false} NotShorter(nets: seq<Net>, lo: seq<byte>, hi: seq<byte>, other: seq<Net>)
    requires TiledUpTo(nets, lo, hi, Val(hi) + 1)
    requires NetworkList(other, |lo|) && Covers(FromTail(other, |lo|), Val(lo), Val(hi))
    ensures |nets| <= |other|
  {
    ListAligned(other, |lo|);
    TilesAreFewest(FromTail(nets, |lo|), Val(lo), Val(hi), FromTail(other, |lo|));
  }

  lemma {:induction false} ListIsFewest(nets: seq<Net>, lo: seq<byte>, hi: seq<byte>)
    requires TiledUpTo(nets, lo, hi, Val(hi) + 1)
    ensures Fewest(nets, |lo|, Val(lo), Val(hi))
  {
    forall other: seq<Net> | NetworkList(other, |lo|) && Covers(FromTail(other, |lo|), Val(lo), Val(hi))
      ensures |nets| <= |other|
    {
      NotShorter(nets, lo, hi, other);
    }
  }

  /** The two tests of the loop say exactly whether the network can grow by one bit. */
  lemma {:induction false} TooBig(a: seq<byte>, o: seq<byte>, hi: seq<byte>, bit: nat)
    requires |a| == |hi| && bit < 8 * |a| && OrOf(o, a, HostMask(|a|, bit + 1))
    ensures Block(Val(a), bit).CannotGrow(Val(hi))
            <==> Val(o) > Val(hi) || !AndZero(a, HostMask(|a|, bit + 1))
  {
    var clear, larger := AndZero(a, HostMask(|a|, bit + 1)), Block(Val(a), bit + 1);
    assert clear <==> larger.Aligned() by { AndTest(a, bit); }
    assert clear ==> Val(o) == larger.Last() by { if clear { OrTest(a, o, bit); } }
  }

  lemma {:induction false} AndTest(a: seq<byte>, bit: nat)
    requires bit < 8 * |a|
    ensures AndZero(a, HostMask(|a|, bit + 1)) <==> Block(Val(a), bit + 1).Aligned()
  {
    AndHostMask(a, bit + 1);
  }

  lemma {:induction false} OrTest(a: seq<byte>, o: seq<byte>, bit: nat)
    requires bit < 8 * |a| && AndZero(a, HostMask(|a|, bit + 1)) && OrOf(o, a, HostMask(|a|, bit + 1))
    ensures Val(o) == Block(Val(a), bit + 1).Last()
  {
    OrHostMask(a, o, bit + 1);
  }

  /** Whether the network at `addr` with the complemented netmask `mask` runs past `hi` or is not aligned. */
  method NetTooBig(addr: seq<byte>, mask: seq<byte>, hi: seq<byte>) returns (big: bool)
    requires |addr| == |mask| == |hi|
    ensures forall bit: nat :: bit < 8 * |addr| && mask == HostMask(|addr|, bit + 1) ==>
              (big <==> Block(Val(addr), bit).CannotGrow(Val(hi)))
  {
    var endAddr, dummy := new byte[|addr|], new byte[|addr|];
    var _ := AddrOr(endAddr, addr, mask);
    var beyond := AddrCmp(endAddr[..], hi);
    var overlap := AddrAnd(dummy, addr, mask);
    big := beyond > 0 || overlap;
    forall bit: nat | bit < 8 * |addr| && mask == HostMask(|addr|, bit + 1)
      ensures big <==> Block(Val(addr), bit).CannotGrow(Val(hi))
    {
      TooBig(addr, endAddr[..], hi, bit);
    }
  }

  /** The networks listed so far tile the range up to `next`, and none of them could be larger. */
  ghost predicate TiledUpTo(nets: seq<Net>, lo: seq<byte>, hi: seq<byte>, next: nat) {
    NetworkList(nets, |lo|)
    && Tiles(FromTail(nets, |lo|), Val(lo), next) && AllCannotGrow(FromTail(nets, |lo|), Val(hi))
  }

  lemma {:induction false} TiledNothing(lo: seq<byte>, hi: seq<byte>)
    ensures TiledUpTo([], lo, hi, Val(lo))
  {
    assert FromTail([], |lo|) == [];
  }

  lemma {:induction false} ListNet(nets: seq<Net>, lo: seq<byte>, hi: seq<byte>, net: Net)
    requires |net.addr| == |lo| && 0 <= net.bits <= 8 * |lo| && TiledUpTo(nets, lo, hi, Val(net.addr))
    requires BlockOf(net).Aligned() && BlockOf(net).CannotGrow(Val(hi))
    ensures TiledUpTo([net] + nets, lo, hi, BlockOf(net).Last() + 1)
  {
    var b, bs, all := BlockOf(net), FromTail(nets, |lo|), [net] + nets;
    assert WellSized(all, |lo|) && FromTail(all, |lo|) == bs + [b] by { FromTailPrepend(net, nets, |lo|); }
    TilesAppend(bs, Val(lo), b);
    assert AllCannotGrow(bs + [b], Val(hi));
  }

  /** The current network: aligned and inside the range. */
  ghost predicate Candidate(start: nat, bit: nat, hi: nat) {
    Block(start, bit).Inside(start, hi)
  }

  lemma CandidateStart(start: nat, hi: nat)
    requires start <= hi
    ensures Candidate(start, 0, hi)
  {
    Pow2Small();
  }

  /** Lists the current network, which cannot grow, moves `addr` behind it and clears the mask. `past` tells that
      there is no address behind it. */
  method ListNetwork(nets: seq<Net>, addr: array<byte>, mask: array<byte>, bit: nat, stray: byte,
                     ghost lo: seq<byte>, ghost hi: seq<byte>)
    returns (nets': seq<Net>, past: bool)
    requires addr != mask && addr.Length == mask.Length == |lo| == |hi| && bit <= 8 * |lo|
    requires TiledUpTo(nets, lo, hi, Val(addr[..]))
    requires Candidate(Val(addr[..]), bit, Val(hi)) && Block(Val(addr[..]), bit).CannotGrow(Val(hi))
    modifies addr, mask
    ensures past ==> TiledUpTo(nets', lo, hi, Val(hi) + 1)
    ensures !past ==> TiledUpTo(nets', lo, hi, Val(addr[..]))
    ensures !past ==> Val(old(addr[..])) < Val(addr[..]) <= Val(hi) + 1 && mask[..] == HostMask(|lo|, 0)
  {
    var net := Net(addr[..], addr.Length * 8 - bit);
    ghost var next := BlockOf(net).Last() + 1;
    ListNet(nets, lo, hi, net);
    nets' := [net] + nets;
    past := AddBlock(addr, bit, stray);
    ghost var after := addr[..];
    ValBound(hi);
    assert past ==> next == Val(hi) + 1;
    assert !past ==> Val(after) == next;
    if !past {
      forall i | 0 <= i < mask.Length { mask[i] := 0; }
      assert mask[..] == HostMask(|lo|, 0);
      assert addr[..] == after;
    }
  }

  /** Sets the mask bit that makes the network twice as large, unless it is the whole address space. */
  method GrowMask(mask: array<byte>, bit: nat) returns (ofs: int)
    requires bit <= 8 * mask.Length && mask[..] == HostMask(mask.Length, bit)
    modifies mask
    ensures ofs < 0 <==> bit == 8 * mask.Length
    ensures ofs >= 0 ==> mask[..] == HostMask(mask.Length, bit + 1)
  {
    ofs := mask.Length - bit / 8 - 1;
    var val := Pow2(bit % 8);
    if ofs >= 0 {
      HostMaskGrow(mask.Length, bit);
      mask[ofs] := OrByte(mask[ofs], val);
    }
  }

  /** Tries the network twice as large: `big` tells that it does not fit, and otherwise the mask is that
      network's. */
  method TryGrow(addr: seq<byte>, mask: array<byte>, bit: nat, hi: seq<byte>) returns (big: bool)
    requires |addr| == |hi| == mask.Length && bit <= 8 * |addr| && mask[..] == HostMask(|addr|, bit)
    modifies mask
    ensures big <==> Block(Val(addr), bit).CannotGrow(Val(hi))
    ensures !big ==> bit < 8 * |addr| && mask[..] == HostMask(|addr|, bit + 1)
  {
    var ofs := GrowMask(mask, bit);
    ghost var m := mask[..];
    big := NetTooBig(addr, mask[..], hi);
    assert mask[..] == m;
    if ofs < 0 {
      SpaceFull(Val(addr), |addr|, hi);
      big := true;
    }
  }

  /** What holds at the head of the loop: the list reaches up to `a`, and the network of `bit` low bits at `a` is
      a candidate as long as `a` is in the range. */
  ghost predicate Tiling(nets: seq<Net>, a: seq<byte>, m: seq<byte>, bit: nat, lo: seq<byte>, hi: seq<byte>) {
    |a| == |lo| == |hi| && bit <= 8 * |lo| && m == HostMask(|lo|, bit)
    && TiledUpTo(nets, lo, hi, Val(a)) && Val(a) <= Val(hi) + 1
    && (Val(a) <= Val(hi) ==> Candidate(Val(a), bit, Val(hi)))
  }

  /** One turn of the loop: the network grows by one bit, or it is listed and the next one starts behind it. */
  method TileStep(nets: seq<Net>, addr: array<byte>, mask: array<byte>, bit: nat, stray: byte,
                  ghost lo: seq<byte>, hi: seq<byte>)
    returns (nets': seq<Net>, bit': nat, past: bool)
    requires addr != mask && Tiling(nets, addr[..], mask[..], bit, lo, hi) && Val(addr[..]) <= Val(hi)
    modifies addr, mask
    ensures past ==> TiledUpTo(nets', lo, hi, Val(hi) + 1)
    ensures !past ==> Tiling(nets', addr[..], mask[..], bit', lo, hi)
    ensures !past ==> Val(addr[..]) > Val(old(addr[..])) || (addr[..] == old(addr[..]) && bit' == bit + 1)
  {
    ghost var a := addr[..];
    var big := TryGrow(addr[..], mask, bit, hi);
    assert addr[..] == a;
    if big {
      nets', past := ListNetwork(nets, addr, mask, bit, stray, lo, hi);
      bit' := 0;
      if !past && Val(addr[..]) <= Val(hi) { CandidateStart(Val(addr[..]), Val(hi)); }
    } else {
      nets', bit', past := nets, bit + 1, false;
    }
  }

  /** The loop of the conversion: grow a mask from the low end while the network stays aligned and in the range,
      list the last one that did, and go on behind it. */
  method Tile(lo: seq<byte>, hi: seq<byte>, stray: byte) returns (nets: seq<Net>)
    requires |lo| == |hi| && Val(lo) <= Val(hi)
    ensures TiledUpTo(nets, lo, hi, Val(hi) + 1)
  {
    var n := |lo|;
    var addr := new byte[n](i requires 0 <= i < n => lo[i]);
    var mask := new byte[n](_ => 0);
    var bit := 0;
    nets := [];
    assert addr[..] == lo && mask[..] == HostMask(n, 0);
    TiledNothing(lo, hi);
    CandidateStart(Val(lo), Val(hi));
    while true
      invariant fresh(addr) && fresh(mask) && addr != mask
      invariant Tiling(nets, addr[..], mask[..], bit, lo, hi)
      decreases Val(hi) + 1 - Val(addr[..]), 8 * n + 1 - bit
    {
      var cmp := AddrCmp(addr[..], hi);
      if cmp > 0 { break; }
      var past;
      nets, bit, past := TileStep(nets, addr, mask, bit, stray, lo, hi);
      if past { break; }
    }
  }

  lemma SpaceFull(start: nat, n: nat, hi: seq<byte>)
    requires |hi| == n
    ensures Block(start, 8 * n).CannotGrow(Val(hi))
  {
    ValBound(hi);
  }
}
