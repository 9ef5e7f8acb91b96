/** Aligned power-of-two blocks of naturals: the arithmetic of CIDR networks, free of bytes. */
module Dyadic {
  import opened Bytes

  /** The numbers start .. start + 2^log - 1. */
  datatype Block = Block(start: nat, log: nat) {
    function Last(): (r: nat) {
      start + Pow2(log) - 1
    }

    predicate Has(x: nat) {
      start <= x <= Last()
    }

    /** The start is a multiple of the size. */
    predicate Aligned() {
      LowZero(start, log)
    }

    predicate Within(c: Block) {
      c.start <= start && Last() <= c.Last()
    }

    /** A network that lies in the range lo..hi. */
    predicate Inside(lo: nat, hi: nat) {
      Aligned() && lo <= start && Last() <= hi
    }

    /** The next larger block with the same start is no network of the range. */
    predicate CannotGrow(hi: nat) {
      !Block(start, log + 1).Inside(start, hi)
    }
  }

  /** A network of the range that no other network of the range contains. */
  ghost predicate Maximal(b: Block, lo: nat, hi: nat) {
    b.Inside(lo, hi) && forall c: Block :: c.Inside(lo, hi) && b.Within(c) ==> c == b
  }

  /** The blocks are networks, the first starts at lo, each starts where the one before it ends, and the last
      ends just before next. */
  predicate Tiles(bs: seq<Block>, lo: nat, next: nat) {
    && AllAligned(bs)
    && (forall i :: 0 < i < |bs| ==> bs[i].start == bs[i - 1].Last() + 1)
    && (if bs == [] then lo == next else bs[0].start == lo && bs[|bs| - 1].Last() + 1 == next)
  }

  predicate AllCannotGrow(bs: seq<Block>, hi: nat) {
    forall i :: 0 <= i < |bs| ==> bs[i].CannotGrow(hi)
  }

  predicate AllAligned(bs: seq<Block>) {
    forall i :: 0 <= i < |bs| ==> bs[i].Aligned()
  }

  predicate InSome(x: nat, bs: seq<Block>) {
    exists i :: 0 <= i < |bs| && bs[i].Has(x)
  }

  /** The blocks together are exactly the range. */
  ghost predicate Covers(bs: seq<Block>, lo: nat, hi: nat) {
    forall x: nat :: InSome(x, bs) <==> lo <= x <= hi
  }

  lemma {:induction false} Pow2Injective(a: nat, b: nat)
    requires Pow2(a) == Pow2(b)
    ensures a == b
  {
    if a != 0 && b != 0 { Pow2Injective(a - 1, b - 1); }
  }

  lemma {:induction false} AlignedSmaller(s: nat, k: nat, j: nat)
    requires k <= j && Block(s, j).Aligned()
    ensures Block(s, k).Aligned()
  {
    LowZeroLess(s, k, j);
  }

  /** Networks are nested or disjoint. */
  lemma {:induction false} Nested(b: Block, c: Block)
    requires b.Aligned() && c.Aligned() && b.log <= c.log && c.Has(b.start)
    ensures b.Within(c)
  {
    var next := c.start + Pow2(c.log);
    LowZeroNext(c.start, c.log);
    LowZeroLess(next, b.log, c.log);
    LowZeroRoom(b.start, next, b.log);
  }

  /** A network of the range that starts in a block which cannot grow lies in that block. */
  lemma {:induction false} StartsWithin(b: Block, t: Block, lo: nat, hi: nat)
    requires b.Inside(lo, hi) && t.Aligned() && t.CannotGrow(hi) && t.Has(b.start)
    ensures b.Within(t)
  {
    if b.log <= t.log {
      Nested(b, t);
    } else {
      AlignedSmaller(b.start, t.log, b.log);
      Nested(Block(b.start, t.log), t);
      assert b.start == t.start;
      AlignedSmaller(b.start, t.log + 1, b.log);
      Pow2Mono(t.log + 1, b.log);
      assert false;
    }
  }

  lemma {:induction false} TilesOrdered(bs: seq<Block>, lo: nat, next: nat, i: nat, j: nat)
    requires Tiles(bs, lo, next) && i <= j < |bs|
    ensures lo <= bs[i].start <= bs[j].start && bs[j].Last() < next
    ensures i < j ==> bs[i].Last() < bs[j].start
  {
    if i < j {
      TilesOrdered(bs, lo, next, i, j - 1);
    } else {
      TilesFrom(bs, lo, next, j);
      TilesUpTo(bs, lo, next, j);
    }
    if i < j { TilesUpTo(bs, lo, next, j); }
  }

  lemma {:induction false} TilesFrom(bs: seq<Block>, lo: nat, next: nat, i: nat)
    requires Tiles(bs, lo, next) && i < |bs|
    ensures lo <= bs[i].start
  {
    if i > 0 { TilesFrom(bs, lo, next, i - 1); }
  }

  lemma {:induction false} TilesUpTo(bs: seq<Block>, lo: nat, next: nat, i: nat)
    requires Tiles(bs, lo, next) && i < |bs|
    ensures bs[i].Last() < next
    decreases |bs| - i
  {
    if i + 1 < |bs| { TilesUpTo(bs, lo, next, i + 1); }
  }

  /** Every number of the range is in one of the tiles. */
  lemma {:induction false} TileOf(bs: seq<Block>, lo: nat, next: nat, x: nat) returns (i: nat)
    requires Tiles(bs, lo, next) && lo <= x < next
    ensures i < |bs| && bs[i].Has(x)
  {
    i := |bs| - 1;
    while bs[i].start > x
      invariant i < |bs| && x <= bs[i].Last()
    {
      i := i - 1;
    }
  }

  lemma {:induction false} TilesDisjoint(bs: seq<Block>, lo: nat, next: nat, i: nat, j: nat)
    requires Tiles(bs, lo, next) && i < |bs| && j < |bs| && i != j
    ensures !bs[i].Has(bs[j].start) && bs[i] != bs[j]
  {
    if i < j { TilesOrdered(bs, lo, next, i, j); } else { TilesOrdered(bs, lo, next, j, i); }
  }

  lemma {:induction false} TilesCover(bs: seq<Block>, lo: nat, hi: nat)
    requires Tiles(bs, lo, hi + 1)
    ensures Covers(bs, lo, hi)
  {
    forall x: nat ensures InSome(x, bs) <==> lo <= x <= hi {
      if lo <= x <= hi {
        var i := TileOf(bs, lo, hi + 1, x);
      }
      if i: nat :| i < |bs| && bs[i].Has(x) {
        TilesOrdered(bs, lo, hi + 1, i, i);
      }
    }
  }

  /** Greedy tiles are exactly the maximal networks of the range. */
  lemma {:induction false} TilesAreMaximal(bs: seq<Block>, lo: nat, hi: nat)
    requires Tiles(bs, lo, hi + 1) && AllCannotGrow(bs, hi)
    ensures forall b: Block :: b in bs <==> Maximal(b, lo, hi)
  {
    forall b: Block ensures b in bs <==> Maximal(b, lo, hi) {
      if b in bs {
        var i: nat :| i < |bs| && bs[i] == b;
        TilesOrdered(bs, lo, hi + 1, i, i);
        forall c: Block | c.Inside(lo, hi) && b.Within(c) ensures c == b {
          var j := TileOf(bs, lo, hi + 1, c.start);
          StartsWithin(c, bs[j], lo, hi);
          if i != j { TilesDisjoint(bs, lo, hi + 1, j, i); }
          Pow2Injective(b.log, c.log);
        }
      }
      if Maximal(b, lo, hi) {
        var j := TileOf(bs, lo, hi + 1, b.start);
        StartsWithin(b, bs[j], lo, hi);
        TilesOrdered(bs, lo, hi + 1, j, j);
        assert bs[j].Inside(lo, hi);
      }
    }
  }

  /** `o` lies in `t` and holds its first number, so it can stand in for no other tile. */
  predicate Serves(o: Block, t: Block) {
    o.Has(t.start) && o.Within(t)
  }

  predicate Served(t: Block, other: seq<Block>) {
    exists j :: 0 <= j < |other| && Serves(other[j], t)
  }

  lemma {:induction false} OneServerEach(bs: seq<Block>, other: seq<Block>)
    requires forall i, j :: 0 <= i < |bs| && 0 <= j < |bs| && i != j ==> !bs[i].Has(bs[j].start)
    requires forall i :: 0 <= i < |bs| ==> Served(bs[i], other)
    ensures |bs| <= |other|
  {
    if bs != [] {
      var n := |bs| - 1;
      assert Served(bs[n], other);
      var k :| 0 <= k < |other| && Serves(other[k], bs[n]);
      var rest := other[..k] + other[k + 1..];
      var init := bs[..n];
      forall i | 0 <= i < n ensures Served(init[i], rest) {
        assert Served(bs[i], other);
        var j :| 0 <= j < |other| && Serves(other[j], bs[i]);
        assert j != k by { assert !bs[n].Has(bs[i].start); }
        var j' := if j < k then j else j - 1;
        assert rest[j'] == other[j] && Serves(rest[j'], init[i]);
      }
      OneServerEach(init, rest);
    }
  }

  /** No list of networks with the same union is shorter than a greedy tiling. */
  lemma {:induction false} TilesAreFewest(bs: seq<Block>, lo: nat, hi: nat, other: seq<Block>)
    requires Tiles(bs, lo, hi + 1) && AllCannotGrow(bs, hi)
    requires Covers(other, lo, hi) && AllAligned(other)
    ensures |bs| <= |other|
  {
    forall i, j | 0 <= i < |bs| && 0 <= j < |bs| && i != j ensures !bs[i].Has(bs[j].start) {
      TilesDisjoint(bs, lo, hi + 1, i, j);
    }
    forall i | 0 <= i < |bs| ensures Served(bs[i], other) {
      TilesOrdered(bs, lo, hi + 1, i, i);
      assert InSome(bs[i].start, other);
      var j :| 0 <= j < |other| && other[j].Has(bs[i].start);
      assert other[j].Has(other[j].start) && other[j].Has(other[j].Last());
      assert InSome(other[j].start, other) && InSome(other[j].Last(), other);
      var t := TileOf(bs, lo, hi + 1, other[j].start);
      StartsWithin(other[j], bs[t], lo, hi);
      assert t == i && Serves(other[j], bs[i]);
    }
    OneServerEach(bs, other);
  }
}
