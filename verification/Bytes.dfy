/** Bytes, powers of two, bitwise operators on naturals, and the value of a big-endian byte string. */
module Bytes {

  type byte = x: int | 0 <= x < 256

  function Pow2(k: nat): (r: nat)
    ensures r > 0
  {
    if k == 0 then 1 else 2 * Pow2(k - 1)
  }

  /** Bitwise AND of two naturals. */
  function BitAnd(a: nat, b: nat): (r: nat)
    ensures r <= a && r <= b
  {
    if a == 0 || b == 0 then 0
    else 2 * BitAnd(a / 2, b / 2) + (a % 2) * (b % 2)
  }

  /** Bitwise OR of two naturals. */
  function BitOr(a: nat, b: nat): (r: nat)
    ensures r >= a && r >= b && r <= a + b
  {
    if a == 0 then b
    else if b == 0 then a
    else 2 * BitOr(a / 2, b / 2) + (if a % 2 == 1 || b % 2 == 1 then 1 else 0)
  }

  /** The number a byte string denotes, most significant byte first. */
  function Val(s: seq<byte>): (r: nat)
  {
    if s == [] then 0 else Val(s[..|s| - 1]) * 256 + s[|s| - 1]
  }

  lemma {:induction false} Pow2Add(a: nat, b: nat)
    ensures Pow2(a + b) == Pow2(a) * Pow2(b)
  {
    if a != 0 { Pow2Add(a - 1, b); }
  }

  lemma {:induction false} Pow2Mono(a: nat, b: nat)
    requires a <= b
    ensures Pow2(a) <= Pow2(b)
  {
    if a < b { Pow2Mono(a, b - 1); }
  }

  lemma Pow2Small()
    ensures Pow2(0) == 1 && Pow2(1) == 2 && Pow2(2) == 4 && Pow2(3) == 8 && Pow2(4) == 16
    ensures Pow2(5) == 32 && Pow2(6) == 64 && Pow2(7) == 128 && Pow2(8) == 256
  {
    assert Pow2(4) == 16;
  }

  lemma {:induction false} Pow2Byte(k: nat)
    requires k < 8
    ensures Pow2(k) <= 128 && Pow2(k + 1) == 2 * Pow2(k)
  {
    Pow2Mono(k, 7);
    Pow2Small();
  }

  /** Splitting a number at bit `k`. */
  lemma {:induction false} HalfMod(x: nat, k: nat)
    requires k > 0
    ensures x % Pow2(k) == 2 * ((x / 2) % Pow2(k - 1)) + x % 2
  {
    var m := Pow2(k - 1);
    var q, r := (x / 2) / m, (x / 2) % m;
    assert x / 2 == q * m + r;
    assert x == q * (2 * m) + (2 * r + x % 2);
    ModUnique(x, 2 * m, q, 2 * r + x % 2);
  }

  lemma MulAtLeast(a: int, m: nat)
    requires a >= 1
    ensures a * m >= m
  {
  }

  lemma ModUnique(x: int, m: nat, q: int, r: nat)
    requires m > 0 && x == q * m + r && r < m
    ensures x % m == r && x / m == q
  {
    var q', r' := x / m, x % m;
    assert x == q' * m + r';
    assert (q - q') * m == r' - r;
    if q > q' {
      MulAtLeast(q - q', m);
    } else if q < q' {
      assert (q' - q) * m == r - r';
      MulAtLeast(q' - q, m);
    }
  }

  /** The `k` low bits of a number are zero. */
  predicate LowZero(x: nat, k: nat) {
    k == 0 || (x % 2 == 0 && LowZero(x / 2, k - 1))
  }

  /** That is, it is a multiple of 2^k. */
  lemma {:induction false} LowZeroMeans(x: nat, k: nat)
    ensures LowZero(x, k) <==> x % Pow2(k) == 0
  {
    if k > 0 {
      LowZeroMeans(x / 2, k - 1);
      HalfMod(x, k);
    }
  }

  lemma {:induction false} LowZeroLess(x: nat, k: nat, j: nat)
    requires k <= j && LowZero(x, j)
    ensures LowZero(x, k)
  {
    if k > 0 { LowZeroLess(x / 2, k - 1, j - 1); }
  }

  /** The next number with k zeros, and the first one that is not zero itself. */
  lemma {:induction false} LowZeroNext(x: nat, k: nat)
    requires LowZero(x, k)
    ensures LowZero(x + Pow2(k), k)
  {
    if k > 0 {
      LowZeroNext(x / 2, k - 1);
      assert (x + 2 * Pow2(k - 1)) / 2 == x / 2 + Pow2(k - 1);
    }
  }

  lemma {:induction false} LowZeroOfZero(k: nat)
    ensures LowZero(0, k)
  {
    if k > 0 { LowZeroOfZero(k - 1); }
  }

  /** Two numbers with k zeros differ by 2^k at least. */
  lemma {:induction false} LowZeroRoom(a: nat, b: nat, k: nat)
    requires LowZero(a, k) && LowZero(b, k) && a < b
    ensures a + Pow2(k) <= b
  {
    if k > 0 { LowZeroRoom(a / 2, b / 2, k - 1); }
  }

  lemma {:induction false} LowZeroBelow(x: nat, k: nat)
    requires x < Pow2(k)
    ensures LowZero(x, k) <==> x == 0
  {
    LowZeroOfZero(k);
    if LowZero(x, k) && x > 0 {
      LowZeroRoom(0, x, k);
      assert false;
    }
  }

  /** Masking with the k low ones gives zero exactly for these numbers. */
  lemma {:induction false} AndLowMask(x: nat, k: nat)
    ensures BitAnd(x, Pow2(k) - 1) == 0 <==> LowZero(x, k)
  {
    if x == 0 {
      LowZeroOfZero(k);
    } else if k > 0 {
      var m := Pow2(k - 1);
      assert (2 * m - 1) / 2 == m - 1 && (2 * m - 1) % 2 == 1;
      AndLowMask(x / 2, k - 1);
    }
  }

  /** A number shifted to the left. */
  function Shl(h: nat, j: nat): (r: nat) {
    if j == 0 then h else 2 * Shl(h, j - 1)
  }

  lemma ShlByte(h: nat)
    ensures Shl(h, 8) == h * 256
  {
    assert Shl(h, 1) == 2 * h && Shl(h, 2) == 4 * h;
    assert Shl(h, 3) == 8 * h && Shl(h, 4) == 16 * h;
    assert Shl(h, 5) == 32 * h && Shl(h, 6) == 64 * h;
    assert Shl(h, 7) == 128 * h;
  }

  /** Zeros of a number are looked for in its low part and then in its high part. */
  lemma {:induction false} SplitBits(h: nat, l: nat, j: nat, k: nat)
    requires l < Pow2(j)
    ensures LowZero(Shl(h, j) + l, k) <==>
            LowZero(l, if k <= j then k else j) && LowZero(h, if k <= j then 0 else k - j)
  {
    if j > 0 && k > 0 {
      assert (2 * Shl(h, j - 1) + l) / 2 == Shl(h, j - 1) + l / 2;
      SplitBits(h, l / 2, j - 1, k - 1);
    }
  }

  lemma {:induction false} SplitByte(h: nat, l: byte, k: nat)
    ensures LowZero(h * 256 + l as int, k) <==>
            LowZero(l, if k <= 8 then k else 8) && LowZero(h, if k <= 8 then 0 else k - 8)
  {
    ShlByte(h);
    Pow2Small();
    SplitBits(h, l, 8, k);
  }

  /** OR of two numbers without a common bit is their sum. */
  lemma {:induction false} OrDisjoint(a: nat, b: nat)
    requires BitAnd(a, b) == 0
    ensures BitOr(a, b) == a + b
  {
    if a != 0 && b != 0 { OrDisjoint(a / 2, b / 2); }
  }

  /** OR does not leave the range of its operands. */
  lemma {:induction false} OrBound(a: nat, b: nat, k: nat)
    requires a < Pow2(k) && b < Pow2(k)
    ensures BitOr(a, b) < Pow2(k)
  {
    if a != 0 && b != 0 { OrBound(a / 2, b / 2, k - 1); }
  }

  lemma {:induction false} ValBound(s: seq<byte>)
    ensures Val(s) < Pow2(8 * |s|)
  {
    if s != [] {
      ValBound(s[..|s| - 1]);
      Pow2Add(8 * (|s| - 1), 8);
      Pow2Small();
      assert Pow2(8 * |s|) == Pow2(8 * (|s| - 1)) * 256;
    }
  }

  /** The value of a concatenation. */
  lemma {:induction false} ValConcat(s: seq<byte>, t: seq<byte>)
    ensures Val(s + t) == Val(s) * Pow2(8 * |t|) + Val(t)
  {
    if t == [] {
      assert s + t == s;
    } else {
      var t', l := t[..|t| - 1], t[|t| - 1];
      var v, w := Val(s), Pow2(8 * |t'|);
      assert Val(s + t) == Val(s + t') * 256 + l by { assert (s + t)[..|s + t| - 1] == s + t'; }
      ValConcat(s, t');
      assert Pow2(8 * |t|) == w * 256 by { Pow2Add(8 * |t'|, 8); Pow2Small(); }
      MulAssoc(v, w, 256);
      MulDist(v * w, Val(t'), 256);
    }
  }

  /** The value of a string around one of its bytes. */
  lemma {:induction false} ValAround(s: seq<byte>, i: nat)
    requires i < |s|
    ensures Val(s) == (Val(s[..i]) * 256 + s[i]) * Pow2(8 * (|s| - 1 - i)) + Val(s[i + 1..])
  {
    var h, t := s[..i + 1], s[i + 1..];
    assert Val(h) == Val(s[..i]) * 256 + s[i] by { assert h[..|h| - 1] == s[..i]; }
    assert Val(h + t) == Val(h) * Pow2(8 * (|s| - 1 - i)) + Val(t) by { ValConcat(h, t); }
    assert s == h + t;
  }

  /** Changing one byte changes the value by the difference times the byte's weight. */
  lemma {:induction false} ValUpdate(s: seq<byte>, i: nat, b: byte)
    requires i < |s|
    ensures Val(s[i := b]) == Val(s) + (b - s[i]) * Pow2(8 * (|s| - 1 - i))
  {
    var w, t := Pow2(8 * (|s| - 1 - i)), s[i := b];
    ghost var h := Val(s[..i]) * 256;
    assert Val(s) == (h + s[i]) * w + Val(s[i + 1..]) by { ValAround(s, i); }
    assert Val(t) == (h + b) * w + Val(s[i + 1..]) by {
      assert t[..i] == s[..i] && t[i + 1..] == s[i + 1..];
      ValAround(t, i);
    }
    Distribute(h, b, s[i], w);
  }

  lemma Distribute(h: int, a: int, b: int, w: int)
    ensures (h + a) * w == (h + b) * w + (a - b) * w
  {
  }

  /** Equal-length strings with equal values are equal. */
  lemma {:induction false} ValInjective(s: seq<byte>, t: seq<byte>)
    requires |s| == |t| && Val(s) == Val(t)
    ensures s == t
  {
    if s != [] {
      assert Val(s) / 256 == Val(s[..|s| - 1]) && Val(t) / 256 == Val(t[..|t| - 1]);
      ValInjective(s[..|s| - 1], t[..|t| - 1]);
      assert s == s[..|s| - 1] + [s[|s| - 1]] && t == t[..|t| - 1] + [t[|t| - 1]];
    }
  }

  /** Comparing at the first differing byte compares the values. */
  lemma {:induction false} ValFirstDifference(s: seq<byte>, t: seq<byte>, i: nat)
    requires |s| == |t| && i < |s| && s[..i] == t[..i] && s[i] < t[i]
    ensures Val(s) < Val(t)
  {
    var w := Pow2(8 * (|s| - 1 - i));
    ValAround(s, i);
    ValAround(t, i);
    ValBound(s[i + 1..]);
    var a, b := Val(s[..i]) * 256 + s[i], Val(s[..i]) * 256 + t[i];
    MulMono(a + 1, b, w);
    assert (a + 1) * w == a * w + w;
  }

  lemma MulAssoc(a: int, b: int, c: int)
    ensures (a * b) * c == a * (b * c)
  {
  }

  lemma MulDist(a: int, b: int, c: int)
    ensures (a + b) * c == a * c + b * c
  {
  }

  lemma MulMono(a: nat, b: nat, m: nat)
    requires a <= b
    ensures a * m <= b * m
  {
  }
}
