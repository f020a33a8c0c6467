/**
  Bit strings, most significant bit first, and the numbers they stand for.
  This is the plain form that the word-buffered reader and writer are compared with.
  */
module Bits {

  type Bit = x: int | 0 <= x < 2
  type Byte = x: int | 0 <= x < 256

  function Pow2(n: nat): (p: nat)
    ensures p > 0
  {
    if n == 0 then 1 else 2 * Pow2(n - 1)
  }

  /** The number written by a bit string. */
  function Val(s: seq<Bit>): nat {
    if s == [] then 0 else 2 * Val(s[..|s| - 1]) + s[|s| - 1]
  }

  /** The low `n` bits of `v`, in two's complement when `v` is negative. */
  function ToBits(v: int, n: nat): (s: seq<Bit>)
    ensures |s| == n
    decreases n
  {
    if n == 0 then [] else ToBits(v / 2, n - 1) + [v % 2]
  }

  function BytesBits(b: seq<Byte>): (s: seq<Bit>)
    ensures |s| == 8 * |b|
  {
    if b == [] then [] else BytesBits(b[..|b| - 1]) + ToBits(b[|b| - 1], 8)
  }

  lemma {:induction false} Pow2Add(m: nat, n: nat)
    ensures Pow2(m + n) == Pow2(m) * Pow2(n)
  {
    if n > 0 {
      Pow2Add(m, n - 1);
      assert Pow2(m) * Pow2(n) == 2 * (Pow2(m) * Pow2(n - 1));
    }
  }

  lemma Pow2Monotone(m: nat, n: nat)
    requires m <= n
    ensures Pow2(m) <= Pow2(n)
  {
    if m < n {
      Pow2Monotone(m, n - 1);
    }
  }

  lemma Pow2Values()
    ensures Pow2(8) == 0x100 && Pow2(16) == 0x1_0000 && Pow2(24) == 0x100_0000 && Pow2(32) == 0x1_0000_0000
  {
    assert Pow2(4) == 16;
    Pow2Add(4, 4);
    Pow2Add(8, 8);
    Pow2Add(16, 8);
    Pow2Add(16, 16);
  }

  lemma {:induction false} ValBound(s: seq<Bit>)
    ensures Val(s) < Pow2(|s|)
  {
    if s != [] {
      ValBound(s[..|s| - 1]);
    }
  }

  lemma {:induction false} ValConcat(a: seq<Bit>, b: seq<Bit>)
    ensures Val(a + b) == Val(a) * Pow2(|b|) + Val(b)
  {
    if b == [] {
      assert a + b == a;
    } else {
      var b' := b[..|b| - 1];
      ValConcat(a, b');
      assert (a + b)[..|a + b| - 1] == a + b';
      assert 2 * (Val(a) * Pow2(|b'|)) == Val(a) * Pow2(|b|);
    }
  }

  lemma MulGrows(k: int, d: int)
    requires 0 < d
    ensures k >= 1 ==> k * d >= d
    ensures k <= -1 ==> k * d <= -d
  {}

  lemma MulMonotone(a: int, b: int, d: int)
    requires a <= b && 0 <= d
    ensures a * d <= b * d
  {}

  lemma DivBounds(x: nat, d: nat)
    requires d > 0
    ensures 0 <= x / d && (x / d) * d <= x
  {
    assert x == (x / d) * d + x % d;
    MulGrows(x / d, d);
  }

  lemma DivLess(x: nat, d: nat, q: nat)
    requires d > 0 && x < q * d
    ensures 0 <= x / d < q
  {
    DivBounds(x, d);
    if x / d >= q {
      MulMonotone(q, x / d, d);
    }
  }

  lemma {:induction false} DivModUnique(x: int, d: int, q: int, r: int)
    requires 0 < d && 0 <= r < d && x == q * d + r
    ensures x / d == q && x % d == r
  {
    var q', r' := x / d, x % d;
    assert x == q' * d + r' && 0 <= r' < d;
    assert (q - q') * d == r' - r by { assert (q - q') * d == q * d - q' * d; }
    MulGrows(q - q', d);
  }

  /** Splitting a bit string splits its number. */
  lemma ValSplit(a: seq<Bit>, b: seq<Bit>)
    ensures Val(a + b) / Pow2(|b|) == Val(a) && Val(a + b) % Pow2(|b|) == Val(b)
  {
    ValConcat(a, b);
    ValBound(b);
    DivModUnique(Val(a + b), Pow2(|b|), Val(a), Val(b));
  }

  /** A field in the middle: shift the tail out, mask the head off. */
  lemma ValSlice(s: seq<Bit>, i: nat, j: nat)
    requires i <= j <= |s|
    ensures Val(s[i..j]) == Val(s) / Pow2(|s| - j) % Pow2(j - i)
  {
    assert s == s[..j] + s[j..];
    ValSplit(s[..j], s[j..]);
    assert s[..j] == s[..i] + s[i..j];
    ValSplit(s[..i], s[i..j]);
  }

  lemma {:induction false} ToBitsVal(s: seq<Bit>)
    ensures ToBits(Val(s), |s|) == s
  {
    if s != [] {
      ToBitsVal(s[..|s| - 1]);
      assert Val(s) / 2 == Val(s[..|s| - 1]) && Val(s) % 2 == s[|s| - 1];
    }
  }

  lemma {:induction false} HalveDivMod(v: int, p: nat)
    requires p > 0
    ensures v / (2 * p) == v / 2 / p && v % (2 * p) == 2 * (v / 2 % p) + v % 2
  {
    var h := v / 2;
    assert v == (h / p) * (2 * p) + (2 * (h % p) + v % 2) by {
      assert h == (h / p) * p + h % p;
      assert 2 * ((h / p) * p) == (h / p) * (2 * p);
    }
    DivModUnique(v, 2 * p, h / p, 2 * (h % p) + v % 2);
  }

  lemma {:induction false} ValToBits(v: int, n: nat)
    ensures Val(ToBits(v, n)) == v % Pow2(n)
    decreases n
  {
    if n > 0 {
      ValToBits(v / 2, n - 1);
      HalveDivMod(v, Pow2(n - 1));
      assert ToBits(v, n)[..n - 1] == ToBits(v / 2, n - 1);
    }
  }

  /** Two bit strings of the same length and number are the same. */
  lemma ValInjective(a: seq<Bit>, b: seq<Bit>)
    requires |a| == |b| && Val(a) == Val(b)
    ensures a == b
  {
    ToBitsVal(a);
    ToBitsVal(b);
  }

  /** The bits of a number, high part first. */
  lemma {:induction false} ToBitsSplit(v: int, m: nat, n: nat)
    ensures ToBits(v, m + n) == ToBits(v / Pow2(n), m) + ToBits(v, n)
    decreases n
  {
    if n > 0 {
      ToBitsSplit(v / 2, m, n - 1);
      HalveDivMod(v, Pow2(n - 1));
    }
  }

  lemma ToBitsMod(v: int, n: nat)
    ensures ToBits(v % Pow2(n), n) == ToBits(v, n)
  {
    ValToBits(v, n);
    ValToBits(v % Pow2(n), n);
    ModMod(v, Pow2(n));
    ValInjective(ToBits(v % Pow2(n), n), ToBits(v, n));
  }

  lemma ModMod(v: int, p: nat)
    requires p > 0
    ensures v % p % p == v % p
  {
    DivModUnique(v % p, p, 0, v % p);
  }

  lemma Associative(a: seq<Bit>, b: seq<Bit>, c: seq<Bit>)
    ensures (a + b) + c == a + (b + c)
  {}

  lemma {:induction false} BytesBitsConcat(a: seq<Byte>, b: seq<Byte>)
    ensures BytesBits(a + b) == BytesBits(a) + BytesBits(b)
  {
    hide ToBits;
    if b == [] {
      assert a + b == a;
    } else {
      var b' := b[..|b| - 1];
      BytesBitsConcat(a, b');
      assert (a + b)[..|a + b| - 1] == a + b';
      Associative(BytesBits(a), BytesBits(b'), ToBits(b[|b| - 1], 8));
    }
  }

  lemma {:induction false} BytesBitsParts(b: seq<Byte>, head: seq<Byte>, mid: seq<Byte>, tail: seq<Byte>)
    requires b == (head + mid) + tail
    ensures BytesBits(b) == (BytesBits(head) + BytesBits(mid)) + BytesBits(tail)
  {
    BytesBitsConcat(head + mid, tail);
    BytesBitsConcat(head, mid);
  }

  /** Byte slices and bit slices agree. */
  lemma {:induction false} BytesBitsSlice(b: seq<Byte>, i: nat, j: nat)
    requires i <= j <= |b|
    ensures BytesBits(b[i..j]) == BytesBits(b)[8 * i..8 * j]
  {
    var head, mid, tail := b[..i], b[i..j], b[j..];
    BytesBitsParts(b, head, mid, tail);
  }

  lemma ByteVal(x: Byte)
    ensures Val(ToBits(x, 8)) == x
  {
    hide ToBits, Val;
    ValToBits(x, 8);
    Pow2Values();
  }

  lemma ValPushByte(a: seq<Bit>, b: seq<Bit>)
    requires |b| == 8
    ensures Val(a + b) == 0x100 * Val(a) + Val(b)
  {
    hide Val, Pow2;
    ValConcat(a, b);
    Pow2Values();
  }

  lemma BytesBitsUnfold(b: seq<Byte>)
    requires b != []
    ensures BytesBits(b) == BytesBits(b[..|b| - 1]) + ToBits(b[|b| - 1], 8)
  {}

  lemma {:induction false} BytesBitsLast(b: seq<Byte>)
    requires b != []
    ensures Val(BytesBits(b)) == 0x100 * Val(BytesBits(b[..|b| - 1])) + b[|b| - 1]
  {
    hide *;
    BytesBitsUnfold(b);
    ValPushByte(BytesBits(b[..|b| - 1]), ToBits(b[|b| - 1], 8));
    ByteVal(b[|b| - 1]);
  }

  /** A big-endian 32-bit word. */
  lemma {:induction false} WordVal(b: seq<Byte>)
    requires |b| == 4
    ensures Val(BytesBits(b)) == b[0] as int * 0x100_0000 + b[1] as int * 0x1_0000 + b[2] as int * 0x100 + b[3] as int
  {
    hide BytesBits, Val;
    var b3, b2, b1, b0 := b[..3], b[..2], b[..1], b[..0];
    assert b3[..2] == b2 && b2[..1] == b1 && b1[..0] == b0;
    BytesBitsLast(b);
    BytesBitsLast(b3);
    BytesBitsLast(b2);
    BytesBitsLast(b1);
    NoBits(b0);
  }

  lemma NoBits(b: seq<Byte>)
    requires b == []
    ensures Val(BytesBits(b)) == 0
  {}
}
