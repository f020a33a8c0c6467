/** Big-endian byte strings and the numbers they stand for. */
module BigEndian {
  import opened Bits

  /** The low `n` bytes of `v`, most significant first; two's complement when `v` is negative. */
  function BE(v: int, n: nat): (s: seq<Byte>)
    ensures |s| == n
    decreases n
  {
    if n == 0 then [] else BE(v / 256, n - 1) + [v % 256]
  }

  function FromBE(s: seq<Byte>): nat {
    if s == [] then 0 else 256 * FromBE(s[..|s| - 1]) + s[|s| - 1] as int
  }

  function Pow256(n: nat): (p: nat)
    ensures p > 0
  {
    if n == 0 then 1 else 256 * Pow256(n - 1)
  }

  lemma {:induction false} FromBEBound(s: seq<Byte>)
    ensures FromBE(s) < Pow256(|s|)
  {
    if s != [] {
      FromBEBound(s[..|s| - 1]);
    }
  }

  lemma {:induction false} FromBEConcat(a: seq<Byte>, b: seq<Byte>)
    ensures FromBE(a + b) == FromBE(a) * Pow256(|b|) + FromBE(b)
  {
    if b == [] {
      assert a + b == a;
    } else {
      var b' := b[..|b| - 1];
      FromBEConcat(a, b');
      assert (a + b)[..|a + b| - 1] == a + b';
      assert 256 * (FromBE(a) * Pow256(|b'|)) == FromBE(a) * Pow256(|b|);
    }
  }

  lemma FromBEOne(x: Byte)
    ensures FromBE([x]) == x as int
  {
    assert [x][..0] == [];
  }

  /** Split off the first byte. */
  lemma {:induction false} FromBEFirst(s: seq<Byte>)
    requires s != []
    ensures FromBE(s) == s[0] as int * Pow256(|s| - 1) + FromBE(s[1..])
  {
    hide FromBE, Pow256;
    var t := s[1..];
    FromBEConcat([s[0]], t);
    FromBEOne(s[0]);
    assert [s[0]] + t == s;
  }

  /** Both ways of splitting a quotient: by 256 first, or last. */
  lemma {:induction false} DivMod256(v: int, p: nat)
    requires p > 0
    ensures v % (256 * p) == 256 * (v / 256 % p) + v % 256
    ensures v / (256 * p) == v / 256 / p
  {
    var h := v / 256;
    assert v == (h / p) * (256 * p) + (256 * (h % p) + v % 256) by {
      assert h == (h / p) * p + h % p;
      assert 256 * ((h / p) * p) == (h / p) * (256 * p);
    }
    DivModUnique(v, 256 * p, h / p, 256 * (h % p) + v % 256);
  }

  lemma {:induction false} FromBEOfBE(v: int, n: nat)
    ensures FromBE(BE(v, n)) == v % Pow256(n)
    decreases n
  {
    if n > 0 {
      FromBEOfBE(v / 256, n - 1);
      DivMod256(v, Pow256(n - 1));
      assert BE(v, n)[..n - 1] == BE(v / 256, n - 1);
    }
  }

  /** Numbers that fit keep their value. */
  lemma BERoundTrip(v: nat, n: nat)
    requires v < Pow256(n)
    ensures FromBE(BE(v, n)) == v
  {
    FromBEOfBE(v, n);
    DivModUnique(v, Pow256(n), 0, v);
  }

  /** A shift by whole bytes picks out one byte. */
  lemma {:induction false} BEAt(v: int, n: nat, k: nat)
    requires k < n
    ensures BE(v, n)[k] == v / Pow256(n - 1 - k) % 256
    decreases n
  {
    if k < n - 1 {
      BEAt(v / 256, n - 1, k);
      DivMod256(v, Pow256(n - 2 - k));
    }
  }

  /** The loop every writer has: `bytes` bytes of `value` from `at` on, shifted out one by one. */
  method WriteBE(dst: array<Byte>, at: nat, value: int, bytes: nat)
    requires at + bytes <= dst.Length
    modifies dst
    ensures dst[..] == old(dst[..at]) + BE(value, bytes) + old(dst[at + bytes..])
  {
    hide BE;
    var i := bytes;
    while i > 0
      invariant 0 <= i <= bytes
      invariant dst[..at] == old(dst[..at]) && dst[at + bytes..] == old(dst[at + bytes..])
      invariant forall k :: 0 <= k < bytes - i ==> dst[at + k] == BE(value, bytes)[k]
    {
      i := i - 1;
      BEAt(value, bytes, bytes - 1 - i);
      dst[at + bytes - 1 - i] := value / Pow256(i) % 256;
    }
    assert dst[..] == dst[..at] + dst[at..at + bytes] + dst[at + bytes..];
    assert dst[at..at + bytes] == BE(value, bytes);
  }
}
