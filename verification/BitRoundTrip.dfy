/**
  Everything a BitStreamWriter is given comes back from a BitStreamReader over the same
  bytes (tsMuxer/bitStream.h).
  */
module BitRoundTrip {
  import opened Bits
  import opened BitStream
  import opened BitPatch

  /** One call of putBits. */
  datatype Field = Field(num: nat, value: nat)

  predicate ValidFields(fs: seq<Field>) {
    forall i :: 0 <= i < |fs| ==> fs[i].num <= INT_BIT && fs[i].value < WORD
  }

  /** The fields one after the other. */
  function FieldsBits(fs: seq<Field>): seq<Bit> {
    if fs == [] then [] else FieldsBits(fs[..|fs| - 1]) + ToBits(fs[|fs| - 1].value, fs[|fs| - 1].num)
  }

  lemma {:induction false} FieldsBitsGrow(fs: seq<Field>, i: nat)
    requires i <= |fs|
    ensures |FieldsBits(fs[..i])| <= |FieldsBits(fs)|
    ensures FieldsBits(fs)[..|FieldsBits(fs[..i])|] == FieldsBits(fs[..i])
  {
    hide ToBits;
    if i < |fs| {
      var fs' := fs[..|fs| - 1];
      FieldsBitsGrow(fs', i);
      assert fs'[..i] == fs[..i];
    } else {
      assert fs[..i] == fs;
    }
  }

  /** Where field `i` lies, its number is the value put, cut to its width. */
  lemma FieldAt(fs: seq<Field>, i: nat)
    requires i < |fs|
    ensures var all, p := FieldsBits(fs), |FieldsBits(fs[..i])|;
            && |FieldsBits(fs[..i + 1])| == p + fs[i].num <= |all|
            && Val(all[p..p + fs[i].num]) == fs[i].value % Pow2(fs[i].num)
  {
    hide ToBits, Val;
    var all, p, n := FieldsBits(fs), |FieldsBits(fs[..i])|, fs[i].num;
    FieldsBitsGrow(fs, i + 1);
    assert fs[..i + 1][..i] == fs[..i];
    assert all[p..p + n] == all[..p + n][p..];
    ValToBits(fs[i].value, n);
  }

  lemma FieldsBitsStep(fs: seq<Field>, i: nat)
    requires i < |fs|
    ensures FieldsBits(fs[..i + 1]) == FieldsBits(fs[..i]) + ToBits(fs[i].value, fs[i].num)
    ensures |FieldsBits(fs[..i])| + fs[i].num <= |FieldsBits(fs)|
  {
    hide ToBits;
    FieldAt(fs, i);
    assert fs[..i + 1][..i] == fs[..i];
  }

  method PutAll(w: BitStreamWriter, fs: seq<Field>, ghost m: seq<Byte>, ghost ptr: nat, ghost end: nat)
    requires Given(w, m, ptr, end, []) && ValidFields(fs) && |FieldsBits(fs)| <= 8 * (end - ptr)
    modifies w, w.mem
    ensures Given(w, m, ptr, end, FieldsBits(fs))
  {
    hide ToBits, BytesBits, Given;
    var i := 0;
    while i < |fs|
      invariant 0 <= i <= |fs|
      invariant Given(w, m, ptr, end, FieldsBits(fs[..i]))
    {
      FieldsBitsStep(fs, i);
      PutField(w, fs[i].num, fs[i].value, m, ptr, end, FieldsBits(fs[..i]));
      i := i + 1;
    }
    assert fs[..i] == fs;
  }

  /** What the reader has still to deliver. */
  ghost predicate Left(r: BitStreamReader, rest: seq<Bit>)
    reads r, r.mem
  {
    r.Valid() && r.Unread() == rest
  }

  method GetField(r: BitStreamReader, num: nat, ghost rest: seq<Bit>) returns (v: nat)
    requires Left(r, rest) && num <= INT_BIT && num <= |rest|
    modifies r
    ensures Left(r, rest[num..]) && v == Val(rest[..num])
  {
    hide BytesBits, Val;
    var ok;
    ok, v := r.GetBits(num);
  }

  method GetAll(r: BitStreamReader, fs: seq<Field>, ghost rest: seq<Bit>) returns (values: seq<nat>)
    requires Left(r, rest) && ValidFields(fs) && FieldsBits(fs) <= rest
    modifies r
    ensures |values| == |fs| && forall i :: 0 <= i < |fs| ==> values[i] == fs[i].value % Pow2(fs[i].num)
    ensures Left(r, rest[|FieldsBits(fs)|..])
  {
    hide ToBits, Val, Pow2, Left;
    values := [];
    var i := 0;
    while i < |fs|
      invariant 0 <= i <= |fs| && |values| == i
      invariant forall j :: 0 <= j < i ==> values[j] == fs[j].value % Pow2(fs[j].num)
      invariant |FieldsBits(fs[..i])| <= |rest| && Left(r, rest[|FieldsBits(fs[..i])|..])
    {
      FieldAt(fs, i);
      FieldsBitsGrow(fs, i + 1);
      ghost var q, n := |FieldsBits(fs[..i])|, fs[i].num;
      assert rest[q..][..n] == FieldsBits(fs)[q..q + n];
      assert rest[q..][n..] == rest[q + n..];
      var v := GetField(r, fs[i].num, rest[q..]);
      values := values + [v];
      i := i + 1;
    }
    assert fs[..i] == fs;
  }

  method StartReader(mem: array<Byte>, start: nat, end: nat) returns (r: BitStreamReader)
    requires start < end <= mem.Length && 8 * (end - start) < WORD
    ensures fresh(r) && r.mem == mem && Left(r, BytesBits(mem[..])[8 * start..8 * end])
  {
    hide BytesBits;
    r := new BitStreamReader(mem);
    var ok := r.SetBuffer(start, end);
    BytesBitsSlice(mem[..], start, end);
    assert mem[..][start..end] == mem[start..end];
  }

  lemma Inside(all: seq<Bit>, f: seq<Bit>, o: nat, e: nat)
    requires o + |f| <= e <= |all| && all[o..o + |f|] == f
    ensures f <= all[o..e]
  {
    var w := all[o..e];
    assert forall i :: 0 <= i < |f| ==> w[i] == all[o + i] == all[o..o + |f|][i];
    assert w[..|f|] == f;
  }

  /** Put any list of fields, flush, read them back with the same widths: each value comes
      back modulo 2^width, and no bit outside them has changed. */
  method PutFlushGet(mem: array<Byte>, start: nat, end: nat, fs: seq<Field>) returns (values: seq<nat>)
    requires ValidFields(fs) && start < end <= mem.Length && 8 * (end - start) < WORD
    requires |FieldsBits(fs)| <= 8 * (end - start)
    requires start + 4 * (|FieldsBits(fs)| / 32) + 4 <= mem.Length
    modifies mem
    ensures |values| == |fs| && forall i :: 0 <= i < |fs| ==> values[i] == fs[i].value % Pow2(fs[i].num)
    ensures var all, o, n := old(BytesBits(mem[..])), 8 * start, |FieldsBits(fs)|;
            BytesBits(mem[..]) == all[..o] + FieldsBits(fs) + all[o + n..]
  {
    hide ToBits, BytesBits, Val, Pow2, Given, Left, FieldsBits;
    ghost var m := mem[..];
    var w := StartWriter(mem, start, end);
    PutAll(w, fs, m, start, end);
    Flush(w, m, start, end, FieldsBits(fs));
    var r := StartReader(mem, start, end);
    ghost var all := BytesBits(mem[..]);
    Inside(all, FieldsBits(fs), 8 * start, 8 * end);
    values := GetAll(r, fs, all[8 * start..8 * end]);
  }
}
