/**
  What the element readers of tsMuxer/matroskaDemuxer.cpp do with elements they cannot take: lengths that do not
  fit, contents that the file ends in, masters too deep, identifiers too wide.
  */
module ReaderFaults {
  import opened Bits
  import opened EbmlNumbers
  import opened EbmlReader
  import opened EbmlLevels

  // ------------------------------------------------------------------ contents

  /** A reader whose element has been peeked at stands before its length, which is `len` written in `width` bytes. */
  predicate BeforeContent(v: View, len: nat, width: nat, more: seq<Byte>) {
    v.peek != 0 && 1 <= width <= 8 && len < Pow2(7 * width) && v.rest == SizeFixed(len, width) + more
  }

  /** The bytes of a content, zeros standing for those behind the end of the file. */
  function ZeroFilled(more: seq<Byte>, len: nat): seq<Byte> {
    if |more| >= len then more[..len] else more + seq(len - |more|, _ => 0)
  }

  /** The reader behind as much of the content as there is. */
  function Past(v: View, len: nat, width: nat, more: seq<Byte>): View {
    var n := if |more| >= len then len else |more|;
    v.(rest := more[n..], pos := v.pos + width + n, peek := 0)
  }

  /** Numbers of one to eight bytes are read, to the end of the file and beyond; any other length is an error. */
  lemma NumbersExactly(v: View, len: nat, width: nat, more: seq<Byte>)
    requires BeforeContent(v, len, width, more)
    ensures var behind := Past(v, len, width, more).(eof := v.eof || |more| < len);
            if 1 <= len <= 8 then
              && Uint(v) == Read(behind, Ok, UintOf(ZeroFilled(more, len)))
              && Sint(v) == Read(behind, Ok, SintOf(ZeroFilled(more, len)))
            else Uint(v).status == Sint(v).status == Thrown
  {
    hide SizeFixed, Pow2, Header, UintOf, SintOf;
    HeaderReads(v, len, width, more);
    assert Padded(more, len) == ZeroFilled(more, len);
  }

  /** A binary is whole or an error; so is one whose length turns negative in 32 bits. */
  lemma BinaryExactly(v: View, len: nat, width: nat, more: seq<Byte>)
    requires BeforeContent(v, len, width, more)
    ensures len <= 0x7FFF_FFFF ==>
              Binary(v) == Read(Past(v, len, width, more), if |more| >= len then Ok else Thrown, more[..if |more| >= len then len else |more|])
    ensures 0x8000_0000 <= len % 0x1_0000_0000 ==> Binary(v).status == Thrown
  {
    hide SizeFixed, Pow2, Header;
    HeaderReads(v, len, width, more);
  }

  /** Any element can be skipped, as far as the file goes. */
  lemma SkipExactly(v: View, len: nat, width: nat, more: seq<Byte>)
    requires BeforeContent(v, len, width, more)
    ensures Skip(v) == Read(Past(v, len, width, more), Ok, len)
  {
    hide SizeFixed, Pow2, Header;
    HeaderReads(v, len, width, more);
  }

  /** A master is entered, wherever it ends, unless sixteen are open. */
  lemma MasterExactly(v: View, len: nat, width: nat, more: seq<Byte>)
    requires BeforeContent(v, len, width, more)
    ensures var inside := v.(rest := more, pos := v.pos + width, peek := 0);
            if |v.levels| < 16 then Master(v) == Read(inside.(levels := v.levels + [Level(v.pos + width, len)]), Ok, len)
            else Master(v).status == Thrown
  {
    hide SizeFixed, Pow2, Header;
    HeaderReads(v, len, width, more);
  }

  // ------------------------------------------------------------------ identifiers

  /** The identifier that was peeked at is given again, and no master has ended since. */
  lemma PeekedAgain(v: View, track: bool)
    requires v.peek != 0
    ensures ElementId(v, track) == Read(if track then v.(up := 0) else v, Ok, v.peek)
  {}

  lemma NumExactly(v: View)
    ensures var n := NumAt(v, 4);
            && (v.rest == [] ==> n.status == Eof && n.view == v.(eof := true))
            && (v.rest != [] && v.rest[0] < 0x10 ==> n.status == Thrown && n.view == v.(rest := v.rest[1..], pos := v.pos + 1))
            && (v.rest != [] && v.rest[0] >= 0x10 ==> n.status == Ok)
            && n.view.levels == v.levels && n.view.up == v.up
  {
    hide Padded, Pow2;
  }

  /** Without one, the end of the file is no error, a first byte below 0x10 is, and any other starts an identifier; who
      does not ask for it is not told of masters that have ended. */
  lemma IdExactly(v: View, track: bool)
    requires v.peek == 0
    ensures var i := ElementId(v, track);
            && (v.rest == [] ==> i.status == Eof && i.view == v.(eof := true))
            && (v.rest != [] && v.rest[0] < 0x10 ==> i.status == Thrown && i.view == v.(rest := v.rest[1..], pos := v.pos + 1))
            && (v.rest != [] && v.rest[0] >= 0x10 ==> i.status == Ok)
            && (!track ==> i.view.levels == v.levels && i.view.up == v.up)
  {
    hide PopLevels, IdOf, Pow2, NumAt;
    NumExactly(v);
  }

  /** Every ebml_read_* function ends as its identifier does when that cannot be read, and goes no further ... */
  lemma NoIdentifier(v: View)
    requires v.peek == 0 && (v.rest == [] || v.rest[0] < 0x10)
    ensures var i := if v.rest == [] then v.(eof := true) else v.(rest := v.rest[1..], pos := v.pos + 1);
            var status := if v.rest == [] then Eof else Thrown;
            && Uint(v).status == Sint(v).status == Binary(v).status == Skip(v).status == Master(v).status == status
            && Uint(v).view == Sint(v).view == Binary(v).view == Skip(v).view == Master(v).view == i
  {
    hide IdOf, Pow2;
    IdExactly(v, false);
  }

  /** ... and so with its length. */
  lemma NoLength(v: View)
    requires v.peek != 0 && (v.rest == [] || v.rest[0] == 0)
    ensures var status := if v.rest == [] then Eof else Thrown;
            var at := v.(peek := 0);
            var l := if v.rest == [] then at.(eof := true) else at.(rest := v.rest[1..], pos := v.pos + 1);
            && Uint(v).status == Sint(v).status == Binary(v).status == Skip(v).status == Master(v).status == status
            && Uint(v).view == Sint(v).view == Binary(v).view == Skip(v).view == Master(v).view == l
  {
    hide Pow2;
  }
}
