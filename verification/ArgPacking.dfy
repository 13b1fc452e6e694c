/** Packing kernel arguments into a buffer: in two passes (`packKernArgsCompOffset`) and while growing the buffer (`packKernArgs`). */
module ArgPacking {
  import opened Arithmetic
  import opened Sequences
  import opened ElfNotes

  /** An argument: its bytes in memory, and the alignment of its type. */
  datatype Arg = Arg(bytes: seq<byte>, align: nat)

  ghost predicate Typed(args: seq<Arg>) {
    forall i :: 0 <= i < |args| ==> args[i].align > 0
  }

  function RoundUp(n: nat, align: nat): nat
    requires align > 0
  {
    ((n + align - 1) / align) * align
  }

  /** The next multiple: less than one alignment away. */
  lemma RoundUpIs(n: nat, align: nat)
    requires align > 0
    ensures n <= RoundUp(n, align) < n + align && RoundUp(n, align) % align == 0
  {
    var m := n + align - 1;
    var q, r := m / align, m % align;
    assert m == q * align + r;
    assert RoundUp(n, align) == m - r;
    DivModUnique(q, 0, align);
  }

  // ---------------------------------------------------------------- what the buffer holds

  ghost function Gap(n: nat): (r: seq<byte>)
    ensures |r| == n && forall i :: 0 <= i < n ==> r[i] == 0
  {
    seq(n, _ => 0)
  }

  /** The arguments as packed, each behind zeros up to its alignment. */
  ghost function Packed(args: seq<Arg>): seq<byte>
    requires Typed(args)
  {
    if args == [] then []
    else
      var before, last := Packed(args[..|args| - 1]), args[|args| - 1];
      RoundUpIs(|before|, last.align);
      before + Gap(RoundUp(|before|, last.align) - |before|) + last.bytes
  }

  /** Where the `i`-th argument goes. */
  ghost function Offset(args: seq<Arg>, i: nat): nat
    requires Typed(args) && i < |args|
  {
    RoundUp(|Packed(args[..i])|, args[i].align)
  }

  ghost function Offsets(args: seq<Arg>): (r: seq<nat>)
    requires Typed(args)
    ensures |r| == |args| && forall i :: 0 <= i < |args| ==> r[i] == Offset(args, i)
  {
    seq(|args|, i requires 0 <= i < |args| => Offset(args, i))
  }

  lemma PackedPush(args: seq<Arg>, i: nat)
    requires Typed(args) && i < |args|
    ensures var before := Packed(args[..i]);
            && |before| <= Offset(args, i) < |before| + args[i].align && Offset(args, i) % args[i].align == 0
            && Packed(args[..i + 1]) == before + Gap(Offset(args, i) - |before|) + args[i].bytes
            && |Packed(args[..i + 1])| == Offset(args, i) + |args[i].bytes|
  {
    assert args[..i + 1][..i] == args[..i];
    RoundUpIs(|Packed(args[..i])|, args[i].align);
  }

  lemma {:induction false} PackedGrows(args: seq<Arg>, i: nat, j: nat)
    requires Typed(args) && i <= j <= |args|
    ensures Packed(args[..i]) <= Packed(args[..j])
    decreases j
  {
    if i < j {
      PackedGrows(args, i, j - 1);
      PackedPush(args, j - 1);
    }
  }

  /** Every argument is aligned, padded by less than one alignment, and reads back from the buffer. */
  lemma ArgumentInBuffer(args: seq<Arg>, i: nat)
    requires Typed(args) && i < |args|
    ensures var o := Offset(args, i);
            && o % args[i].align == 0 && |Packed(args[..i])| <= o < |Packed(args[..i])| + args[i].align
            && o + |args[i].bytes| <= |Packed(args)| && Packed(args)[o..o + |args[i].bytes|] == args[i].bytes
  {
    PackedPush(args, i);
    PackedGrows(args, i + 1, |args|);
    assert args[..|args|] == args;
  }

  /** No two arguments overlap: each ends before the next begins. */
  lemma ArgumentsApart(args: seq<Arg>, i: nat, j: nat)
    requires Typed(args) && i < j < |args|
    ensures Offset(args, i) + |args[i].bytes| <= Offset(args, j)
  {
    PackedPush(args, i);
    PackedGrows(args, i + 1, j);
    PackedPush(args, j);
  }

  // ---------------------------------------------------------------- two passes

  method ArgOffsetInBuff(currBufSz: nat, argSz: nat, argAlign: nat) returns (offset: nat, newBufSz: nat)
    requires argAlign > 0
    ensures offset == RoundUp(currBufSz, argAlign) && newBufSz == offset + argSz
  {
    newBufSz := ((currBufSz + argAlign - 1) / argAlign) * argAlign + argSz;
    offset := newBufSz - argSz;
  }

  /** First the offsets and the size, then the bytes, at offsets worked out a second time. */
  method PackKernArgsCompOffset(args: seq<Arg>) returns (argBuf: array<byte>, argOffsetVec: seq<nat>)
    requires Typed(args)
    ensures fresh(argBuf) && argBuf[..] == Packed(args) && argOffsetVec == Offsets(args)
  {
    var totBufSize := 0;
    argOffsetVec := [];
    hide Packed, Offset;
    assert args[..0] == [] && Packed([]) == [] by { NothingPacked(); }
    for i := 0 to |args|
      invariant totBufSize == |Packed(args[..i])|
      invariant |argOffsetVec| == i && forall k :: 0 <= k < i ==> argOffsetVec[k] == Offset(args, k)
    {
      PackedPush(args, i);
      OffsetIs(args, i);
      var offset;
      offset, totBufSize := ArgOffsetInBuff(totBufSize, |args[i].bytes|, args[i].align);
      argOffsetVec := argOffsetVec + [offset];
    }
    assert args[..|args|] == args;
    argBuf := new byte[totBufSize](_ => 0);
    totBufSize := 0;
    for i := 0 to |args|
      invariant totBufSize == |Packed(args[..i])| <= argBuf.Length
      invariant argBuf[..totBufSize] == Packed(args[..i])
      invariant forall k :: totBufSize <= k < argBuf.Length ==> argBuf[k] == 0
    {
      PackedPush(args, i);
      OffsetIs(args, i);
      PackedGrows(args, i + 1, |args|);
      var offset;
      ghost var size := totBufSize;
      offset, totBufSize := ArgOffsetInBuff(totBufSize, |args[i].bytes|, args[i].align);
      WriteAt(argBuf, offset, args[i].bytes);
      assert argBuf[..totBufSize] == Packed(args[..i]) + Gap(offset - size) + args[i].bytes;
    }
  }

  lemma NothingPacked()
    ensures Packed([]) == []
  {
  }

  lemma OffsetIs(args: seq<Arg>, i: nat)
    requires Typed(args) && i < |args|
    ensures Offset(args, i) == RoundUp(|Packed(args[..i])|, args[i].align)
  {
  }

  method WriteAt(buf: array<byte>, offset: nat, bytes: seq<byte>)
    requires offset + |bytes| <= buf.Length
    modifies buf
    ensures buf[..] == old(buf[..offset]) + bytes + old(buf[offset + |bytes|..])
  {
    for k := 0 to |bytes|
      invariant forall m :: 0 <= m < buf.Length ==> buf[m] == if offset <= m < offset + k then bytes[m - offset] else old(buf[m])
    {
      buf[offset + k] := bytes[k];
    }
  }

  // ---------------------------------------------------------------- growing the buffer

  function NextBufSize(origSize: nat, sz: nat, algn: nat): nat
    requires algn > 0
  {
    ((origSize + algn - 1) / algn) * algn + sz
  }

  /** Grows the buffer for the `i`-th argument, writes it at the end, and goes on with the next. */
  method FillArgBuf(vec: seq<byte>, args: seq<Arg>, i: nat) returns (filled: seq<byte>)
    requires Typed(args) && i <= |args| && vec == Packed(args[..i])
    ensures filled == Packed(args)
    decreases |args| - i
  {
    if i == |args| {
      assert args[..i] == args;
      return vec;
    }
    PackedPush(args, i);
    OffsetIs(args, i);
    hide Packed, Offset;
    var obj := args[i].bytes;
    var newSz := NextBufSize(|vec|, |obj|, args[i].align);
    var grown := vec + seq(newSz - |vec|, _ => 0);
    grown := grown[..|grown| - |obj|] + obj;
    assert grown == vec + Gap(newSz - |obj| - |vec|) + obj;
    filled := FillArgBuf(grown, args, i + 1);
  }

  /** The same bytes as the two-pass packer. */
  method PackKernArgs(args: seq<Arg>) returns (argBuf: seq<byte>)
    requires Typed(args)
    ensures argBuf == Packed(args)
  {
    assert args[..0] == [];
    NothingPacked();
    argBuf := FillArgBuf([], args, 0);
  }
}
