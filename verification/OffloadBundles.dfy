/** Parsing the code-object section of a HIP binary (`parseOneSection`): a padded sequence of offload bundles. */
module OffloadBundles {
  import opened Sequences
  import opened ElfNotes

  const MAGIC_STR_SZ := 24
  const MAGIC_STR_ALIGNMENT := 8

  /** `__CLANG_OFFLOAD_BUNDLE__` */
  const MAGIC: seq<byte> := [95, 95, 67, 76, 65, 78, 71, 95, 79, 70, 70, 76, 79, 65, 68, 95, 66, 85, 78, 68, 76, 69, 95, 95]

  /** One entry of a bundle: where its code is, counted from the bundle's header, and for which target. */
  datatype Entry = Entry(offset: nat, size: nat, triple: seq<byte>)

  datatype CodeBlob = CodeBlob(triple: seq<byte>, bytes: seq<byte>)

  /** A 64-bit word, least significant byte first. */
  function Load64(bytes: seq<byte>, pos: nat): nat
    requires pos + 8 <= |bytes|
  {
    (bytes[pos] as int) + 0x100 * (bytes[pos + 1] as int) + 0x1_0000 * (bytes[pos + 2] as int) + 0x100_0000 * (bytes[pos + 3] as int)
    + 0x1_0000_0000 * (bytes[pos + 4] as int) + 0x100_0000_0000 * (bytes[pos + 5] as int)
    + 0x1_0000_0000_0000 * (bytes[pos + 6] as int) + 0x100_0000_0000_0000 * (bytes[pos + 7] as int)
  }

  function AlignUp(pos: nat): (r: nat)
    ensures pos <= r < pos + MAGIC_STR_ALIGNMENT && r % MAGIC_STR_ALIGNMENT == 0
  {
    (pos + MAGIC_STR_ALIGNMENT - 1) / MAGIC_STR_ALIGNMENT * MAGIC_STR_ALIGNMENT
  }

  // ---------------------------------------------------------------- what a bundle says

  /** `n` descriptors can be read from `pos` on. */
  ghost predicate DescsFit(bytes: seq<byte>, pos: nat, n: nat)
    decreases n
  {
    n > 0 ==> pos + 24 <= |bytes| && pos + 24 + Load64(bytes, pos + 16) <= |bytes|
              && DescsFit(bytes, pos + 24 + Load64(bytes, pos + 16), n - 1)
  }

  function EntryAt(bytes: seq<byte>, pos: nat): Entry
    requires pos + 24 <= |bytes| && pos + 24 + Load64(bytes, pos + 16) <= |bytes|
  {
    Entry(Load64(bytes, pos), Load64(bytes, pos + 8), bytes[pos + 24..pos + 24 + Load64(bytes, pos + 16)])
  }

  /** The `n` entries whose descriptors follow one another from `pos` on. */
  ghost function Entries(bytes: seq<byte>, pos: nat, n: nat): (es: seq<Entry>)
    requires DescsFit(bytes, pos, n)
    ensures |es| == n
    decreases n
  {
    if n == 0 then [] else [EntryAt(bytes, pos)] + Entries(bytes, pos + 24 + Load64(bytes, pos + 16), n - 1)
  }

  /** The entries of the bundle at `head`, if its descriptors can be read. */
  ghost function BundleEntries(bytes: seq<byte>, head: nat): seq<Entry> {
    if head + 32 <= |bytes| && DescsFit(bytes, head + 32, Load64(bytes, head + MAGIC_STR_SZ))
    then Entries(bytes, head + 32, Load64(bytes, head + MAGIC_STR_SZ))
    else []
  }

  /** A header at `head`, all of its descriptors, and all the code they point to lie in the section. */
  ghost predicate BundleAt(bytes: seq<byte>, head: nat) {
    && head + 32 <= |bytes| && bytes[head..head + MAGIC_STR_SZ] == MAGIC
    && DescsFit(bytes, head + 32, Load64(bytes, head + MAGIC_STR_SZ))
    && forall i :: 0 <= i < |BundleEntries(bytes, head)| ==>
         head + BundleEntries(bytes, head)[i].offset + BundleEntries(bytes, head)[i].size <= |bytes|
  }

  // ---------------------------------------------------------------- where a bundle ends

  /** The greatest offset among the entries, and the size of the last entry that has it. */
  ghost function LastOf(es: seq<Entry>): (nat, nat) {
    if es == [] then (0, 0)
    else
      var before, e := LastOf(es[..|es| - 1]), es[|es| - 1];
      if e.offset >= before.0 then (e.offset, e.size) else before
  }

  /** Where the parser looks for the next bundle. */
  ghost function ParsedEnd(es: seq<Entry>): nat {
    LastOf(es).0 + LastOf(es).1
  }

  ghost predicate ReachesEnd(es: seq<Entry>, end: nat) {
    && (forall i :: 0 <= i < |es| ==> es[i].offset + es[i].size <= end)
    && (es == [] ==> end == 0)
    && (es != [] ==> exists i :: 0 <= i < |es| && es[i].offset + es[i].size == end)
  }

  /** No two entries' code overlaps. */
  ghost predicate CodeApart(es: seq<Entry>) {
    forall i, j :: 0 <= i < j < |es| && es[i].size > 0 && es[j].size > 0 ==>
      es[i].offset + es[i].size <= es[j].offset || es[j].offset + es[j].size <= es[i].offset
  }

  lemma {:induction false} LastOfIs(es: seq<Entry>) returns (k: nat)
    requires es != []
    ensures k < |es| && LastOf(es) == (es[k].offset, es[k].size)
    ensures forall i :: 0 <= i < |es| ==> es[i].offset <= es[k].offset
    ensures forall i :: k < i < |es| ==> es[i].offset < es[k].offset
  {
    var last := |es| - 1;
    if last == 0 || es[last].offset >= LastOf(es[..last]).0 {
      k := last;
      if last > 0 { var j := LastOfIs(es[..last]); }
    } else {
      k := LastOfIs(es[..last]);
    }
  }

  /** An empty entry that is not at the end but comes after all the code: at a greater offset, or listed later at the same one. */
  ghost predicate Hides(es: seq<Entry>, i: nat, end: nat)
    requires i < |es|
  {
    && es[i].size == 0 && es[i].offset != end
    && forall j :: 0 <= j < |es| && (es[j].size > 0 || es[j].offset == end) ==>
         es[j].offset < es[i].offset || (es[j].offset == es[i].offset && j < i)
  }

  ghost predicate NoneHides(es: seq<Entry>, end: nat) {
    forall i :: 0 <= i < |es| ==> !Hides(es, i, end)
  }

  /** The parser finds the end of a bundle's code exactly when no empty entry hides it. */
  lemma EndFoundIff(es: seq<Entry>, end: nat)
    requires CodeApart(es) && ReachesEnd(es, end)
    ensures ParsedEnd(es) == end <==> NoneHides(es, end)
  {
    if es != [] {
      var k := LastOfIs(es);
      if es[k].size > 0 {
        forall i | 0 <= i < |es| ensures es[i].offset + es[i].size <= es[k].offset + es[k].size {
          assert es[i].offset <= es[k].offset;
        }
      }
      if ParsedEnd(es) != end { assert Hides(es, k, end); }
    }
  }

  /** An empty entry listed after the code it shares its offset with hides that code's end. */
  lemma EmptyEntryHidesEnd(triple: seq<byte>)
    ensures var es := [Entry(64, 100, triple), Entry(64, 0, triple)]; ReachesEnd(es, 164) && CodeApart(es) && ParsedEnd(es) == 64
  {
    var es := [Entry(64, 100, triple), Entry(64, 0, triple)];
    assert es[..1] == [Entry(64, 100, triple)] && es[..1][..0] == [];
    assert LastOf(es[..1]) == (64, 100);
    assert es[0].offset + es[0].size == 164;
  }

  // ---------------------------------------------------------------- a section

  /** Where the parser goes from the bundle at `head`. */
  ghost function NextPos(bytes: seq<byte>, head: nat): nat {
    head + ParsedEnd(BundleEntries(bytes, head))
  }

  /** From `pos` on, the section is bundles, each found behind the end of the one before, up to the end of the section.
      A bundle that ends where it begins would be found again and again. */
  ghost predicate WellFormed(bytes: seq<byte>, pos: nat)
    decreases |bytes| - pos
  {
    pos < |bytes| ==>
      var head := AlignUp(pos);
      BundleAt(bytes, head) && head < NextPos(bytes, head) <= |bytes| && WellFormed(bytes, NextPos(bytes, head))
  }

  /** Where the bundles' headers are. */
  ghost function Heads(bytes: seq<byte>, pos: nat): seq<nat>
    decreases |bytes| - pos
  {
    var head := AlignUp(pos);
    if pos >= |bytes| || NextPos(bytes, head) <= head then [] else [head] + Heads(bytes, NextPos(bytes, head))
  }

  /** The code an entry points to. */
  ghost function BlobOf(bytes: seq<byte>, head: nat, e: Entry): CodeBlob {
    CodeBlob(e.triple, if head + e.offset + e.size <= |bytes| then bytes[head + e.offset..head + e.offset + e.size] else [])
  }

  /** The code of the entries that have any, in order. */
  ghost function Blobs(bytes: seq<byte>, head: nat, es: seq<Entry>): seq<CodeBlob> {
    if es == [] then []
    else
      var e := es[|es| - 1];
      Blobs(bytes, head, es[..|es| - 1]) + if e.size > 0 then [BlobOf(bytes, head, e)] else []
  }

  ghost function AllBlobs(bytes: seq<byte>, heads: seq<nat>): seq<CodeBlob> {
    if heads == [] then []
    else AllBlobs(bytes, heads[..|heads| - 1]) + Blobs(bytes, heads[|heads| - 1], BundleEntries(bytes, heads[|heads| - 1]))
  }

  lemma Unfold(bytes: seq<byte>, pos: nat)
    requires WellFormed(bytes, pos) && pos < |bytes|
    ensures var head := AlignUp(pos);
            && BundleAt(bytes, head) && head < NextPos(bytes, head) <= |bytes| && WellFormed(bytes, NextPos(bytes, head))
            && Heads(bytes, pos) == [head] + Heads(bytes, NextPos(bytes, head))
  {
    hide BundleAt, NextPos;
  }

  lemma NoHeads(bytes: seq<byte>, pos: nat)
    requires pos >= |bytes|
    ensures Heads(bytes, pos) == []
  {
    hide NextPos, AlignUp;
  }

  /** Every header is visited once: the next is always further on. */
  lemma {:induction false} HeadsAscend(bytes: seq<byte>, pos: nat)
    requires WellFormed(bytes, pos)
    ensures forall i :: 0 <= i < |Heads(bytes, pos)| ==> pos <= Heads(bytes, pos)[i] < |bytes| && BundleAt(bytes, Heads(bytes, pos)[i])
    ensures forall i, j :: 0 <= i < j < |Heads(bytes, pos)| ==> Heads(bytes, pos)[i] < Heads(bytes, pos)[j]
    decreases |bytes| - pos
  {
    hide *;
    if pos >= |bytes| {
      NoHeads(bytes, pos);
    } else {
      var head := AlignUp(pos);
      Unfold(bytes, pos);
      HeadsAscend(bytes, NextPos(bytes, head));
      AscendFrom(head, Heads(bytes, NextPos(bytes, head)), NextPos(bytes, head));
    }
  }

  lemma AscendFrom(head: nat, rest: seq<nat>, next: nat)
    requires head < next && forall i :: 0 <= i < |rest| ==> next <= rest[i]
    requires forall i, j :: 0 <= i < j < |rest| ==> rest[i] < rest[j]
    ensures forall i, j :: 0 <= i < j < |[head] + rest| ==> ([head] + rest)[i] < ([head] + rest)[j]
  {
  }

  /** The headers visited before `pos`, and those still to come, are all; `blobs` is the code found so far. */
  ghost predicate ParsedUpTo(bytes: seq<byte>, pos: nat, heads: seq<nat>, start: seq<CodeBlob>, blobs: seq<CodeBlob>) {
    WellFormed(bytes, pos) && heads + Heads(bytes, pos) == Heads(bytes, 0) && blobs == start + AllBlobs(bytes, heads)
  }

  lemma ParseNext(bytes: seq<byte>, pos: nat, heads: seq<nat>, start: seq<CodeBlob>, blobs: seq<CodeBlob>)
    requires ParsedUpTo(bytes, pos, heads, start, blobs) && pos < |bytes|
    ensures var head := AlignUp(pos);
            && pos <= head && BundleAt(bytes, head) && head < NextPos(bytes, head) <= |bytes|
            && ParsedUpTo(bytes, NextPos(bytes, head), heads + [head], start, blobs + Blobs(bytes, head, BundleEntries(bytes, head)))
  {
    var head := AlignUp(pos);
    assert WellFormed(bytes, pos) && heads + Heads(bytes, pos) == Heads(bytes, 0) && blobs == start + AllBlobs(bytes, heads);
    assert pos <= head;
    hide *;
    Unfold(bytes, pos);
    AllBlobsPush(bytes, heads, head);
    Assoc(heads, [head], Heads(bytes, NextPos(bytes, head)));
    Assoc(start, AllBlobs(bytes, heads), Blobs(bytes, head, BundleEntries(bytes, head)));
    MakeParsed(bytes, NextPos(bytes, head), heads + [head], start, blobs + Blobs(bytes, head, BundleEntries(bytes, head)));
  }

  lemma MakeParsed(bytes: seq<byte>, pos: nat, heads: seq<nat>, start: seq<CodeBlob>, blobs: seq<CodeBlob>)
    requires WellFormed(bytes, pos) && heads + Heads(bytes, pos) == Heads(bytes, 0) && blobs == start + AllBlobs(bytes, heads)
    ensures ParsedUpTo(bytes, pos, heads, start, blobs)
  {
  }

  lemma ParseStart(bytes: seq<byte>, start: seq<CodeBlob>)
    requires WellFormed(bytes, 0)
    ensures ParsedUpTo(bytes, 0, [], start, start)
    ensures bytes == [] ==> Heads(bytes, 0) == [] && start == start + AllBlobs(bytes, [])
  {
    hide WellFormed, NextPos, BundleAt;
  }

  lemma ParseDone(bytes: seq<byte>, pos: nat, heads: seq<nat>, start: seq<CodeBlob>, blobs: seq<CodeBlob>)
    requires ParsedUpTo(bytes, pos, heads, start, blobs) && pos >= |bytes|
    ensures heads == Heads(bytes, 0) && blobs == start + AllBlobs(bytes, heads)
  {
    hide AllBlobs;
  }

  lemma AllBlobsPush(bytes: seq<byte>, heads: seq<nat>, head: nat)
    ensures AllBlobs(bytes, heads + [head]) == AllBlobs(bytes, heads) + Blobs(bytes, head, BundleEntries(bytes, head))
  {
    assert (heads + [head])[..|heads|] == heads;
  }

  lemma NextEntry(bytes: seq<byte>, desc: nat, n: nat, before: seq<Entry>)
    requires DescsFit(bytes, desc, n) && n > 0
    ensures desc + 24 <= |bytes| && desc + 24 + Load64(bytes, desc + 16) <= |bytes|
    ensures var next := desc + 24 + Load64(bytes, desc + 16);
            DescsFit(bytes, next, n - 1)
            && before + Entries(bytes, desc, n) == before + [EntryAt(bytes, desc)] + Entries(bytes, next, n - 1)
  {
    hide Load64, EntryAt;
  }

  lemma LastOfPush(es: seq<Entry>, e: Entry)
    ensures LastOf(es + [e]) == if e.offset >= LastOf(es).0 then (e.offset, e.size) else LastOf(es)
  {
    assert (es + [e])[..|es|] == es;
  }

  lemma BlobsPush(bytes: seq<byte>, head: nat, es: seq<Entry>, e: Entry)
    ensures Blobs(bytes, head, es + [e]) == Blobs(bytes, head, es) + if e.size > 0 then [BlobOf(bytes, head, e)] else []
  {
    assert (es + [e])[..|es|] == es;
  }

  /** The entries read before the descriptor at `desc`, and what they say so far. */
  ghost predicate ReadUpTo(bytes: seq<byte>, head: nat, desc: nat, n: nat, done: seq<Entry>, lastOffset: nat, lastSize: nat,
                           start: seq<CodeBlob>, blobs: seq<CodeBlob>)
  {
    && BundleAt(bytes, head) && DescsFit(bytes, desc, n) && BundleEntries(bytes, head) == done + Entries(bytes, desc, n)
    && (lastOffset, lastSize) == LastOf(done) && blobs == start + Blobs(bytes, head, done)
  }

  lemma ReadStart(bytes: seq<byte>, head: nat, start: seq<CodeBlob>)
    requires BundleAt(bytes, head)
    ensures head + 32 <= |bytes| && ReadUpTo(bytes, head, head + 32, Load64(bytes, head + MAGIC_STR_SZ), [], 0, 0, start, start)
  {
    hide Load64, Entries;
  }

  lemma ReadNext(bytes: seq<byte>, head: nat, desc: nat, n: nat, done: seq<Entry>, lastOffset: nat, lastSize: nat,
                 start: seq<CodeBlob>, blobs: seq<CodeBlob>)
    requires ReadUpTo(bytes, head, desc, n, done, lastOffset, lastSize, start, blobs) && n > 0
    ensures desc + 24 <= |bytes| && desc + 24 + Load64(bytes, desc + 16) <= |bytes|
    ensures var e := EntryAt(bytes, desc);
            && head + e.offset + e.size <= |bytes|
            && ReadUpTo(bytes, head, desc + 24 + Load64(bytes, desc + 16), n - 1, done + [e],
                        if e.offset >= lastOffset then e.offset else lastOffset, if e.offset >= lastOffset then e.size else lastSize,
                        start, if e.size > 0 then blobs + [BlobOf(bytes, head, e)] else blobs)
  {
    NextEntry(bytes, desc, n, done);
    var e := EntryAt(bytes, desc);
    LastOfPush(done, e);
    BlobsPush(bytes, head, done, e);
    assert BundleEntries(bytes, head)[|done|] == e by { hide BundleEntries, BundleAt, EntryAt; }
    Assoc(start, Blobs(bytes, head, done), [BlobOf(bytes, head, e)]);
    assert start + Blobs(bytes, head, done) + [] == start + Blobs(bytes, head, done);
    hide DescsFit, Entries, BundleEntries, Load64, LastOf, Blobs, EntryAt, BlobOf;
  }

  lemma ReadDone(bytes: seq<byte>, head: nat, desc: nat, done: seq<Entry>, lastOffset: nat, lastSize: nat,
                 start: seq<CodeBlob>, blobs: seq<CodeBlob>)
    requires ReadUpTo(bytes, head, desc, 0, done, lastOffset, lastSize, start, blobs)
    ensures head + (lastOffset + lastSize) == NextPos(bytes, head)
    ensures blobs == start + Blobs(bytes, head, BundleEntries(bytes, head))
  {
    NoMoreEntries(bytes, desc, done);
    hide DescsFit, Entries, BundleEntries, BundleAt, LastOf, Blobs;
  }

  class KernelSectionParser {
    var codeBlobs: seq<CodeBlob>

    constructor ()
      ensures codeBlobs == []
    {
      codeBlobs := [];
    }

    /** Collects the code of all bundles. The `.hip_fatbin` section starts at a multiple of the alignment. */
    method ParseOneSection(bytes: seq<byte>) returns (found: bool, ghost heads: seq<nat>)
      requires WellFormed(bytes, 0)
      modifies this
      ensures found <==> bytes != []
      ensures heads == Heads(bytes, 0) && codeBlobs == old(codeBlobs) + AllBlobs(bytes, heads)
    {
      hide *;
      heads := [];
      ParseStart(bytes, codeBlobs);
      if |bytes| == 0 {
        return false, [];
      }
      found := false;
      var secHead := 0;
      ghost var start := codeBlobs;
      while secHead < |bytes|
        invariant ParsedUpTo(bytes, secHead, heads, start, codeBlobs) && (secHead > 0 ==> found)
        decreases |bytes| - secHead
      {
        ParseNext(bytes, secHead, heads, start, codeBlobs);
        secHead := AlignUp(secHead);
        heads := heads + [secHead];
        var last := ParseBundle(bytes, secHead);
        found := true;
        secHead := secHead + last;
      }
      ParseDone(bytes, secHead, heads, start, codeBlobs);
    }

    /** Collects the code of one bundle and tells where the bundle ends. */
    method ParseBundle(bytes: seq<byte>, secHead: nat) returns (end: nat)
      requires BundleAt(bytes, secHead)
      modifies this
      ensures secHead + end == NextPos(bytes, secHead)
      ensures codeBlobs == old(codeBlobs) + Blobs(bytes, secHead, BundleEntries(bytes, secHead))
    {
      ghost var done: seq<Entry>, start := [], codeBlobs;
      var lastBundleOffset: nat, lastBundleSize: nat := 0, 0;
      var desc: nat := secHead + 32;
      var n := Load64(bytes, secHead + MAGIC_STR_SZ);
      ReadStart(bytes, secHead, start);
      hide *;
      for i := 0 to n
        invariant ReadUpTo(bytes, secHead, desc, n - i, done, lastBundleOffset, lastBundleSize, start, codeBlobs)
      {
        lastBundleOffset, lastBundleSize, desc, done :=
          ReadEntry(bytes, secHead, desc, lastBundleOffset, lastBundleSize, n - i, done, start);
      }
      ReadDone(bytes, secHead, desc, done, lastBundleOffset, lastBundleSize, start, codeBlobs);
      end := lastBundleOffset + lastBundleSize;
    }

    /** One descriptor: its code, if any, where the bundle may end, and where the next descriptor is. */
    method ReadEntry(bytes: seq<byte>, secHead: nat, desc: nat, lastOffset: nat, lastSize: nat, ghost n: nat, ghost done: seq<Entry>, ghost start: seq<CodeBlob>)
      returns (offset: nat, size: nat, next: nat, ghost done': seq<Entry>)
      requires ReadUpTo(bytes, secHead, desc, n, done, lastOffset, lastSize, start, codeBlobs) && n > 0
      modifies this
      ensures ReadUpTo(bytes, secHead, next, n - 1, done', offset, size, start, codeBlobs)
    {
      hide *;
      ReadNext(bytes, secHead, desc, n, done, lastOffset, lastSize, start, codeBlobs);
      var e := EntryAt(bytes, desc);
      done' := done + [e];
      offset, size := if e.offset > lastOffset then e.offset else lastOffset, lastSize;
      if offset == e.offset {
        size := e.size;
      }
      Collect(bytes, secHead, e);
      next := desc + 24 + Load64(bytes, desc + 16);
    }

    method Collect(bytes: seq<byte>, secHead: nat, e: Entry)
      requires secHead + e.offset + e.size <= |bytes|
      modifies this
      ensures codeBlobs == if e.size > 0 then old(codeBlobs) + [BlobOf(bytes, secHead, e)] else old(codeBlobs)
    {
      if e.size > 0 {
        codeBlobs := codeBlobs + [CodeBlob(e.triple, bytes[secHead + e.offset..secHead + e.offset + e.size])];
      }
    }
  }

  lemma NoMoreEntries(bytes: seq<byte>, desc: nat, done: seq<Entry>)
    requires DescsFit(bytes, desc, 0)
    ensures done + Entries(bytes, desc, 0) == done
  {
  }

  /** A bundle that lists no entries is where its own successor is looked for. */
  lemma NoBundlesNoProgress(bytes: seq<byte>, head: nat)
    requires head + 32 <= |bytes| && Load64(bytes, head + MAGIC_STR_SZ) == 0
    ensures NextPos(bytes, head) == head
  {
    hide Load64;
  }

  // ---------------------------------------------------------------- sections described without the parser

  /** Where the code of a bundle really ends. */
  ghost function CodeEnd(es: seq<Entry>): (end: nat) {
    if es == [] then 0
    else
      var before, e := CodeEnd(es[..|es| - 1]), es[|es| - 1];
      if e.offset + e.size > before then e.offset + e.size else before
  }

  lemma {:induction false} CodeEndReached(es: seq<Entry>)
    ensures ReachesEnd(es, CodeEnd(es))
  {
    if es != [] {
      var last := |es| - 1;
      CodeEndReached(es[..last]);
      if last > 0 && CodeEnd(es) == CodeEnd(es[..last]) {
        var i :| 0 <= i < last && es[..last][i].offset + es[..last][i].size == CodeEnd(es);
        assert es[i].offset + es[i].size == CodeEnd(es);
      }
    }
  }

  /** From `pos` on, the section is a padded sequence of bundles with code, each bundle's entries apart from each other,
      and no empty entry hiding where its bundle ends. */
  ghost predicate Packed(bytes: seq<byte>, pos: nat)
    decreases |bytes| - pos
  {
    pos < |bytes| ==>
      var head := AlignUp(pos);
      var es := BundleEntries(bytes, head);
      && BundleAt(bytes, head) && CodeApart(es) && 0 < CodeEnd(es) && head + CodeEnd(es) <= |bytes|
      && NoneHides(es, CodeEnd(es))
      && Packed(bytes, head + CodeEnd(es))
  }

  /** The headers of such a section, going from end to end. */
  ghost function PackedHeads(bytes: seq<byte>, pos: nat): seq<nat>
    decreases |bytes| - pos
  {
    var head := AlignUp(pos);
    var next := head + CodeEnd(BundleEntries(bytes, head));
    if pos >= |bytes| || next <= head then [] else [head] + PackedHeads(bytes, next)
  }

  lemma PackedUnfold(bytes: seq<byte>, pos: nat)
    requires Packed(bytes, pos) && pos < |bytes|
    ensures var head := AlignUp(pos);
            var next := head + CodeEnd(BundleEntries(bytes, head));
            && BundleAt(bytes, head) && pos <= head < next <= |bytes| && Packed(bytes, next)
            && CodeApart(BundleEntries(bytes, head))
            && NoneHides(BundleEntries(bytes, head), CodeEnd(BundleEntries(bytes, head)))
            && PackedHeads(bytes, pos) == [head] + PackedHeads(bytes, next)
  {
    hide BundleAt, BundleEntries, CodeEnd, NoneHides, CodeApart;
  }

  lemma WellFormedFold(bytes: seq<byte>, pos: nat, next: nat)
    requires pos < |bytes| && BundleAt(bytes, AlignUp(pos)) && NextPos(bytes, AlignUp(pos)) == next
    requires AlignUp(pos) < next <= |bytes| && WellFormed(bytes, next)
    ensures WellFormed(bytes, pos) && Heads(bytes, pos) == [AlignUp(pos)] + Heads(bytes, next)
  {
    hide BundleAt, NextPos;
  }

  lemma NextPosIs(bytes: seq<byte>, head: nat)
    requires CodeApart(BundleEntries(bytes, head))
    requires NoneHides(BundleEntries(bytes, head), CodeEnd(BundleEntries(bytes, head)))
    ensures NextPos(bytes, head) == head + CodeEnd(BundleEntries(bytes, head))
  {
    var es := BundleEntries(bytes, head);
    CodeEndReached(es);
    EndFoundIff(es, CodeEnd(es));
    hide BundleEntries, CodeEnd, LastOf, ParsedEnd, NoneHides;
  }

  lemma NothingLeft(bytes: seq<byte>, pos: nat)
    requires pos >= |bytes|
    ensures WellFormed(bytes, pos) && Heads(bytes, pos) == [] == PackedHeads(bytes, pos)
  {
    hide BundleAt, NextPos, CodeEnd, BundleEntries, AlignUp;
  }

  /** The parser finds exactly the bundles such a section is made of. */
  lemma {:induction false} PackedIsParsed(bytes: seq<byte>, pos: nat)
    requires Packed(bytes, pos)
    ensures WellFormed(bytes, pos) && Heads(bytes, pos) == PackedHeads(bytes, pos)
    decreases |bytes| - pos
  {
    hide *;
    if pos >= |bytes| {
      NothingLeft(bytes, pos);
    } else {
      PackedUnfold(bytes, pos);
      var head := AlignUp(pos);
      NextPosIs(bytes, head);
      var next := NextPos(bytes, head);
      PackedIsParsed(bytes, next);
      WellFormedFold(bytes, pos, next);
    }
  }
}
