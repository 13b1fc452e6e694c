/** What the sizes and positions computed by the ELF layout mean. */
module ElfSizes {
  import opened Arithmetic
  import opened Sequences
  import opened MachineWords
  import opened ElfSegments
  import opened ElfLayout

  // ---------------------------------------------------------------- sizes are sums

  ghost function SizeOf(p: Laying, inFile: bool): u64 {
    if inFile then p.fileSize else p.memSize
  }

  /** The section takes up space in the file, or in memory. */
  ghost predicate Counts(seg: Segment, sec: Section, inFile: bool) {
    sec.typ != SHT_NULL && if inFile then HasData(sec) else InMemory(seg, sec)
  }

  /** What the first `n` sections need in the file, or in memory, gaps included. */
  ghost function Needed(seg: Segment, start: u64, p: Laying, n: nat, inFile: bool): (t: nat)
    requires n <= |seg.sections| && ElfLayout.Known(seg, p)
  {
    if n == 0 then 0
    else
      Needed(seg, start, p, n - 1, inFile) + NeededBy(seg, start, WithSections(seg, start, p, n - 1), seg.sections[n - 1], inFile)
  }

  ghost function NeededBy(seg: Segment, start: u64, p: Laying, index: nat, inFile: bool): (t: nat)
    requires index < |p.secs| == |p.gen|
  {
    var sec := p.secs[index];
    if Counts(seg, sec, inFile) then sec.size + GapOf(seg, sec, p.gen[index], start, p.pos, p.fileSize) else 0
  }

  lemma WrapAdds(x: nat, a: u64, b: u64)
    ensures Add(Wrap(x), Add(a, b)) == Wrap(x + (a + b))
    ensures Wrap(x) == Wrap(x + 0)
  {
  }

  lemma SizeGrows(seg: Segment, start: u64, p: Laying, index: nat, inFile: bool, x: nat)
    requires index < |p.secs| == |p.gen| && SizeOf(p, inFile) == Wrap(x)
    ensures SizeOf(WithSection(seg, start, p, index), inFile) == Wrap(x + NeededBy(seg, start, p, index, inFile))
  {
    var sec := p.secs[index];
    WrapAdds(x, sec.size, GapOf(seg, sec, p.gen[index], start, p.pos, p.fileSize));
    hide GapOf, Add, Wrap, MovedTo;
  }

  lemma NeededNext(seg: Segment, start: u64, p: Laying, n: nat, inFile: bool)
    requires n < |seg.sections| && ElfLayout.Known(seg, p)
    ensures seg.sections[n] < |p.secs| == |p.gen| && Needed(seg, start, p, 0, inFile) == 0
    ensures Needed(seg, start, p, n + 1, inFile) ==
            Needed(seg, start, p, n, inFile) + NeededBy(seg, start, WithSections(seg, start, p, n), seg.sections[n], inFile)
  {
    hide NeededBy, WithSections;
  }

  lemma NothingNeeded(seg: Segment, start: u64, p: Laying, inFile: bool)
    requires ElfLayout.Known(seg, p)
    ensures SizeOf(WithSections(seg, start, p, 0), inFile) == Wrap(SizeOf(p, inFile) + Needed(seg, start, p, 0, inFile))
  {
  }

  /** Memory and file size count exactly the sections that take up space there, each with its gap, modulo 2^64. */
  lemma {:induction false} SizesAreSums(seg: Segment, start: u64, p: Laying, n: nat, inFile: bool)
    requires n <= |seg.sections| && ElfLayout.Known(seg, p)
    ensures SizeOf(WithSections(seg, start, p, n), inFile) == Wrap(SizeOf(p, inFile) + Needed(seg, start, p, n, inFile))
  {
    hide *;
    if n == 0 {
      NothingNeeded(seg, start, p, inFile);
    } else {
      SizesAreSums(seg, start, p, n - 1, inFile);
      NeededNext(seg, start, p, n - 1, inFile);
      NextWithSection(seg, start, p, n - 1);
      SizeGrows(seg, start, WithSections(seg, start, p, n - 1), seg.sections[n - 1], inFile, SizeOf(p, inFile) + Needed(seg, start, p, n - 1, inFile));
    }
  }

  // ---------------------------------------------------------------- zero-fill behind data

  /** A section that has not had its turn is as it was. */
  lemma {:induction false} NotYetTouched(seg: Segment, start: u64, p: Laying, n: nat, k: nat)
    requires n <= |seg.sections| && ElfLayout.Known(seg, p)
    requires k < |p.secs| && k !in seg.sections[..n]
    ensures var r := WithSections(seg, start, p, n); r.secs[k] == p.secs[k] && r.gen[k] == p.gen[k]
  {
    if n > 0 {
      assert seg.sections[..n] == seg.sections[..n - 1] + [seg.sections[n - 1]];
      NotYetTouched(seg, start, p, n - 1, k);
      hide GapOf, MovedTo, Add, Wrap;
    }
  }

  lemma TurnIsFresh(seg: Segment, start: u64, p: Laying, n: nat)
    requires n < |seg.sections| && ElfLayout.Known(seg, p)
    requires NoDup(seg.sections)
    ensures var k, r := seg.sections[n], WithSections(seg, start, p, n); r.secs[k] == p.secs[k] && r.gen[k] == p.gen[k]
  {
    NotYetTouched(seg, start, p, n, seg.sections[n]);
    hide WithSections;
  }

  /** The first `m` sections of the segment are new and have data, all others are new and zero-fill, and all count in memory. */
  ghost predicate DataThenZeros(seg: Segment, p: Laying, m: nat) {
    && m <= |seg.sections| && |p.secs| == |p.gen| && NoDup(seg.sections)
    && (forall j :: 0 <= j < |seg.sections| ==> seg.sections[j] < |p.secs|)
    && (forall j :: 0 <= j < |seg.sections| ==>
          var sec := p.secs[seg.sections[j]];
          !p.gen[seg.sections[j]] && InMemory(seg, sec) && (if j < m then HasData(sec) else sec.typ == SHT_NOBITS))
  }

  lemma DataTurn(seg: Segment, start: u64, p: Laying, m: nat, n: nat)
    requires DataThenZeros(seg, p, m) && n < m
    ensures var before, after := WithSections(seg, start, p, n), WithSections(seg, start, p, n + 1);
            && (before.memSize == before.fileSize ==> after.memSize == after.fileSize)
            && (Add(start, before.fileSize) == before.pos ==> Add(start, after.fileSize) == after.pos)
  {
    TurnIsFresh(seg, start, p, n);
    NextWithSection(seg, start, p, n);
    var before, sec := WithSections(seg, start, p, n), p.secs[seg.sections[n]];
    var gap := GapOf(seg, sec, false, start, before.pos, before.fileSize);
    if Add(start, before.fileSize) == before.pos { FlushStays(start, before.fileSize, before.pos, sec.size, gap); }
    hide GapOf, MovedTo, Add, Wrap, WithSections;
  }

  /** As long as all sections have data, file and memory size are the same and end at the file position. */
  lemma {:induction false} DataPart(seg: Segment, start: u64, p: Laying, m: nat, n: nat)
    requires DataThenZeros(seg, p, m) && n <= m && p.memSize == p.fileSize && Add(start, p.fileSize) == p.pos
    ensures var r := WithSections(seg, start, p, n); r.memSize == r.fileSize && Add(start, r.fileSize) == r.pos
  {
    hide *;
    AllKnown(seg, p, m);
    if n == 0 {
      NoSectionYet(seg, start, p);
    } else {
      DataPart(seg, start, p, m, n - 1);
      DataTurn(seg, start, p, m, n - 1);
    }
  }

  lemma AllKnown(seg: Segment, p: Laying, m: nat)
    requires DataThenZeros(seg, p, m)
    ensures m <= |seg.sections| && ElfLayout.Known(seg, p)
  {
  }

  /** The space zero-fill sections take in memory behind position `pos`, their sizes and the gaps their alignments ask for, and the position then. */
  ghost function ZeroSpace(secs: seq<Section>, list: seq<nat>, pos: u64): (u64, u64) {
    if list == [] || list[|list| - 1] >= |secs| then (0, pos)
    else
      var (space, q) := ZeroSpace(secs, list[..|list| - 1], pos);
      var sec := secs[list[|list| - 1]];
      (Add(space, Add(sec.size, Up(q, sec.align))), Add(q, Up(q, sec.align)))
  }

  lemma ZeroSpaceNext(secs: seq<Section>, list: seq<nat>, k: nat, pos: u64)
    requires k < |secs|
    ensures ZeroSpace(secs, [], pos) == (0, pos)
    ensures var (space, q) := ZeroSpace(secs, list, pos);
            ZeroSpace(secs, list + [k], pos) == (Add(space, Add(secs[k].size, Up(q, secs[k].align))), Add(q, Up(q, secs[k].align)))
  {
    assert (list + [k])[..|list|] == list;
    hide Add, Up;
  }

  lemma GapStays(mem: u64, file: u64, space: u64, more: u64)
    requires mem == Add(file, space)
    ensures Add(mem, more) == Add(file, Add(space, more))
  {
  }

  lemma ZeroTurn(seg: Segment, start: u64, p: Laying, m: nat, n: nat, space: u64)
    requires DataThenZeros(seg, p, m) && m <= n < |seg.sections|
    ensures var before, after := WithSections(seg, start, p, n), WithSections(seg, start, p, n + 1);
            var sec := p.secs[seg.sections[n]];
            && after.fileSize == before.fileSize && after.pos == Add(before.pos, Up(before.pos, sec.align))
            && (before.memSize == Add(before.fileSize, space) ==>
                  after.memSize == Add(after.fileSize, Add(space, Add(sec.size, Up(before.pos, sec.align)))))
  {
    TurnIsFresh(seg, start, p, n);
    NextWithSection(seg, start, p, n);
    var before, sec := WithSections(seg, start, p, n), p.secs[seg.sections[n]];
    if before.memSize == Add(before.fileSize, space) { GapStays(before.memSize, before.fileSize, space, Add(sec.size, Up(before.pos, sec.align))); }
    hide MovedTo, Add, Wrap, WithSections, Up;
  }

  lemma TurnIsKnown(seg: Segment, p: Laying, m: nat, n: nat)
    requires DataThenZeros(seg, p, m) && n < |seg.sections|
    ensures seg.sections[n] < |p.secs| && ElfLayout.Known(seg, p)
  {
  }

  /** A segment of data sections followed by zero-fill sections: its file ends with the data, and its memory has the zero-fill on top. */
  lemma {:induction false} ZeroFillOnTop(seg: Segment, start: u64, p: Laying, m: nat, n: nat)
    requires DataThenZeros(seg, p, m) && m <= n <= |seg.sections| && p.memSize == p.fileSize && Add(start, p.fileSize) == p.pos
    ensures var data, r := WithSections(seg, start, p, m), WithSections(seg, start, p, n);
            && Add(start, data.fileSize) == data.pos && r.fileSize == data.fileSize
            && (r.memSize, r.pos) ==
               (Add(r.fileSize, ZeroSpace(p.secs, seg.sections[m..n], data.pos).0), ZeroSpace(p.secs, seg.sections[m..n], data.pos).1)
  {
    hide *;
    AllKnown(seg, p, m);
    DataPart(seg, start, p, m, m);
    var data := WithSections(seg, start, p, m);
    if n == m {
      assert seg.sections[m..n] == [];
      NoZeros(p.secs, data);
    } else {
      ZeroFillOnTop(seg, start, p, m, n - 1);
      var list, k := seg.sections[m..n - 1], seg.sections[n - 1];
      assert seg.sections[m..n] == list + [k];
      TurnIsKnown(seg, p, m, n - 1);
      ZeroSpaceNext(p.secs, list, k, data.pos);
      ZeroTurn(seg, start, p, m, n - 1, ZeroSpace(p.secs, list, data.pos).0);
    }
  }

  lemma NoZeros(secs: seq<Section>, data: Laying)
    requires data.memSize == data.fileSize
    ensures (data.memSize, data.pos) == (Add(data.fileSize, ZeroSpace(secs, [], data.pos).0), ZeroSpace(secs, [], data.pos).1)
  {
  }

  lemma OneDataSection(seg: Segment, data: Section, secs: seq<Section>)
    requires seg.sections != [] && seg.sections[0] == 0 && ElfLayout.Known(seg, Laying(secs, [false, false], 176, 0, 0))
    requires data == Section(1, 1, true, false, 4096, true, 0, 16, 1) && secs[0] == data && seg.vaddr == 4096
    ensures var r := WithSections(seg, 176, Laying(secs, [false, false], 176, 0, 0), 1); r.fileSize == 16 && r.pos == 192
  {
    var p := Laying(secs, [false, false], 176, 0, 0);
    NextWithSection(seg, 176, p, 0);
    assert GapOf(seg, data, false, 176, 176, 0) == 0;
    assert Add(0, Add(16, 0)) == 16 && Add(Add(176, 0), 16) == 192;
    hide WithSections, GapOf, Add, MovedTo;
  }

  lemma OneZeroFill(secs: seq<Section>)
    requires |secs| == 2 && secs[1].size == 100 && secs[1].align == 1
    ensures ZeroSpace(secs, [1], 192).0 == 100 && Add(16, 100) == 116
  {
    ZeroSpaceNext(secs, [], 1, 192);
    assert [] + [1] == [1];
  }

  lemma StartsHere(seg: Segment, secs: seq<Section>)
    requires seg.sections == [0, 1] && seg.align == 1 && |secs| == 2 && secs[0].typ == 1
    ensures StartOf(seg, secs, [false, false], 176, 64, 56) == (176, 0, 176)
    ensures WithSegment(seg, secs, [false, false], 176, 64, 56) == WithSections(seg, 176, Laying(secs, [false, false], 176, 0, 0), 2)
  {
    assert NextAligned(176, seg.vaddr, 1) == 176;
    hide NextAligned, WithSections;
  }

  lemma DataThenBss(seg: Segment, data: Section, bss: Section)
    requires seg.sections == [0, 1] && data.typ == 1 && bss.typ == SHT_NOBITS && data.alloc && bss.alloc && !bss.tls
    ensures DataThenZeros(seg, Laying([data, bss], [false, false], 176, 0, 0), 1) && Add(176, 0) == 176 && seg.sections[1..2] == [1]
    ensures ElfLayout.Known(seg, Laying([data, bss], [false, false], 176, 0, 0))
  {
  }

  lemma BssSizes(seg: Segment, data: Section, bss: Section)
    requires seg == Segment(1, [0, 1], 1, 4096, 0, false, 0, 0) && data == Section(1, 1, true, false, 4096, true, 0, 16, 1)
    requires bss == Section(SHT_NOBITS, 2, true, false, 4112, true, 0, 100, 1)
    ensures var r := WithSegment(seg, [data, bss], [false, false], 176, 64, 56); r.fileSize == 16 && r.memSize == 116
  {
    hide *;
    DataThenBss(seg, data, bss);
    StartsHere(seg, [data, bss]);
    OneDataSection(seg, data, [data, bss]);
    OneZeroFill([data, bss]);
    ZeroFillOnTop(seg, 176, Laying([data, bss], [false, false], 176, 0, 0), 1, 2);
  }

  /** Lays out a single segment. */
  method LayOutAlone(secs: seq<Section>, seg: Segment, pos: u64) returns (r: Segment)
    requires seg.align > 0 && forall j :: 0 <= j < |seg.sections| ==> seg.sections[j] < |secs|
    ensures var none := seq(|secs|, _ => false);
            var p := WithSegment(seg, secs, none, pos, 64, 56); r.fileSize == p.fileSize && r.memSize == p.memSize
  {
    var none := seq(|secs|, _ => false);
    var elf := new Elfio(secs, [seg], pos, 64, 56);
    assert elf.HeadersSize() == 56;
    hide *;
    var gen := elf.LayoutSegment(0, none);
    SameLength(elf.segments, [seg]);
    r := elf.segments[0];
  }

  lemma SameLength(after: seq<Segment>, before: seq<Segment>)
    requires SegmentDone(before, after, 0)
    ensures |after| == |before|
  {
  }

  /** 16 bytes of data and 100 bytes of zero-fill behind them take 16 bytes in the file and 116 in memory. */
  method DataAndBss() returns (seg: Segment)
    ensures seg.fileSize == 16 && seg.memSize == 116
  {
    var data := Section(1, 1, true, false, 4096, true, 0, 16, 1);
    var bss := Section(SHT_NOBITS, 2, true, false, 4112, true, 0, 100, 1);
    var load := Segment(1, [0, 1], 1, 4096, 0, false, 0, 0);
    BssSizes(load, data, bss);
    assert seq(2, _ => false) == [false, false];
    hide WithSegment;
    seg := LayOutAlone([data, bss], load, 176);
  }

  // ---------------------------------------------------------------- segments inside others, and segments without sections

  /** Every section of the segment has been laid out before. */
  ghost predicate AllDone(seg: Segment, p: Laying) {
    ElfLayout.Known(seg, p) && forall j :: 0 <= j < |seg.sections| ==> p.gen[seg.sections[j]]
  }

  /** Laying out such a segment moves nothing. */
  lemma {:induction false} NestedMovesNothing(seg: Segment, start: u64, p: Laying, n: nat)
    requires AllDone(seg, p) && n <= |seg.sections|
    ensures var r := WithSections(seg, start, p, n); r.secs == p.secs && r.gen == p.gen && r.pos == p.pos
  {
    if n > 0 {
      NestedMovesNothing(seg, start, p, n - 1);
      NextWithSection(seg, start, p, n - 1);
      assert p.gen[seg.sections[n - 1]];
      hide WithSections, GapOf, Add;
    }
  }

  /** Its file ends where the last of its sections ends, if that has data. */
  lemma NestedFileEnds(seg: Segment, start: u64, p: Laying, n: nat)
    requires AllDone(seg, p) && 0 < n <= |seg.sections| && HasData(p.secs[seg.sections[n - 1]])
    ensures var sec := p.secs[seg.sections[n - 1]];
            Add(start, WithSections(seg, start, p, n).fileSize) == Add(sec.offset, sec.size)
  {
    var sec, before := p.secs[seg.sections[n - 1]], WithSections(seg, start, p, n - 1);
    NestedMovesNothing(seg, start, p, n - 1);
    NextWithSection(seg, start, p, n - 1);
    NestedEnd(start, before.fileSize, sec.offset, sec.size);
    hide WithSections, Add, Sub;
  }

  /** The header segment holds the program headers, another one without sections nothing; one that starts with the null section starts
      at 0 and counts everything before the position. */
  lemma SpecialStarts(seg: Segment, secs: seq<Section>, gen: seq<bool>, pos: u64, headers: u64, headersSize: u64)
    requires |secs| == |gen| && forall j :: 0 <= j < |seg.sections| ==> seg.sections[j] < |secs|
    ensures seg.sections == [] ==>
              WithSegment(seg, secs, gen, pos, headers, headersSize) ==
              var size := if seg.typ == PT_PHDR then headersSize else 0; Laying(secs, gen, pos, size, size)
    ensures |seg.sections| > 1 && secs[seg.sections[0]].typ == SHT_NULL ==>
              && StartOf(seg, secs, gen, pos, headers, headersSize).0 == 0
              && forall inFile :: SizeOf(WithSegment(seg, secs, gen, pos, headers, headersSize), inFile) ==
                                  Wrap(pos + Needed(seg, 0, Laying(secs, gen, pos, pos, pos), |seg.sections|, inFile))
  {
    if |seg.sections| > 1 && secs[seg.sections[0]].typ == SHT_NULL {
      forall inFile ensures SizeOf(WithSegment(seg, secs, gen, pos, headers, headersSize), inFile) ==
                            Wrap(pos + Needed(seg, 0, Laying(secs, gen, pos, pos, pos), |seg.sections|, inFile))
      {
        SizesAreSums(seg, 0, Laying(secs, gen, pos, pos, pos), |seg.sections|, inFile);
        hide WithSections, Needed, Wrap;
      }
    }
  }

  // ---------------------------------------------------------------- no two sections share file space

  /** The section has been laid out and takes up file space. */
  ghost predicate Occupies(secs: seq<Section>, gen: seq<bool>, k: nat) {
    k < |secs| && k < |gen| && gen[k] && HasData(secs[k]) && secs[k].index != 0
  }

  /** Sections laid out so far lie between `base` and `pos`, and no two of them overlap. */
  ghost predicate Packed(secs: seq<Section>, gen: seq<bool>, base: u64, pos: u64) {
    && |secs| == |gen| && base <= pos
    && (forall k: nat :: Occupies(secs, gen, k) ==> base <= secs[k].offset && secs[k].offset + secs[k].size <= pos)
    && (forall i: nat, j: nat :: Occupies(secs, gen, i) && Occupies(secs, gen, j) && i != j ==> Beside(secs[i], secs[j]))
  }

  ghost predicate Beside(a: Section, b: Section) {
    a.offset + a.size <= b.offset || b.offset + b.size <= a.offset
  }

  /** Laying out the section moves the file position forwards, if at all. */
  ghost predicate Forward(seg: Segment, start: u64, p: Laying, index: nat)
    requires index < |p.secs| == |p.gen|
  {
    var sec := p.secs[index];
    var at := Add(p.pos, GapOf(seg, sec, p.gen[index], start, p.pos, p.fileSize));
    !p.gen[index] && sec.typ != SHT_NULL ==> p.pos <= at && at + (if HasData(sec) then sec.size else 0) < TWO64
  }

  lemma StaysPacked(seg: Segment, start: u64, p: Laying, index: nat, base: u64)
    requires index < |p.secs| == |p.gen| && Packed(p.secs, p.gen, base, p.pos) && Forward(seg, start, p, index)
    ensures var r := WithSection(seg, start, p, index); Packed(r.secs, r.gen, base, r.pos) && p.pos <= r.pos
  {
    var sec := p.secs[index];
    var gap := GapOf(seg, sec, p.gen[index], start, p.pos, p.fileSize);
    if sec.typ != SHT_NULL && !p.gen[index] {
      OneMovedIsPacked(p, index, Add(p.pos, gap), Wrap(seg.vaddr + Add(p.pos, gap) - start), base);
    } else {
      OneMarkedIsPacked(p, index, base);
    }
    hide GapOf, Packed, Add, Wrap, MovedTo;
  }

  lemma OneMovedIsPacked(p: Laying, index: nat, at: u64, addr: u64, base: u64)
    requires index < |p.secs| == |p.gen| && Packed(p.secs, p.gen, base, p.pos) && !p.gen[index]
    requires p.pos <= at && at + (if HasData(p.secs[index]) then p.secs[index].size else 0) < TWO64
    ensures var sec := p.secs[index];
            var pos := if HasData(sec) then Add(at, sec.size) else at;
            p.pos <= pos && Packed(p.secs[index := MovedTo(sec, at, addr)], p.gen[index := true], base, pos)
  {
    var sec := p.secs[index];
    var secs, gen := p.secs[index := MovedTo(sec, at, addr)], p.gen[index := true];
    forall k: nat | Occupies(secs, gen, k) && k != index ensures Occupies(p.secs, p.gen, k) && secs[k] == p.secs[k] {}
    hide HasData;
  }

  lemma OneMarkedIsPacked(p: Laying, index: nat, base: u64)
    requires index < |p.secs| == |p.gen| && Packed(p.secs, p.gen, base, p.pos) && (p.gen[index] || p.secs[index].typ == SHT_NULL)
    ensures Packed(p.secs, p.gen[index := true], base, p.pos)
    ensures p.gen[index] ==> p.gen[index := true] == p.gen
  {
    forall k: nat | Occupies(p.secs, p.gen[index := true], k) ensures Occupies(p.secs, p.gen, k) {}
  }

  ghost predicate ForwardSections(seg: Segment, start: u64, p: Laying, n: nat)
    requires n <= |seg.sections| && ElfLayout.Known(seg, p)
  {
    forall j :: 0 <= j < n ==> Forward(seg, start, WithSections(seg, start, p, j), seg.sections[j])
  }

  lemma ForwardBefore(seg: Segment, start: u64, p: Laying, n: nat)
    requires 0 < n <= |seg.sections| && ElfLayout.Known(seg, p) && ForwardSections(seg, start, p, n)
    ensures ForwardSections(seg, start, p, n - 1) && seg.sections[n - 1] < |p.secs| == |p.gen|
    ensures Forward(seg, start, WithSections(seg, start, p, n - 1), seg.sections[n - 1])
  {
    hide Forward, WithSections;
  }

  lemma {:induction false} SectionsPacked(seg: Segment, start: u64, p: Laying, n: nat, base: u64)
    requires n <= |seg.sections| && ElfLayout.Known(seg, p) && Packed(p.secs, p.gen, base, p.pos) && ForwardSections(seg, start, p, n)
    ensures var r := WithSections(seg, start, p, n); Packed(r.secs, r.gen, base, r.pos) && p.pos <= r.pos
  {
    hide *;
    if n == 0 {
      NoSectionYet(seg, start, p);
    } else {
      ForwardBefore(seg, start, p, n);
      SectionsPacked(seg, start, p, n - 1, base);
      NextWithSection(seg, start, p, n - 1);
      StaysPacked(seg, start, WithSections(seg, start, p, n - 1), seg.sections[n - 1], base);
    }
  }

  /** Laying out the segment moves the file position forwards only. */
  ghost predicate ForwardSegment(w: World, s: nat, headers: u64, headersSize: u64)
    requires InWorld(w) && s < |w.segs|
  {
    var seg := w.segs[s];
    var (start, size, pos) := StartOf(seg, w.secs, w.gen, w.pos, headers, headersSize);
    w.pos <= pos && ForwardSections(seg, start, Laying(w.secs, w.gen, pos, size, size), |seg.sections|)
  }

  lemma PackedFurther(secs: seq<Section>, gen: seq<bool>, base: u64, pos: u64, pos': u64)
    requires Packed(secs, gen, base, pos) && pos <= pos'
    ensures Packed(secs, gen, base, pos')
  {
    hide Occupies, Beside;
  }

  lemma SegmentPacked(w: World, s: nat, headers: u64, headersSize: u64, base: u64)
    requires InWorld(w) && s < |w.segs| && Packed(w.secs, w.gen, base, w.pos) && ForwardSegment(w, s, headers, headersSize)
    ensures var r := WithNext(w, s, headers, headersSize); Packed(r.secs, r.gen, base, r.pos) && w.pos <= r.pos
  {
    var seg := w.segs[s];
    var (start, size, pos) := StartOf(seg, w.secs, w.gen, w.pos, headers, headersSize);
    hide StartOf, Packed, ForwardSections, WithSections;
    PackedFurther(w.secs, w.gen, base, w.pos, pos);
    SectionsPacked(seg, start, Laying(w.secs, w.gen, pos, size, size), |seg.sections|, base);
  }

  /** Over the whole layout, wherever it has come, the file position only moves forwards. */
  ghost predicate ForwardOrder(w: World, order: seq<nat>, n: nat, headers: u64, headersSize: u64)
    requires n <= |order| && InWorld(w) && forall k :: 0 <= k < |order| ==> order[k] < |w.segs|
  {
    forall i :: 0 <= i < n ==> ForwardSegment(WithOrder(w, order, i, headers, headersSize), order[i], headers, headersSize)
  }

  /** Then no two sections share file space, whichever segments they belong to, and all lie between the positions before and after. */
  lemma {:induction false} NoOverlap(w: World, order: seq<nat>, n: nat, headers: u64, headersSize: u64)
    requires n <= |order| && InWorld(w) && forall k :: 0 <= k < |order| ==> order[k] < |w.segs|
    requires (forall k :: 0 <= k < |w.gen| ==> !w.gen[k]) && ForwardOrder(w, order, n, headers, headersSize)
    ensures var r := WithOrder(w, order, n, headers, headersSize); Packed(r.secs, r.gen, w.pos, r.pos) && w.pos <= r.pos
  {
    hide *;
    if n == 0 {
      NothingPacked(w, order, headers, headersSize);
    } else {
      ForwardLess(w, order, n, headers, headersSize);
      NoOverlap(w, order, n - 1, headers, headersSize);
      NextInOrder(w, order, n - 1, headers, headersSize);
      SegmentPacked(WithOrder(w, order, n - 1, headers, headersSize), order[n - 1], headers, headersSize, w.pos);
    }
  }

  lemma NothingPacked(w: World, order: seq<nat>, headers: u64, headersSize: u64)
    requires InWorld(w) && (forall k :: 0 <= k < |order| ==> order[k] < |w.segs|) && forall k :: 0 <= k < |w.gen| ==> !w.gen[k]
    ensures var r := WithOrder(w, order, 0, headers, headersSize); Packed(r.secs, r.gen, w.pos, r.pos) && w.pos <= r.pos
  {
  }

  lemma ForwardLess(w: World, order: seq<nat>, n: nat, headers: u64, headersSize: u64)
    requires 0 < n <= |order| && InWorld(w) && forall k :: 0 <= k < |order| ==> order[k] < |w.segs|
    requires ForwardOrder(w, order, n, headers, headersSize)
    ensures ForwardOrder(w, order, n - 1, headers, headersSize)
    ensures ForwardSegment(WithOrder(w, order, n - 1, headers, headersSize), order[n - 1], headers, headersSize)
  {
    hide ForwardSegment, WithOrder, InWorld;
  }
}
