/** Where the sections and segments of an ELF file go (`layout_segments_and_their_sections`). */
module ElfLayout {
  import opened Arithmetic
  import opened Sequences
  import opened MachineWords
  import opened ElfSegments

  const SHT_NULL := 0
  const SHT_NOBITS := 8
  const PT_PHDR := 6
  const PT_TLS := 7

  /** A section header. `alloc` and `tls` are the two flags that matter for the layout. */
  datatype Section = Section(typ: nat, index: nat, alloc: bool, tls: bool, addr: u64, addrSet: bool, offset: u64, size: u64, align: u64)

  // ---------------------------------------------------------------- where a segment starts

  /** The next file position that agrees with `vaddr` modulo `align`, computed in 64 bits. */
  function NextAligned(pos: u64, vaddr: u64, align: u64): u64
    requires align > 0
  {
    Add(pos, Add(align, Sub(vaddr % align, pos % align)) % align)
  }

  /** The distance to it: less than one alignment. */
  ghost function Gap(pos: u64, vaddr: u64, align: u64): (g: int)
    requires align > 0
    ensures 0 <= g < align
  {
    var d := vaddr % align - pos % align;
    if d >= 0 then d else d + align
  }

  lemma GapIsComputed(pos: u64, vaddr: u64, align: u64)
    requires 0 < align <= TWO64 / 2
    ensures NextAligned(pos, vaddr, align) == Add(pos, Gap(pos, vaddr, align))
  {
    var g := Gap(pos, vaddr, align);
    var d := vaddr % align - pos % align;
    assert Add(align, Sub(vaddr % align, pos % align)) == align + d;
    if d >= 0 { DivModUnique(1, d, align); } else { DivModUnique(0, d + align, align); }
  }

  lemma GapAligns(pos: u64, vaddr: u64, align: u64)
    requires align > 0
    ensures (pos + Gap(pos, vaddr, align)) % align == vaddr % align
  {
    var q, cur, req := pos / align, pos % align, vaddr % align;
    assert pos == q * align + cur;
    if req >= cur {
      DivModUnique(q, req, align);
    } else {
      assert pos + Gap(pos, vaddr, align) == (q + 1) * align + req;
      DivModUnique(q + 1, req, align);
    }
  }

  lemma ShiftKeepsRemainder(x: int, t: int, a: int)
    requires a > 0
    ensures (x - t) % a == x % a <==> t % a == 0
  {
    var qx, qt := x / a, t / a;
    assert x == qx * a + x % a && t == qt * a + t % a;
    if t % a == 0 {
      assert x - t == (qx - qt) * a + x % a;
      DivModUnique(qx - qt, x % a, a);
    }
    if (x - t) % a == x % a {
      var q := (x - t) / a;
      assert x - t == q * a + x % a;
      assert t == (qx - q) * a + 0;
      DivModUnique(qx - q, 0, a);
    }
  }

  /** A new segment's start agrees with its address modulo its alignment, if and only if either
      the position does not wrap around or the alignment divides 2^64. */
  lemma AlignedIff(pos: u64, vaddr: u64, align: u64)
    requires 0 < align <= TWO64 / 2
    ensures NextAligned(pos, vaddr, align) % align == vaddr % align <==>
            pos + Gap(pos, vaddr, align) < TWO64 || TWO64 % align == 0
  {
    GapIsComputed(pos, vaddr, align);
    GapAligns(pos, vaddr, align);
    var sum := pos + Gap(pos, vaddr, align);
    if sum >= TWO64 {
      ShiftKeepsRemainder(sum, TWO64, align);
    }
  }

  // ---------------------------------------------------------------- where a section goes

  /** The section's distance from its segment is the same in the file and in memory. */
  ghost predicate InPlace(sec: Section, vaddr: u64, start: u64) {
    Sub(sec.offset, start) == Sub(sec.addr, vaddr)
  }

  /** Zero-fill sections that already have an address are only aligned; the null section and section 0 have no offset. */
  ghost predicate Exempt(sec: Section) {
    sec.typ == SHT_NULL || sec.index == 0 || (sec.typ == SHT_NOBITS && sec.addrSet)
  }

  /** Everything but address and offset. */
  ghost predicate SameHeader(a: Section, b: Section) {
    && a.typ == b.typ && a.index == b.index && a.alloc == b.alloc && a.tls == b.tls && a.size == b.size && a.align == b.align
    && (a.addrSet ==> b.addrSet && b.addr == a.addr)
  }

  lemma PlacedByAddress(pos: u64, vaddr: u64, start: u64, addr: u64)
    ensures var secAlign := Sub(Sub(addr, vaddr), Sub(pos, start));
            Sub(Add(pos, secAlign), start) == Sub(addr, vaddr)
  {
  }

  lemma PlacedByPosition(pos: u64, vaddr: u64, start: u64)
    ensures Sub(Wrap(vaddr + pos - start), vaddr) == Sub(pos, start)
  {
  }

  lemma FlushStays(start: u64, fileSize: u64, pos: u64, size: u64, gap: u64)
    requires Add(start, fileSize) == pos
    ensures Add(start, Add(fileSize, Add(size, gap))) == Add(Add(pos, gap), size)
  {
  }

  lemma NestedEnd(start: u64, fileSize: u64, offset: u64, size: u64)
    ensures Add(start, Add(fileSize, Add(size, Sub(Sub(offset, start), fileSize)))) == Add(offset, size)
  {
  }

  // ---------------------------------------------------------------- what one segment's layout does, on values

  ghost predicate HasData(sec: Section) {
    sec.typ != SHT_NOBITS && sec.typ != SHT_NULL
  }

  /** Thread-local zero-fill sections count only in the memory of their own segment. */
  ghost predicate InMemory(seg: Segment, sec: Section) {
    sec.alloc && !(sec.tls && seg.typ != PT_TLS && sec.typ == SHT_NOBITS)
  }

  /** The distance from `pos` to the next multiple of the alignment. */
  ghost function Up(pos: u64, align: u64): (g: u64)
    ensures g < (if align == 0 then 1 else align) && (pos + g) % (if align == 0 then 1 else align) == 0
  {
    var a := if align == 0 then 1 else align;
    RoundUp(pos, a);
    Sub(a, pos % a) % a
  }

  /** How far a section is moved up: to where an earlier segment has put it, to where its address wants it, or to its alignment. */
  ghost function GapOf(seg: Segment, sec: Section, done: bool, start: u64, pos: u64, fileSize: u64): u64 {
    if done then Sub(Sub(sec.offset, start), fileSize)
    else if sec.addrSet && HasData(sec) then Sub(Sub(sec.addr, seg.vaddr), Sub(pos, start))
    else Up(pos, sec.align)
  }

  /** The sections, which of them have been laid out, the file position, and the sizes of the segment under way. */
  datatype Laying = Laying(secs: seq<Section>, gen: seq<bool>, pos: u64, fileSize: u64, memSize: u64)

  ghost function MovedTo(sec: Section, pos: u64, addr: u64): Section {
    sec.(addr := if sec.addrSet then sec.addr else addr, addrSet := true, offset := if sec.index != 0 then pos else sec.offset)
  }

  /** One section of the segment. */
  ghost function WithSection(seg: Segment, start: u64, p: Laying, index: nat): (r: Laying)
    requires index < |p.secs| == |p.gen|
    ensures |r.secs| == |r.gen| == |p.secs|
  {
    var sec := p.secs[index];
    if sec.typ == SHT_NULL then p.(gen := p.gen[index := true])
    else
      var gap := GapOf(seg, sec, p.gen[index], start, p.pos, p.fileSize);
      var fileSize := if HasData(sec) then Add(p.fileSize, Add(sec.size, gap)) else p.fileSize;
      var memSize := if InMemory(seg, sec) then Add(p.memSize, Add(sec.size, gap)) else p.memSize;
      if p.gen[index] then p.(fileSize := fileSize, memSize := memSize)
      else
        var pos := Add(p.pos, gap);
        Laying(p.secs[index := MovedTo(sec, pos, Wrap(seg.vaddr + pos - start))], p.gen[index := true],
               if HasData(sec) then Add(pos, sec.size) else pos, fileSize, memSize)
  }

  lemma WithSectionIs(seg: Segment, start: u64, p: Laying, index: nat, gap: u64, r: Laying)
    requires index < |p.secs| == |p.gen| && p.secs[index].typ != SHT_NULL
    requires gap == GapOf(seg, p.secs[index], p.gen[index], start, p.pos, p.fileSize)
    requires r.fileSize == if HasData(p.secs[index]) then Add(p.fileSize, Add(p.secs[index].size, gap)) else p.fileSize
    requires r.memSize == if InMemory(seg, p.secs[index]) then Add(p.memSize, Add(p.secs[index].size, gap)) else p.memSize
    requires r.gen == p.gen[index := true] && (p.gen[index] ==> r.secs == p.secs && r.pos == p.pos)
    requires var pos := Add(p.pos, gap);
             !p.gen[index] ==>
               && r.secs == p.secs[index := MovedTo(p.secs[index], pos, Wrap(seg.vaddr + pos - start))]
               && r.pos == if p.secs[index].typ != SHT_NOBITS then Add(pos, p.secs[index].size) else pos
    ensures r == WithSection(seg, start, p, index)
  {
    hide Add, GapOf, MovedTo, Wrap, InMemory;
    assert p.gen[index] ==> r.gen == p.gen;
  }

  ghost predicate Known(seg: Segment, p: Laying) {
    |p.secs| == |p.gen| && forall j :: 0 <= j < |seg.sections| ==> seg.sections[j] < |p.secs|
  }

  /** The first `n` sections of the segment. */
  ghost function WithSections(seg: Segment, start: u64, p: Laying, n: nat): (r: Laying)
    requires n <= |seg.sections| && Known(seg, p)
    ensures |r.secs| == |r.gen| == |p.secs|
  {
    if n == 0 then p else WithSection(seg, start, WithSections(seg, start, p, n - 1), seg.sections[n - 1])
  }

  lemma NextWithSection(seg: Segment, start: u64, p: Laying, n: nat)
    requires n < |seg.sections| && Known(seg, p)
    ensures WithSections(seg, start, p, 0) == p
    ensures WithSections(seg, start, p, n + 1) == WithSection(seg, start, WithSections(seg, start, p, n), seg.sections[n])
  {
    hide WithSection;
  }

  /** Where a segment starts, its sizes before its sections are looked at, and the file position then. */
  ghost function StartOf(seg: Segment, secs: seq<Section>, gen: seq<bool>, pos: u64, headers: u64, headersSize: u64): (u64, u64, u64)
    requires |secs| == |gen| && forall j :: 0 <= j < |seg.sections| ==> seg.sections[j] < |secs|
  {
    if seg.sections == [] then (if seg.typ == PT_PHDR then (headers, headersSize, pos) else (pos, 0, pos))
    else
      var first := seg.sections[0];
      if |seg.sections| > 1 && secs[first].typ == SHT_NULL then (0, pos, pos)
      else if gen[first] then (secs[first].offset, 0, pos)
      else
        var aligned := if seg.align > 0 then NextAligned(pos, seg.vaddr, seg.align) else pos;
        (aligned, 0, aligned)
  }

  /** One whole segment. */
  ghost function WithSegment(seg: Segment, secs: seq<Section>, gen: seq<bool>, pos: u64, headers: u64, headersSize: u64): (r: Laying)
    requires |secs| == |gen| && forall j :: 0 <= j < |seg.sections| ==> seg.sections[j] < |secs|
    ensures |r.secs| == |r.gen| == |secs|
  {
    var (start, size, pos') := StartOf(seg, secs, gen, pos, headers, headersSize);
    WithSections(seg, start, Laying(secs, gen, pos', size, size), |seg.sections|)
  }

  /** The whole layout under way. */
  datatype World = World(segs: seq<Segment>, secs: seq<Section>, gen: seq<bool>, pos: u64)

  ghost predicate InWorld(w: World) {
    |w.secs| == |w.gen| && forall i, j :: 0 <= i < |w.segs| && 0 <= j < |w.segs[i].sections| ==> w.segs[i].sections[j] < |w.secs|
  }

  /** Segment `s` is next. */
  ghost function WithNext(w: World, s: nat, headers: u64, headersSize: u64): (r: World)
    requires InWorld(w) && s < |w.segs|
    ensures InWorld(r) && |r.segs| == |w.segs| && |r.secs| == |w.secs|
  {
    var seg := w.segs[s];
    var p := WithSegment(seg, w.secs, w.gen, w.pos, headers, headersSize);
    var start := StartOf(seg, w.secs, w.gen, w.pos, headers, headersSize).0;
    World(w.segs[s := seg.(fileSize := p.fileSize, memSize := p.memSize, offset := start, offsetSet := true)], p.secs, p.gen, p.pos)
  }

  /** The first `n` segments of the order. */
  ghost function WithOrder(w: World, order: seq<nat>, n: nat, headers: u64, headersSize: u64): (r: World)
    requires n <= |order| && InWorld(w) && forall k :: 0 <= k < |order| ==> order[k] < |w.segs|
    ensures InWorld(r) && |r.segs| == |w.segs| && |r.secs| == |w.secs|
  {
    if n == 0 then w else WithNext(WithOrder(w, order, n - 1, headers, headersSize), order[n - 1], headers, headersSize)
  }

  lemma NextIs(w: World, s: nat, headers: u64, headersSize: u64, w': World)
    requires InWorld(w) && s < |w.segs| && SegmentDone(w.segs, w'.segs, s)
    requires var seg := w'.segs[s];
             && seg.offset == StartOf(w.segs[s], w.secs, w.gen, w.pos, headers, headersSize).0
             && Laying(w'.secs, w'.gen, w'.pos, seg.fileSize, seg.memSize) == WithSegment(w.segs[s], w.secs, w.gen, w.pos, headers, headersSize)
    ensures w' == WithNext(w, s, headers, headersSize)
  {
    hide StartOf, WithSegment, InWorld;
    assert w'.segs == WithNext(w, s, headers, headersSize).segs;
  }

  lemma NextInOrder(w: World, order: seq<nat>, n: nat, headers: u64, headersSize: u64)
    requires n < |order| && InWorld(w) && forall k :: 0 <= k < |order| ==> order[k] < |w.segs|
    ensures WithOrder(w, order, 0, headers, headersSize) == w
    ensures WithOrder(w, order, n + 1, headers, headersSize) == WithNext(WithOrder(w, order, n, headers, headersSize), order[n], headers, headersSize)
  {
    hide WithNext, InWorld;
  }

  class Elfio {
    var sections: seq<Section>
    var segments: seq<Segment>
    var currentFilePos: u64
    const segmentsOffset: u64      // where the program headers are
    const segmentEntrySize: nat

    constructor (sections: seq<Section>, segments: seq<Segment>, pos: u64, segmentsOffset: u64, entrySize: nat)
      ensures this.sections == sections && this.segments == segments && currentFilePos == pos
      ensures this.segmentsOffset == segmentsOffset && segmentEntrySize == entrySize
    {
      this.sections, this.segments, currentFilePos := sections, segments, pos;
      this.segmentsOffset, segmentEntrySize := segmentsOffset, entrySize;
    }

    /** The segment begins with the null section and has more. */
    ghost predicate StartsNull(seg: Segment)
      reads this
    {
      |seg.sections| > 1 && seg.sections[0] < |sections| && sections[seg.sections[0]].typ == SHT_NULL
    }

    /** The segment's first section is laid out together with it. */
    ghost predicate StartsNew(seg: Segment, generated: seq<bool>)
      reads this
    {
      seg.sections != [] && seg.sections[0] < |generated| && !generated[seg.sections[0]] && !StartsNull(seg)
    }

    /** The program headers' size. */
    ghost function HeadersSize(): u64
      reads `segments
    {
      Wrap(segmentEntrySize * |segments|)
    }

    /** Where the segment starts, and how large it is before its sections are looked at. */
    method StartSegment(seg: Segment, generated: seq<bool>) returns (start: u64, size: u64)
      requires |generated| == |sections| && (forall j :: 0 <= j < |seg.sections| ==> seg.sections[j] < |sections|)
      requires StartsNew(seg, generated) ==> seg.align > 0
      modifies `currentFilePos
      ensures seg.sections == [] && seg.typ == PT_PHDR ==> start == segmentsOffset && size == Wrap(segmentEntrySize * |segments|)
      ensures seg.sections == [] && seg.typ != PT_PHDR ==> start == currentFilePos && size == 0
      ensures StartsNull(seg) ==> start == 0 && size == currentFilePos
      ensures StartsNew(seg, generated) ==> start == currentFilePos == NextAligned(old(currentFilePos), seg.vaddr, seg.align) && size == 0
      ensures seg.sections != [] && !StartsNull(seg) && generated[seg.sections[0]] ==> start == sections[seg.sections[0]].offset && size == 0
      ensures !StartsNew(seg, generated) ==> currentFilePos == old(currentFilePos)
      ensures (start, size, currentFilePos) ==
              StartOf(seg, sections, generated, old(currentFilePos), segmentsOffset, Wrap(segmentEntrySize * |segments|))
    {
      start, size := currentFilePos, 0;
      if seg.typ == PT_PHDR && seg.sections == [] {
        start := segmentsOffset;
        size := Wrap(segmentEntrySize * |segments|);
      } else if |seg.sections| > 1 && sections[seg.sections[0]].typ == SHT_NULL {
        start := 0;
        size := currentFilePos;
      } else if seg.sections != [] && !generated[seg.sections[0]] {
        var error := Sub(seg.vaddr % seg.align, currentFilePos % seg.align);
        currentFilePos := Add(currentFilePos, Add(seg.align, error) % seg.align);
        start := currentFilePos;
      } else if seg.sections != [] {
        start := sections[seg.sections[0]].offset;
      }
    }

    /** How far the next section is moved up, before it is placed. */
    method SectionGap(seg: Segment, sec: Section, done: bool, start: u64, fileSize: u64) returns (secAlign: u64)
      ensures !done && sec.addrSet && sec.typ != SHT_NOBITS && sec.typ != SHT_NULL ==>
                secAlign == Sub(Sub(sec.addr, seg.vaddr), Sub(currentFilePos, start))
      ensures !done && !(sec.addrSet && sec.typ != SHT_NOBITS && sec.typ != SHT_NULL) ==>
                secAlign < (if sec.align == 0 then 1 else sec.align) && (currentFilePos + secAlign) % (if sec.align == 0 then 1 else sec.align) == 0
      ensures done ==> secAlign == Sub(Sub(sec.offset, start), fileSize)
      ensures sec.typ != SHT_NULL ==> secAlign == GapOf(seg, sec, done, start, currentFilePos, fileSize)
    {
      if !done && sec.addrSet && sec.typ != SHT_NOBITS && sec.typ != SHT_NULL {
        var reqOffset := Sub(sec.addr, seg.vaddr);
        var curOffset := Sub(currentFilePos, start);
        secAlign := Sub(reqOffset, curOffset);
      } else if !done {
        var align := sec.align;
        if align == 0 {
          align := 1;
        }
        var error := currentFilePos % align;
        secAlign := Sub(align, error) % align;
        RoundUp(currentFilePos, align);
      } else {
        secAlign := Sub(Sub(sec.offset, start), fileSize);
      }
    }

    /** The segment's sizes with one more section. Zero-fill sections take no file space, thread-local ones only in their own segment memory. */
    method GrowSizes(seg: Segment, sec: Section, secAlign: u64, fileSize0: u64, memSize0: u64) returns (fileSize: u64, memSize: u64)
      ensures fileSize == if sec.typ != SHT_NOBITS && sec.typ != SHT_NULL then Add(fileSize0, Add(sec.size, secAlign)) else fileSize0
      ensures memSize == if sec.alloc && !(sec.tls && seg.typ != PT_TLS && sec.typ == SHT_NOBITS) then Add(memSize0, Add(sec.size, secAlign)) else memSize0
    {
      fileSize, memSize := fileSize0, memSize0;
      if sec.alloc && !(sec.tls && seg.typ != PT_TLS && sec.typ == SHT_NOBITS) {
        memSize := Add(memSize, Add(sec.size, secAlign));
      }
      if sec.typ != SHT_NOBITS && sec.typ != SHT_NULL {
        fileSize := Add(fileSize, Add(sec.size, secAlign));
      }
    }

    /** Gives a section its offset, and its address if it has none. */
    method SetPlace(seg: Segment, index: nat, secAlign: u64, start: u64)
      requires index < |sections| && sections[index].typ != SHT_NULL
      requires var sec := sections[index];
               sec.addrSet && sec.typ != SHT_NOBITS ==> secAlign == Sub(Sub(sec.addr, seg.vaddr), Sub(currentFilePos, start))
      modifies `sections, `currentFilePos
      ensures |sections| == |old(sections)| && sections == old(sections)[index := sections[index]] && SameHeader(old(sections)[index], sections[index])
      ensures Exempt(old(sections)[index]) || InPlace(sections[index], seg.vaddr, start)
      ensures var moved := Add(old(currentFilePos), secAlign);
              currentFilePos == if sections[index].typ != SHT_NOBITS then Add(moved, sections[index].size) else moved
      ensures var moved := Add(old(currentFilePos), secAlign);
              sections[index] == MovedTo(old(sections)[index], moved, Wrap(seg.vaddr + moved - start))
    {
      var sec := sections[index];
      PlacedByAddress(currentFilePos, seg.vaddr, start, sec.addr);
      hide Add, Sub, Wrap;
      currentFilePos := Add(currentFilePos, secAlign);
      if !sec.addrSet {
        PlacedByPosition(currentFilePos, seg.vaddr, start);
        sec := sec.(addr := Wrap(seg.vaddr + currentFilePos - start), addrSet := true);
      }
      if sec.index != 0 {
        sec := sec.(offset := currentFilePos);
      }
      if sec.typ != SHT_NOBITS && sec.typ != SHT_NULL {
        currentFilePos := Add(currentFilePos, sec.size);
      }
      sections := sections[index := sec];
    }

    /** Lays out one section of a segment, unless an earlier segment has. */
    method PlaceSection(seg: Segment, index: nat, done: bool, start: u64, fileSize0: u64, memSize0: u64, ghost gen: seq<bool>)
      returns (fileSize: u64, memSize: u64)
      requires index < |sections| == |gen| && sections[index].typ != SHT_NULL && done == gen[index]
      modifies `sections, `currentFilePos
      ensures |sections| == |old(sections)| && forall k :: 0 <= k < |sections| && k != index ==> sections[k] == old(sections)[k]
      ensures SameHeader(old(sections)[index], sections[index])
      ensures done ==> sections == old(sections) && currentFilePos == old(currentFilePos)
      ensures !done ==> Exempt(old(sections)[index]) || InPlace(sections[index], seg.vaddr, start)
      ensures !done && sections[index].typ != SHT_NOBITS && Add(start, fileSize0) == old(currentFilePos) ==>
                Add(start, fileSize) == currentFilePos
      ensures sections[index].alloc && sections[index].typ != SHT_NOBITS && memSize0 == fileSize0 ==> memSize == fileSize
      ensures done && sections[index].typ != SHT_NOBITS ==> Add(start, fileSize) == Add(sections[index].offset, sections[index].size)
      ensures Laying(sections, gen[index := true], currentFilePos, fileSize, memSize) ==
              WithSection(seg, start, Laying(old(sections), gen, old(currentFilePos), fileSize0, memSize0), index)
    {
      var sec := sections[index];
      ghost var p := Laying(sections, gen, currentFilePos, fileSize0, memSize0);
      hide Add, Sub, InPlace, Exempt, GapOf, MovedTo, Wrap, WithSection;
      var secAlign := SectionGap(seg, sec, done, start, fileSize0);
      NestedEnd(start, fileSize0, sec.offset, sec.size);
      if Add(start, fileSize0) == currentFilePos { FlushStays(start, fileSize0, currentFilePos, sec.size, secAlign); }
      fileSize, memSize := GrowSizes(seg, sec, secAlign, fileSize0, memSize0);
      if !done {
        SetPlace(seg, index, secAlign, start);
      }
      WithSectionIs(seg, start, p, index, secAlign, Laying(sections, gen[index := true], currentFilePos, fileSize, memSize));
    }

    /** Lays out a segment's sections, once its start is known. */
    method PlaceSections(seg: Segment, start: u64, size: u64, generated: seq<bool>, ghost flush: bool)
      returns (gen: seq<bool>, fileSize: u64, memSize: u64)
      requires |generated| == |sections| && forall j :: 0 <= j < |seg.sections| ==> seg.sections[j] < |sections|
      requires flush ==> AllFresh(sections, generated, seg.sections) && Add(start, size) == currentFilePos
      modifies `sections, `currentFilePos
      ensures Placed(old(sections), sections, generated, gen, seg, start, |seg.sections|)
      ensures flush ==> Add(start, fileSize) == currentFilePos && memSize == fileSize
      ensures Laying(sections, gen, currentFilePos, fileSize, memSize) ==
              WithSections(seg, start, Laying(old(sections), generated, old(currentFilePos), size, size), |seg.sections|)
    {
      ghost var secs0 := sections;
      fileSize, memSize := size, size;
      gen := generated;
      NothingPlaced(sections, generated, seg, start);
      ghost var p0 := Laying(secs0, generated, currentFilePos, size, size);
      hide Placed, AllFresh, Add, Sub, InPlace, Exempt, SameHeader, WithSection, WithSections;
      NoSectionYet(seg, start, p0);
      for j := 0 to |seg.sections|
        invariant Placed(secs0, sections, generated, gen, seg, start, j)
        invariant |gen| == |sections| == |secs0|
        invariant flush ==> Add(start, fileSize) == currentFilePos && memSize == fileSize
        invariant Laying(sections, gen, currentFilePos, fileSize, memSize) == WithSections(seg, start, p0, j)
      {
        var index := seg.sections[j];
        ghost var before, gen0 := sections, gen;
        PlacedHeader(secs0, sections, generated, gen, seg, start, j, index);
        NextWithSection(seg, start, p0, j);
        if sections[index].typ == SHT_NULL {
          NullSection(seg, start, Laying(sections, gen, currentFilePos, fileSize, memSize), index);
          gen := gen[index := true];
          PlacedNull(secs0, sections, generated, gen0, seg, start, j);
        } else {
          if flush { FreshFacts(secs0, sections, generated, gen, seg, start, j); }
          fileSize, memSize := PlaceSection(seg, index, gen[index], start, fileSize, memSize, gen);
          gen := gen[index := true];
          PlacedNext(secs0, before, sections, generated, gen0, seg, start, j);
        }
      }
    }

    /** Lays out one segment: its start, its sections that no earlier segment has laid out, and its sizes. */
    method LayoutSegment(i: nat, generated: seq<bool>) returns (gen: seq<bool>)
      requires i < |segments| && |generated| == |sections|
      requires forall j :: 0 <= j < |segments[i].sections| ==> segments[i].sections[j] < |sections|
      requires StartsNew(segments[i], generated) ==> segments[i].align > 0
      modifies this
      ensures SegmentDone(old(segments), segments, i)
      ensures Placed(old(sections), sections, generated, gen, segments[i], segments[i].offset, |segments[i].sections|)
      ensures old(StartsNew(segments[i], generated)) ==> segments[i].offset == NextAligned(old(currentFilePos), segments[i].vaddr, segments[i].align)
      ensures var seg := segments[i];
              old(StartsNew(segments[i], generated)) && seg.align <= TWO64 / 2 ==>
                (seg.offset % seg.align == seg.vaddr % seg.align <==>
                   old(currentFilePos) + Gap(old(currentFilePos), seg.vaddr, seg.align) < TWO64 || TWO64 % seg.align == 0)
      ensures old(StartsNew(segments[i], generated)) && AllFresh(old(sections), generated, segments[i].sections) ==>
                Add(segments[i].offset, segments[i].fileSize) == currentFilePos && segments[i].memSize == segments[i].fileSize
      ensures segments[i].offset == StartOf(old(segments[i]), old(sections), generated, old(currentFilePos), segmentsOffset, HeadersSize()).0
      ensures Laying(sections, gen, currentFilePos, segments[i].fileSize, segments[i].memSize) ==
              WithSegment(old(segments[i]), old(sections), generated, old(currentFilePos), segmentsOffset, HeadersSize())
    {
      var seg := segments[i];
      ghost var secs0 := sections;
      var start, size := StartSegment(seg, generated);
      ghost var flush := old(StartsNew(segments[i], generated)) && AllFresh(secs0, generated, seg.sections);
      if old(StartsNew(segments[i], generated)) && seg.align <= TWO64 / 2 { AlignedIff(old(currentFilePos), seg.vaddr, seg.align); }
      hide Placed, AllFresh, Add, Sub, NextAligned, Gap, InPlace, Exempt, SameHeader, WithSections, StartOf;
      var fileSize, memSize;
      gen, fileSize, memSize := PlaceSections(seg, start, size, generated, flush);
      segments := segments[i := seg.(fileSize := fileSize, memSize := memSize, offset := start, offsetSet := true)];
      PlacedSame(secs0, sections, generated, gen, seg, segments[i], start, |seg.sections|);
      SegmentFacts(old(segments), segments, i);
    }

    ghost predicate InRange()
      reads this
    {
      forall i, j :: 0 <= i < |segments| && 0 <= j < |segments[i].sections| ==> segments[i].sections[j] < |sections|
    }

    /** The section indices are in range, and a segment whose start must be aligned has an alignment to divide by. */
    ghost predicate Sound()
      reads this
    {
      InRange() && forall s: nat :: NeedsAlignment(sections, segments, s) ==> segments[s].align > 0
    }

    ghost predicate LaidSoFar(owner: map<nat, nat>, generated: seq<bool>, secs0: seq<Section>, segs0: seq<Segment>, done: set<nat>)
      reads this
    {
      && InRange() && |generated| == |sections| && |segments| == |segs0|
      && Laid(owner, secs0, sections, segs0, segments, done) && GenMatches(owner, generated)
    }

    /** A segment that starts with a new section has an alignment, as its containers have been laid out before it. */
    lemma NextIsAlignable(owner: map<nat, nat>, generated: seq<bool>, secs0: seq<Section>, segs0: seq<Segment>, order: seq<nat>, i: nat)
      requires i < |order| && LaidSoFar(owner, generated, secs0, segs0, Elems(order[..i]))
      requires Lists(order, |segs0|) && ContainersFirst(segs0, order)
      requires forall s: nat :: NeedsAlignment(secs0, segs0, s) ==> segs0[s].align > 0
      ensures order[i] < |segments| && (StartsNew(segments[order[i]], generated) ==> segments[order[i]].align > 0)
    {
      var s := order[i];
      assert s in order;
      if StartsNew(segments[s], generated) {
        hide Laid, GenMatches, NeedsAlignment;
        NewNeedsAlignment(owner, generated, secs0, sections, segs0, segments, order, i);
      }
    }

    method LayNext(s: nat, generated: seq<bool>, ghost owner0: map<nat, nat>, ghost secs0: seq<Section>, ghost segs0: seq<Segment>, ghost done: set<nat>)
      returns (gen: seq<bool>, ghost owner: map<nat, nat>)
      requires LaidSoFar(owner0, generated, secs0, segs0, done) && s < |segs0| && s !in done
      requires StartsNew(segments[s], generated) ==> segments[s].align > 0
      modifies this
      ensures LaidSoFar(owner, gen, secs0, segs0, done + {s})
      ensures old(InWorld(World(segments, sections, generated, currentFilePos))) && s < |old(segments)|
      ensures World(segments, sections, gen, currentFilePos) ==
              WithNext(old(World(segments, sections, generated, currentFilePos)), s, segmentsOffset, old(HeadersSize()))
    {
      ghost var secs, segs, pos := sections, segments, currentFilePos;
      ghost var isNew := StartsNew(segments[s], generated);
      hide Laid, GenMatches, Placed, SegmentDone, NextAligned, InPlace;
      gen := LayoutSegment(s, generated);
      SegmentKeepsLists(segs, segments, s);
      PlacedLengths(secs, sections, generated, gen, segments[s], segments[s].offset, |segments[s].sections|);
      if isNew { StartAligned(pos, segments[s]); }
      owner := LaidNext(owner0, secs0, secs, sections, segs0, segs, segments, done, s, generated, gen, isNew);
      NextIs(World(segs, secs, generated, pos), s, segmentsOffset, Wrap(segmentEntrySize * |segs|), World(segments, sections, gen, currentFilePos));
    }

    /** Before the layout: no section has been laid out. */
    ghost function Fresh(): World
      reads this
    {
      World(segments, sections, seq(|sections|, _ => false), currentFilePos)
    }

    /** Lays out all segments, containers first. `owner` says which segment each section was laid out with. */
    method LayoutSegmentsAndTheirSections() returns (ghost owner: map<nat, nat>)
      requires Sound()
      modifies this
      ensures Laid(owner, old(sections), sections, old(segments), segments, Elems(Identity(|segments|)))
      ensures old(InWorld(Fresh())) && IsResult(old(Fresh()), segments, sections, currentFilePos, segmentsOffset, old(HeadersSize()))
    {
      var generated := seq(|sections|, _ => false);
      var order := GetOrderedSegments(segments);
      owner := map[];
      ghost var secs0, segs0 := sections, segments;
      NothingLaid(secs0, segs0, generated);
      ghost var w := Fresh();
      assert w == World(segments, sections, generated, currentFilePos) && InWorld(w);
      OrderInRange(order, |segs0|);
      hide Sound, InRange, Laid, GenMatches, Lists, ContainersFirst, NeedsAlignment, StartsNew, InWorld, WithNext;
      for i := 0 to |order|
        invariant LaidSoFar(owner, generated, secs0, segs0, Elems(order[..i]))
        invariant |segments| == |segs0|
        invariant World(segments, sections, generated, currentFilePos) == WithOrder(w, order, i, segmentsOffset, old(HeadersSize()))
      {
        NextInOrder(w, order, i, segmentsOffset, old(HeadersSize()));
        ListsNext(order, |segs0|, i);
        NextIsAlignable(owner, generated, secs0, segs0, order, i);
        hide LaidSoFar;
        generated, owner := LayNext(order[i], generated, owner, secs0, segs0, Elems(order[..i]));
      }
      assert order[..|order|] == order;
      ListsAll(order, |segs0|);
    }
  }

  lemma OrderInRange(order: seq<nat>, n: nat)
    requires Lists(order, n)
    ensures forall k :: 0 <= k < |order| ==> order[k] < n
  {
    assert forall k :: 0 <= k < |order| ==> order[k] in order;
  }

  /** All segments have been laid out, in the order given by `OrderOf`. */
  ghost predicate IsResult(w: World, segs: seq<Segment>, secs: seq<Section>, pos: u64, headers: u64, headersSize: u64)
    requires InWorld(w)
  {
    && (forall k :: 0 <= k < |OrderOf(w.segs)| ==> OrderOf(w.segs)[k] < |w.segs|)
    && var r := WithOrder(w, OrderOf(w.segs), |OrderOf(w.segs)|, headers, headersSize);
       segs == r.segs && secs == r.secs && pos == r.pos
  }

  /** Segment `s` starts neither with the null section and more, nor inside a larger segment, which would be laid out first. */
  ghost predicate NeedsAlignment(secs: seq<Section>, segs: seq<Segment>, s: nat) {
    && s < |segs| && segs[s].sections != [] && segs[s].sections[0] < |secs|
    && !(|segs[s].sections| > 1 && secs[segs[s].sections[0]].typ == SHT_NULL)
    && forall t :: 0 <= t < |segs| ==> !Inside(segs[s], segs[t])
  }

  lemma {:induction false} MergeHasFirst(big: seq<nat>, small: seq<nat>)
    requires small != [] && Merge(big, small)
    ensures small[0] in big
  {
    if big[0] < small[0] { MergeHasFirst(big[1..], small); }
  }

  /** The sections of a segment's container have been laid out. */
  lemma FirstIsOwned(owner: map<nat, nat>, secs0: seq<Section>, secs: seq<Section>, segs0: seq<Segment>, segs: seq<Segment>,
                     order: seq<nat>, i: nat, t: nat)
    requires i < |order| && Laid(owner, secs0, secs, segs0, segs, Elems(order[..i]))
    requires Lists(order, |segs0|) && ContainersFirst(segs0, order) && order[i] < |segs0|
    requires t < |segs0| && segs0[order[i]].sections != [] && Inside(segs0[order[i]], segs0[t])
    ensures segs0[order[i]].sections[0] in owner
  {
    ContainerEarlier(segs0, order, i, t);
    MergeHasFirst(segs0[t].sections, segs0[order[i]].sections);
    assert SegmentLaid(owner, secs0, segs[t], t);
  }

  lemma NewNeedsAlignment(owner: map<nat, nat>, gen: seq<bool>, secs0: seq<Section>, secs: seq<Section>, segs0: seq<Segment>, segs: seq<Segment>,
                          order: seq<nat>, i: nat)
    requires i < |order| && Laid(owner, secs0, secs, segs0, segs, Elems(order[..i])) && GenMatches(owner, gen) && |gen| == |secs|
    requires Lists(order, |segs0|) && ContainersFirst(segs0, order) && order[i] < |segs|
    requires segs[order[i]].sections != [] && segs[order[i]].sections[0] < |gen| && !gen[segs[order[i]].sections[0]]
    requires !(|segs[order[i]].sections| > 1 && secs[segs[order[i]].sections[0]].typ == SHT_NULL)
    ensures NeedsAlignment(secs0, segs0, order[i]) && segs[order[i]].align == segs0[order[i]].align
  {
    var s := order[i];
    var first := segs[s].sections[0];
    assert first !in owner && segs[s].sections == segs0[s].sections;
    forall t | 0 <= t < |segs0| ensures !Inside(segs0[s], segs0[t]) {
      if Inside(segs0[s], segs0[t]) {
        FirstIsOwned(owner, secs0, secs, segs0, segs, order, i, t);
      }
    }
  }

  lemma ContainerEarlier(segs: seq<Segment>, order: seq<nat>, i: nat, t: nat)
    requires Lists(order, |segs|) && ContainersFirst(segs, order) && i < |order| && order[i] < |segs|
    requires t < |segs| && Inside(segs[order[i]], segs[t])
    ensures t in Elems(order[..i])
  {
    assert t in order;
    var j :| 0 <= j < |order| && order[j] == t;
    assert j != i && !(i < j);
    assert order[..i][j] == t;
  }

  /** The segments in `done` have been laid out, each of their sections with one of them. */
  ghost predicate Laid(owner: map<nat, nat>, secs0: seq<Section>, secs: seq<Section>, segs0: seq<Segment>, segs: seq<Segment>, done: set<nat>) {
    && |secs| == |secs0| && |segs| == |segs0|
    && (forall s :: 0 <= s < |segs| ==>
          segs[s] == segs0[s].(fileSize := segs[s].fileSize, memSize := segs[s].memSize, offset := segs[s].offset, offsetSet := segs[s].offsetSet))
    && (forall s :: 0 <= s < |segs| && s !in done ==> segs[s] == segs0[s])
    && (forall k: nat :: k in owner ==> k < |secs| && owner[k] in done && owner[k] < |segs| && k in segs[owner[k]].sections
                                        && SectionLaid(secs0[k], secs[k], segs[owner[k]]))
    && (forall k: nat :: k < |secs| && k !in owner ==> secs[k] == secs0[k])
    && (forall s: nat :: s in done && s < |segs| ==> SegmentLaid(owner, secs0, segs[s], s))
  }

  /** A section keeps its header and, unless it is exempt, lies in its segment's file image where it lies in memory. */
  ghost predicate SectionLaid(before: Section, after: Section, seg: Segment) {
    SameHeader(before, after) && (Exempt(before) || InPlace(after, seg.vaddr, seg.offset))
  }

  /** The segment's offset agrees with its address modulo its alignment, whatever the alignment, unless the position wrapped around:
      then the offset is smaller than the alignment, and harmless still if the alignment divides 2^64. */
  ghost predicate OffsetAligned(seg: Segment) {
    0 < seg.align <= TWO64 / 2 && (seg.align <= seg.offset || TWO64 % seg.align == 0) ==>
      seg.offset % seg.align == seg.vaddr % seg.align
  }

  /** All sections of a segment have been laid out. If the first was laid out with it, the segment is aligned. */
  ghost predicate SegmentLaid(owner: map<nat, nat>, secs0: seq<Section>, seg: Segment, s: nat) {
    && (forall k :: k in seg.sections ==> k in owner)
    && (seg.sections != [] && seg.sections[0] in owner && owner[seg.sections[0]] == s && seg.sections[0] < |secs0|
        && secs0[seg.sections[0]].typ != SHT_NULL ==>
          OffsetAligned(seg))
  }

  ghost predicate GenMatches(owner: map<nat, nat>, gen: seq<bool>) {
    forall k: nat :: k < |gen| ==> (gen[k] <==> k in owner)
  }

  lemma NothingLaid(secs: seq<Section>, segs: seq<Segment>, gen: seq<bool>)
    requires |gen| == |secs| && forall k :: 0 <= k < |gen| ==> !gen[k]
    ensures Laid(map[], secs, secs, segs, segs, Elems([])) && GenMatches(map[], gen)
  {
  }

  lemma ListsNext(order: seq<nat>, n: nat, i: nat)
    requires Lists(order, n) && i < |order|
    ensures order[i] < n && order[i] !in Elems(order[..i])
    ensures Elems(order[..i + 1]) == Elems(order[..i]) + {order[i]}
  {
    assert order[i] in order && order[..i + 1] == order[..i] + [order[i]];
  }

  lemma ListsAll(order: seq<nat>, n: nat)
    requires Lists(order, n)
    ensures Elems(order) == Elems(Identity(n))
  {
    IdentityLists(n);
  }

  lemma SegmentKeepsLists(before: seq<Segment>, after: seq<Segment>, i: nat)
    requires SegmentDone(before, after, i)
    ensures |after| == |before| && i < |after|
    ensures forall k :: 0 <= k < |after| ==> after[k].sections == before[k].sections && after[k].align == before[k].align && after[k].vaddr == before[k].vaddr
  {
  }

  lemma PlacedLengths(before: seq<Section>, after: seq<Section>, gen0: seq<bool>, gen: seq<bool>, seg: Segment, start: u64, n: nat)
    requires Placed(before, after, gen0, gen, seg, start, n)
    ensures |before| == |after| == |gen0| == |gen|
  {
  }

  lemma StartAligned(pos: u64, seg: Segment)
    requires seg.align > 0 && seg.offset == NextAligned(pos, seg.vaddr, seg.align)
    ensures OffsetAligned(seg)
  {
    if seg.align <= TWO64 / 2 {
      AlignedIff(pos, seg.vaddr, seg.align);
      GapIsComputed(pos, seg.vaddr, seg.align);
      hide NextAligned, Gap;
    }
  }

  /** Segment `s` has just been laid out after those in `done`. */
  ghost predicate LayingOut(owner: map<nat, nat>, secs0: seq<Section>, secs: seq<Section>, secs': seq<Section>,
                            segs0: seq<Segment>, segs: seq<Segment>, segs': seq<Segment>, done: set<nat>, s: nat,
                            gen: seq<bool>, gen': seq<bool>)
  {
    && Laid(owner, secs0, secs, segs0, segs, done) && GenMatches(owner, gen) && s !in done && s < |segs|
    && SegmentDone(segs, segs', s) && Placed(secs, secs', gen, gen', segs'[s], segs'[s].offset, |segs'[s].sections|)
  }

  ghost function OwnerAfter(owner: map<nat, nat>, gen: seq<bool>, gen': seq<bool>, s: nat): (r: map<nat, nat>)
    requires |gen| == |gen'|
    ensures forall k: nat :: k in r <==> k in owner || (k < |gen'| && gen'[k] && !gen[k])
    ensures forall k: nat :: k in r ==> r[k] == if k < |gen'| && gen'[k] && !gen[k] then s else owner[k]
  {
    owner + map k: nat | k < |gen'| && gen'[k] && !gen[k] :: s
  }

  lemma LaidSection(owner: map<nat, nat>, secs0: seq<Section>, secs: seq<Section>, secs': seq<Section>,
                    segs0: seq<Segment>, segs: seq<Segment>, segs': seq<Segment>, done: set<nat>, s: nat,
                    gen: seq<bool>, gen': seq<bool>, k: nat)
    requires LayingOut(owner, secs0, secs, secs', segs0, segs, segs', done, s, gen, gen') && |gen| == |gen'|
    requires k in OwnerAfter(owner, gen, gen', s)
    ensures var o := OwnerAfter(owner, gen, gen', s)[k];
            && k < |secs'| && k < |secs0| && o < |segs'| && o in done + {s} && k in segs'[o].sections
            && SectionLaid(secs0[k], secs'[k], segs'[o])
  {
    var seg := segs'[s];
    assert seg.sections[..|seg.sections|] == seg.sections;
    hide SameHeader, InPlace, Exempt, OwnerAfter;
    if k in owner {
      assert owner[k] != s;
    }
  }

  lemma LaidUnowned(owner: map<nat, nat>, secs0: seq<Section>, secs: seq<Section>, secs': seq<Section>,
                    segs0: seq<Segment>, segs: seq<Segment>, segs': seq<Segment>, done: set<nat>, s: nat,
                    gen: seq<bool>, gen': seq<bool>, k: nat)
    requires LayingOut(owner, secs0, secs, secs', segs0, segs, segs', done, s, gen, gen') && |gen| == |gen'|
    requires k < |secs'| && k !in OwnerAfter(owner, gen, gen', s)
    ensures k < |secs0| && secs'[k] == secs0[k]
  {
    hide SameHeader, InPlace, Exempt, OwnerAfter;
  }

  lemma LaidMatches(owner: map<nat, nat>, secs0: seq<Section>, secs: seq<Section>, secs': seq<Section>,
                    segs0: seq<Segment>, segs: seq<Segment>, segs': seq<Segment>, done: set<nat>, s: nat,
                    gen: seq<bool>, gen': seq<bool>, k: nat)
    requires LayingOut(owner, secs0, secs, secs', segs0, segs, segs', done, s, gen, gen') && |gen| == |gen'|
    requires k < |gen'|
    ensures gen'[k] <==> k in OwnerAfter(owner, gen, gen', s)
  {
    hide SameHeader, InPlace, Exempt, OwnerAfter;
  }

  lemma LaidSegment(owner: map<nat, nat>, secs0: seq<Section>, secs: seq<Section>, secs': seq<Section>,
                    segs0: seq<Segment>, segs: seq<Segment>, segs': seq<Segment>, done: set<nat>, s: nat,
                    gen: seq<bool>, gen': seq<bool>, t: nat)
    requires LayingOut(owner, secs0, secs, secs', segs0, segs, segs', done, s, gen, gen') && |gen| == |gen'|
    requires t in done && t < |segs'|
    ensures SegmentLaid(OwnerAfter(owner, gen, gen', s), secs0, segs'[t], t)
  {
    assert t != s && segs'[t] == segs[t] && SegmentLaid(owner, secs0, segs[t], t);
    var seg := segs'[t];
    assert forall k :: k in seg.sections ==> k in owner;
    assert forall k: nat :: k in owner && k < |gen| ==> gen[k];
    hide Placed, OwnerAfter;
  }

  lemma LaidNewSegment(owner: map<nat, nat>, secs0: seq<Section>, secs: seq<Section>, secs': seq<Section>,
                       segs0: seq<Segment>, segs: seq<Segment>, segs': seq<Segment>, done: set<nat>, s: nat,
                       gen: seq<bool>, gen': seq<bool>, isNew: bool)
    requires LayingOut(owner, secs0, secs, secs', segs0, segs, segs', done, s, gen, gen') && |gen| == |gen'| && s < |segs'|
    requires StartsHere(secs, segs'[s], gen) ==> isNew
    requires isNew ==> OffsetAligned(segs'[s])
    ensures SegmentLaid(OwnerAfter(owner, gen, gen', s), secs0, segs'[s], s)
  {
    var seg, after := segs'[s], OwnerAfter(owner, gen, gen', s);
    assert seg.sections[..|seg.sections|] == seg.sections;
    hide SameHeader, InPlace, Exempt, OwnerAfter;
    forall k | k in seg.sections ensures k in after { assert gen'[k]; }
    if seg.sections != [] && after[seg.sections[0]] == s {
      assert seg.sections[0] in seg.sections && !gen[seg.sections[0]];
      assert secs[seg.sections[0]] == secs0[seg.sections[0]];
    }
  }

  /** The segment's first section has not been laid out, and is no null section. */
  ghost predicate StartsHere(secs: seq<Section>, seg: Segment, gen: seq<bool>) {
    && seg.sections != [] && seg.sections[0] < |gen| && seg.sections[0] < |secs|
    && !gen[seg.sections[0]] && secs[seg.sections[0]].typ != SHT_NULL
  }

  lemma LaidNext(owner: map<nat, nat>, secs0: seq<Section>, secs: seq<Section>, secs': seq<Section>,
                 segs0: seq<Segment>, segs: seq<Segment>, segs': seq<Segment>, done: set<nat>, s: nat,
                 gen: seq<bool>, gen': seq<bool>, isNew: bool) returns (owner': map<nat, nat>)
    requires LayingOut(owner, secs0, secs, secs', segs0, segs, segs', done, s, gen, gen') && s < |segs'|
    requires StartsHere(secs, segs'[s], gen) ==> isNew
    requires isNew ==> OffsetAligned(segs'[s])
    ensures Laid(owner', secs0, secs', segs0, segs', done + {s}) && GenMatches(owner', gen')
  {
    assert |gen| == |gen'| == |secs'| == |secs0| && |segs'| == |segs0|;
    owner' := OwnerAfter(owner, gen, gen', s);
    assert forall t :: 0 <= t < |segs'| ==>
      segs'[t] == segs0[t].(fileSize := segs'[t].fileSize, memSize := segs'[t].memSize, offset := segs'[t].offset, offsetSet := segs'[t].offsetSet);
    assert forall t :: 0 <= t < |segs'| && t !in done + {s} ==> segs'[t] == segs0[t];
    hide Placed, SegmentDone, OwnerAfter, SectionLaid, SegmentLaid, LayingOut;
    forall k: nat | k in owner'
      ensures k < |secs'| && owner'[k] < |segs'| && owner'[k] in done + {s} && k in segs'[owner'[k]].sections && SectionLaid(secs0[k], secs'[k], segs'[owner'[k]])
    {
      LaidSection(owner, secs0, secs, secs', segs0, segs, segs', done, s, gen, gen', k);
    }
    forall k: nat | k < |secs'| && k !in owner' ensures secs'[k] == secs0[k] {
      LaidUnowned(owner, secs0, secs, secs', segs0, segs, segs', done, s, gen, gen', k);
    }
    forall k: nat | k < |gen'| ensures gen'[k] <==> k in owner' {
      LaidMatches(owner, secs0, secs, secs', segs0, segs, segs', done, s, gen, gen', k);
    }
    forall t: nat | t in done + {s} && t < |segs'| ensures SegmentLaid(owner', secs0, segs'[t], t) {
      if t == s {
        LaidNewSegment(owner, secs0, secs, secs', segs0, segs, segs', done, s, gen, gen', isNew);
      } else {
        LaidSegment(owner, secs0, secs, secs', segs0, segs, segs', done, s, gen, gen', t);
      }
    }
  }

  /** A segment whose start wraps around the end of the 64-bit range, where its alignment does not divide 2^64. */
  method MisalignedSegment() returns (seg: Segment)
    ensures seg.sections == [0] && 0 < seg.align && seg.offset % seg.align != seg.vaddr % seg.align
  {
    var sec := Section(1, 1, true, false, 1, true, 0, 16, 1);
    var elf := new Elfio([sec], [Segment(1, [0], 3, 1, 0, false, 0, 0)], TWO64 - 1, 64, 56);
    var gen := elf.LayoutSegment(0, [false]);
    seg := elf.segments[0];
  }

  // ---------------------------------------------------------------- one segment

  ghost predicate SegmentDone(before: seq<Segment>, after: seq<Segment>, i: nat) {
    && |before| == |after| && i < |before|
    && (forall k :: 0 <= k < |before| && k != i ==> after[k] == before[k])
    && after[i] == before[i].(fileSize := after[i].fileSize, memSize := after[i].memSize, offset := after[i].offset, offsetSet := true)
  }

  lemma SegmentFacts(before: seq<Segment>, after: seq<Segment>, i: nat)
    requires i < |before| == |after| && after == before[i := after[i]]
    requires after[i] == before[i].(fileSize := after[i].fileSize, memSize := after[i].memSize, offset := after[i].offset, offsetSet := true)
    ensures SegmentDone(before, after, i)
  {
  }

  /** The first `n` sections of `seg` have been dealt with: those no earlier segment had laid out are now in place, the rest is unchanged. */
  ghost predicate Placed(before: seq<Section>, after: seq<Section>, gen0: seq<bool>, gen: seq<bool>, seg: Segment, start: u64, n: nat) {
    && |before| == |after| == |gen0| == |gen| && n <= |seg.sections|
    && (forall j :: 0 <= j < |seg.sections| ==> seg.sections[j] < |before|)
    && (forall k :: 0 <= k < |before| ==> SameHeader(before[k], after[k]))
    && (forall k :: 0 <= k < |before| ==> (gen[k] <==> gen0[k] || k in seg.sections[..n]))
    && (forall k :: 0 <= k < |before| && (gen0[k] || !gen[k]) ==> after[k] == before[k])
    && (forall k :: 0 <= k < |before| && gen[k] && !gen0[k] ==> Exempt(before[k]) || InPlace(after[k], seg.vaddr, start))
  }

  /** No section of the list has been laid out before, none occurs twice, and all take up file and memory space. */
  ghost predicate AllFresh(secs: seq<Section>, gen: seq<bool>, list: seq<nat>) {
    && NoDup(list)
    && forall j :: 0 <= j < |list| && list[j] < |secs| && list[j] < |gen| ==>
         !gen[list[j]] && secs[list[j]].typ != SHT_NULL && secs[list[j]].typ != SHT_NOBITS && secs[list[j]].alloc
  }

  lemma NothingPlaced(secs: seq<Section>, gen: seq<bool>, seg: Segment, start: u64)
    requires |secs| == |gen| && forall j :: 0 <= j < |seg.sections| ==> seg.sections[j] < |secs|
    ensures Placed(secs, secs, gen, gen, seg, start, 0)
  {
  }

  lemma NoSectionYet(seg: Segment, start: u64, p: Laying)
    requires Known(seg, p)
    ensures WithSections(seg, start, p, 0) == p
  {
  }

  lemma NullSection(seg: Segment, start: u64, p: Laying, index: nat)
    requires index < |p.secs| == |p.gen| && p.secs[index].typ == SHT_NULL
    ensures WithSection(seg, start, p, index) == p.(gen := p.gen[index := true])
  {
  }

  lemma PlacedHeader(before: seq<Section>, after: seq<Section>, gen0: seq<bool>, gen: seq<bool>, seg: Segment, start: u64, n: nat, k: nat)
    requires Placed(before, after, gen0, gen, seg, start, n) && k < |before|
    ensures k < |after| == |gen| && SameHeader(before[k], after[k])
  {
  }

  lemma PlacedNull(before: seq<Section>, after: seq<Section>, gen0: seq<bool>, gen: seq<bool>, seg: Segment, start: u64, n: nat)
    requires Placed(before, after, gen0, gen, seg, start, n) && n < |seg.sections| && seg.sections[n] < |after| && after[seg.sections[n]].typ == SHT_NULL
    ensures seg.sections[n] < |gen| && Placed(before, after, gen0, gen[seg.sections[n] := true], seg, start, n + 1)
  {
    assert seg.sections[..n + 1] == seg.sections[..n] + [seg.sections[n]];
    hide InPlace;
  }

  lemma PlacedNext(before: seq<Section>, mid: seq<Section>, after: seq<Section>, gen0: seq<bool>, gen: seq<bool>, seg: Segment, start: u64, n: nat)
    requires Placed(before, mid, gen0, gen, seg, start, n) && n < |seg.sections| && |mid| == |after|
    requires seg.sections[n] < |mid| && seg.sections[n] < |gen|
    requires var x := seg.sections[n];
             && (forall k :: 0 <= k < |mid| && k != x ==> after[k] == mid[k])
             && SameHeader(mid[x], after[x])
             && (gen[x] ==> after == mid)
             && (!gen[x] ==> Exempt(mid[x]) || InPlace(after[x], seg.vaddr, start))
    ensures Placed(before, after, gen0, gen[seg.sections[n] := true], seg, start, n + 1)
  {
    assert seg.sections[..n + 1] == seg.sections[..n] + [seg.sections[n]];
    hide InPlace, Exempt;
  }

  lemma PlacedSame(before: seq<Section>, after: seq<Section>, gen0: seq<bool>, gen: seq<bool>, seg: Segment, seg': Segment, start: u64, n: nat)
    requires Placed(before, after, gen0, gen, seg, start, n) && seg'.sections == seg.sections && seg'.vaddr == seg.vaddr
    ensures Placed(before, after, gen0, gen, seg', start, n)
  {
  }

  lemma FreshFacts(before: seq<Section>, after: seq<Section>, gen0: seq<bool>, gen: seq<bool>, seg: Segment, start: u64, n: nat)
    requires Placed(before, after, gen0, gen, seg, start, n) && n < |seg.sections| && AllFresh(before, gen0, seg.sections)
    ensures var x := seg.sections[n];
            x < |after| && !gen[x] && after[x].typ != SHT_NOBITS && after[x].alloc
  {
    var x := seg.sections[n];
    assert !gen0[x];
    assert x !in seg.sections[..n];
    assert SameHeader(before[x], after[x]);
  }

  lemma RoundUp(pos: u64, align: u64)
    requires align > 0
    ensures var gap := Sub(align, pos % align) % align; gap < align && (pos + gap) % align == 0
  {
    var q, r := pos / align, pos % align;
    assert pos == q * align + r;
    if r == 0 {
      DivModUnique(1, 0, align);
      DivModUnique(q, 0, align);
    } else {
      DivModUnique(0, align - r, align);
      assert pos + (align - r) == (q + 1) * align + 0;
      DivModUnique(q + 1, 0, align);
    }
  }
}
