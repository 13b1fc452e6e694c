/** Code-object sections written from the code they hold, and what the parser makes of them. */
module BundleSections {
  import opened Sequences
  import opened MachineWords
  import opened ElfNotes
  import opened OffloadBundles

  /** One entry's code, and how many bytes of padding precede it. */
  datatype Item = Item(gap: nat, code: CodeBlob)

  // ---------------------------------------------------------------- 64-bit words

  /** The `n` low bytes of `v`, least significant first. */
  function LowBytes(v: nat, n: nat): (r: seq<byte>)
    ensures |r| == n
  {
    if n == 0 then [] else [(v % 256) as byte] + LowBytes(v / 256, n - 1)
  }

  function Encode64(v: nat): (r: seq<byte>)
    ensures |r| == 8
  {
    LowBytes(v, 8)
  }

  ghost function ValueOf(s: seq<byte>): nat {
    if s == [] then 0 else s[0] as int + 256 * ValueOf(s[1..])
  }

  ghost function Pow256(n: nat): nat {
    if n == 0 then 1 else 256 * Pow256(n - 1)
  }

  lemma {:induction false} LowBytesValue(v: nat, n: nat)
    requires v < Pow256(n)
    ensures ValueOf(LowBytes(v, n)) == v
  {
    if n > 0 {
      LowBytesValue(v / 256, n - 1);
      assert LowBytes(v, n)[1..] == LowBytes(v / 256, n - 1);
    }
  }

  lemma ValueOf4(s: seq<byte>)
    requires |s| >= 4
    ensures ValueOf(s) == s[0] as int + 0x100 * (s[1] as int) + 0x1_0000 * (s[2] as int) + 0x100_0000 * (s[3] as int)
                          + 0x1_0000_0000 * ValueOf(s[4..])
  {
    var s1, s2, s3 := s[1..], s[2..], s[3..];
    assert s1[1..] == s2 && s2[1..] == s3 && s3[1..] == s[4..];
    assert ValueOf(s) == s[0] as int + 256 * ValueOf(s1);
    assert ValueOf(s1) == s1[0] as int + 256 * ValueOf(s2);
    assert ValueOf(s2) == s2[0] as int + 256 * ValueOf(s3);
    assert ValueOf(s3) == s3[0] as int + 256 * ValueOf(s[4..]);
  }

  /** `s` is what the section holds from `pos` on. */
  ghost predicate Holds(bytes: seq<byte>, pos: nat, s: seq<byte>) {
    pos + |s| <= |bytes| && bytes[pos..pos + |s|] == s
  }

  lemma HoldsBoth(bytes: seq<byte>, pos: nat, a: seq<byte>, b: seq<byte>)
    requires Holds(bytes, pos, a + b)
    ensures Holds(bytes, pos, a) && Holds(bytes, pos + |a|, b)
  {
    assert bytes[pos..pos + |a|] == bytes[pos..pos + |a + b|][..|a|] == a;
    assert bytes[pos + |a|..pos + |a| + |b|] == bytes[pos..pos + |a + b|][|a|..] == b;
  }

  lemma HoldsByte(bytes: seq<byte>, pos: nat, s: seq<byte>, k: nat)
    requires Holds(bytes, pos, s) && k < |s|
    ensures pos + k < |bytes| && bytes[pos + k] == s[k]
  {
    assert bytes[pos..pos + |s|][k] == bytes[pos + k];
  }

  lemma Pow8()
    ensures Pow256(8) == TWO64
  {
    assert Pow256(4) == 0x1_0000_0000;
    assert Pow256(8) == 256 * Pow256(7) == 65536 * Pow256(6) == 16777216 * Pow256(5);
  }

  lemma LoadIsValue(bytes: seq<byte>, pos: nat, s: seq<byte>)
    requires |s| == 8 && Holds(bytes, pos, s)
    ensures Load64(bytes, pos) == ValueOf(s)
  {
    ValueOf4(s);
    ValueOf4(s[4..]);
    assert s[4..][4..] == [];
    HoldsByte(bytes, pos, s, 0);
    HoldsByte(bytes, pos, s, 1);
    HoldsByte(bytes, pos, s, 2);
    HoldsByte(bytes, pos, s, 3);
    HoldsByte(bytes, pos, s, 4);
    HoldsByte(bytes, pos, s, 5);
    HoldsByte(bytes, pos, s, 6);
    HoldsByte(bytes, pos, s, 7);
    hide Holds;
  }

  /** A word written into the section reads back. */
  lemma LoadsBack(bytes: seq<byte>, pos: nat, v: nat)
    requires v < TWO64 && Holds(bytes, pos, Encode64(v))
    ensures pos + 8 <= |bytes| && Load64(bytes, pos) == v
  {
    hide Load64, LowBytes, ValueOf;
    Pow8();
    LowBytesValue(v, 8);
    LoadIsValue(bytes, pos, Encode64(v));
  }

  // ---------------------------------------------------------------- writing a bundle

  function Zeros(n: nat): (r: seq<byte>)
    ensures |r| == n
  {
    seq(n, _ => 0)
  }

  function Descriptor(offset: nat, code: CodeBlob): (r: seq<byte>)
    ensures |r| == 24 + |code.triple|
  {
    Encode64(offset) + Encode64(|code.bytes|) + Encode64(|code.triple|) + code.triple
  }

  /** The descriptors, for code that starts at `base`. */
  function Descriptors(items: seq<Item>, base: nat): seq<byte> {
    if items == [] then []
    else Descriptor(base + items[0].gap, items[0].code)
         + Descriptors(items[1..], base + items[0].gap + |items[0].code.bytes|)
  }

  function DescriptorsSize(items: seq<Item>): nat {
    if items == [] then 0 else 24 + |items[0].code.triple| + DescriptorsSize(items[1..])
  }

  function Codes(items: seq<Item>): seq<byte> {
    if items == [] then [] else Zeros(items[0].gap) + items[0].code.bytes + Codes(items[1..])
  }

  /** A header, the descriptors, and the padded code. */
  function EncodeBundle(items: seq<Item>): seq<byte> {
    MAGIC + Encode64(|items|) + Descriptors(items, 32 + DescriptorsSize(items)) + Codes(items)
  }

  /** Bundles from position `pos` on, each at the next multiple of the alignment. */
  function EncodeFrom(bundles: seq<seq<Item>>, pos: nat): seq<byte> {
    if bundles == [] then []
    else Zeros(AlignUp(pos) - pos) + EncodeBundle(bundles[0]) + EncodeFrom(bundles[1..], AlignUp(pos) + |EncodeBundle(bundles[0])|)
  }

  /** Every bundle has an entry, and its size fits into 64 bits. */
  ghost predicate Writable(bundles: seq<seq<Item>>) {
    forall b :: b in bundles ==> b != [] && |EncodeBundle(b)| < TWO64
  }

  // ---------------------------------------------------------------- what it should be parsed to

  ghost function CodeOf(items: seq<Item>): seq<CodeBlob> {
    if items == [] then []
    else (if items[0].code.bytes != [] then [items[0].code] else []) + CodeOf(items[1..])
  }

  /** The code of all bundles, entries without code left out. */
  ghost function AllCode(bundles: seq<seq<Item>>): seq<CodeBlob> {
    if bundles == [] then [] else CodeOf(bundles[0]) + AllCode(bundles[1..])
  }

  /** The entries that describe the items, for code that starts at `base`. */
  ghost function EntriesOf(items: seq<Item>, base: nat): (es: seq<Entry>)
    ensures |es| == |items|
  {
    if items == [] then []
    else [Entry(base + items[0].gap, |items[0].code.bytes|, items[0].code.triple)]
         + EntriesOf(items[1..], base + items[0].gap + |items[0].code.bytes|)
  }

  // ---------------------------------------------------------------- reading the descriptors

  lemma {:induction false} DescriptorsLength(items: seq<Item>, base: nat)
    ensures |Descriptors(items, base)| == DescriptorsSize(items)
  {
    if items != [] { DescriptorsLength(items[1..], base + items[0].gap + |items[0].code.bytes|); }
  }

  lemma DescriptorReads(bytes: seq<byte>, pos: nat, offset: nat, code: CodeBlob)
    requires Holds(bytes, pos, Descriptor(offset, code)) && offset < TWO64 && |code.bytes| < TWO64 && |code.triple| < TWO64
    ensures pos + 24 <= |bytes| && Load64(bytes, pos + 16) == |code.triple| && pos + 24 + |code.triple| <= |bytes|
    ensures EntryAt(bytes, pos) == Entry(offset, |code.bytes|, code.triple)
  {
    hide Load64, LowBytes, Encode64;
    var a, b, c := Encode64(offset), Encode64(|code.bytes|), Encode64(|code.triple|);
    HoldsBoth(bytes, pos, a + b + c, code.triple);
    HoldsBoth(bytes, pos, a + b, c);
    HoldsBoth(bytes, pos, a, b);
    LoadsBack(bytes, pos, offset);
    LoadsBack(bytes, pos + 8, |code.bytes|);
    LoadsBack(bytes, pos + 16, |code.triple|);
  }

  lemma {:induction false} DescriptorsRead(bytes: seq<byte>, pos: nat, items: seq<Item>, base: nat)
    requires Holds(bytes, pos, Descriptors(items, base)) && base + |Codes(items)| < TWO64 && DescriptorsSize(items) < TWO64
    ensures DescsFit(bytes, pos, |items|) && Entries(bytes, pos, |items|) == EntriesOf(items, base)
    decreases |items|
  {
    hide Load64, EntryAt, Holds, Descriptor;
    if items != [] {
      var item, rest := items[0], items[1..];
      var next := base + item.gap + |item.code.bytes|;
      HoldsBoth(bytes, pos, Descriptor(base + item.gap, item.code), Descriptors(rest, next));
      DescriptorReads(bytes, pos, base + item.gap, item.code);
      DescriptorsRead(bytes, pos + 24 + |item.code.triple|, rest, next);
    }
  }

  // ---------------------------------------------------------------- where the bundle ends

  lemma {:induction false} EntriesClimb(items: seq<Item>, base: nat)
    ensures forall i :: 0 <= i < |items| ==> base <= EntriesOf(items, base)[i].offset
    ensures forall i, j :: 0 <= i < j < |items| ==> EntriesOf(items, base)[i].offset <= EntriesOf(items, base)[j].offset
    ensures items != [] ==> var e := EntriesOf(items, base)[|items| - 1]; e.offset + e.size == base + |Codes(items)|
  {
    if items != [] {
      EntriesClimb(items[1..], base + items[0].gap + |items[0].code.bytes|);
    }
  }

  lemma {:induction false} LastOfBelow(es: seq<Entry>, b: nat)
    requires forall i :: 0 <= i < |es| ==> es[i].offset <= b
    ensures LastOf(es).0 <= b
  {
    if es != [] { LastOfBelow(es[..|es| - 1], b); }
  }

  /** The parser finds the end of a bundle written like this. */
  lemma EndOfEntries(items: seq<Item>, base: nat)
    requires items != []
    ensures ParsedEnd(EntriesOf(items, base)) == base + |Codes(items)|
  {
    var es := EntriesOf(items, base);
    EntriesClimb(items, base);
    LastOfBelow(es[..|es| - 1], es[|es| - 1].offset);
    hide Codes, EntriesOf;
  }

  // ---------------------------------------------------------------- the code

  lemma NothingFound(bytes: seq<byte>, head: nat)
    ensures Blobs(bytes, head, []) == []
  {
  }

  lemma {:induction false} BlobsFront(bytes: seq<byte>, head: nat, e: Entry, es: seq<Entry>)
    ensures Blobs(bytes, head, [e] + es) == (if e.size > 0 then [BlobOf(bytes, head, e)] else []) + Blobs(bytes, head, es)
  {
    hide *;
    if es == [] {
      assert [e] + es == [] + [e];
      NothingFound(bytes, head);
      BlobsPush(bytes, head, [], e);
    } else {
      var rest, x := es[..|es| - 1], es[|es| - 1];
      assert es == rest + [x] && [e] + es == [e] + rest + [x];
      BlobsFront(bytes, head, e, rest);
      BlobsPush(bytes, head, rest, x);
      BlobsPush(bytes, head, [e] + rest, x);
    }
  }

  lemma ItemReads(bytes: seq<byte>, head: nat, item: Item, base: nat)
    requires Holds(bytes, head + base, Zeros(item.gap) + item.code.bytes)
    ensures var e := Entry(base + item.gap, |item.code.bytes|, item.code.triple);
            head + e.offset + e.size <= |bytes| && BlobOf(bytes, head, e) == item.code
  {
    HoldsBoth(bytes, head + base, Zeros(item.gap), item.code.bytes);
  }

  /** Every entry points to its item's code. */
  ghost predicate AllInside(bytes: seq<byte>, head: nat, es: seq<Entry>) {
    forall i :: 0 <= i < |es| ==> head + es[i].offset + es[i].size <= |bytes|
  }

  lemma InsideFront(bytes: seq<byte>, head: nat, e: Entry, es: seq<Entry>)
    requires head + e.offset + e.size <= |bytes| && AllInside(bytes, head, es)
    ensures AllInside(bytes, head, [e] + es)
  {
  }

  lemma NoItems(bytes: seq<byte>, head: nat, base: nat)
    ensures Blobs(bytes, head, EntriesOf([], base)) == CodeOf([]) && AllInside(bytes, head, EntriesOf([], base))
  {
  }

  lemma FirstItem(items: seq<Item>, base: nat)
    requires items != []
    ensures var next := base + items[0].gap + |items[0].code.bytes|;
            && Codes(items) == Zeros(items[0].gap) + items[0].code.bytes + Codes(items[1..])
            && CodeOf(items) == (if |items[0].code.bytes| > 0 then [items[0].code] else []) + CodeOf(items[1..])
            && EntriesOf(items, base) == [Entry(base + items[0].gap, |items[0].code.bytes|, items[0].code.triple)] + EntriesOf(items[1..], next)
            && |Zeros(items[0].gap) + items[0].code.bytes| == items[0].gap + |items[0].code.bytes|
  {
  }

  lemma {:induction false} CodesRead(bytes: seq<byte>, head: nat, items: seq<Item>, base: nat)
    requires Holds(bytes, head + base, Codes(items))
    ensures Blobs(bytes, head, EntriesOf(items, base)) == CodeOf(items) && AllInside(bytes, head, EntriesOf(items, base))
    decreases |items|
  {
    hide *;
    if items == [] {
      NoItems(bytes, head, base);
    } else {
      var item, rest := items[0], items[1..];
      var e, next := Entry(base + item.gap, |item.code.bytes|, item.code.triple), base + item.gap + |item.code.bytes|;
      FirstItem(items, base);
      HoldsBoth(bytes, head + base, Zeros(item.gap) + item.code.bytes, Codes(rest));
      ItemReads(bytes, head, item, base);
      CodesRead(bytes, head, rest, next);
      BlobsFront(bytes, head, e, EntriesOf(rest, next));
      InsideFront(bytes, head, e, EntriesOf(rest, next));
    }
  }

  // ---------------------------------------------------------------- a bundle

  lemma BundleSize(items: seq<Item>)
    ensures |EncodeBundle(items)| == 32 + DescriptorsSize(items) + |Codes(items)|
  {
    DescriptorsLength(items, 32 + DescriptorsSize(items));
    hide Encode64, Descriptors, Codes, DescriptorsSize;
  }

  lemma {:induction false} FewItems(items: seq<Item>)
    ensures |items| <= DescriptorsSize(items)
  {
    if items != [] { FewItems(items[1..]); }
  }

  /** A bundle reads back, entry by entry and byte by byte, up to its end. */
  lemma BundleReads(bytes: seq<byte>, head: nat, items: seq<Item>)
    requires Holds(bytes, head, EncodeBundle(items)) && items != [] && |EncodeBundle(items)| < TWO64
    ensures BundleAt(bytes, head) && NextPos(bytes, head) == head + |EncodeBundle(items)|
    ensures Blobs(bytes, head, BundleEntries(bytes, head)) == CodeOf(items)
  {
    hide *;
    var base := 32 + DescriptorsSize(items);
    BundleSize(items);
    FewItems(items);
    BundleParts(bytes, head, items);
    DescriptorsRead(bytes, head + 32, items, base);
    CodesRead(bytes, head, items, base);
    EndOfEntries(items, base);
    BundleIs(bytes, head, items, base);
  }

  lemma BundleLayout(items: seq<Item>)
    ensures EncodeBundle(items) == MAGIC + Encode64(|items|) + Descriptors(items, 32 + DescriptorsSize(items)) + Codes(items)
    ensures |MAGIC| == MAGIC_STR_SZ == 24
  {
    hide Encode64, Descriptors, Codes, DescriptorsSize;
  }

  lemma BundleParts(bytes: seq<byte>, head: nat, items: seq<Item>)
    requires Holds(bytes, head, EncodeBundle(items)) && |items| < TWO64
    ensures var base := 32 + DescriptorsSize(items);
            && head + 32 <= |bytes| && Holds(bytes, head, MAGIC) && Load64(bytes, head + 24) == |items|
            && Holds(bytes, head + 32, Descriptors(items, base)) && Holds(bytes, head + base, Codes(items))
  {
    hide *;
    var base := 32 + DescriptorsSize(items);
    var n, ds, cs := Encode64(|items|), Descriptors(items, base), Codes(items);
    DescriptorsLength(items, base);
    BundleLayout(items);
    HoldsBoth(bytes, head, MAGIC + n + ds, cs);
    HoldsBoth(bytes, head, MAGIC + n, ds);
    HoldsBoth(bytes, head, MAGIC, n);
    LoadsBack(bytes, head + 24, |items|);
  }

  lemma BundleIs(bytes: seq<byte>, head: nat, items: seq<Item>, base: nat)
    requires head + 32 <= |bytes| && Holds(bytes, head, MAGIC) && Load64(bytes, head + 24) == |items|
    requires DescsFit(bytes, head + 32, |items|) && Entries(bytes, head + 32, |items|) == EntriesOf(items, base)
    requires AllInside(bytes, head, EntriesOf(items, base))
    ensures BundleAt(bytes, head) && BundleEntries(bytes, head) == EntriesOf(items, base)
    ensures NextPos(bytes, head) == head + ParsedEnd(EntriesOf(items, base))
  {
    hide DescsFit, Entries, Load64, EntriesOf, ParsedEnd;
  }

  // ---------------------------------------------------------------- a section

  lemma {:induction false} AllBlobsFront(bytes: seq<byte>, head: nat, heads: seq<nat>)
    ensures AllBlobs(bytes, [head] + heads) == Blobs(bytes, head, BundleEntries(bytes, head)) + AllBlobs(bytes, heads)
  {
    hide Blobs, BundleEntries;
    if heads == [] {
      assert ([head] + heads)[..0] == [];
    } else {
      var last := |heads| - 1;
      AllBlobsFront(bytes, head, heads[..last]);
      assert ([head] + heads)[..|heads|] == [head] + heads[..last];
      Assoc(Blobs(bytes, head, BundleEntries(bytes, head)), AllBlobs(bytes, heads[..last]), Blobs(bytes, heads[last], BundleEntries(bytes, heads[last])));
    }
  }

  /** What the parser finds from `pos` on is the code of the bundles written there. */
  lemma {:induction false} BundlesRead(bytes: seq<byte>, pos: nat, bundles: seq<seq<Item>>)
    requires Holds(bytes, pos, EncodeFrom(bundles, pos)) && pos + |EncodeFrom(bundles, pos)| == |bytes| && Writable(bundles)
    ensures WellFormed(bytes, pos) && AllBlobs(bytes, Heads(bytes, pos)) == AllCode(bundles)
    decreases |bundles|
  {
    hide *;
    if bundles == [] {
      NoBundles(bytes, pos);
    } else {
      var items, rest, head := bundles[0], bundles[1..], AlignUp(pos);
      var next := head + |EncodeBundle(items)|;
      BundlesParts(bytes, pos, bundles);
      BundleReads(bytes, head, items);
      BundlesRead(bytes, next, rest);
      WellFormedFold(bytes, pos, next);
      AllBlobsFront(bytes, head, Heads(bytes, next));
      CodeOfFirst(bundles);
    }
  }

  lemma NoBundles(bytes: seq<byte>, pos: nat)
    requires pos + |EncodeFrom([], pos)| == |bytes|
    ensures WellFormed(bytes, pos) && AllBlobs(bytes, Heads(bytes, pos)) == AllCode([])
  {
    NothingLeft(bytes, pos);
  }

  lemma FirstBundle(bundles: seq<seq<Item>>, pos: nat)
    requires bundles != [] && Writable(bundles)
    ensures bundles[0] != [] && |EncodeBundle(bundles[0])| < TWO64 && Writable(bundles[1..]) && pos <= AlignUp(pos)
    ensures EncodeFrom(bundles, pos)
         == Zeros(AlignUp(pos) - pos) + EncodeBundle(bundles[0]) + EncodeFrom(bundles[1..], AlignUp(pos) + |EncodeBundle(bundles[0])|)
  {
    assert bundles[0] in bundles && forall b :: b in bundles[1..] ==> b in bundles;
    hide EncodeBundle;
  }

  lemma BundlesParts(bytes: seq<byte>, pos: nat, bundles: seq<seq<Item>>)
    requires Holds(bytes, pos, EncodeFrom(bundles, pos)) && pos + |EncodeFrom(bundles, pos)| == |bytes|
    requires bundles != [] && Writable(bundles)
    ensures bundles[0] != [] && 0 < |EncodeBundle(bundles[0])| < TWO64 && Writable(bundles[1..]) && pos <= AlignUp(pos) && pos < |bytes|
    ensures var head := AlignUp(pos);
            var next := head + |EncodeBundle(bundles[0])|;
            && Holds(bytes, head, EncodeBundle(bundles[0]))
            && Holds(bytes, next, EncodeFrom(bundles[1..], next)) && next + |EncodeFrom(bundles[1..], next)| == |bytes|
  {
    hide *;
    FirstBundle(bundles, pos);
    var items, rest, head := bundles[0], bundles[1..], AlignUp(pos);
    var next := head + |EncodeBundle(items)|;
    BundleSize(items);
    HoldsBoth(bytes, pos, Zeros(head - pos) + EncodeBundle(items), EncodeFrom(rest, next));
    HoldsBoth(bytes, pos, Zeros(head - pos), EncodeBundle(items));
  }

  lemma CodeOfFirst(bundles: seq<seq<Item>>)
    requires bundles != []
    ensures AllCode(bundles) == CodeOf(bundles[0]) + AllCode(bundles[1..])
  {
    hide CodeOf;
  }

  /** A section written from bundles of code parses back to exactly that code, in order. */
  method WriteAndParse(bundles: seq<seq<Item>>) returns (found: bool, blobs: seq<CodeBlob>)
    requires Writable(bundles)
    ensures (found <==> bundles != []) && blobs == AllCode(bundles)
  {
    var bytes := EncodeFrom(bundles, 0);
    assert Holds(bytes, 0, bytes) && (bundles == [] ==> bytes == []);
    hide *;
    BundlesRead(bytes, 0, bundles);
    if bundles != [] { BundlesParts(bytes, 0, bundles); }
    var parser := new KernelSectionParser();
    ghost var heads;
    found, heads := parser.ParseOneSection(bytes);
    blobs := parser.codeBlobs;
  }

  // ---------------------------------------------------------------- the format, byte by byte

  /** What the eight bytes from `pos` on say. */
  ghost function WordAt(bytes: seq<byte>, pos: nat): nat
    requires pos + 8 <= |bytes|
  {
    ValueOf(bytes[pos..pos + 8])
  }

  /** Where the descriptor of item `k` is, and where its code is, both counted from the header. */
  ghost function DescriptorPos(items: seq<Item>, k: nat): nat
    requires k <= |items|
  {
    if k == 0 then 32 else DescriptorPos(items, k - 1) + 24 + |items[k - 1].code.triple|
  }

  ghost function CodePos(items: seq<Item>, k: nat): nat
    requires k < |items|
  {
    items[k].gap + if k == 0 then DescriptorPos(items, |items|) else CodePos(items, k - 1) + |items[k - 1].code.bytes|
  }

  /** Item `k` stands in the section as its descriptor says: distance of its code from the header, length of the code, length of the
      target's name, the name; and the code at that distance. */
  ghost predicate ItemStands(bytes: seq<byte>, head: nat, item: Item, desc: nat, code: nat) {
    && desc + 24 + |item.code.triple| <= |bytes| && head + code + |item.code.bytes| <= |bytes|
    && WordAt(bytes, desc) == code
    && WordAt(bytes, desc + 8) == |item.code.bytes|
    && WordAt(bytes, desc + 16) == |item.code.triple|
    && bytes[desc + 24..desc + 24 + |item.code.triple|] == item.code.triple
    && bytes[head + code..head + code + |item.code.bytes|] == item.code.bytes
  }

  lemma WordStands(bytes: seq<byte>, pos: nat, v: nat)
    requires v < TWO64 && Holds(bytes, pos, Encode64(v))
    ensures pos + 8 <= |bytes| && WordAt(bytes, pos) == v
  {
    hide LowBytes, ValueOf;
    Pow8();
    LowBytesValue(v, 8);
  }

  lemma DescriptorStands(bytes: seq<byte>, pos: nat, offset: nat, code: CodeBlob)
    requires Holds(bytes, pos, Descriptor(offset, code)) && offset < TWO64 && |code.bytes| < TWO64 && |code.triple| < TWO64
    ensures pos + 24 + |code.triple| <= |bytes| && bytes[pos + 24..pos + 24 + |code.triple|] == code.triple
    ensures WordAt(bytes, pos) == offset && WordAt(bytes, pos + 8) == |code.bytes| && WordAt(bytes, pos + 16) == |code.triple|
  {
    hide WordAt, LowBytes, Encode64;
    var a, b, c := Encode64(offset), Encode64(|code.bytes|), Encode64(|code.triple|);
    HoldsBoth(bytes, pos, a + b + c, code.triple);
    HoldsBoth(bytes, pos, a + b, c);
    HoldsBoth(bytes, pos, a, b);
    WordStands(bytes, pos, offset);
    WordStands(bytes, pos + 8, |code.bytes|);
    WordStands(bytes, pos + 16, |code.triple|);
  }

  lemma {:induction false} DescriptorPosAll(items: seq<Item>, k: nat)
    requires k <= |items|
    ensures DescriptorPos(items, k) + DescriptorsSize(items[k..]) == 32 + DescriptorsSize(items)
  {
    if k == 0 {
      assert items[0..] == items;
    } else {
      DescriptorPosAll(items, k - 1);
      assert items[k - 1..][1..] == items[k..];
    }
  }

  /** Item `k` and those behind it, from where the descriptors and the padded code of item `k` begin. */
  lemma ItemsStand(bytes: seq<byte>, head: nat, items: seq<Item>, k: nat, desc: nat, base: nat)
    requires k < |items| && Holds(bytes, desc, Descriptors(items[k..], base)) && Holds(bytes, head + base, Codes(items[k..]))
    requires base + |Codes(items[k..])| < TWO64 && DescriptorsSize(items[k..]) < TWO64
    ensures ItemStands(bytes, head, items[k], desc, base + items[k].gap)
    ensures var next := base + items[k].gap + |items[k].code.bytes|;
            && Holds(bytes, desc + 24 + |items[k].code.triple|, Descriptors(items[k + 1..], next))
            && Holds(bytes, head + next, Codes(items[k + 1..])) && next + |Codes(items[k + 1..])| < TWO64
            && DescriptorsSize(items[k + 1..]) < TWO64
  {
    hide *;
    var item, rest := items[k], items[k + 1..];
    assert items[k..][0] == item && items[k..][1..] == rest;
    var next := base + item.gap + |item.code.bytes|;
    FirstItem(items[k..], base);
    FirstDescriptor(items[k..], base);
    HoldsBoth(bytes, desc, Descriptor(base + item.gap, item.code), Descriptors(rest, next));
    HoldsBoth(bytes, head + base, Zeros(item.gap) + item.code.bytes, Codes(rest));
    HoldsBoth(bytes, head + base, Zeros(item.gap), item.code.bytes);
    DescriptorStands(bytes, desc, base + item.gap, item.code);
    IsItem(bytes, head, item, desc, base + item.gap);
  }

  lemma FirstDescriptor(items: seq<Item>, base: nat)
    requires items != []
    ensures Descriptors(items, base) == Descriptor(base + items[0].gap, items[0].code)
                                        + Descriptors(items[1..], base + items[0].gap + |items[0].code.bytes|)
    ensures DescriptorsSize(items) == 24 + |items[0].code.triple| + DescriptorsSize(items[1..])
  {
    hide Descriptor;
  }

  lemma IsItem(bytes: seq<byte>, head: nat, item: Item, desc: nat, code: nat)
    requires desc + 24 + |item.code.triple| <= |bytes| && WordAt(bytes, desc) == code && WordAt(bytes, desc + 8) == |item.code.bytes|
    requires WordAt(bytes, desc + 16) == |item.code.triple| && bytes[desc + 24..desc + 24 + |item.code.triple|] == item.code.triple
    requires Holds(bytes, head + code, item.code.bytes)
    ensures ItemStands(bytes, head, item, desc, code)
  {
    hide WordAt;
  }

  /** Where item `k` and what follows it begin. */
  ghost predicate FromItem(bytes: seq<byte>, head: nat, items: seq<Item>, k: nat, base: nat) {
    && k <= |items| && Holds(bytes, head + DescriptorPos(items, k), Descriptors(items[k..], base)) && Holds(bytes, head + base, Codes(items[k..]))
    && base + |Codes(items[k..])| < TWO64 && DescriptorsSize(items[k..]) < TWO64
    && base == if k == 0 then DescriptorPos(items, |items|) else CodePos(items, k - 1) + |items[k - 1].code.bytes|
  }

  lemma FromItemNext(bytes: seq<byte>, head: nat, items: seq<Item>, k: nat, base: nat)
    requires k < |items| && FromItem(bytes, head, items, k, base)
    ensures ItemStands(bytes, head, items[k], head + DescriptorPos(items, k), CodePos(items, k))
    ensures FromItem(bytes, head, items, k + 1, base + items[k].gap + |items[k].code.bytes|)
  {
    hide Holds, Descriptors, Codes, DescriptorsSize, ItemStands, DescriptorPos, CodePos;
    ItemsStand(bytes, head, items, k, head + DescriptorPos(items, k), base);
    PosNext(items, k);
  }

  lemma PosNext(items: seq<Item>, k: nat)
    requires k < |items|
    ensures DescriptorPos(items, k + 1) == DescriptorPos(items, k) + 24 + |items[k].code.triple|
    ensures CodePos(items, k) == items[k].gap + if k == 0 then DescriptorPos(items, |items|) else CodePos(items, k - 1) + |items[k - 1].code.bytes|
  {
  }

  lemma {:induction false} AllStand(bytes: seq<byte>, head: nat, items: seq<Item>, k: nat) returns (base: nat)
    requires k <= |items| && FromItem(bytes, head, items, 0, DescriptorPos(items, |items|))
    ensures FromItem(bytes, head, items, k, base)
    ensures forall i :: 0 <= i < k ==> ItemStands(bytes, head, items[i], head + DescriptorPos(items, i), CodePos(items, i))
  {
    hide FromItem, ItemStands, DescriptorPos, CodePos;
    if k == 0 {
      base := DescriptorPos(items, |items|);
    } else {
      base := AllStand(bytes, head, items, k - 1);
      FromItemNext(bytes, head, items, k - 1, base);
      base := base + items[k - 1].gap + |items[k - 1].code.bytes|;
    }
  }

  /** A written bundle by positions: the magic string, the number of items at 24, and each item as its descriptor says. */
  lemma BundleFormat(bytes: seq<byte>, head: nat, items: seq<Item>)
    requires Holds(bytes, head, EncodeBundle(items)) && |EncodeBundle(items)| < TWO64
    ensures head + 32 <= |bytes| && bytes[head..head + 24] == MAGIC && WordAt(bytes, head + 24) == |items|
    ensures forall k :: 0 <= k < |items| ==>
              ItemStands(bytes, head, items[k], head + DescriptorPos(items, k), CodePos(items, k))
  {
    hide *;
    BundleSize(items);
    FewItems(items);
    BundleParts(bytes, head, items);
    BundleStart(bytes, head, items);
    DescriptorPosAll(items, |items|);
    AllDescribed(bytes, head, items);
    var base := AllStand(bytes, head, items, |items|);
  }

  lemma BundleStart(bytes: seq<byte>, head: nat, items: seq<Item>)
    requires Holds(bytes, head, EncodeBundle(items)) && |items| < TWO64
    ensures head + 32 <= |bytes| && bytes[head..head + 24] == MAGIC && WordAt(bytes, head + 24) == |items|
  {
    var base := 32 + DescriptorsSize(items);
    var n, ds, cs := Encode64(|items|), Descriptors(items, base), Codes(items);
    BundleLayout(items);
    hide Encode64, Descriptors, Codes, DescriptorsSize, EncodeBundle, WordAt;
    HoldsBoth(bytes, head, MAGIC + n + ds, cs);
    HoldsBoth(bytes, head, MAGIC + n, ds);
    HoldsBoth(bytes, head, MAGIC, n);
    WordStands(bytes, head + 24, |items|);
  }

  lemma AllDescribed(bytes: seq<byte>, head: nat, items: seq<Item>)
    requires head + 32 <= |bytes| && Holds(bytes, head + 32, Descriptors(items, 32 + DescriptorsSize(items)))
    requires Holds(bytes, head + 32 + DescriptorsSize(items), Codes(items))
    requires 32 + DescriptorsSize(items) + |Codes(items)| < TWO64
    ensures FromItem(bytes, head, items, 0, DescriptorPos(items, |items|))
  {
    hide Holds, Descriptors, Codes, DescriptorsSize, DescriptorPos;
    DescriptorPosAll(items, |items|);
    PosStart(items);
    assert items[0..] == items && items[|items|..] == [];
  }

  lemma PosStart(items: seq<Item>)
    ensures DescriptorPos(items, 0) == 32 && DescriptorsSize([]) == 0
  {
  }

  /** The parser reads every descriptor like this: its three words, and the name behind them. */
  lemma EntryFormat(bytes: seq<byte>, pos: nat)
    requires pos + 24 <= |bytes| && pos + 24 + WordAt(bytes, pos + 16) <= |bytes|
    ensures Load64(bytes, pos + 16) == WordAt(bytes, pos + 16)
    ensures EntryAt(bytes, pos) ==
            Entry(WordAt(bytes, pos), WordAt(bytes, pos + 8), bytes[pos + 24..pos + 24 + WordAt(bytes, pos + 16)])
  {
    hide Load64, ValueOf;
    LoadIsValue(bytes, pos, bytes[pos..pos + 8]);
    LoadIsValue(bytes, pos + 8, bytes[pos + 8..pos + 16]);
    LoadIsValue(bytes, pos + 16, bytes[pos + 16..pos + 24]);
  }

  /** `__CLANG_OFFLOAD_BUNDLE__`, one bundle of one entry for `gfx9`: code at 64, of length 256 + 44. */
  method ParseBytes(code: seq<byte>) returns (blobs: seq<CodeBlob>)
    requires |code| == 300
    ensures blobs == [CodeBlob([103, 102, 120, 57], code)]
  {
    var bytes := [95, 95, 67, 76, 65, 78, 71, 95, 79, 70, 70, 76, 79, 65, 68, 95, 66, 85, 78, 68, 76, 69, 95, 95]
      + [1, 0, 0, 0, 0, 0, 0, 0] + [64, 0, 0, 0, 0, 0, 0, 0] + [44, 1, 0, 0, 0, 0, 0, 0] + [4, 0, 0, 0, 0, 0, 0, 0]
      + [103, 102, 120, 57] + [0, 0, 0, 0] + code;
    OneBundle(bytes, code);
    hide *;
    ghost var bundles := [[Item(4, CodeBlob([103, 102, 120, 57], code))]];
    BundlesRead(bytes, 0, bundles);
    var parser := new KernelSectionParser();
    var found;
    ghost var heads;
    found, heads := parser.ParseOneSection(bytes);
    blobs := parser.codeBlobs;
  }

  lemma SmallWord(v: nat)
    requires v < 65536
    ensures Encode64(v) == [(v % 256) as byte, (v / 256) as byte, 0, 0, 0, 0, 0, 0]
  {
    assert LowBytes(0, 6) == [0, 0, 0, 0, 0, 0] by {
      assert LowBytes(0, 3) == [0, 0, 0];
      assert LowBytes(0, 6) == [0] + ([0] + ([0] + LowBytes(0, 3)));
    }
    assert LowBytes(v, 8) == [(v % 256) as byte] + LowBytes(v / 256, 7);
    assert LowBytes(v / 256, 7) == [(v / 256 % 256) as byte] + LowBytes(v / 256 / 256, 6);
  }

  lemma OneBundle(bytes: seq<byte>, code: seq<byte>)
    requires |code| == 300
    requires bytes == [95, 95, 67, 76, 65, 78, 71, 95, 79, 70, 70, 76, 79, 65, 68, 95, 66, 85, 78, 68, 76, 69, 95, 95]
      + [1, 0, 0, 0, 0, 0, 0, 0] + [64, 0, 0, 0, 0, 0, 0, 0] + [44, 1, 0, 0, 0, 0, 0, 0] + [4, 0, 0, 0, 0, 0, 0, 0]
      + [103, 102, 120, 57] + [0, 0, 0, 0] + code
    ensures var bundles := [[Item(4, CodeBlob([103, 102, 120, 57], code))]];
            && Holds(bytes, 0, EncodeFrom(bundles, 0)) && |EncodeFrom(bundles, 0)| == |bytes| && Writable(bundles)
            && AllCode(bundles) == [CodeBlob([103, 102, 120, 57], code)]
  {
    hide *;
    var blob := CodeBlob([103, 102, 120, 57], code);
    var item := Item(4, blob);
    SmallWord(1);
    SmallWord(4);
    SmallWord(64);
    SmallWord(300);
    OneItem(item);
    IsDescriptor(64, blob);
    BundleLayout([item]);
    FourZeros();
    OneWritten([item]);
    TheMagic();
    Flat(MAGIC, Encode64(1), Encode64(64), Encode64(300), Encode64(4), blob.triple, Zeros(4), code);
    WholeHeld(bytes);
    FitsWord(|bytes|);
  }

  lemma Flat<T>(m: seq<T>, n: seq<T>, a: seq<T>, b: seq<T>, c: seq<T>, t: seq<T>, z: seq<T>, code: seq<T>)
    ensures m + n + (a + b + c + t) + (z + code) == m + n + a + b + c + t + z + code
  {
  }

  lemma FitsWord(n: nat)
    requires n < 65536
    ensures n < TWO64
  {
  }

  lemma TheMagic()
    ensures MAGIC == [95, 95, 67, 76, 65, 78, 71, 95, 79, 70, 70, 76, 79, 65, 68, 95, 66, 85, 78, 68, 76, 69, 95, 95]
  {
  }

  lemma FourZeros()
    ensures Zeros(4) == [0, 0, 0, 0]
  {
  }

  lemma WholeHeld(bytes: seq<byte>)
    ensures Holds(bytes, 0, bytes)
  {
  }

  lemma IsDescriptor(offset: nat, code: CodeBlob)
    ensures Descriptor(offset, code) == Encode64(offset) + Encode64(|code.bytes|) + Encode64(|code.triple|) + code.triple
  {
  }

  lemma OneItem(item: Item)
    ensures Codes([item]) == Zeros(item.gap) + item.code.bytes && DescriptorsSize([item]) == 24 + |item.code.triple|
    ensures Descriptors([item], 56 + |item.code.triple|) == Descriptor(56 + |item.code.triple| + item.gap, item.code)
    ensures CodeOf([item]) == if item.code.bytes != [] then [item.code] else []
  {
    assert [item][1..] == [];
    hide Zeros, Descriptor;
  }

  lemma OneWritten(items: seq<Item>)
    ensures EncodeFrom([items], 0) == EncodeBundle(items) && AllCode([items]) == CodeOf(items)
    ensures items != [] && |EncodeBundle(items)| < TWO64 ==> Writable([items])
  {
    var bundles := [items];
    assert bundles[1..] == [] && AlignUp(0) == 0 && Zeros(0) == [];
    hide EncodeBundle, CodeOf;
  }
}
