/** ELF note sections (`note_section_accessor`) over a section's growing buffer (`append_data`). */
module ElfNotes {
  import opened MachineWords

  newtype byte = x: int | 0 <= x < 256

  const TWO32 := 0x1_0000_0000
  const SHT_NOBITS := 8

  type u32 = x: int | 0 <= x < TWO32

  // ---------------------------------------------------------------- words in a file

  /** The four bytes of a word as the file holds them; `swap` if its byte order is not the machine's. */
  function EncodeWord(v: u32, swap: bool): (r: seq<byte>)
    ensures |r| == 4
  {
    var b0, b1 := (v % 256) as byte, (v / 256 % 256) as byte;
    var b2, b3 := (v / 0x1_0000 % 256) as byte, (v / 0x100_0000) as byte;
    if swap then [b3, b2, b1, b0] else [b0, b1, b2, b3]
  }

  function WordValue(b0: int, b1: int, b2: int, b3: int): int {
    b0 + 0x100 * b1 + 0x1_0000 * b2 + 0x100_0000 * b3
  }

  function DecodeWord(s: seq<byte>, swap: bool): u32
    requires |s| == 4
  {
    if swap then WordValue(s[3] as int, s[2] as int, s[1] as int, s[0] as int)
    else WordValue(s[0] as int, s[1] as int, s[2] as int, s[3] as int)
  }

  lemma WordBytes(v: u32)
    ensures WordValue(v % 256, v / 256 % 256, v / 0x1_0000 % 256, v / 0x100_0000) == v
  {
    var a := v / 256;
    var b := a / 256;
    assert v / 0x1_0000 == b && v / 0x100_0000 == b / 256;
  }

  lemma WordRoundTrip(v: u32, swap: bool)
    ensures DecodeWord(EncodeWord(v, swap), swap) == v
  {
    WordBytes(v);
    hide WordValue;
  }

  ghost function Power256(k: nat): (p: nat)
    ensures p > 0
  {
    if k == 0 then 1 else 256 * Power256(k - 1)
  }

  /** The bytes of a word, the least significant first unless they are swapped. */
  lemma WordDigits(v: u32, k: nat)
    requires k < 4
    ensures EncodeWord(v, false)[k] as int == v / Power256(k) % 256
    ensures EncodeWord(v, true)[3 - k] == EncodeWord(v, false)[k]
  {
    assert Power256(1) == 256 && Power256(2) == 0x1_0000 && Power256(3) == 0x100_0000;
  }

  // ---------------------------------------------------------------- the section's buffer

  /** The length of a buffer of `dataSize` bytes, `size` of them in use, after `n` more bytes have been appended. */
  ghost function Grown(size: nat, dataSize: nat, n: nat): nat {
    if size + n < dataSize then dataSize else 2 * (dataSize + n)
  }

  class Section {
    const typ: nat
    var data: array?<byte>
    var size: nat       // how much of the buffer is in use
    var dataSize: nat   // how long the buffer is

    ghost predicate Valid()
      reads this
    {
      && size <= dataSize < TWO32
      && (data == null ==> dataSize == 0)
      && (data != null ==> data.Length == dataSize)
    }

    ghost function Contents(): seq<byte>
      reads this, data
      requires Valid()
    {
      if data == null then [] else data[..size]
    }

    constructor (typ: nat)
      ensures Valid() && this.typ == typ && data == null && Contents() == []
    {
      this.typ := typ;
      data, size, dataSize := null, 0, 0;
    }

    /** The buffer's length is a 32-bit word: a regrowth must not double it past that. */
    ghost predicate CanAppend(n: nat)
      reads this
    {
      Grown(size, dataSize, n) < TWO32
    }

    method AppendData(raw: seq<byte>)
      requires Valid() && CanAppend(|raw|)
      modifies this, data
      ensures Valid() && Contents() == if typ == SHT_NOBITS then old(Contents()) else old(Contents()) + raw
      ensures typ != SHT_NOBITS ==> size == old(size) + |raw| && dataSize == Grown(old(size), old(dataSize), |raw|)
      ensures data != old(data) ==> fresh(data)
    {
      if typ != SHT_NOBITS {
        if size + |raw| < dataSize {
          forall i | 0 <= i < |raw| { data[size + i] := raw[i]; }
        } else {
          dataSize := 2 * (dataSize + |raw|);
          var newData := new byte[dataSize];
          if data != null {
            forall i | 0 <= i < size { newData[i] := data[i]; }
          }
          forall i | 0 <= i < |raw| { newData[size + i] := raw[i]; }
          data := newData;
        }
        size := size + |raw|;
      }
    }
  }

  // ---------------------------------------------------------------- notes

  datatype Note = Note(typ: u32, name: seq<byte>, desc: seq<byte>)

  /** Zeros up to the next multiple of the word size. */
  function Padding(n: nat): (r: seq<byte>)
    ensures |r| < 4 && (n + |r|) % 4 == 0
    ensures forall i :: 0 <= i < |r| ==> r[i] == 0
  {
    if n % 4 == 0 then [] else seq(4 - n % 4, _ => 0)
  }

  /** A size rounded up to whole words, in 32-bit arithmetic. */
  function RoundedSize(n: u32): nat {
    (n + 3) % TWO32 / 4 * 4
  }

  function Header(typ: u32, nameSize: u32, descSize: u32, swap: bool): (r: seq<byte>)
    ensures |r| == 12
  {
    EncodeWord(nameSize, swap) + EncodeWord(descSize, swap) + EncodeWord(typ, swap)
  }

  function NameField(name: seq<byte>): (r: seq<byte>)
    ensures |name| < |r|
  {
    name + [0] + Padding(|name| + 1)
  }

  function DescField(desc: seq<byte>): (r: seq<byte>)
    ensures |desc| <= |r|
  {
    desc + Padding(|desc|)
  }

  /** A note as it stands in the file. */
  function Encode(n: Note, swap: bool): (r: seq<byte>)
    requires |n.name| + 1 < TWO32 && |n.desc| < TWO32
  {
    Header(n.typ, |n.name| + 1, |n.desc|, swap) + NameField(n.name) + DescField(n.desc)
  }

  /** The name ends with a zero and is padded with zeros to whole words. */
  lemma NameTerminated(name: seq<byte>)
    ensures |name| < |NameField(name)| <= |name| + 4 && |NameField(name)| % 4 == 0
    ensures NameField(name)[..|name|] == name && forall k :: |name| <= k < |NameField(name)| ==> NameField(name)[k] == 0
  {
    hide Padding;
  }

  /** A note named `GNU` of type 258 with five bytes, byte by byte, in either byte order. */
  lemma NoteBytes(d: seq<byte>)
    requires |d| == 5
    ensures Encode(Note(258, [71, 78, 85], d), false) ==
            [4, 0, 0, 0] + [5, 0, 0, 0] + [2, 1, 0, 0] + [71, 78, 85, 0] + d + [0, 0, 0]
    ensures Encode(Note(258, [71, 78, 85], d), true) ==
            [0, 0, 0, 4] + [0, 0, 0, 5] + [0, 0, 1, 2] + [71, 78, 85, 0] + d + [0, 0, 0]
  {
    assert Padding(4) == [] && Padding(5) == [0, 0, 0];
    assert NameField([71, 78, 85]) == [71, 78, 85, 0];
    assert DescField(d) == d + [0, 0, 0];
    hide Padding, NameField, DescField;
  }

  /** A note whose encoding has a 32-bit size. */
  ghost predicate Sized(n: Note) {
    |n.name| + |n.desc| + 32 < TWO32
  }

  lemma EncodeSize(n: Note, swap: bool)
    requires Sized(n)
    ensures |Encode(n, swap)| == 12 + RoundedSize(|n.name| + 1) + RoundedSize(|n.desc|)
    ensures |Encode(n, swap)| < TWO32
  {
    PaddedSize(|n.name| + 1);
    PaddedSize(|n.desc|);
  }

  lemma PaddedSize(n: nat)
    requires n + 3 < TWO32
    ensures n + |Padding(n)| == RoundedSize(n)
  {
  }

  ghost predicate AllSized(ns: seq<Note>) {
    forall i :: 0 <= i < |ns| ==> Sized(ns[i])
  }

  ghost function EncodeAll(ns: seq<Note>, swap: bool): (r: seq<byte>)
    requires AllSized(ns)
  {
    if ns == [] then []
    else EncodeAll(ns[..|ns| - 1], swap) + Encode(ns[|ns| - 1], swap)
  }

  /** Where each of the notes starts. */
  ghost function Starts(ns: seq<Note>, swap: bool): (r: seq<nat>)
    requires AllSized(ns)
    ensures |r| == |ns|
  {
    if ns == [] then [] else Starts(ns[..|ns| - 1], swap) + [|EncodeAll(ns[..|ns| - 1], swap)|]
  }

  function WordAt(bytes: seq<byte>, pos: nat, swap: bool): u32
    requires pos + 4 <= |bytes|
  {
    DecodeWord(bytes[pos..pos + 4], swap)
  }

  /** How far the note at `pos` reaches, going by its header. */
  function NoteSize(bytes: seq<byte>, pos: nat, swap: bool): (n: nat)
    requires pos + 12 <= |bytes|
    ensures n >= 12
  {
    12 + RoundedSize(WordAt(bytes, pos, swap)) + RoundedSize(WordAt(bytes, pos + 4, swap))
  }

  /** The start positions a scan of the section finds from `pos` on. */
  ghost function Scan(bytes: seq<byte>, pos: nat, swap: bool): seq<nat>
    decreases |bytes| - pos
  {
    if pos + 12 > |bytes| then [] else [pos] + Scan(bytes, pos + NoteSize(bytes, pos, swap), swap)
  }

  /** The note's sizes are consistent with what is left of the section, as far as `GetNote` checks them. */
  predicate Accepted(bytes: seq<byte>, pos: nat, swap: bool)
    requires pos + 12 <= |bytes|
  {
    var nameSize, descSize, left := WordAt(bytes, pos, swap), WordAt(bytes, pos + 4, swap), (|bytes| - pos) % TWO32;
    nameSize <= left && (nameSize + descSize) % TWO32 <= left
  }

  /** All the note's fields lie in the section. */
  ghost predicate Readable(bytes: seq<byte>, pos: nat, swap: bool) {
    && pos + 12 <= |bytes| && WordAt(bytes, pos, swap) > 0
    && pos + 12 + RoundedSize(WordAt(bytes, pos, swap)) + WordAt(bytes, pos + 4, swap) <= |bytes|
    && pos + 12 + WordAt(bytes, pos, swap) <= |bytes|
  }

  function Read(bytes: seq<byte>, pos: nat, swap: bool): Note
    requires Readable(bytes, pos, swap)
  {
    var nameSize, descSize := WordAt(bytes, pos, swap), WordAt(bytes, pos + 4, swap);
    var d := pos + 12 + RoundedSize(nameSize);
    Note(WordAt(bytes, pos + 8, swap), bytes[pos + 12..pos + 12 + nameSize - 1], bytes[d..d + descSize])
  }

  // ---------------------------------------------------------------- the round trip

  lemma Slice(bytes: seq<byte>, pos: nat, len: nat, a: nat, b: nat)
    requires pos + len <= |bytes| && a <= b <= len
    ensures bytes[pos..pos + len][a..b] == bytes[pos + a..pos + b]
  {
    var x, y := bytes[pos..pos + len][a..b], bytes[pos + a..pos + b];
    forall k | 0 <= k < |y| ensures x[k] == y[k] {}
  }

  lemma HeaderAt(bytes: seq<byte>, pos: nat, typ: u32, nameSize: u32, descSize: u32, swap: bool)
    requires pos + 12 <= |bytes| && bytes[pos..pos + 12] == Header(typ, nameSize, descSize, swap)
    ensures WordAt(bytes, pos, swap) == nameSize && WordAt(bytes, pos + 4, swap) == descSize && WordAt(bytes, pos + 8, swap) == typ
  {
    WordRoundTrip(nameSize, swap);
    WordRoundTrip(descSize, swap);
    WordRoundTrip(typ, swap);
    hide EncodeWord, DecodeWord;
    var h := bytes[pos..pos + 12];
    assert h[0..4] == EncodeWord(nameSize, swap) && h[4..8] == EncodeWord(descSize, swap) && h[8..12] == EncodeWord(typ, swap);
    Slice(bytes, pos, 12, 0, 4);
    Slice(bytes, pos, 12, 4, 8);
    Slice(bytes, pos, 12, 8, 12);
  }

  /** Wherever a note stands in a section, reading it there gives it back. */
  lemma Layout(before: seq<byte>, h: seq<byte>, name: seq<byte>, nameField: seq<byte>, desc: seq<byte>, descField: seq<byte>, after: seq<byte>)
    requires name <= nameField && desc <= descField
    ensures var bytes, pos, d := before + (h + nameField + descField) + after, |before|, |before| + |h| + |nameField|;
            && pos + |h| + |nameField| + |descField| <= |bytes|
            && bytes[pos..pos + |h|] == h && bytes[pos + |h|..pos + |h| + |name|] == name && bytes[d..d + |desc|] == desc
  {
  }

  /** The words and fields of note `n` are found where a reader looks for them from `pos` on. */
  ghost predicate Fields(bytes: seq<byte>, pos: nat, n: Note, swap: bool) {
    && pos + 12 <= |bytes|
    && WordAt(bytes, pos, swap) == |n.name| + 1 && WordAt(bytes, pos + 4, swap) == |n.desc| && WordAt(bytes, pos + 8, swap) == n.typ
    && var d := pos + 12 + RoundedSize(WordAt(bytes, pos, swap));
       && pos + 12 + |n.name| < d <= d + |n.desc| <= |bytes|
       && bytes[pos + 12..pos + 12 + |n.name|] == n.name && bytes[d..d + |n.desc|] == n.desc
  }

  /** The note `n` stands at `pos`: reading there gives it, and its header tells where it ends. */
  ghost predicate Stands(bytes: seq<byte>, pos: nat, n: Note, swap: bool) {
    && Readable(bytes, pos, swap) && Read(bytes, pos, swap) == n
    && (|bytes| - pos < TWO32 ==> Accepted(bytes, pos, swap))
  }

  lemma FieldsRead(bytes: seq<byte>, pos: nat, n: Note, swap: bool)
    requires Fields(bytes, pos, n, swap)
    ensures Readable(bytes, pos, swap) && Read(bytes, pos, swap) == n
  {
    hide WordAt, RoundedSize;
  }

  lemma FieldsAccepted(bytes: seq<byte>, pos: nat, n: Note, swap: bool)
    requires Sized(n) && Fields(bytes, pos, n, swap) && |bytes| - pos < TWO32
    ensures Accepted(bytes, pos, swap)
  {
    hide WordAt, RoundedSize;
  }

  lemma FieldsStand(bytes: seq<byte>, pos: nat, n: Note, swap: bool)
    requires Sized(n) && Fields(bytes, pos, n, swap)
    ensures Stands(bytes, pos, n, swap)
  {
    FieldsRead(bytes, pos, n, swap);
    if |bytes| - pos < TWO32 { FieldsAccepted(bytes, pos, n, swap); }
    hide Fields, Readable, Read, Accepted;
  }

  lemma NameAndDesc(n: Note)
    requires Sized(n)
    ensures |NameField(n.name)| == RoundedSize(|n.name| + 1)
    ensures n.name <= NameField(n.name) && n.desc <= DescField(n.desc)
  {
    PaddedSize(|n.name| + 1);
    hide RoundedSize, Padding;
  }

  lemma FieldsFrom(bytes: seq<byte>, pos: nat, n: Note, d: nat, swap: bool)
    requires Sized(n) && pos + 12 <= |bytes| && bytes[pos..pos + 12] == Header(n.typ, |n.name| + 1, |n.desc|, swap)
    requires d == pos + 12 + RoundedSize(|n.name| + 1) && pos + 12 + |n.name| < d <= d + |n.desc| <= |bytes|
    requires bytes[pos + 12..pos + 12 + |n.name|] == n.name && bytes[d..d + |n.desc|] == n.desc
    ensures Fields(bytes, pos, n, swap)
  {
    hide Header, RoundedSize, WordAt;
    HeaderAt(bytes, pos, n.typ, |n.name| + 1, |n.desc|, swap);
  }

  lemma FieldsEncoded(before: seq<byte>, n: Note, after: seq<byte>, swap: bool)
    requires Sized(n)
    ensures Fields(before + Encode(n, swap) + after, |before|, n, swap)
  {
    var bytes, pos := before + Encode(n, swap) + after, |before|;
    var h, name, desc := Header(n.typ, |n.name| + 1, |n.desc|, swap), NameField(n.name), DescField(n.desc);
    NameAndDesc(n);
    assert Encode(n, swap) == h + name + desc;
    Layout(before, h, n.name, name, n.desc, desc, after);
    hide *;
    FieldsFrom(bytes, pos, n, pos + 12 + |name|, swap);
  }

  lemma Regroup(a: seq<byte>, b: seq<byte>, c: seq<byte>)
    ensures a + (b + c) == a + b + c
  {
  }

  lemma LastNote(ns: seq<Note>, swap: bool)
    requires AllSized(ns) && ns != []
    ensures var last := |ns| - 1;
            && Sized(ns[last]) && AllSized(ns[..last])
            && EncodeAll(ns, swap) == EncodeAll(ns[..last], swap) + Encode(ns[last], swap)
            && Starts(ns, swap) == Starts(ns[..last], swap) + [|EncodeAll(ns[..last], swap)|]
  {
  }

  /** Adding notes after others does not disturb them. */
  lemma {:induction false} NoteAt(ns: seq<Note>, i: nat, swap: bool, after: seq<byte>)
    requires AllSized(ns) && i < |ns|
    ensures Fields(EncodeAll(ns, swap) + after, Starts(ns, swap)[i], ns[i], swap)
    decreases |ns|
  {
    hide *;
    var last := |ns| - 1;
    LastNote(ns, swap);
    var before, enc := EncodeAll(ns[..last], swap), Encode(ns[last], swap);
    if i < last {
      NoteAt(ns[..last], i, swap, enc + after);
      Regroup(before, enc, after);
    } else {
      FieldsEncoded(before, ns[last], after, swap);
    }
  }

  lemma FieldsSize(bytes: seq<byte>, pos: nat, n: Note, swap: bool)
    requires Sized(n) && Fields(bytes, pos, n, swap)
    ensures pos + 12 <= |bytes| && NoteSize(bytes, pos, swap) == |Encode(n, swap)|
  {
    EncodeSize(n, swap);
    hide WordAt, RoundedSize, Encode;
  }

  lemma ScanAt(bytes: seq<byte>, pos: nat, swap: bool)
    ensures pos + 12 > |bytes| ==> Scan(bytes, pos, swap) == []
    ensures pos + 12 <= |bytes| ==> Scan(bytes, pos, swap) == [pos] + Scan(bytes, pos + NoteSize(bytes, pos, swap), swap)
  {
  }

  lemma ScanStep(bytes: seq<byte>, pos: nat, n: Note, next: nat, swap: bool)
    requires Sized(n) && Fields(bytes, pos, n, swap) && next == pos + |Encode(n, swap)|
    ensures Scan(bytes, pos, swap) == [pos] + Scan(bytes, next, swap)
  {
    hide *;
    FieldsSize(bytes, pos, n, swap);
    ScanAt(bytes, pos, swap);
  }

  /** The notes found before `pos`, and those still to be found, are the notes of the section. */
  ghost predicate FoundUpTo(bytes: seq<byte>, pos: nat, found: seq<nat>, swap: bool) {
    found + Scan(bytes, pos, swap) == Scan(bytes, 0, swap)
  }

  lemma FindNext(bytes: seq<byte>, pos: nat, found: seq<nat>, swap: bool)
    requires FoundUpTo(bytes, pos, found, swap)
    ensures pos + 12 > |bytes| ==> found == Scan(bytes, 0, swap)
    ensures pos + 12 <= |bytes| ==> FoundUpTo(bytes, pos + NoteSize(bytes, pos, swap), found + [pos], swap)
  {
    ScanAt(bytes, pos, swap);
    hide Scan, NoteSize;
  }

  lemma FirstOf(starts: seq<nat>, i: nat)
    requires i < |starts|
    ensures starts[i..] == [starts[i]] + starts[i + 1..]
  {
  }

  lemma {:induction false} ScanFrom(ns: seq<Note>, i: nat, swap: bool)
    requires AllSized(ns) && i <= |ns|
    ensures var starts := Starts(ns, swap) + [|EncodeAll(ns, swap)|];
            Scan(EncodeAll(ns, swap), starts[i], swap) == Starts(ns, swap)[i..]
    decreases |ns| - i
  {
    var bytes, starts := EncodeAll(ns, swap), Starts(ns, swap);
    if i == |ns| {
      hide EncodeAll, Starts;
    } else {
      assert Sized(ns[i]) && bytes + [] == bytes;
      hide *;
      ScanFrom(ns, i + 1, swap);
      NoteAt(ns, i, swap, []);
      NextStart(ns, i, swap);
      ScanStep(bytes, starts[i], ns[i], (starts + [|bytes|])[i + 1], swap);
      FirstOf(starts, i);
    }
  }

  lemma {:induction false} NextStart(ns: seq<Note>, i: nat, swap: bool)
    requires AllSized(ns) && i < |ns|
    ensures var starts := Starts(ns, swap) + [|EncodeAll(ns, swap)|];
            starts[i] + |Encode(ns[i], swap)| == starts[i + 1]
    decreases |ns|
  {
    var last := |ns| - 1;
    if i < last { NextStart(ns[..last], i, swap); }
  }

  /** Scanning a section of notes finds exactly where they start, and reading there gives them back in order. */
  lemma NotesRoundTrip(ns: seq<Note>, swap: bool)
    requires AllSized(ns)
    ensures var bytes := EncodeAll(ns, swap);
            && Scan(bytes, 0, swap) == Starts(ns, swap)
            && forall i :: 0 <= i < |ns| ==> Stands(bytes, Starts(ns, swap)[i], ns[i], swap)
  {
    var bytes := EncodeAll(ns, swap);
    FirstStart(ns, swap);
    ScanFrom(ns, 0, swap);
    hide Stands;
    forall i | 0 <= i < |ns| ensures Stands(bytes, Starts(ns, swap)[i], ns[i], swap) {
      NoteAt(ns, i, swap, []);
      assert bytes + [] == bytes;
      FieldsStand(bytes, Starts(ns, swap)[i], ns[i], swap);
    }
  }

  lemma {:induction false} FirstStart(ns: seq<Note>, swap: bool)
    requires AllSized(ns)
    ensures (Starts(ns, swap) + [|EncodeAll(ns, swap)|])[0] == 0
  {
    if |ns| > 1 { FirstStart(ns[..|ns| - 1], swap); }
  }

  /** Adding a note to a section of notes gives the section of one more note. */
  lemma NotesPush(ns: seq<Note>, n: Note, swap: bool)
    requires AllSized(ns) && Sized(n)
    ensures AllSized(ns + [n])
    ensures EncodeAll(ns + [n], swap) == EncodeAll(ns, swap) + Encode(n, swap)
    ensures Starts(ns + [n], swap) == Starts(ns, swap) + [|EncodeAll(ns, swap)|]
  {
    assert (ns + [n])[..|ns|] == ns;
  }

  /** The buffer can be regrown as often as adding these notes takes. */
  ghost predicate RoomFor(size: nat, dataSize: nat, ns: seq<Note>, swap: bool)
    requires AllSized(ns)
    decreases |ns|
  {
    ns != [] ==>
      var n := |Encode(ns[0], swap)|;
      Grown(size, dataSize, n) < TWO32 && RoomFor(size + n, Grown(size, dataSize, n), ns[1..], swap)
  }

  lemma {:induction false} EncodeAllFront(ns: seq<Note>, swap: bool)
    requires AllSized(ns) && ns != []
    ensures EncodeAll(ns, swap) == Encode(ns[0], swap) + EncodeAll(ns[1..], swap)
    decreases |ns|
  {
    hide *;
    var last := |ns| - 1;
    LastNote(ns, swap);
    SizedRest(ns);
    if last == 0 {
      assert ns[..0] == [] && ns[1..] == [];
      NothingEncoded(swap);
    } else {
      var front := ns[..last];
      assert front[1..] == ns[1..][..last - 1] && front[0] == ns[0] && ns[1..][last - 1] == ns[last];
      LastNote(ns[1..], swap);
      EncodeAllFront(front, swap);
      Regroup(Encode(ns[0], swap), EncodeAll(front[1..], swap), Encode(ns[last], swap));
    }
  }

  lemma NothingEncoded(swap: bool)
    ensures AllSized([]) && EncodeAll([], swap) == []
  {
  }

  /** The buffer is never more than four times as long as its contents, so there is room for an eighth of what 32 bits can count. */
  lemma {:induction false} RoomIf(size: nat, dataSize: nat, ns: seq<Note>, swap: bool)
    requires AllSized(ns) && dataSize <= 4 * size && 8 * (size + |EncodeAll(ns, swap)|) < TWO32
    ensures RoomFor(size, dataSize, ns, swap)
    decreases |ns|
  {
    hide *;
    if ns == [] {
      RoomForNone(size, dataSize, ns, swap);
    } else {
      SizedRest(ns);
      EncodeAllFront(ns, swap);
      var n := |Encode(ns[0], swap)|;
      GrownBound(size, dataSize, n);
      RoomIf(size + n, Grown(size, dataSize, n), ns[1..], swap);
      RoomFold(size, dataSize, ns, swap);
    }
  }

  lemma RoomForNone(size: nat, dataSize: nat, ns: seq<Note>, swap: bool)
    requires AllSized(ns) && ns == []
    ensures RoomFor(size, dataSize, ns, swap)
  {
  }

  lemma SizedRest(ns: seq<Note>)
    requires AllSized(ns) && ns != []
    ensures Sized(ns[0]) && AllSized(ns[1..])
  {
  }

  lemma RoomFold(size: nat, dataSize: nat, ns: seq<Note>, swap: bool)
    requires AllSized(ns) && ns != [] && Sized(ns[0]) && AllSized(ns[1..])
    requires var n := |Encode(ns[0], swap)|;
             Grown(size, dataSize, n) < TWO32 && RoomFor(size + n, Grown(size, dataSize, n), ns[1..], swap)
    ensures RoomFor(size, dataSize, ns, swap)
  {
    hide Grown, Encode;
  }

  lemma GrownBound(size: nat, dataSize: nat, n: nat)
    requires dataSize <= 4 * size
    ensures Grown(size, dataSize, n) <= 4 * (size + n)
  {
  }

  class NoteSectionAccessor {
    const section: Section
    const swap: bool
    var starts: seq<nat>

    constructor (section: Section, swap: bool)
      requires section.Valid()
      ensures this.section == section && this.swap == swap && starts == Scan(section.Contents(), 0, swap)
    {
      this.section, this.swap := section, swap;
      new;
      ProcessSection();
    }

    /** The word at a byte offset into the section's data. */
    method LoadWord(pos: nat) returns (w: u32)
      requires section.Valid() && pos + 4 <= section.size
      ensures w == WordAt(section.Contents(), pos, swap)
    {
      var data := section.data;
      w := DecodeWord(data[pos..pos + 4], swap);
      assert section.Contents()[pos..pos + 4] == data[pos..pos + 4];
    }

    /** Finds where the notes start, going from header to header. */
    method ProcessSection()
      requires section.Valid()
      modifies this
      ensures starts == Scan(section.Contents(), 0, swap)
    {
      starts := [];
      if section.data == null || section.size == 0 {
        return;
      }
      var size := section.size;
      ghost var bytes := section.Contents();
      assert |bytes| == size;
      var current := 0;
      assert FoundUpTo(bytes, 0, [], swap);
      hide WordAt, RoundedSize, Section.Contents, Scan, FoundUpTo;
      while current + 12 <= size
        invariant FoundUpTo(bytes, current, starts, swap)
        decreases size - current
      {
        FindNext(bytes, current, starts, swap);
        starts := starts + [current];
        var nameSize := LoadWord(current);
        var descSize := LoadWord(current + 4);
        current := current + 12 + RoundedSize(nameSize) + RoundedSize(descSize);
      }
      FindNext(bytes, current, starts, swap);
    }

    /** The `index`-th note. An index beyond the section's size is refused, one beyond the number of notes is not. */
    method GetNote(index: nat) returns (found: bool, note: Note)
      requires section.Valid()
      requires index < section.size ==> index < |starts| && starts[index] + 12 <= section.size
      requires index < section.size && Accepted(section.Contents(), starts[index], swap) ==> Readable(section.Contents(), starts[index], swap)
      ensures found <==> index < section.size && Accepted(section.Contents(), starts[index], swap)
      ensures found ==> note == Read(section.Contents(), starts[index], swap)
    {
      found, note := false, Note(0, [], []);
      if index >= section.size {
        return;
      }
      var pos := starts[index];
      LengthIs(section);
      hide *;
      var typ := LoadWord(pos + 8);
      var nameSize := LoadWord(pos);
      var descSize := LoadWord(pos + 4);
      var maxNameSize := (section.size - pos) % TWO32;
      AcceptedIff(section.Contents(), pos, nameSize, descSize);
      if nameSize > maxNameSize || (nameSize + descSize) % TWO32 > maxNameSize {
        return;
      }
      found := true;
      note := LoadFields(pos, typ, nameSize, descSize);
    }

    lemma AcceptedIff(bytes: seq<byte>, pos: nat, nameSize: u32, descSize: u32)
      requires pos + 12 <= |bytes| && nameSize == WordAt(bytes, pos, swap) && descSize == WordAt(bytes, pos + 4, swap)
      ensures var left := (|bytes| - pos) % TWO32;
              Accepted(bytes, pos, swap) <==> nameSize <= left && (nameSize + descSize) % TWO32 <= left
    {
      hide WordAt;
    }

    lemma PrefixSlice(all: seq<byte>, size: nat, a: nat, b: nat)
      requires a <= b <= size <= |all|
      ensures all[..size][a..b] == all[a..b]
    {
    }

    method LoadFields(pos: nat, typ: u32, nameSize: u32, descSize: u32) returns (note: Note)
      requires section.Valid() && Readable(section.Contents(), pos, swap)
      requires typ == WordAt(section.Contents(), pos + 8, swap) && nameSize == WordAt(section.Contents(), pos, swap)
      requires descSize == WordAt(section.Contents(), pos + 4, swap)
      ensures note == Read(section.Contents(), pos, swap)
    {
      hide *;
      ghost var bytes := section.Contents();
      var data := section.data;
      ReadableBounds(bytes, pos, swap);
      BufferIs(section);
      PrefixSlice(data[..], section.size, pos + 12, pos + 12 + nameSize - 1);
      var name := data[pos + 12..pos + 12 + nameSize - 1];
      var d := pos + 12 + RoundedSize(nameSize);
      PrefixSlice(data[..], section.size, d, d + descSize);
      var desc := data[d..d + descSize];
      note := Note(typ, name, desc);
    }

    /** Appends a note. Without a descriptor to copy, the header still carries the size given. */
    method AddNote(typ: u32, name: seq<byte>, desc: seq<byte>, descSize: u32)
      requires section.Valid() && |name| + 1 < TWO32 && (desc == [] || |desc| == descSize)
      requires section.CanAppend(|Header(typ, |name| + 1, descSize, swap) + NameField(name) + DescField(desc)|)
      modifies this, section, section.data
      ensures section.Valid() && starts == old(starts) + [old(section.size)]
      ensures section.typ != SHT_NOBITS ==>
                section.Contents() == old(section.Contents()) + (Header(typ, |name| + 1, descSize, swap) + NameField(name) + DescField(desc))
      ensures section.typ != SHT_NOBITS && descSize == |desc| ==>
                section.Contents() == old(section.Contents()) + Encode(Note(typ, name, desc), swap)
      ensures section.typ != SHT_NOBITS ==>
                section.dataSize == Grown(old(section.size), old(section.dataSize), 12 + |NameField(name)| + |DescField(desc)|)
      ensures section.data != old(section.data) ==> fresh(section.data)
    {
      var buffer := BuildNote(typ, name, desc, descSize);
      starts := starts + [section.size];
      hide Header, NameField, DescField;
      section.AppendData(buffer);
    }

    method BuildNote(typ: u32, name: seq<byte>, desc: seq<byte>, descSize: u32) returns (buffer: seq<byte>)
      requires |name| + 1 < TWO32 && (desc == [] || |desc| == descSize)
      ensures buffer == Header(typ, |name| + 1, descSize, swap) + NameField(name) + DescField(desc)
    {
      var nameLen := |name| + 1;
      buffer := EncodeWord(nameLen, swap);
      buffer := buffer + EncodeWord(descSize, swap);
      buffer := buffer + EncodeWord(typ, swap);
      assert buffer == Header(typ, nameLen, descSize, swap);
      hide Header, EncodeWord;
      buffer := buffer + name;
      buffer := buffer + [0];
      if nameLen % 4 != 0 {
        buffer := buffer + seq(4 - nameLen % 4, _ => 0);
      }
      assert buffer == Header(typ, nameLen, descSize, swap) + NameField(name);
      if desc != [] && descSize != 0 {
        buffer := buffer + desc;
        if descSize % 4 != 0 {
          buffer := buffer + seq(4 - descSize % 4, _ => 0);
        }
      }
    }

    /** The section is these notes, and their starts are recorded. */
    ghost predicate Holds(ns: seq<Note>)
      reads this, section, section.data
    {
      && section.Valid() && section.typ != SHT_NOBITS && AllSized(ns)
      && section.Contents() == EncodeAll(ns, swap) && starts == Starts(ns, swap)
    }

    /** `AddNote` for one more note. */
    method AddOne(n: Note, ghost before: seq<Note>)
      requires Holds(before) && Sized(n) && Grown(section.size, section.dataSize, |Encode(n, swap)|) < TWO32
      modifies this, section, section.data
      ensures Holds(before + [n])
      ensures section.size == old(section.size) + |Encode(n, swap)|
      ensures section.dataSize == Grown(old(section.size), old(section.dataSize), |Encode(n, swap)|)
      ensures section.data != old(section.data) ==> fresh(section.data)
    {
      hide *;
      HeldIs(before);
      ghost var bytes := section.Contents();
      EncodeIs(n, swap);
      NotesPush(before, n, swap);
      RoomIs(section, |Encode(n, swap)|);
      AddNote(n.typ, n.name, n.desc, |n.desc|);
      SizeIs(section, bytes + Encode(n, swap));
      HoldsNow(before + [n]);
    }

    lemma HeldIs(ns: seq<Note>)
      requires Holds(ns)
      ensures section.Valid() && section.typ != SHT_NOBITS && AllSized(ns) && |EncodeAll(ns, swap)| == section.size
      ensures section.Contents() == EncodeAll(ns, swap) && starts == Starts(ns, swap)
    {
      hide EncodeAll, Starts;
    }

    lemma HoldsNow(ns: seq<Note>)
      requires section.Valid() && section.typ != SHT_NOBITS && AllSized(ns)
      requires section.Contents() == EncodeAll(ns, swap) && starts == Starts(ns, swap)
      ensures Holds(ns)
    {
    }

    /** Adds all the notes, whatever regrowths that takes. */
    method AddAll(notes: seq<Note>, ghost before: seq<Note>)
      requires Holds(before) && AllSized(notes) && RoomFor(section.size, section.dataSize, notes, swap)
      modifies this, section, section.data
      ensures Holds(before + notes)
      ensures section.data != old(section.data) ==> fresh(section.data)
    {
      hide *;
      assert before + notes[..0] == before && notes[0..] == notes;
      for i := 0 to |notes|
        invariant Holds(before + notes[..i])
        invariant AllSized(notes[i..]) && RoomFor(section.size, section.dataSize, notes[i..], swap)
        invariant section.data != old(section.data) ==> fresh(section.data)
      {
        RoomNext(section.size, section.dataSize, notes, i, swap);
        NextOne(before, notes, i);
        AddOne(notes[i], before + notes[..i]);
      }
      assert notes[..|notes|] == notes;
    }

    /** Reads one note after the other. */
    method ReadAll(ghost ns: seq<Note>) returns (notes: seq<Note>)
      requires Holds(ns)
      ensures notes == ns
    {
      hide *;
      HeldIs(ns);
      notes := [];
      for i := 0 to |starts|
        invariant notes == ns[..i] && |starts| == |ns|
      {
        NoteReadable(ns, i);
        var found, note := GetNote(i);
        notes := notes + [note];
      }
    }

    lemma NoteReadable(ns: seq<Note>, i: nat)
      requires Holds(ns) && i < |ns|
      ensures section.Valid() && |starts| == |ns| && i < section.size && starts[i] + 12 <= section.size
      ensures Readable(section.Contents(), starts[i], swap) && Accepted(section.Contents(), starts[i], swap)
      ensures Read(section.Contents(), starts[i], swap) == ns[i]
    {
      hide *;
      HeldIs(ns);
      NotesRoundTrip(ns, swap);
      StartsGrow(ns, i, swap);
      SizeIs(section, EncodeAll(ns, swap));
      StandsMeans(section.Contents(), starts[i], ns[i], swap);
    }

    /** Add the notes, scan the section again, read everything: it is what was there and what was added, in order. */
    method AddScanRead(notes: seq<Note>, ghost before: seq<Note>) returns (all: seq<Note>)
      requires Holds(before) && AllSized(notes) && RoomFor(section.size, section.dataSize, notes, swap)
      modifies this, section, section.data
      ensures Holds(before + notes) && all == before + notes
    {
      AddAll(notes, before);
      NotesRoundTrip(before + notes, swap);
      ProcessSection();
      all := ReadAll(before + notes);
    }
  }

  lemma LengthIs(section: Section)
    requires section.Valid()
    ensures |section.Contents()| == section.size
  {
  }

  lemma BufferIs(section: Section)
    requires section.Valid() && section.Contents() != []
    ensures section.data != null && |section.Contents()| == section.size <= section.data.Length
    ensures section.Contents() == section.data[..][..section.size]
  {
  }

  lemma ReadableBounds(bytes: seq<byte>, pos: nat, swap: bool)
    requires Readable(bytes, pos, swap)
    ensures bytes != [] && pos + 12 <= |bytes| && WordAt(bytes, pos, swap) > 0 && pos + 12 + WordAt(bytes, pos, swap) <= |bytes|
    ensures var nameSize, descSize := WordAt(bytes, pos, swap), WordAt(bytes, pos + 4, swap);
            var d := pos + 12 + RoundedSize(nameSize);
            && d + descSize <= |bytes|
            && Read(bytes, pos, swap) == Note(WordAt(bytes, pos + 8, swap), bytes[pos + 12..pos + 12 + nameSize - 1], bytes[d..d + descSize])
  {
    hide WordAt, RoundedSize;
  }

  lemma EncodeIs(n: Note, swap: bool)
    requires Sized(n)
    ensures |n.name| + 1 < TWO32 && |n.desc| < TWO32 && n == Note(n.typ, n.name, n.desc)
    ensures Encode(n, swap) == Header(n.typ, |n.name| + 1, |n.desc|, swap) + NameField(n.name) + DescField(n.desc)
    ensures |Encode(n, swap)| == 12 + |NameField(n.name)| + |DescField(n.desc)|
  {
    hide Header, NameField, DescField;
  }

  lemma RoomIs(section: Section, n: nat)
    requires Grown(section.size, section.dataSize, n) < TWO32
    ensures section.CanAppend(n)
  {
  }

  lemma SizeIs(section: Section, bytes: seq<byte>)
    requires section.Valid() && section.Contents() == bytes
    ensures section.size == |bytes| < TWO32
  {
  }

  lemma StandsMeans(bytes: seq<byte>, pos: nat, n: Note, swap: bool)
    requires Stands(bytes, pos, n, swap) && |bytes| < TWO32
    ensures pos + 12 <= |bytes| && Readable(bytes, pos, swap) && Accepted(bytes, pos, swap) && Read(bytes, pos, swap) == n
  {
    hide WordAt, RoundedSize, Read, Accepted;
  }

  lemma RoomNext(size: nat, dataSize: nat, ns: seq<Note>, i: nat, swap: bool)
    requires i < |ns| && AllSized(ns[i..]) && RoomFor(size, dataSize, ns[i..], swap)
    ensures Sized(ns[i]) && AllSized(ns[i + 1..])
    ensures var n := |Encode(ns[i], swap)|;
            Grown(size, dataSize, n) < TWO32 && RoomFor(size + n, Grown(size, dataSize, n), ns[i + 1..], swap)
  {
    hide Grown, Encode;
    assert ns[i..][0] == ns[i] && ns[i..][1..] == ns[i + 1..];
  }

  lemma NextOne(before: seq<Note>, notes: seq<Note>, i: nat)
    requires i < |notes|
    ensures before + notes[..i] + [notes[i]] == before + notes[..i + 1]
  {
  }

  lemma SizedOne(ns: seq<Note>, i: nat)
    requires AllSized(ns) && i < |ns|
    ensures Sized(ns[i]) && |ns[i].name| + 1 < TWO32 && |ns[i].desc| < TWO32
  {
  }

  lemma NotEmpty(n: Note, swap: bool)
    requires |n.name| + 1 < TWO32 && |n.desc| < TWO32
    ensures |Encode(n, swap)| > 0
  {
    hide Header, NameField, DescField;
  }

  /** The `i`-th note starts no earlier than byte `i`. */
  lemma {:induction false} StartsGrow(ns: seq<Note>, i: nat, swap: bool)
    requires AllSized(ns) && i < |ns|
    ensures i <= Starts(ns, swap)[i]
    decreases i
  {
    hide *;
    if i > 0 {
      SizedOne(ns, i - 1);
      StartsGrow(ns, i - 1, swap);
      NextStart(ns, i - 1, swap);
      NotEmpty(ns[i - 1], swap);
    }
  }
}
