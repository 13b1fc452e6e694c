/** Bit removal, insertion and extraction by mask (`BitUtil`), on unsigned words of any width. */
module BitUtil {

  /** A word as its bits, the least significant one first. */
  type Word = seq<bool>

  // ---------------------------------------------------------------- machine operations

  function Zeros(n: nat): (r: Word)
    ensures |r| == n && forall i :: 0 <= i < n ==> !r[i]
  {
    seq(n, _ => false)
  }

  function Ones(n: nat): (r: Word)
    ensures |r| == n && forall i :: 0 <= i < n ==> r[i]
  {
    seq(n, _ => true)
  }

  function One(n: nat): (r: Word)
    requires n > 0
    ensures |r| == n && forall i :: 0 <= i < n ==> (r[i] <==> i == 0)
  {
    [true] + Zeros(n - 1)
  }

  function Not(a: Word): (r: Word)
    ensures |r| == |a| && forall i :: 0 <= i < |a| ==> r[i] == !a[i]
  {
    seq(|a|, i requires 0 <= i < |a| => !a[i])
  }

  function And(a: Word, b: Word): (r: Word)
    requires |a| == |b|
    ensures |r| == |a| && forall i :: 0 <= i < |a| ==> r[i] == (a[i] && b[i])
  {
    seq(|a|, i requires 0 <= i < |a| => a[i] && b[i])
  }

  function Or(a: Word, b: Word): (r: Word)
    requires |a| == |b|
    ensures |r| == |a| && forall i :: 0 <= i < |a| ==> r[i] == (a[i] || b[i])
  {
    seq(|a|, i requires 0 <= i < |a| => a[i] || b[i])
  }

  /** Shifting by the full width or more is undefined for machine words. */
  function Shl(a: Word, k: nat): (r: Word)
    requires k < |a|
    ensures |r| == |a| && forall i :: 0 <= i < |a| ==> r[i] == (k <= i && a[i - k])
  {
    Zeros(k) + a[..|a| - k]
  }

  function Shr(a: Word, k: nat): (r: Word)
    requires k < |a|
    ensures |r| == |a| && forall i :: 0 <= i < |a| ==> r[i] == (i + k < |a| && a[i + k])
  {
    a[k..] + Zeros(k)
  }

  // ---------------------------------------------------------------- fixed ranges

  function MaskUpper(word: Word, idx: nat): (r: Word)
    requires idx < |word|
    ensures r == word[..idx] + Zeros(|word| - idx)
  {
    And(word, Not(Shl(Ones(|word|), idx)))
  }

  function MaskLower(word: Word, idx: nat): (r: Word)
    requires idx < |word|
    ensures r == Zeros(idx) + word[idx..]
  {
    And(word, Shl(Ones(|word|), idx))
  }

  function GetBit(word: Word, idx: nat): (r: Word)
    requires idx < |word|
    ensures r == [word[idx]] + Zeros(|word| - 1)
  {
    And(Shr(word, idx), One(|word|))
  }

  function GetLSB(word: Word): (r: Word)
    requires |word| > 0
    ensures r == [word[0]] + Zeros(|word| - 1)
  {
    And(word, One(|word|))
  }

  function GetBitRange(word: Word, lo: nat, hi: nat): (r: Word)
    requires lo < hi <= |word| && hi - lo < |word|
    ensures r == word[lo..hi] + Zeros(|word| - (hi - lo))
  {
    MaskUpper(Shr(word, lo), hi - lo)
  }

  function ClearBit(word: Word, idx: nat): (r: Word)
    requires idx < |word|
    ensures r == word[idx := false]
  {
    And(word, Not(Shl(One(|word|), idx)))
  }

  function ReplaceBit(word: Word, idx: nat, newVal: Word): (r: Word)
    requires idx < |word| == |newVal|
    ensures r == word[idx := newVal[0]]
  {
    Or(ClearBit(word, idx), Shl(GetLSB(newVal), idx))
  }

  /** Closes the gap left by bits `lo..hi`. Not even this can remove the whole word. */
  function RemoveBitRange(word: Word, lo: nat, hi: nat): (r: Word)
    requires lo <= hi <= |word| && lo < |word| && 0 < hi && hi - lo < |word|
    ensures r == word[..lo] + word[hi..] + Zeros(hi - lo)
  {
    if lo == 0 then Shr(word, hi)
    else Or(MaskLower(Shr(word, hi - lo), lo), GetBitRange(word, 0, lo))
  }

  function RemoveBit(word: Word, idx: nat): (r: Word)
    requires idx < |word| && 1 < |word|
    ensures r == word[..idx] + word[idx + 1..] + [false]
  {
    RemoveBitRange(word, idx, idx + 1)
  }

  /** Opens a gap of zeros at bits `lo..hi`; the highest bits fall off. */
  function InsertBitRange(word: Word, lo: nat, hi: nat): (r: Word)
    requires lo <= hi <= |word| && lo < |word| && 0 < hi && hi - lo < |word|
    ensures r == word[..lo] + Zeros(hi - lo) + word[lo..|word| - (hi - lo)]
  {
    Or(Shl(MaskLower(word, lo), hi - lo), MaskUpper(word, lo))
  }

  function InsertBit(word: Word, idx: nat): (r: Word)
    requires idx < |word| && 1 < |word|
    ensures r == word[..idx] + [false] + word[idx..|word| - 1]
  {
    InsertBitRange(word, idx, idx + 1)
  }

  // ---------------------------------------------------------------- what the masks mean

  /** How many bits of `m` are set. */
  ghost function Count(m: Word): (n: nat)
    ensures n <= |m|
  {
    if m == [] then 0 else Count(m[..|m| - 1]) + if m[|m| - 1] then 1 else 0
  }

  /** The bits of `w` at the set positions of `m`, in order. */
  ghost function Gather(w: Word, m: Word): (r: Word)
    requires |w| == |m|
    ensures |r| == Count(m)
  {
    if m == [] then []
    else Gather(w[..|w| - 1], m[..|m| - 1]) + if m[|m| - 1] then [w[|w| - 1]] else []
  }

  /** The bits of `v`, in order, at the set positions of `m`, and zeros elsewhere. */
  ghost function Scatter(v: Word, m: Word): (r: Word)
    requires Count(m) <= |v|
    ensures |r| == |m|
  {
    if m == [] then []
    else
      var rest := m[..|m| - 1];
      Scatter(v, rest) + [m[|m| - 1] && v[Count(rest)]]
  }

  ghost function Extracted(w: Word, m: Word): (r: Word)
    requires |w| == |m|
    ensures |r| == |w|
  {
    Gather(w, m) + Zeros(|w| - Count(m))
  }

  ghost function Removed(w: Word, m: Word): (r: Word)
    requires |w| == |m|
    ensures |r| == |w|
  {
    Extracted(w, Not(m))
  }

  ghost function Inserted(w: Word, m: Word): (r: Word)
    requires |w| == |m|
    ensures |r| == |w|
  {
    Scatter(w, Not(m))
  }

  ghost function Replaced(w: Word, m: Word, v: Word): (r: Word)
    requires |w| == |m| == |v|
    ensures |r| == |w|
  {
    Or(And(w, Not(m)), Scatter(v, m))
  }

  lemma CountPush(m: Word, b: bool)
    ensures Count(m + [b]) == Count(m) + if b then 1 else 0
  {
    assert (m + [b])[..|m|] == m;
  }

  lemma PrefixStep(m: Word, i: nat)
    requires i < |m|
    ensures m[..i + 1] == m[..i] + [m[i]] && Count(m[..i + 1]) == Count(m[..i]) + if m[i] then 1 else 0
  {
    CountPush(m[..i], m[i]);
  }

  lemma GatherStep(w: Word, m: Word, i: nat)
    requires |w| == |m| && i < |m|
    ensures Gather(w[..i + 1], m[..i + 1]) == Gather(w[..i], m[..i]) + if m[i] then [w[i]] else []
  {
    PrefixStep(m, i);
    assert w[..i + 1][..i] == w[..i] && m[..i + 1][..i] == m[..i];
  }

  lemma ScatterStep(v: Word, m: Word, i: nat)
    requires i < |m| && Count(m[..i + 1]) <= |v|
    ensures Count(m[..i]) <= Count(m[..i + 1])
    ensures m[i] ==> Count(m[..i]) < |v|
    ensures Scatter(v, m[..i + 1]) == Scatter(v, m[..i]) + [m[i] && v[Count(m[..i])]]
  {
    PrefixStep(m, i);
    assert m[..i + 1][..i] == m[..i];
  }

  lemma {:induction false} CountNot(m: Word)
    ensures Count(Not(m)) == |m| - Count(m)
  {
    if m != [] {
      var i := |m| - 1;
      CountNot(m[..i]);
      NotPrefix(m, i);
    }
  }

  lemma NotPrefix(m: Word, i: nat)
    requires i <= |m|
    ensures Not(m)[..i] == Not(m[..i])
  {
  }

  lemma {:induction false} CountMonotone(m: Word, i: nat, j: nat)
    requires i <= j <= |m|
    ensures Count(m[..i]) <= Count(m[..j]) <= Count(m[..i]) + (j - i)
  {
    if i < j {
      PrefixStep(m, j - 1);
      CountMonotone(m, i, j - 1);
    }
  }

  /** The `i`-th bit, if selected, lands where the number of selected bits below it says. */
  lemma {:induction false} GatherAt(w: Word, m: Word, i: nat)
    requires |w| == |m| && i < |m| && m[i]
    ensures Count(m[..i]) < Count(m) && Gather(w, m)[Count(m[..i])] == w[i]
  {
    var n := |m| - 1;
    assert m[..n][..i] == m[..i] || i == n;
    if i < n {
      GatherAt(w[..n], m[..n], i);
      assert m[..n][..i] == m[..i];
    } else {
      assert m[..i] == m[..n];
    }
  }

  lemma {:induction false} ScatterAt(v: Word, m: Word, i: nat)
    requires Count(m) <= |v| && i < |m|
    ensures Count(m[..i]) <= Count(m) && (m[i] ==> Count(m[..i]) < Count(m))
    ensures Scatter(v, m)[i] == (m[i] && v[Count(m[..i])])
  {
    var n := |m| - 1;
    if i < n {
      ScatterAt(v, m[..n], i);
      assert m[..n][..i] == m[..i];
    } else {
      assert m[..i] == m[..n];
    }
  }

  // ---------------------------------------------------------------- nothing is lost

  /** Gathering what was scattered gives it back. */
  lemma {:induction false} GatherScatter(v: Word, m: Word)
    requires Count(m) <= |v|
    ensures Gather(Scatter(v, m), m) == v[..Count(m)]
  {
    if m != [] {
      var n := |m| - 1;
      var rest, before, s := m[..n], Scatter(v, m[..n]), Scatter(v, m);
      GatherScatter(v, rest);
      assert s == before + [m[n] && v[Count(rest)]];
      assert s[..n] == before && s[n] == (m[n] && v[Count(rest)]);
      hide Scatter;
      assert Gather(s, m) == Gather(before, rest) + if m[n] then [s[n]] else [];
    }
  }

  /** Inserting zeros where bits were removed clears exactly those bits. */
  lemma InsertAfterRemove(w: Word, m: Word)
    requires |w| == |m|
    ensures Inserted(Removed(w, m), m) == And(w, Not(m))
  {
    var kept := Not(m);
    forall i | 0 <= i < |w| ensures Inserted(Removed(w, m), m)[i] == And(w, kept)[i] {
      ScatterAt(Removed(w, m), kept, i);
      if kept[i] { GatherAt(w, kept, i); }
    }
  }

  /** Removing the zeros that were inserted gives back the bits that did not fall off. */
  lemma RemoveAfterInsert(w: Word, m: Word)
    requires |w| == |m|
    ensures Removed(Inserted(w, m), m) == w[..|w| - Count(m)] + Zeros(Count(m))
  {
    GatherScatter(w, Not(m));
    CountNot(m);
  }

  /** A word is its kept bits and its extracted bits: putting both back gives the word. */
  lemma LosslessSplit(w: Word, m: Word)
    requires |w| == |m|
    ensures Replaced(Inserted(Removed(w, m), m), m, Extracted(w, m)) == w
  {
    InsertAfterRemove(w, m);
    var v := Extracted(w, m);
    forall i | 0 <= i < |w| ensures Replaced(And(w, Not(m)), m, v)[i] == w[i] {
      ScatterAt(v, m, i);
      if m[i] { GatherAt(w, m, i); }
    }
  }

  /** Extracting what was put in gives it back. */
  lemma ExtractAfterReplace(w: Word, m: Word, v: Word)
    requires |w| == |m| == |v|
    ensures Extracted(Replaced(w, m, v), m) == v[..Count(m)] + Zeros(|w| - Count(m))
  {
    hide *;
    ReplacedAtMask(w, m, v);
    SameGather(Replaced(w, m, v), Scatter(v, m), m);
    GatherScatter(v, m);
    ExtractedIs(Replaced(w, m, v), m);
  }

  lemma ReplacedAtMask(w: Word, m: Word, v: Word)
    requires |w| == |m| == |v|
    ensures forall i :: 0 <= i < |m| && m[i] ==> Replaced(w, m, v)[i] == Scatter(v, m)[i]
  {
    hide Scatter;
  }

  lemma ExtractedIs(w: Word, m: Word)
    requires |w| == |m|
    ensures Extracted(w, m) == Gather(w, m) + Zeros(|w| - Count(m))
  {
  }

  lemma {:induction false} SameGather(a: Word, b: Word, m: Word)
    requires |a| == |b| == |m| && forall i :: 0 <= i < |m| && m[i] ==> a[i] == b[i]
    ensures Gather(a, m) == Gather(b, m)
  {
    if m != [] { SameGather(a[..|m| - 1], b[..|m| - 1], m[..|m| - 1]); }
  }

  // ---------------------------------------------------------------- by mask

  lemma AddBit(gathered: Word, w: Word, i: nat)
    requires i < |w| && |gathered| < |w|
    ensures Or(gathered + Zeros(|w| - |gathered|), Shl(GetBit(w, i), |gathered|)) == gathered + [w[i]] + Zeros(|w| - |gathered| - 1)
  {
    hide GetBit;
  }

  method GetBitsByMask(word: Word, mask: Word) returns (res: Word)
    requires |word| == |mask| > 0
    ensures res == Extracted(word, mask)
  {
    res := Zeros(|word|);
    var idx := 0;
    assert word[..|word|] == word && mask[..|mask|] == mask;
    hide Or, Shl, GetBit;
    for i := 0 to |word|
      invariant idx == Count(mask[..i]) <= i
      invariant res == Gather(word[..i], mask[..i]) + Zeros(|word| - idx)
    {
      GatherStep(word, mask, i);
      PrefixStep(mask, i);
      BitTest(mask, i);
      AddBit(Gather(word[..i], mask[..i]), word, i);
      if GetBit(mask, i) != Zeros(|mask|) {
        var temp := GetBit(word, i);
        res := Or(res, Shl(temp, idx));
        idx := idx + 1;
      }
    }
  }

  /** What a C++ condition asks of a single bit. */
  lemma BitTest(mask: Word, i: nat)
    requires i < |mask|
    ensures GetBit(mask, i) != Zeros(|mask|) <==> mask[i]
  {
    assert GetBit(mask, i)[0] == mask[i];
    assert !mask[i] ==> GetBit(mask, i) == Zeros(|mask|);
  }

  /** Removal half way: the bits below `i` have been dealt with, the zeros below them will be shifted out at the end. */
  ghost function Removing(w: Word, m: Word, i: nat): (r: Word)
    requires i <= |m| == |w|
    ensures |r| == |w|
  {
    CountNot(m[..i]);
    Zeros(Count(m[..i])) + Gather(w[..i], Not(m[..i])) + w[i..]
  }

  lemma CloseGap(low: Word, rest: Word)
    requires rest != [] && |low| + |rest| > 1
    ensures Shl(RemoveBit(low + rest, |low|), 1) == [false] + low + rest[1..]
  {
    var word := low + rest;
    assert word[..|low|] == low && word[|low| + 1..] == rest[1..];
    var closed := low + rest[1..] + [false];
    assert RemoveBit(word, |low|) == closed;
    assert closed[..|word| - 1] == low + rest[1..];
    assert Zeros(1) == [false];
    hide RemoveBit;
    assert Shl(closed, 1) == [false] + low + rest[1..];
  }

  lemma GatherNotStep(w: Word, m: Word, i: nat)
    requires i < |m| == |w|
    ensures Gather(w[..i + 1], Not(m[..i + 1])) == Gather(w[..i], Not(m[..i])) + if m[i] then [] else [w[i]]
  {
    NotPrefix(m, i);
    NotPrefix(m, i + 1);
    GatherStep(w, Not(m), i);
  }

  lemma ZeroIn(zeros: Word, g: Word, rest: Word)
    requires zeros == Zeros(|zeros|)
    ensures [false] + (zeros + g) + rest == Zeros(|zeros| + 1) + g + rest
  {
    assert Zeros(|zeros| + 1) == [false] + zeros;
  }

  lemma BitIn(low: Word, g: Word, w: Word, i: nat)
    requires i < |w|
    ensures low + g + w[i..] == low + (g + [w[i]]) + w[i + 1..]
  {
  }

  lemma RemovingStep(w: Word, m: Word, i: nat)
    requires i < |m| == |w| && |w| > 1
    ensures Removing(w, m, i + 1) == if m[i] then Shl(RemoveBit(Removing(w, m, i), i), 1) else Removing(w, m, i)
  {
    PrefixStep(m, i);
    CountNot(m[..i]);
    GatherNotStep(w, m, i);
    var zeros, gathered := Zeros(Count(m[..i])), Gather(w[..i], Not(m[..i]));
    assert |zeros + gathered| == i && gathered + [] == gathered && w[i..][1..] == w[i + 1..];
    hide Gather, Count, Not, Shl, RemoveBit, Zeros;
    if m[i] {
      CloseGap(zeros + gathered, w[i..]);
      ZeroIn(zeros, gathered, w[i + 1..]);
    } else {
      BitIn(zeros, gathered, w, i);
    }
  }

  lemma DropZeros(c: nat, g: Word)
    requires g != []
    ensures Shr(Zeros(c) + g, c) == g + Zeros(c)
  {
    assert (Zeros(c) + g)[c..] == g;
  }

  lemma RemovingFull(w: Word, m: Word)
    requires |m| == |w|
    ensures Removing(w, m, |m|) == Zeros(Count(m)) + Gather(w, Not(m))
  {
    assert m[..|m|] == m && w[..|w|] == w && w[|w|..] == [];
    hide Gather, Count, Not, Zeros;
    AppendNothing(Zeros(Count(m)) + Gather(w, Not(m)));
  }

  lemma RemovingNothing(w: Word, m: Word)
    requires |m| == |w|
    ensures Removing(w, m, 0) == w
  {
    assert Gather([], Not(m[..0])) == [] && w[0..] == w;
  }

  lemma RemovingEnd(w: Word, m: Word)
    requires |m| == |w| && Count(m) < |m|
    ensures Shr(Removing(w, m, |m|), Count(m)) == Removed(w, m)
    ensures Removing(w, m, 0) == w
  {
    CountNot(m);
    RemovingNothing(w, m);
    RemovingFull(w, m);
    ExtractedIs(w, Not(m));
    hide Gather, Count, Not, Zeros, Removing, Extracted, Shr;
    DropZeros(Count(m), Gather(w, Not(m)));
  }

  lemma AppendNothing(a: Word)
    ensures a + [] == a
  {
  }

  method RemoveBitsByMask(word: Word, mask: Word) returns (res: Word)
    requires |word| == |mask| > 1 && Count(mask) < |mask|
    ensures res == Removed(word, mask)
  {
    res := word;
    var shiftAmt := 0;
    RemovingEnd(word, mask);
    hide Removing, Removed;
    for i := 0 to |word|
      invariant shiftAmt == Count(mask[..i]) && res == Removing(word, mask, i)
    {
      RemovingStep(word, mask, i);
      PrefixStep(mask, i);
      BitTest(mask, i);
      if GetBit(mask, i) != Zeros(|mask|) {
        res := RemoveBit(res, i);
        res := Shl(res, 1);
        shiftAmt := shiftAmt + 1;
      }
    }
    assert mask[..|mask|] == mask;
    res := Shr(res, shiftAmt);
  }

  /** Insertion half way: the bits below `i` are final, the ones above still have to make room. */
  ghost function Inserting(w: Word, m: Word, i: nat): (r: Word)
    requires i <= |m| == |w|
    ensures |r| == |w|
  {
    CountNot(m[..i]);
    Scatter(w, Not(m[..i])) + w[Count(Not(m[..i]))..|w| - Count(m[..i])]
  }

  lemma OpenGap(low: Word, rest: Word)
    requires rest != [] && |low| + |rest| > 1
    ensures InsertBit(low + rest, |low|) == low + [false] + rest[..|rest| - 1]
  {
    var word := low + rest;
    assert word[..|low|] == low && word[|low|..|word| - 1] == rest[..|rest| - 1];
  }

  lemma ScatterNotStep(w: Word, m: Word, i: nat)
    requires i < |m| <= |w|
    ensures Count(Not(m[..i + 1])) == Count(Not(m[..i])) + (if m[i] then 0 else 1) <= i + 1
    ensures Scatter(w, Not(m[..i + 1])) == Scatter(w, Not(m[..i])) + [!m[i] && w[Count(Not(m[..i]))]]
  {
    NotPrefix(m, i);
    NotPrefix(m, i + 1);
    PrefixStep(Not(m), i);
    ScatterStep(w, Not(m), i);
  }

  lemma InsertingIs(w: Word, m: Word, i: nat)
    requires i <= |m| == |w|
    ensures Count(Not(m[..i])) == i - Count(m[..i]) && Count(m[..i]) <= i
    ensures Inserting(w, m, i) == Scatter(w, Not(m[..i])) + w[i - Count(m[..i])..|w| - Count(m[..i])]
  {
    CountNot(m[..i]);
  }

  lemma RestNext(low: Word, w: Word, from: nat, to: nat)
    requires from < to <= |w|
    ensures w[from..to] != [] && w[from..to][..to - from - 1] == w[from..to - 1]
    ensures low + w[from..to] == low + [w[from]] + w[from + 1..to]
  {
  }

  lemma InsertingStep(w: Word, m: Word, i: nat)
    requires i < |m| == |w| && |w| > 1
    ensures Inserting(w, m, i + 1) == if m[i] then InsertBit(Inserting(w, m, i), i) else Inserting(w, m, i)
  {
    hide *;
    InsertingIs(w, m, i);
    InsertingIs(w, m, i + 1);
    PrefixStep(m, i);
    ScatterNotStep(w, m, i);
    var low := Scatter(w, Not(m[..i]));
    var from, to := i - Count(m[..i]), |w| - Count(m[..i]);
    RestNext(low, w, from, to);
    if m[i] { OpenGap(low, w[from..to]); }
  }

  lemma InsertingEnd(w: Word, m: Word)
    requires |m| == |w|
    ensures Inserting(w, m, |m|) == Inserted(w, m)
    ensures Inserting(w, m, 0) == w
  {
    assert m[..|m|] == m;
    CountNot(m);
  }

  method InsertBitsByMask(word: Word, mask: Word) returns (ret: Word)
    requires |word| == |mask| > 1
    ensures ret == Inserted(word, mask)
  {
    ret := word;
    InsertingEnd(word, mask);
    hide Inserting, Inserted;
    for i := 0 to |word|
      invariant ret == Inserting(word, mask, i)
    {
      InsertingStep(word, mask, i);
      BitTest(mask, i);
      if GetBit(mask, i) != Zeros(|mask|) {
        ret := InsertBit(ret, i);
      }
    }
  }

  /** What is left of `v` once its lowest `c` bits have been shifted out. */
  ghost function Shifted(v: Word, c: nat): (r: Word)
    requires c <= |v|
    ensures |r| == |v| && (c < |v| ==> r[0] == v[c])
  {
    v[c..] + Zeros(c)
  }

  lemma ShiftedNext(v: Word, c: nat)
    requires c < |v| && |v| > 1
    ensures Shr(Shifted(v, c), 1) == Shifted(v, c + 1)
  {
  }

  /** Replacement half way: the bits below `i` are done. */
  ghost predicate Replacing(w: Word, m: Word, v: Word, i: nat, ret: Word)
    requires i <= |w| == |m| == |v|
  {
    && |ret| == |w|
    && (forall j :: i <= j < |w| ==> ret[j] == w[j])
    && (forall j :: 0 <= j < i ==> Count(m[..j]) < |v| && ret[j] == if m[j] then v[Count(m[..j])] else w[j])
  }

  lemma ReplacingStep(w: Word, m: Word, v: Word, i: nat, ret: Word, ret': Word)
    requires i < |w| == |m| == |v| && Replacing(w, m, v, i, ret) && Count(m[..i]) <= i
    requires ret' == if m[i] then ret[i := v[Count(m[..i])]] else ret
    ensures Replacing(w, m, v, i + 1, ret')
  {
    hide Count;
  }

  lemma ReplacingEnd(w: Word, m: Word, v: Word, ret: Word)
    requires |w| == |m| == |v| && Replacing(w, m, v, |w|, ret)
    ensures ret == Replaced(w, m, v)
  {
    forall j | 0 <= j < |w| ensures ret[j] == Replaced(w, m, v)[j] { ScatterAt(v, m, j); }
  }

  method ReplaceBitsByMask(word: Word, mask: Word, newVal: Word) returns (ret: Word)
    requires |word| == |mask| == |newVal| > 1
    ensures ret == Replaced(word, mask, newVal)
  {
    ret := word;
    var nval := newVal;
    assert Shifted(newVal, 0) == newVal && Replacing(word, mask, newVal, 0, word);
    hide Replaced, Replacing, Shifted, GetBit, GetLSB, ReplaceBit, Shr;
    for i := 0 to |word|
      invariant Count(mask[..i]) <= i && nval == Shifted(newVal, Count(mask[..i]))
      invariant |ret| == |word| && Replacing(word, mask, newVal, i, ret)
    {
      PrefixStep(mask, i);
      BitTest(mask, i);
      ghost var before := ret;
      if GetBit(mask, i) != Zeros(|mask|) {
        ShiftedNext(newVal, Count(mask[..i]));
        ret := ReplaceBit(ret, i, GetLSB(nval));
        nval := Shr(nval, 1);
      }
      ReplacingStep(word, mask, newVal, i, before, ret);
    }
    ReplacingEnd(word, mask, newVal, ret);
  }

  // ---------------------------------------------------------------- by list of indices

  ghost predicate Ascending(idxs: seq<nat>, width: nat) {
    && (forall k :: 0 <= k < |idxs| ==> idxs[k] < width)
    && (forall j, k :: 0 <= j < k < |idxs| ==> idxs[j] < idxs[k])
  }

  /** The mask with the listed bits set. */
  ghost function MaskOf(idxs: seq<nat>, width: nat): (r: Word)
    ensures |r| == width
  {
    seq(width, i requires 0 <= i < width => i in idxs)
  }

  lemma {:induction false} RemovingSkips(w: Word, m: Word, i: nat, j: nat)
    requires i <= j <= |m| == |w| && |w| > 1 && forall k :: i <= k < j ==> !m[k]
    ensures Removing(w, m, j) == Removing(w, m, i) && Count(m[..j]) == Count(m[..i])
    decreases j
  {
    hide Removing, Count;
    if i < j {
      RemovingSkips(w, m, i, j - 1);
      RemovingStep(w, m, j - 1);
      PrefixStep(m, j - 1);
    }
  }

  /** Just after the `k`-th listed bit, and before the next. */
  ghost function After(idxs: seq<nat>, k: nat): nat
    requires k <= |idxs|
  {
    if k == 0 then 0 else idxs[k - 1] + 1
  }

  lemma GapIsKept(idxs: seq<nat>, width: nat, k: nat)
    requires Ascending(idxs, width) && k <= |idxs|
    ensures var to := if k < |idxs| then idxs[k] else width;
            After(idxs, k) <= to <= width && forall i :: After(idxs, k) <= i < to ==> !MaskOf(idxs, width)[i]
    ensures k < |idxs| ==> MaskOf(idxs, width)[idxs[k]]
  {
    var to := if k < |idxs| then idxs[k] else width;
    forall i | After(idxs, k) <= i < to ensures i !in idxs {
      forall j | 0 <= j < |idxs| ensures idxs[j] != i {
        if j < k { assert idxs[j] <= idxs[k - 1]; } else { assert idxs[j] >= to; }
      }
    }
  }

  /** `k` bits below `from` have been removed; their zeros are still below. */
  ghost predicate RemovedTo(w: Word, m: Word, from: nat, k: nat, res: Word)
    requires |w| == |m|
  {
    from <= |w| && res == Removing(w, m, from) && Count(m[..from]) == k
  }

  /** The first `k` listed bits have been removed. */
  ghost predicate RemovedFirst(word: Word, idxs: seq<nat>, k: nat, res: Word)
    requires k <= |idxs|
  {
    RemovedTo(word, MaskOf(idxs, |word|), After(idxs, k), k, res)
  }

  lemma RemoveNext(word: Word, idxs: seq<nat>, k: nat, res: Word)
    requires |word| > 1 && Ascending(idxs, |word|) && k < |idxs| && RemovedFirst(word, idxs, k, res)
    ensures |res| == |word| && idxs[k] < |word|
    ensures RemovedFirst(word, idxs, k + 1, Shl(RemoveBit(res, idxs[k]), 1))
  {
    GapIsKept(idxs, |word|, k);
    var mask, from, at := MaskOf(idxs, |word|), After(idxs, k), idxs[k];
    assert from <= at < |word| && mask[at] && (forall i :: from <= i < at ==> !mask[i]);
    assert RemovedTo(word, mask, from, k, res);
    assert After(idxs, k + 1) == at + 1;
    hide MaskOf, RemovedTo, Shl, RemoveBit, Ascending, After;
    RemoveAt(word, mask, from, k, at, res);
  }

  lemma RemoveAt(w: Word, m: Word, from: nat, k: nat, at: nat, res: Word)
    requires from <= at < |m| == |w| && |w| > 1 && m[at] && (forall i :: from <= i < at ==> !m[i])
    requires RemovedTo(w, m, from, k, res)
    ensures |res| == |w| && RemovedTo(w, m, at + 1, k + 1, Shl(RemoveBit(res, at), 1))
  {
    hide Removing, Count, Shl, RemoveBit;
    RemovingSkips(w, m, from, at);
    RemovingStep(w, m, at);
    PrefixStep(m, at);
  }

  lemma RemoveLast(word: Word, idxs: seq<nat>, res: Word)
    requires |word| > 1 && Ascending(idxs, |word|) && |idxs| < |word| && RemovedFirst(word, idxs, |idxs|, res)
    ensures |res| == |word| && Shr(res, |idxs|) == Removed(word, MaskOf(idxs, |word|))
  {
    var mask := MaskOf(idxs, |word|);
    GapIsKept(idxs, |word|, |idxs|);
    hide MaskOf, Removing, Removed, Count, Shr;
    RemovingSkips(word, mask, After(idxs, |idxs|), |word|);
    assert mask[..|word|] == mask;
    RemovingEnd(word, mask);
  }

  lemma RemoveNone(word: Word, idxs: seq<nat>)
    requires |word| > 1 && Ascending(idxs, |word|) && |idxs| < |word|
    ensures RemovedFirst(word, idxs, 0, word)
  {
    var mask := MaskOf(idxs, |word|);
    assert Zeros(0) + Gather(word[..0], Not(mask[..0])) == [];
  }

  method RemoveBits(word: Word, bitIndices: seq<nat>) returns (res: Word)
    requires |word| > 1 && Ascending(bitIndices, |word|) && |bitIndices| < |word|
    ensures res == Removed(word, MaskOf(bitIndices, |word|))
  {
    res := word;
    var shiftAmt := 0;
    RemoveNone(word, bitIndices);
    hide Ascending, RemovedFirst, RemoveBit, Shl, Shr, MaskOf, Removed;
    for k := 0 to |bitIndices|
      invariant shiftAmt == k && RemovedFirst(word, bitIndices, k, res)
    {
      RemoveNext(word, bitIndices, k, res);
      res := RemoveBit(res, bitIndices[k]);
      res := Shl(res, 1);
      shiftAmt := shiftAmt + 1;
    }
    RemoveLast(word, bitIndices, res);
    res := Shr(res, shiftAmt);
  }

  // ---------------------------------------------------------------- by the ranges between removed bits

  /** `inner[j]` holds the kept bits with exactly `j` removed bits below them. */
  ghost predicate InnerBits(inner: seq<Word>, mask: Word) {
    && |inner| == Count(mask) + 1
    && (forall j :: 0 <= j < |inner| ==> |inner[j]| == |mask|)
    && (forall j, i :: 0 <= j < |inner| && 0 <= i < |mask| ==> (inner[j][i] <==> !mask[i] && Count(mask[..i]) == j))
  }

  /** The first `j` inner ranges of `w`, each moved down past the removed bits below it. */
  ghost predicate Collected(w: Word, mask: Word, j: nat, ret: Word) {
    && |ret| == |w| == |mask|
    && (forall r :: 0 <= r < |w| ==> (ret[r] <==> exists i :: 0 <= i < |w| && Lands(w, mask, j, i, r)))
  }

  /** Kept bit `i` is set, belongs to one of the first `j` ranges, and moves to position `r`. */
  ghost predicate Lands(w: Word, mask: Word, j: nat, i: nat, r: int)
    requires i < |w| == |mask|
  {
    !mask[i] && w[i] && Count(mask[..i]) < j && r == i - Count(mask[..i])
  }

  lemma AllZero(a: Word)
    ensures (forall i :: 0 <= i < |a| ==> !a[i]) ==> a == Zeros(|a|)
  {
  }

  lemma NonzeroInner(inner: seq<Word>, mask: Word, j: nat)
    requires InnerBits(inner, mask) && j < |inner| && inner[j] != Zeros(|mask|)
    ensures j < |mask|
  {
    AllZero(inner[j]);
    var i: nat :| i < |mask| && inner[j][i];
    assert Count(mask[..i]) <= i;
  }

  lemma CollectedStep(w: Word, inner: seq<Word>, mask: Word, j: nat, ret: Word)
    requires InnerBits(inner, mask) && j < |inner| && j < |w| && Collected(w, mask, j, ret)
    ensures Collected(w, mask, j + 1, Or(ret, Shr(And(w, inner[j]), j)))
  {
    var ret' := Or(ret, Shr(And(w, inner[j]), j));
    hide Count;
    var next := j + 1;
    forall r: nat | r < |w| ensures ret'[r] <==> exists i :: 0 <= i < |w| && Lands(w, mask, next, i, r) {
      if ret'[r] {
        if ret[r] {
          var i :| 0 <= i < |w| && Lands(w, mask, j, i, r);
          assert Lands(w, mask, next, i, r);
        } else {
          assert Lands(w, mask, next, r + j, r);
        }
      }
      if i: nat :| i < |w| && Lands(w, mask, next, i, r) {
        if Count(mask[..i]) < j { assert Lands(w, mask, j, i, r); } else { assert inner[j][i]; }
      }
    }
  }

  lemma CollectedSkip(w: Word, inner: seq<Word>, mask: Word, j: nat, ret: Word)
    requires InnerBits(inner, mask) && j < |inner| && Collected(w, mask, j, ret) && inner[j] == Zeros(|mask|)
    ensures Collected(w, mask, j + 1, ret)
  {
    hide Count;
    var next := j + 1;
    forall r: nat | r < |w| ensures ret[r] <==> exists i :: 0 <= i < |w| && Lands(w, mask, next, i, r) {
      if ret[r] {
        var i :| 0 <= i < |w| && Lands(w, mask, j, i, r);
        assert Lands(w, mask, next, i, r);
      }
      if i: nat :| i < |w| && Lands(w, mask, next, i, r) {
        assert !inner[j][i];
        assert Lands(w, mask, j, i, r);
      }
    }
  }

  lemma LandsMeansRank(mask: Word, i: nat)
    requires i <= |mask|
    ensures i - Count(mask[..i]) == Count(Not(mask)[..i])
  {
    NotPrefix(mask, i);
    CountNot(mask[..i]);
  }

  /** The `r`-th kept bit. */
  lemma {:induction false} KeptAt(kept: Word, r: nat) returns (i: nat)
    requires r < Count(kept)
    ensures i < |kept| && kept[i] && Count(kept[..i]) == r
  {
    var n := |kept| - 1;
    if r < Count(kept[..n]) {
      i := KeptAt(kept[..n], r);
      assert kept[..n][..i] == kept[..i];
    } else {
      i := n;
    }
  }

  /** Where a kept bit lands is where `Removed` puts it. */
  lemma LandsRight(w: Word, mask: Word, i: nat, r: nat)
    requires i < |w| == |mask| && !mask[i]
    ensures r == i - Count(mask[..i]) ==> r < Count(Not(mask)) && Removed(w, mask)[r] == w[i]
    ensures Count(mask[..i]) <= Count(mask)
  {
    LandsMeansRank(mask, i);
    GatherAt(w, Not(mask), i);
    CountMonotone(mask, i, |mask|);
    assert mask[..|mask|] == mask;
  }

  lemma CollectedAt(w: Word, mask: Word, ret: Word, r: nat)
    requires Collected(w, mask, Count(mask) + 1, ret) && r < |w|
    ensures ret[r] == Removed(w, mask)[r]
  {
    if r < Count(Not(mask)) {
      var i := KeptAt(Not(mask), r);
      LandsMeansRank(mask, i);
      LandsRight(w, mask, i, r);
      if w[i] { assert Lands(w, mask, Count(mask) + 1, i, r); }
    }
    if ret[r] {
      var i: nat :| i < |w| && Lands(w, mask, Count(mask) + 1, i, r);
      LandsRight(w, mask, i, r);
    }
  }

  lemma CollectedAll(w: Word, mask: Word, ret: Word)
    requires Collected(w, mask, Count(mask) + 1, ret)
    ensures ret == Removed(w, mask)
  {
    forall r: nat | r < |w| ensures ret[r] == Removed(w, mask)[r] { CollectedAt(w, mask, ret, r); }
  }

  method RemoveBitsByInnerBits(word: Word, innerBitIndices: seq<Word>, ghost mask: Word) returns (ret: Word)
    requires |word| == |mask| && InnerBits(innerBitIndices, mask)
    ensures ret == Removed(word, mask)
  {
    ret := Zeros(|word|);
    InnerCount(innerBitIndices, mask);
    hide Count, Removed, InnerBits;
    var idx := 0;
    for k := 0 to |innerBitIndices|
      invariant idx == k && Collected(word, mask, k, ret)
    {
      InnerWidth(innerBitIndices, mask, k);
      var i := innerBitIndices[k];
      if i != Zeros(|word|) {
        NonzeroInner(innerBitIndices, mask, k);
        CollectedStep(word, innerBitIndices, mask, k, ret);
        ret := Or(ret, Shr(And(word, i), idx));
      } else {
        CollectedSkip(word, innerBitIndices, mask, k, ret);
      }
      idx := idx + 1;
    }
    CollectedAll(word, mask, ret);
  }

  lemma InnerCount(inner: seq<Word>, mask: Word)
    requires InnerBits(inner, mask)
    ensures |inner| == Count(mask) + 1
  {
  }

  lemma InnerWidth(inner: seq<Word>, mask: Word, j: nat)
    requires InnerBits(inner, mask) && j < |inner|
    ensures |inner[j]| == |mask|
  {
  }

  /** The first `j` inner ranges, each moved up to where it came from. */
  ghost predicate Spread(w: Word, mask: Word, j: nat, ret: Word) {
    && |ret| == |w| == |mask|
    && (forall p :: 0 <= p < |w| ==> Count(mask[..p]) <= p && (ret[p] <==> !mask[p] && Count(mask[..p]) < j && w[p - Count(mask[..p])]))
  }

  lemma SpreadStep(w: Word, inner: seq<Word>, mask: Word, j: nat, ret: Word)
    requires InnerBits(inner, mask) && j < |inner| && j < |w| && Spread(w, mask, j, ret)
    ensures Spread(w, mask, j + 1, Or(ret, Shl(And(w, Shr(inner[j], j)), j)))
  {
    var moved := Shl(And(w, Shr(inner[j], j)), j);
    hide Count;
    forall p | 0 <= p < |w| ensures moved[p] <==> !mask[p] && Count(mask[..p]) == j && w[p - Count(mask[..p])] {
      assert moved[p] <==> j <= p && w[p - j] && inner[j][p];
    }
  }

  lemma SpreadSkip(w: Word, inner: seq<Word>, mask: Word, j: nat, ret: Word)
    requires InnerBits(inner, mask) && j < |inner| && Spread(w, mask, j, ret) && inner[j] == Zeros(|mask|)
    ensures Spread(w, mask, j + 1, ret)
  {
    hide Count;
    forall p | 0 <= p < |w| ensures !mask[p] ==> Count(mask[..p]) != j { assert !inner[j][p]; }
  }

  lemma InsertedAt(w: Word, mask: Word, p: nat)
    requires p < |w| == |mask|
    ensures Count(mask[..p]) <= p && Count(mask[..p]) <= Count(mask)
    ensures Inserted(w, mask)[p] == (!mask[p] && w[p - Count(mask[..p])])
  {
    ScatterAt(w, Not(mask), p);
    LandsMeansRank(mask, p);
    CountMonotone(mask, p, |mask|);
    assert mask[..|mask|] == mask;
    hide Scatter, Count;
  }

  lemma SpreadAll(w: Word, mask: Word, ret: Word)
    requires Spread(w, mask, Count(mask) + 1, ret)
    ensures ret == Inserted(w, mask)
  {
    hide Inserted, Count;
    forall p: nat | p < |w| ensures ret[p] == Inserted(w, mask)[p] { InsertedAt(w, mask, p); }
  }

  lemma SpreadNone(w: Word, mask: Word)
    requires |w| == |mask|
    ensures Spread(w, mask, 0, Zeros(|w|))
  {
    forall p | 0 <= p < |w| ensures Count(mask[..p]) <= p {}
  }

  method InsertBitsByInnerBits(word: Word, innerBitIndices: seq<Word>, ghost mask: Word) returns (ret: Word)
    requires |word| == |mask| && InnerBits(innerBitIndices, mask)
    ensures ret == Inserted(word, mask)
  {
    ret := Zeros(|word|);
    SpreadNone(word, mask);
    InnerCount(innerBitIndices, mask);
    hide Count, Inserted, InnerBits;
    var idx := 0;
    for k := 0 to |innerBitIndices|
      invariant idx == k && Spread(word, mask, k, ret)
    {
      InnerWidth(innerBitIndices, mask, k);
      var i := innerBitIndices[k];
      if i != Zeros(|word|) {
        NonzeroInner(innerBitIndices, mask, k);
        SpreadStep(word, innerBitIndices, mask, k, ret);
        ret := Or(ret, Shl(And(word, Shr(i, idx)), idx));
      } else {
        SpreadSkip(word, innerBitIndices, mask, k, ret);
      }
      idx := idx + 1;
    }
    SpreadAll(word, mask, ret);
  }

  /** Every mask has its inner ranges. */
  lemma InnerBitsExist(mask: Word) returns (inner: seq<Word>)
    ensures InnerBits(inner, mask)
  {
    inner := seq(Count(mask) + 1, j requires 0 <= j => InnerRange(mask, j));
  }

  ghost function InnerRange(mask: Word, j: nat): (r: Word)
    ensures |r| == |mask| && forall i :: 0 <= i < |mask| ==> (r[i] <==> !mask[i] && Count(mask[..i]) == j)
  {
    seq(|mask|, i requires 0 <= i < |mask| => !mask[i] && Count(mask[..i]) == j)
  }
}
