/** The order in which ELF segments are laid out (`get_ordered_segments`). */
module ElfSegments {
  import opened Sequences
  import opened MachineWords

  /** A program header. Its sections are known by their indices. */
  datatype Segment = Segment(typ: nat, sections: seq<nat>, align: u64, vaddr: u64, offset: u64, offsetSet: bool, fileSize: u64, memSize: u64)

  // ---------------------------------------------------------------- containment

  ghost predicate Sorted(s: seq<nat>) {
    forall i, j :: 0 <= i < j < |s| ==> s[i] <= s[j]
  }

  /** What `std::includes` computes: a merge over two ranges. */
  ghost function Merge(big: seq<nat>, small: seq<nat>): bool {
    if small == [] then true
    else if big == [] || small[0] < big[0] then false
    else if big[0] < small[0] then Merge(big[1..], small)
    else Merge(big[1..], small[1..])
  }

  method Includes(big: seq<nat>, small: seq<nat>) returns (r: bool)
    ensures r == Merge(big, small)
  {
    var i, j := 0, 0;
    while j < |small|
      invariant i <= |big| && j <= |small|
      invariant Merge(big, small) == Merge(big[i..], small[j..])
      decreases |big| - i
    {
      if i == |big| || small[j] < big[i] {
        return false;
      }
      if !(big[i] < small[j]) {
        j := j + 1;
      }
      i := i + 1;
    }
    return true;
  }

  lemma TailFacts(s: seq<nat>)
    requires s != [] && Sorted(s)
    ensures Sorted(s[1..]) && multiset(s) == multiset(s[1..]) + multiset{s[0]}
    ensures forall x :: x in s ==> s[0] <= x
  {
    assert s == [s[0]] + s[1..];
  }

  /** Removing the common first element on both sides changes nothing about inclusion. */
  lemma SameHead(a: multiset<nat>, b: multiset<nat>, x: nat)
    ensures a + multiset{x} <= b + multiset{x} <==> a <= b
  {
    if a <= b {
      forall y ensures (a + multiset{x})[y] <= (b + multiset{x})[y] {}
    }
    if a + multiset{x} <= b + multiset{x} {
      forall y ensures a[y] <= b[y] { assert (a + multiset{x})[y] <= (b + multiset{x})[y]; }
    }
  }

  lemma OtherHead(a: multiset<nat>, b: multiset<nat>, x: nat)
    requires x !in a
    ensures a <= b + multiset{x} <==> a <= b
  {
    if a <= b + multiset{x} {
      forall y ensures a[y] <= b[y] { assert a[y] <= (b + multiset{x})[y]; }
    }
  }

  /** On sorted ranges the merge decides multiset inclusion. */
  lemma {:induction false} MergeMeansSubset(big: seq<nat>, small: seq<nat>)
    requires Sorted(big) && Sorted(small)
    ensures Merge(big, small) <==> multiset(small) <= multiset(big)
  {
    if small != [] {
      TailFacts(small);
      assert small[0] in multiset(small);
      if big != [] {
        TailFacts(big);
        if big[0] < small[0] {
          MergeMeansSubset(big[1..], small);
          OtherHead(multiset(small), multiset(big[1..]), big[0]);
        } else if big[0] == small[0] {
          MergeMeansSubset(big[1..], small[1..]);
          SameHead(multiset(small[1..]), multiset(big[1..]), big[0]);
        } else {
          assert small[0] !in multiset(big);
        }
      }
    }
  }

  /** `a`'s sections are among `b`'s, and there are fewer of them. */
  ghost predicate Inside(a: Segment, b: Segment) {
    |a.sections| < |b.sections| && Merge(b.sections, a.sections)
  }

  method IsSubsequenceOf(seg1: Segment, seg2: Segment) returns (found: bool)
    ensures found == Inside(seg1, seg2)
  {
    found := false;
    if |seg1.sections| < |seg2.sections| {
      found := Includes(seg2.sections, seg1.sections);
    }
  }

  /** For sorted section lists: strict containment, counting repetitions. */
  lemma InsideMeansStrictSubset(a: Segment, b: Segment)
    requires Sorted(a.sections) && Sorted(b.sections)
    ensures Inside(a, b) <==> multiset(a.sections) < multiset(b.sections)
  {
    MergeMeansSubset(b.sections, a.sections);
    var x, y := multiset(a.sections), multiset(b.sections);
    if x <= y {
      assert y == x + (y - x);
      assert |x| == |a.sections| && |y| == |b.sections|;
    }
  }

  // ---------------------------------------------------------------- segments that start at offset 0

  predicate AtZero(s: Segment) {
    s.offsetSet && s.offset == 0
  }

  /** `w` lists segments by index, each once. */
  ghost predicate Lists(w: seq<nat>, n: nat) {
    NoDup(w) && (forall i: nat :: i in w <==> i < n)
  }

  lemma SwapLists(w: seq<nat>, n: nat, i: nat, j: nat)
    requires Lists(w, n) && i < |w| && j < |w|
    ensures Lists(w[i := w[j]][j := w[i]], n)
  {
    var w' := w[i := w[j]][j := w[i]];
    forall x ensures x in w' <==> x in w {
      if x in w { var k :| 0 <= k < |w| && w[k] == x; assert w'[if k == i then j else if k == j then i else k] == x; }
    }
  }

  ghost function Identity(n: nat): (r: seq<nat>)
    ensures |r| == n && forall i :: 0 <= i < n ==> r[i] == i
  {
    seq(n, i requires 0 <= i < n => i)
  }

  lemma IdentityLists(n: nat)
    ensures Lists(Identity(n), n)
  {
    var r := Identity(n);
    forall i: nat | i < n ensures i in r { assert r[i] == i; }
  }

  /** How far behind the other zero-offset segments the loop leaves a zero-offset segment that was first,
      after looking at the first `i` segments. */
  ghost function Displaced(zero: seq<bool>, i: nat): nat
    requires i <= |zero|
  {
    if i <= 1 then 0
    else
      var d := Displaced(zero, i - 1);
      if !zero[i - 1] then d
      else if d > 0 then d - 1
      else i - 1 - Zeros(zero, i - 1)
  }

  /** How many of the first `i` segments start at offset 0. */
  ghost function Zeros(zero: seq<bool>, i: nat): (n: nat)
    requires i <= |zero|
    ensures n <= i
  {
    if i == 0 then 0 else Zeros(zero, i - 1) + if zero[i - 1] then 1 else 0
  }

  ghost function ZeroFlags(segments: seq<Segment>): (r: seq<bool>)
    ensures |r| == |segments| && forall i :: 0 <= i < |r| ==> r[i] == AtZero(segments[i])
  {
    seq(|segments|, i requires 0 <= i < |segments| => AtZero(segments[i]))
  }

  /** The positions among the first `i` where a segment starts at offset 0, in ascending order. */
  ghost function ZeroPositions(zero: seq<bool>, i: nat): (z: seq<nat>)
    requires i <= |zero|
    ensures |z| == Zeros(zero, i)
    ensures forall k :: 0 <= k < |z| ==> k <= z[k] < i && zero[z[k]]
    ensures forall j :: 0 <= j < i && zero[j] ==> j in z
  {
    if i == 0 then [] else if zero[i - 1] then ZeroPositions(zero, i - 1) + [i - 1] else ZeroPositions(zero, i - 1)
  }

  /** Going from number `k` to the place behind the `k`-th of these positions, and on from there: the first number beyond them. */
  ghost function Reach(z: seq<nat>, k: nat): (r: nat)
    requires forall j :: 0 <= j < |z| ==> j <= z[j]
    ensures r >= |z|
    decreases |z| - k
  {
    if k >= |z| then k else Reach(z, z[k] + 1)
  }

  lemma {:induction false} ReachPush(z: seq<nat>, x: nat, k: nat)
    requires (forall j :: 0 <= j < |z| ==> j <= z[j]) && |z| <= x
    ensures Reach(z + [x], k) == if Reach(z, k) == |z| then x + 1 else Reach(z, k)
    decreases |z| - k
  {
    var z' := z + [x];
    if k < |z| {
      assert z'[k] == z[k];
      ReachPush(z, x, z[k] + 1);
    } else if k == |z| {
      assert z'[k] == x;
      assert Reach(z', x + 1) == x + 1;
    }
  }

  /** The loop's displacement is how far one overshoots the number of zero-offset segments. */
  lemma {:induction false} DisplacedIs(zero: seq<bool>, i: nat)
    requires 0 < i <= |zero| && zero[0]
    ensures Displaced(zero, i) == Reach(ZeroPositions(zero, i), 0) - |ZeroPositions(zero, i)|
  {
    if i == 1 {
      assert ZeroPositions(zero, 0) == [] && ZeroPositions(zero, 1) == [0];
      assert Reach([0], 0) == Reach([0], 1) == 1;
    } else {
      DisplacedIs(zero, i - 1);
      if zero[i - 1] { ReachPush(ZeroPositions(zero, i - 1), i - 1, 0); }
    }
  }

  /** If a zero-offset segment is first: starting at 0 and always going behind the zero-offset segment with the number reached, one
      arrives at exactly their number. */
  ghost predicate ComesRound(segments: seq<Segment>) {
    var zero := ZeroFlags(segments);
    |zero| > 0 && zero[0] ==> Reach(ZeroPositions(zero, |zero|), 0) == Zeros(zero, |zero|)
  }

  /** All zero-offset segments come before all others. */
  ghost predicate ZerosFirst(zero: seq<bool>, w: seq<nat>) {
    forall i, j :: 0 <= i < j < |w| && w[i] < |zero| && w[j] < |zero| && zero[w[j]] ==> zero[w[i]]
  }

  /** Half way: `i` segments looked at, the first `next` of the list start at 0; so may one more, `d` places further on. */
  ghost predicate Swapping(zero: seq<bool>, w: seq<nat>, i: nat, next: nat) {
    && Lists(w, |zero|) && |w| == |zero| && i <= |zero|
    && (forall k :: i <= k < |zero| ==> w[k] == k)
    && (forall k :: 0 <= k < |w| ==> w[k] < |zero|)
    && if i > 0 && zero[0] then
         && next + 1 == Zeros(zero, i) && next + Displaced(zero, i) < i
         && (forall k :: 0 <= k < i ==> (zero[w[k]] <==> k < next || k == next + Displaced(zero, i)))
       else
         next == Zeros(zero, i) && (i > 0 ==> next < i) && (forall k :: 0 <= k < i ==> (zero[w[k]] <==> k < next))
  }

  lemma SwappingKeeps(zero: seq<bool>, w: seq<nat>, i: nat, next: nat)
    requires Swapping(zero, w, i, next) && i < |zero| && !zero[i] && (i == 0 ==> next == 0)
    ensures Swapping(zero, w, i + 1, next)
  {
    if i == 0 { assert Zeros(zero, 1) == 0; }
  }

  lemma SwappingFirst(zero: seq<bool>, w: seq<nat>)
    requires Swapping(zero, w, 0, 0) && |zero| > 0
    ensures Swapping(zero, w, 1, 0)
  {
    assert Zeros(zero, 1) == if zero[0] then 1 else 0;
  }

  lemma SwappingMoves(zero: seq<bool>, w: seq<nat>, i: nat, next: nat)
    requires Swapping(zero, w, i, next) && 0 < i < |zero| && zero[i] && next < i
    ensures Swapping(zero, w[i := w[next]][next := w[i]], i + 1, next + 1)
  {
    SwapLists(w, |zero|, i, next);
    assert Zeros(zero, i + 1) == Zeros(zero, i) + 1;
  }

  lemma SwappingDone(zero: seq<bool>, w: seq<nat>, next: nat)
    requires Swapping(zero, w, |zero|, next)
    ensures ZerosFirst(zero, w) <==> |zero| == 0 || !zero[0] || Displaced(zero, |zero|) == 0
  {
    if |zero| > 0 && zero[0] && Displaced(zero, |zero|) > 0 {
      assert !zero[w[next]] && zero[w[next + Displaced(zero, |zero|)]];
    }
  }

  /** The positions among the first `i`, from the second on, where a segment starts at offset 0. */
  ghost function Front(zero: seq<bool>, i: nat): (f: seq<nat>)
    requires i <= |zero|
    ensures i > 0 ==> |f| < i
  {
    if i <= 1 then [] else Front(zero, i - 1) + if zero[i - 1] then [i - 1] else []
  }

  /** The other positions among the first `i`: each zero-offset segment moved to the front sends the first of them to the back. */
  ghost function Behind(zero: seq<bool>, i: nat): (b: seq<nat>)
    requires i <= |zero|
    ensures |b| + |Front(zero, i)| == i
  {
    if i <= 1 then Identity(i)
    else
      var b := Behind(zero, i - 1);
      if zero[i - 1] then b[1..] + [b[0]] else b + [i - 1]
  }

  /** The order in which the segments wait after those at offset 0 have been brought to the front. */
  ghost function FrontOrder(zero: seq<bool>): (w: seq<nat>)
    ensures |w| == |zero|
  {
    Front(zero, |zero|) + Behind(zero, |zero|)
  }

  /** The front is exactly the zero-offset positions but the first, in ascending order. */
  lemma {:induction false} FrontIsZeros(zero: seq<bool>, i: nat)
    requires i <= |zero|
    ensures forall k: nat :: k in Front(zero, i) <==> 0 < k < i && zero[k]
    ensures forall a, b :: 0 <= a < b < |Front(zero, i)| ==> Front(zero, i)[a] < Front(zero, i)[b]
  {
    hide *;
    FrontNext(zero, i);
    if i > 1 {
      FrontIsZeros(zero, i - 1);
      AscendPush(Front(zero, i - 1), i - 1);
    }
  }

  lemma FrontNext(zero: seq<bool>, i: nat)
    requires i <= |zero|
    ensures Front(zero, i) == if i <= 1 then [] else Front(zero, i - 1) + if zero[i - 1] then [i - 1] else []
  {
  }

  lemma AscendPush(f: seq<nat>, x: nat)
    requires (forall k :: k in f ==> k < x) && forall a, b :: 0 <= a < b < |f| ==> f[a] < f[b]
    ensures forall a, b :: 0 <= a < b < |f + [x]| ==> (f + [x])[a] < (f + [x])[b]
    ensures forall k :: k in f + [x] <==> k in f || k == x
  {
    assert forall a :: 0 <= a < |f| ==> f[a] in f;
  }

  /** The list while it is being reordered: the next position has been looked at. */
  ghost function Reordered(zero: seq<bool>, i: nat): (w: seq<nat>)
    requires i <= |zero|
    ensures |w| == |zero|
  {
    Front(zero, i) + Behind(zero, i) + Identity(|zero|)[i..]
  }

  lemma ReorderedIs(zero: seq<bool>, i: nat)
    requires i <= |zero|
    ensures Reordered(zero, i) == Front(zero, i) + Behind(zero, i) + Identity(|zero|)[i..]
    ensures i == |zero| ==> Reordered(zero, i) == FrontOrder(zero)
  {
    assert Identity(|zero|)[|zero|..] == [];
    hide Front, Behind;
  }

  lemma BehindNext(zero: seq<bool>, i: nat)
    requires i <= |zero|
    ensures i <= 1 ==> Behind(zero, i) == Identity(i) && Front(zero, i) == []
    ensures i > 1 ==> |Behind(zero, i - 1)| > 0
    ensures i > 1 ==> Behind(zero, i) == if zero[i - 1] then Behind(zero, i - 1)[1..] + [Behind(zero, i - 1)[0]] else Behind(zero, i - 1) + [i - 1]
  {
  }

  lemma IdentitySplits(n: nat, i: nat)
    requires i <= n
    ensures Identity(i) + Identity(n)[i..] == Identity(n)
    ensures i < n ==> Identity(n)[i..] == [i] + Identity(n)[i + 1..]
  {
  }

  lemma ReorderedStart(zero: seq<bool>)
    ensures Reordered(zero, 0) == Identity(|zero|) && Front(zero, 0) == []
    ensures |zero| > 0 ==> Reordered(zero, 1) == Identity(|zero|) && Front(zero, 1) == []
    ensures Reordered(zero, |zero|) == FrontOrder(zero)
  {
    hide *;
    ReorderedIs(zero, |zero|);
    ReorderedIs(zero, 0);
    BehindNext(zero, 0);
    IdentitySplits(|zero|, 0);
    assert [] + Identity(0) == Identity(0);
    if |zero| > 0 {
      ReorderedIs(zero, 1);
      BehindNext(zero, 1);
      IdentitySplits(|zero|, 1);
      assert [] + Identity(1) == Identity(1);
    }
  }

  lemma Swapped(f: seq<nat>, b: seq<nat>, x: nat, rest: seq<nat>)
    requires b != []
    ensures var w, i, next := f + b + ([x] + rest), |f + b|, |f|;
            && w[i] == x && w[next] == b[0]
            && w[i := w[next]][next := w[i]] == (f + [x]) + (b[1..] + [b[0]]) + rest
            && w == f + (b + [x]) + rest
  {
  }

  /** A zero-offset segment changes places with the first that is not in front. */
  lemma ReorderedSwaps(zero: seq<bool>, i: nat)
    requires 0 < i < |zero|
    ensures var w, next := Reordered(zero, i), |Front(zero, i)|;
            && next < i
            && Reordered(zero, i + 1) == (if zero[i] then w[i := w[next]][next := w[i]] else w)
            && |Front(zero, i + 1)| == if zero[i] then next + 1 else next
  {
    hide *;
    ReorderedIs(zero, i);
    ReorderedIs(zero, i + 1);
    FrontNext(zero, i + 1);
    BehindNext(zero, i + 1);
    IdentitySplits(|zero|, i);
    Swapped(Front(zero, i), Behind(zero, i), i, Identity(|zero|)[i + 1..]);
    if !zero[i] { assert Front(zero, i) + [] == Front(zero, i); }
  }

  /** Brings the segments at offset 0 to the front, unless one of them was first and is left behind. */
  method BringZerosToFront(segments: seq<Segment>) returns (worklist: seq<nat>)
    ensures Lists(worklist, |segments|) && |worklist| == |segments|
    ensures worklist == FrontOrder(ZeroFlags(segments))
    ensures ZerosFirst(ZeroFlags(segments), worklist) <==> ComesRound(segments)
  {
    hide *;
    worklist := [];
    NoneListed();
    for i := 0 to |segments|
      invariant worklist == Identity(i)
    {
      OneListed(i);
      worklist := worklist + [i];
    }
    ghost var zero := ZeroFlags(segments);
    var nextSlot := 0;
    BringStart(zero);
    for i := 0 to |worklist|
      invariant Bringing(zero, worklist, i, nextSlot) && |worklist| == |segments|
    {
      BringFacts(zero, worklist, i, nextSlot);
      BringNext(zero, worklist, i, nextSlot);
      IsAtZero(segments, i);
      if i != nextSlot && AtZero(segments[worklist[i]]) {
        worklist := worklist[i := worklist[nextSlot]][nextSlot := worklist[i]];
        nextSlot := nextSlot + 1;
      }
    }
    BringDone(segments, worklist, nextSlot);
  }

  lemma NoneListed()
    ensures Identity(0) == []
  {
  }

  lemma OneListed(i: nat)
    ensures Identity(i + 1) == Identity(i) + [i]
  {
  }

  lemma IsAtZero(segments: seq<Segment>, i: nat)
    requires i < |segments|
    ensures ZeroFlags(segments)[i] <==> AtZero(segments[i])
  {
  }

  /** Between two rounds of the loop. */
  ghost predicate Bringing(zero: seq<bool>, w: seq<nat>, i: nat, next: nat) {
    Swapping(zero, w, i, next) && w == Reordered(zero, i) && next == |Front(zero, i)|
  }

  lemma BringStart(zero: seq<bool>)
    ensures Bringing(zero, Identity(|zero|), 0, 0)
  {
    IdentityLists(|zero|);
    ReorderedStart(zero);
  }

  lemma BringFacts(zero: seq<bool>, w: seq<nat>, i: nat, next: nat)
    requires Bringing(zero, w, i, next)
    ensures |w| == |zero| && (i < |zero| ==> w[i] == i) && (if i > 0 then next < i else next == 0)
  {
    SwappingRest(zero, w, i, next);
    if i == 0 { ReorderedStart(zero); }
    hide Swapping, Reordered;
  }

  lemma BringNext(zero: seq<bool>, w: seq<nat>, i: nat, next: nat)
    requires Bringing(zero, w, i, next) && i < |w|
    ensures i < |zero|
    ensures if i != next && zero[i] then next < |w| && Bringing(zero, w[i := w[next]][next := w[i]], i + 1, next + 1)
            else Bringing(zero, w, i + 1, next)
  {
    BringFacts(zero, w, i, next);
    ReorderedStart(zero);
    if i > 0 { ReorderedSwaps(zero, i); }
    hide Reordered, Displaced, Zeros, Lists, Front, Behind;
    if i > 0 && zero[i] {
      SwappingMoves(zero, w, i, next);
    } else if i == 0 {
      SwappingFirst(zero, w);
    } else {
      SwappingKeeps(zero, w, i, next);
    }
    hide Swapping;
  }

  lemma {:induction false} BringAll(zero: seq<bool>, i: nat)
    requires i <= |zero|
    ensures Bringing(zero, Reordered(zero, i), i, |Front(zero, i)|)
  {
    hide *;
    if i == 0 {
      BringStart(zero);
      ReorderedEmpty(zero);
    } else {
      BringAll(zero, i - 1);
      BringFacts(zero, Reordered(zero, i - 1), i - 1, |Front(zero, i - 1)|);
      BringNext(zero, Reordered(zero, i - 1), i - 1, |Front(zero, i - 1)|);
      if i - 1 > 0 && zero[i - 1] {
        var w, next := Reordered(zero, i - 1), |Front(zero, i - 1)|;
        IsReordered(zero, w[i - 1 := w[next]][next := w[i - 1]], i, next + 1);
      } else {
        IsReordered(zero, Reordered(zero, i - 1), i, |Front(zero, i - 1)|);
      }
    }
  }

  lemma ReorderedEmpty(zero: seq<bool>)
    ensures Reordered(zero, 0) == Identity(|zero|) && |Front(zero, 0)| == 0
  {
    ReorderedStart(zero);
  }

  lemma IsReordered(zero: seq<bool>, w: seq<nat>, i: nat, next: nat)
    requires Bringing(zero, w, i, next)
    ensures i <= |zero| && w == Reordered(zero, i) && next == |Front(zero, i)|
  {
    hide Reordered, Front;
  }

  lemma BringDone(segments: seq<Segment>, w: seq<nat>, next: nat)
    requires Bringing(ZeroFlags(segments), w, |segments|, next)
    ensures Lists(w, |segments|) && |w| == |segments| && w == FrontOrder(ZeroFlags(segments))
    ensures ZerosFirst(ZeroFlags(segments), w) <==> ComesRound(segments)
  {
    var zero := ZeroFlags(segments);
    SwappingDone(zero, w, next);
    if |zero| > 0 && zero[0] { DisplacedIs(zero, |zero|); }
    SwappingRest(zero, w, |w|, next);
    ReorderedStart(zero);
    hide Swapping, Reordered, Front, FrontOrder, ZerosFirst, Displaced, Zeros, Lists, ZeroPositions, Reach;
  }

  lemma SwappingRest(zero: seq<bool>, w: seq<nat>, i: nat, next: nat)
    requires Swapping(zero, w, i, next)
    ensures Lists(w, |zero|) && |w| == |zero|
    ensures i < |zero| ==> w[i] == i
    ensures i > 0 ==> next < i
  {
  }

  /** Three segments, the first and the last at offset 0: the one between them comes before the first. */
  lemma FirstZeroLeftBehind(a: Segment, b: Segment, c: Segment)
    requires AtZero(a) && !AtZero(b) && AtZero(c)
    ensures !ComesRound([a, b, c])
  {
    var zero := ZeroFlags([a, b, c]);
    assert zero == [true, false, true];
    FirstAndLast(zero);
    hide ZeroPositions, Reach, Zeros;
  }

  lemma ZeroNext(zero: seq<bool>, i: nat)
    requires i < |zero|
    ensures ZeroPositions(zero, 0) == [] && Zeros(zero, 0) == 0
    ensures ZeroPositions(zero, i + 1) == ZeroPositions(zero, i) + if zero[i] then [i] else []
    ensures Zeros(zero, i + 1) == Zeros(zero, i) + if zero[i] then 1 else 0
  {
  }

  lemma ReachNext(z: seq<nat>, k: nat)
    requires forall j :: 0 <= j < |z| ==> j <= z[j]
    ensures Reach(z, k) == if k >= |z| then k else Reach(z, z[k] + 1)
  {
  }

  lemma FirstAndLast(zero: seq<bool>)
    requires zero == [true, false, true]
    ensures Zeros(zero, 3) == 2 && Reach(ZeroPositions(zero, 3), 0) == 3
  {
    hide *;
    ZeroNext(zero, 0);
    ZeroNext(zero, 1);
    ZeroNext(zero, 2);
    assert ZeroPositions(zero, 3) == [0, 2];
    ReachNext([0, 2], 3);
    ReachNext([0, 2], 1);
    ReachNext([0, 2], 0);
  }

  /** Whatever the three segments are otherwise. */
  method ThreeSegments(a: Segment, b: Segment, c: Segment) returns (worklist: seq<nat>)
    requires AtZero(a) && !AtZero(b) && AtZero(c)
    ensures !ZerosFirst(ZeroFlags([a, b, c]), worklist)
  {
    worklist := BringZerosToFront([a, b, c]);
    FirstZeroLeftBehind(a, b, c);
  }

  // ---------------------------------------------------------------- containers first

  ghost predicate Known(segments: seq<Segment>, w: seq<nat>) {
    forall k :: 0 <= k < |w| ==> w[k] < |segments|
  }

  ghost function Counts(segments: seq<Segment>, w: seq<nat>): (c: seq<nat>)
    requires Known(segments, w)
    ensures |c| == |w| && forall k :: 0 <= k < |w| ==> c[k] == |segments[w[k]].sections|
  {
    seq(|w|, k requires 0 <= k < |w| => |segments[w[k]].sections|)
  }

  ghost function MaxOf(c: seq<nat>): (m: nat)
    ensures forall k :: 0 <= k < |c| ==> c[k] <= m
    ensures c != [] ==> exists k :: 0 <= k < |c| && c[k] == m
  {
    if c == [] then 0
    else
      var rest := MaxOf(c[1..]);
      assert forall k :: 1 <= k < |c| ==> c[k] == c[1..][k - 1];
      if c[0] >= rest then c[0] else (assert exists k :: 0 <= k < |c[1..]| && c[1..][k] == rest; rest)
  }

  /** How many entries stand before the first one of at least `m`. */
  ghost function Lead(c: seq<nat>, m: nat): (d: nat)
  {
    if c == [] || c[0] >= m then 0 else 1 + Lead(c[1..], m)
  }

  lemma {:induction false} LeadPush(c: seq<nat>, m: nat, x: nat, k: nat)
    requires k < |c| && c[k] >= m
    ensures Lead(c + [x], m) == Lead(c, m)
  {
    assert (c + [x])[1..] == c[1..] + [x];
    if c[0] < m {
      LeadPush(c[1..], m, x, k - 1);
    }
  }

  lemma MaxRotated(c: seq<nat>)
    requires c != []
    ensures MaxOf(c[1..] + [c[0]]) == MaxOf(c)
  {
    var c', m := c[1..] + [c[0]], MaxOf(c);
    assert forall k :: 1 <= k < |c| ==> c[k] == c'[k - 1];
    assert c[0] == c'[|c| - 1];
    var top: nat :| top < |c| && c[top] == m;
    var top': nat :| top' < |c'| && c'[top'] == MaxOf(c');
    hide MaxOf;
    assert c'[if top == 0 then |c| - 1 else top - 1] == m;
    assert c'[top'] == c[if top' == |c| - 1 then 0 else top' + 1];
  }

  /** Moving an entry smaller than some other to the back brings the first largest one nearer. */
  lemma RotateShrinks(c: seq<nat>, j: nat)
    requires 0 < j < |c| && c[0] < c[j]
    ensures var c' := c[1..] + [c[0]]; Lead(c', MaxOf(c')) < Lead(c, MaxOf(c))
  {
    MaxRotated(c);
    var m := MaxOf(c);
    assert c[0] < m && c[1..][j - 1] <= m;
    var top: nat :| top < |c| && c[top] == m;
    hide MaxOf;
    assert c[1..][top - 1] == m;
    LeadPush(c[1..], m, c[0], top - 1);
  }

  /** No segment comes before one it is strictly inside of. */
  ghost predicate ContainersFirst(segments: seq<Segment>, order: seq<nat>) {
    forall i, j :: 0 <= i < j < |order| && order[i] < |segments| && order[j] < |segments| ==>
      !Inside(segments[order[i]], segments[order[j]])
  }

  ghost predicate Apart(segments: seq<Segment>, res: seq<nat>, w: seq<nat>) {
    forall i, j :: 0 <= i < |res| && 0 <= j < |w| && res[i] < |segments| && w[j] < |segments| ==>
      !Inside(segments[res[i]], segments[w[j]])
  }

  /** Half way: what has been taken is in order, and inside nothing that is still waiting. */
  ghost predicate Ordering(segments: seq<Segment>, res: seq<nat>, w: seq<nat>) {
    Lists(res + w, |segments|) && Known(segments, w) && ContainersFirst(segments, res) && Apart(segments, res, w)
  }

  lemma TakeNext(segments: seq<Segment>, res: seq<nat>, w: seq<nat>)
    requires Ordering(segments, res, w) && w != []
    requires forall j :: 0 <= j < |w| - 1 ==> !Inside(segments[w[0]], segments[w[1..][j]])
    ensures Ordering(segments, res + [w[0]], w[1..])
  {
    assert res + [w[0]] + w[1..] == res + w;
    hide Inside, Lists;
    assert forall j :: 0 <= j < |w| - 1 ==> w[1..][j] == w[j + 1];
  }

  lemma PutBack(segments: seq<Segment>, res: seq<nat>, w: seq<nat>)
    requires Ordering(segments, res, w) && w != []
    ensures Ordering(segments, res, w[1..] + [w[0]])
  {
    var w' := w[1..] + [w[0]];
    RotateLists(res, w, |segments|);
    hide Inside, Lists;
    assert forall j :: 0 <= j < |w'| ==> w'[j] == w[if j == |w| - 1 then 0 else j + 1];
  }

  lemma RotateLists(res: seq<nat>, w: seq<nat>, n: nat)
    requires w != [] && Lists(res + w, n)
    ensures Lists(res + (w[1..] + [w[0]]), n)
  {
    var a, b := res + w, res + (w[1..] + [w[0]]);
    var last := |a| - 1;
    forall i, j | 0 <= i < j < |b| ensures b[i] != b[j] {
      assert b[i] == a[if i < |res| then i else i + 1];
      assert b[j] == a[if j < |res| then j else if j == last then |res| else j + 1];
    }
    assert w == [w[0]] + w[1..];
    forall x ensures x in b <==> x in a {
      assert x in a <==> x in res || x in w;
      assert x in b <==> x in res || x in w[1..] || x == w[0];
    }
  }

  /** The segments in front of `i` in the waiting list do not contain `seg`, and the `i`-th does, if there is one. */
  method FirstContainer(segments: seq<Segment>, seg: nat, rest: seq<nat>) returns (i: nat)
    requires seg < |segments| && Known(segments, rest)
    ensures i <= |rest| && forall j :: 0 <= j < i ==> !Inside(segments[seg], segments[rest[j]])
    ensures i < |rest| ==> Inside(segments[seg], segments[rest[i]])
    ensures i < |rest| <==> Held(segments, seg, rest)
  {
    i := 0;
    while i < |rest|
      invariant i <= |rest|
      invariant forall j :: 0 <= j < i ==> !Inside(segments[seg], segments[rest[j]])
    {
      var inside := IsSubsequenceOf(segments[seg], segments[rest[i]]);
      if inside {
        return;
      }
      i := i + 1;
    }
  }

  /** Segment `seg` is inside one of `rest`. */
  ghost predicate Held(segments: seq<Segment>, seg: nat, rest: seq<nat>)
    requires seg < |segments| && Known(segments, rest)
  {
    exists j :: 0 <= j < |rest| && Inside(segments[seg], segments[rest[j]])
  }

  /** What comes out of a waiting list whose first segment goes to the back as long as one behind it contains it. */
  ghost function Drained(segments: seq<Segment>, w: seq<nat>): (r: seq<nat>)
    requires Known(segments, w)
    decreases |w|, Lead(Counts(segments, w), MaxOf(Counts(segments, w)))
  {
    if w == [] then []
    else if Held(segments, w[0], w[1..]) then
      HeldRotates(segments, w);
      Drained(segments, w[1..] + [w[0]])
    else
      [w[0]] + Drained(segments, w[1..])
  }

  lemma HeldRotates(segments: seq<Segment>, w: seq<nat>)
    requires Known(segments, w) && w != [] && Held(segments, w[0], w[1..])
    ensures var w' := w[1..] + [w[0]];
            Known(segments, w') && Lead(Counts(segments, w'), MaxOf(Counts(segments, w'))) < Lead(Counts(segments, w), MaxOf(Counts(segments, w)))
  {
    var j :| 0 <= j < |w[1..]| && Inside(segments[w[0]], segments[w[1..][j]]);
    assert w[1..][j] == w[j + 1];
    hide Inside, Counts, MaxOf, Lead;
    RotateCounts(segments, w, j + 1);
  }

  /** The segments that are inside no other. */
  ghost function Outermost(segments: seq<Segment>): set<nat> {
    set i: nat | i < |segments| && forall j :: 0 <= j < |segments| ==> !Inside(segments[i], segments[j])
  }

  lemma SelectPush<T>(a: seq<T>, x: T, s: set<T>)
    ensures Select(a + [x], s) == Select(a, s) + if x in s then [x] else []
  {
    assert (a + [x])[..|a|] == a;
  }

  lemma {:induction false} SelectJoin<T>(a: seq<T>, b: seq<T>, s: set<T>)
    ensures Select(a + b, s) == Select(a, s) + Select(b, s)
  {
    hide Select;
    if b == [] {
      assert a + b == a;
      NothingSelected<T>(s);
    } else {
      var last := |b| - 1;
      SelectJoin(a, b[..last], s);
      assert a + b == a + b[..last] + [b[last]] && b == b[..last] + [b[last]];
      SelectPush(a + b[..last], b[last], s);
      SelectPush(b[..last], b[last], s);
    }
  }

  lemma NothingSelected<T>(s: set<T>)
    ensures Select([], s) == []
  {
  }

  lemma SelectOne<T>(x: T, s: set<T>)
    ensures Select([x], s) == if x in s then [x] else []
  {
    assert [x][..0] == [];
  }

  lemma HeldIsInside(segments: seq<Segment>, seg: nat, rest: seq<nat>)
    requires seg < |segments| && Known(segments, rest) && Held(segments, seg, rest)
    ensures seg !in Outermost(segments)
  {
    hide Inside;
  }

  /** Segments inside no other come out in the order in which they waited. */
  lemma {:induction false} OutermostStay(segments: seq<Segment>, w: seq<nat>)
    requires Known(segments, w)
    ensures Select(Drained(segments, w), Outermost(segments)) == Select(w, Outermost(segments))
    decreases |w|, Lead(Counts(segments, w), MaxOf(Counts(segments, w)))
  {
    hide *;
    var outer := Outermost(segments);
    DrainedIs(segments, w);
    if w != [] {
      var seg, rest := w[0], w[1..];
      assert w == [seg] + rest;
      SelectJoin([seg], rest, outer);
      if Held(segments, seg, rest) {
        HeldRotates(segments, w);
        OutermostStay(segments, rest + [seg]);
        SelectJoin(rest, [seg], outer);
        HeldIsInside(segments, seg, rest);
        SelectOne(seg, outer);
      } else {
        RestKnown(segments, w);
        OutermostStay(segments, rest);
        SelectJoin([seg], Drained(segments, rest), outer);
      }
    }
  }

  lemma RestKnown(segments: seq<Segment>, w: seq<nat>)
    requires Known(segments, w) && w != []
    ensures Known(segments, w[1..])
  {
  }

  lemma DrainedIs(segments: seq<Segment>, w: seq<nat>)
    requires Known(segments, w)
    ensures w == [] ==> Drained(segments, w) == []
    ensures w != [] ==> w[0] < |segments| && Known(segments, w[1..]) && Known(segments, w[1..] + [w[0]])
    ensures w != [] ==> Drained(segments, w) == if Held(segments, w[0], w[1..]) then Drained(segments, w[1..] + [w[0]])
                                                else [w[0]] + Drained(segments, w[1..])
  {
    hide Held, Counts, MaxOf, Lead;
  }

  /** If no segment is inside another, nothing is put back. */
  lemma {:induction false} NothingHeld(segments: seq<Segment>, w: seq<nat>)
    requires Known(segments, w) && NoneInside(segments)
    ensures Drained(segments, w) == w
  {
    if w != [] {
      hide Inside;
      NothingHeld(segments, w[1..]);
      assert !Held(segments, w[0], w[1..]);
    }
  }

  ghost predicate NoneInside(segments: seq<Segment>) {
    forall i, j :: 0 <= i < |segments| && 0 <= j < |segments| ==> !Inside(segments[i], segments[j])
  }

  /** The order for the layout. */
  ghost function OrderOf(segments: seq<Segment>): seq<nat> {
    FrontKnown(segments);
    Drained(segments, FrontOrder(ZeroFlags(segments)))
  }

  lemma {:induction false} BehindKnown(zero: seq<bool>, i: nat)
    requires i <= |zero|
    ensures forall k :: 0 <= k < |Behind(zero, i)| ==> Behind(zero, i)[k] < i
  {
    if i > 1 { BehindKnown(zero, i - 1); }
  }

  lemma FrontKnown(segments: seq<Segment>)
    ensures Known(segments, FrontOrder(ZeroFlags(segments)))
  {
    var zero := ZeroFlags(segments);
    FrontIsZeros(zero, |zero|);
    BehindKnown(zero, |zero|);
    assert forall k :: 0 <= k < |Front(zero, |zero|)| ==> Front(zero, |zero|)[k] in Front(zero, |zero|);
  }

  /** An order for the layout: every segment once, and each after all the segments it is strictly inside of. Those inside no other
      come in the order in which they waited, those at offset 0 in front. */
  method GetOrderedSegments(segments: seq<Segment>) returns (res: seq<nat>)
    ensures Lists(res, |segments|) && ContainersFirst(segments, res)
    ensures res == OrderOf(segments)
  {
    hide *;
    var worklist := BringZerosToFront(segments);
    res := [];
    StartDraining(segments, worklist);
    ghost var all := OrderOf(segments);
    while worklist != []
      invariant Known(segments, worklist) && Draining(segments, res, worklist, all)
      decreases |worklist|, Lead(Counts(segments, worklist), MaxOf(Counts(segments, worklist)))
    {
      var seg, rest := worklist[0], worklist[1..];
      DrainNext(segments, res, worklist, all);
      var i := FirstContainer(segments, seg, rest);
      if i < |rest| {
        worklist := rest + [seg];
      } else {
        res := res + [seg];
        worklist := rest;
      }
    }
    DrainDone(segments, res, all);
  }

  /** Between two rounds of the loop. */
  ghost predicate Draining(segments: seq<Segment>, res: seq<nat>, w: seq<nat>, all: seq<nat>) {
    Ordering(segments, res, w) && Known(segments, w) && res + Drained(segments, w) == all
  }

  lemma StartDraining(segments: seq<Segment>, w: seq<nat>)
    requires Lists(w, |segments|) && w == FrontOrder(ZeroFlags(segments))
    ensures Known(segments, w) && Draining(segments, [], w, OrderOf(segments))
  {
    StartOrdering(segments, w);
    assert [] + Drained(segments, w) == Drained(segments, w);
    hide Ordering, Drained, FrontOrder;
  }

  lemma DrainNext(segments: seq<Segment>, res: seq<nat>, w: seq<nat>, all: seq<nat>)
    requires Known(segments, w) && w != [] && Draining(segments, res, w, all)
    ensures w[0] < |segments| && Known(segments, w[1..]) && Known(segments, w[1..] + [w[0]])
    ensures if Held(segments, w[0], w[1..]) then Draining(segments, res, w[1..] + [w[0]], all)
            else Draining(segments, res + [w[0]], w[1..], all)
    ensures Held(segments, w[0], w[1..]) ==>
              Lead(Counts(segments, w[1..] + [w[0]]), MaxOf(Counts(segments, w[1..] + [w[0]]))) < Lead(Counts(segments, w), MaxOf(Counts(segments, w)))
  {
    DrainedIs(segments, w);
    hide Inside, Lists, Apart, ContainersFirst, Known, Ordering, Drained, Counts, MaxOf, Lead;
    if Held(segments, w[0], w[1..]) {
      HeldRotates(segments, w);
      PutBack(segments, res, w);
    } else {
      TakeNext(segments, res, w);
      Assoc(res, [w[0]], Drained(segments, w[1..]));
    }
  }

  lemma DrainDone(segments: seq<Segment>, res: seq<nat>, all: seq<nat>)
    requires Draining(segments, res, [], all) && all == OrderOf(segments)
    ensures Lists(res, |segments|) && ContainersFirst(segments, res) && res == OrderOf(segments)
  {
    OrderingDone(segments, res);
    assert res + [] == res;
    hide Ordering, FrontOrder, OrderOf;
  }

  /** Segments inside no other are laid out in the order in which they waited, those at offset 0 in front. */
  lemma OutermostInOrder(segments: seq<Segment>)
    ensures Select(OrderOf(segments), Outermost(segments)) == Select(FrontOrder(ZeroFlags(segments)), Outermost(segments))
  {
    FrontKnown(segments);
    OutermostStay(segments, FrontOrder(ZeroFlags(segments)));
    hide Drained, FrontOrder, Outermost, Select;
  }

  /** Where no segment is inside another, the zero-offset segments come first if and only if their positions come round. */
  lemma UnnestedZerosFirst(segments: seq<Segment>)
    requires NoneInside(segments)
    ensures OrderOf(segments) == FrontOrder(ZeroFlags(segments))
    ensures ZerosFirst(ZeroFlags(segments), OrderOf(segments)) <==> ComesRound(segments)
  {
    FrontKnown(segments);
    NothingHeld(segments, FrontOrder(ZeroFlags(segments)));
    BringAll(ZeroFlags(segments), |segments|);
    BringDone(segments, Reordered(ZeroFlags(segments), |segments|), |Front(ZeroFlags(segments), |segments|)|);
    hide Drained, FrontOrder, NoneInside, ZerosFirst, ComesRound;
  }

  lemma RotateCounts(segments: seq<Segment>, w: seq<nat>, j: nat)
    requires Known(segments, w) && 0 < j < |w| && Inside(segments[w[0]], segments[w[j]])
    ensures var w' := w[1..] + [w[0]];
            Known(segments, w') && Lead(Counts(segments, w'), MaxOf(Counts(segments, w'))) < Lead(Counts(segments, w), MaxOf(Counts(segments, w)))
  {
    var w', c := w[1..] + [w[0]], Counts(segments, w);
    assert Known(segments, w') && Counts(segments, w') == c[1..] + [c[0]];
    RotateShrinks(c, j);
  }

  lemma StartOrdering(segments: seq<Segment>, w: seq<nat>)
    requires Lists(w, |segments|)
    ensures Ordering(segments, [], w)
  {
    assert [] + w == w;
    assert forall k :: 0 <= k < |w| ==> w[k] in w;
  }

  lemma OrderingDone(segments: seq<Segment>, res: seq<nat>)
    requires Ordering(segments, res, [])
    ensures Lists(res, |segments|) && ContainersFirst(segments, res)
  {
    assert res + [] == res;
  }

  // ---------------------------------------------------------------- what the order means

  /** With sorted section lists, a segment is ordered before every segment whose sections are a strict part of its own. */
  lemma StrictlyContainedComesLater(segments: seq<Segment>, order: seq<nat>, i: nat, j: nat)
    requires Lists(order, |segments|) && ContainersFirst(segments, order) && i < |order| && j < |order|
    requires forall s :: s in segments ==> Sorted(s.sections)
    requires order[i] < |segments| && order[j] < |segments|
    requires multiset(segments[order[i]].sections) < multiset(segments[order[j]].sections)
    ensures j < i
  {
    InsideMeansStrictSubset(segments[order[i]], segments[order[j]]);
  }
}
