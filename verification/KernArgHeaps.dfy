/** Fixed-size heaps over big blocks (`FixedSizeHeapImpl`), and the kernel-argument heap that keeps one per size (`KernArgHeap`). */
module KernArgHeaps {
  import opened Arithmetic
  import opened Sequences

  const ALLOC_SIZE := 4096       // what the backing heap hands out at a time
  const MIN_ALLOC_SIZE := 16     // kernel arguments align to this
  const NUM_BUCKETS := 256

  datatype MemBlock = MemBlock(beg: nat, end: nat)

  function Size(b: MemBlock): int {
    b.end - b.beg
  }

  ghost predicate Disjoint(a: MemBlock, b: MemBlock) {
    a.end <= b.beg || b.end <= a.beg
  }

  ghost predicate Within(a: MemBlock, b: MemBlock) {
    b.beg <= a.beg && a.end <= b.end
  }

  // ---------------------------------------------------------------- chopping a block up

  ghost function Chop(b: MemBlock, sz: nat): (r: seq<MemBlock>)
    requires sz > 0
    decreases b.end - b.beg
  {
    if b.beg + sz > b.end then [] else [MemBlock(b.beg, b.beg + sz)] + Chop(MemBlock(b.beg + sz, b.end), sz)
  }

  lemma {:induction false} ChopFacts(b: MemBlock, sz: nat, k: nat)
    requires sz > 0 && k < |Chop(b, sz)|
    ensures var c := Chop(b, sz)[k]; Within(c, b) && Size(c) == sz && c.beg == b.beg + k * sz
    decreases k
  {
    if k > 0 { ChopFacts(MemBlock(b.beg + sz, b.end), sz, k - 1); }
  }

  /** Chopping wastes less than one small block. */
  lemma {:induction false} ChopCount(b: MemBlock, sz: nat)
    requires sz > 0 && b.beg <= b.end
    ensures |Chop(b, sz)| == (b.end - b.beg) / sz
    decreases b.end - b.beg
  {
    if b.beg + sz > b.end {
      DivModUnique(0, b.end - b.beg, sz);
    } else {
      ChopCount(MemBlock(b.beg + sz, b.end), sz);
      var rest := b.end - b.beg - sz;
      var q, r := rest / sz, rest % sz;
      assert rest == q * sz + r;
      assert b.end - b.beg == (q + 1) * sz + r;
      DivModUnique(q + 1, r, sz);
    }
  }

  ghost function Chopped(bigs: seq<MemBlock>, sz: nat): (r: seq<MemBlock>)
    requires sz > 0
  {
    if bigs == [] then [] else Chopped(bigs[..|bigs| - 1], sz) + Chop(bigs[|bigs| - 1], sz)
  }

  lemma ChoppedPush(bigs: seq<MemBlock>, b: MemBlock, sz: nat)
    requires sz > 0
    ensures Chopped(bigs + [b], sz) == Chopped(bigs, sz) + Chop(b, sz)
  {
    assert (bigs + [b])[..|bigs|] == bigs;
  }

  ghost predicate Apart(bs: seq<MemBlock>) {
    forall i, j :: 0 <= i < j < |bs| ==> Disjoint(bs[i], bs[j])
  }

  lemma ChopPairApart(b: MemBlock, sz: nat, i: nat, j: nat)
    requires sz > 0 && i < j < |Chop(b, sz)|
    ensures Disjoint(Chop(b, sz)[i], Chop(b, sz)[j])
  {
    hide Chop, Within;
    ChopFacts(b, sz, i);
    ChopFacts(b, sz, j);
    MulGap(i, j, sz);
  }

  lemma ChopApart(b: MemBlock, sz: nat)
    requires sz > 0
    ensures Apart(Chop(b, sz))
  {
    hide Chop;
    forall i: nat, j: nat | i < j < |Chop(b, sz)| ensures Disjoint(Chop(b, sz)[i], Chop(b, sz)[j]) {
      ChopPairApart(b, sz, i, j);
    }
  }

  /** Every small block lies in one of the big ones. */
  lemma {:induction false} ChoppedWithin(bigs: seq<MemBlock>, sz: nat, k: nat) returns (i: nat)
    requires sz > 0 && k < |Chopped(bigs, sz)|
    ensures i < |bigs| && Within(Chopped(bigs, sz)[k], bigs[i]) && Size(Chopped(bigs, sz)[k]) == sz
    ensures exists m: nat :: Chopped(bigs, sz)[k].beg == bigs[i].beg + m * sz
  {
    var last := |bigs| - 1;
    var before := Chopped(bigs[..last], sz);
    if k < |before| {
      i := ChoppedWithin(bigs[..last], sz, k);
    } else {
      i := last;
      ChopFacts(bigs[last], sz, k - |before|);
    }
  }

  /** If the big blocks do not overlap, neither do the small ones. */
  lemma {:induction false} ChoppedApart(bigs: seq<MemBlock>, sz: nat)
    requires sz > 0 && Apart(bigs)
    ensures Apart(Chopped(bigs, sz))
  {
    if bigs != [] {
      var last := |bigs| - 1;
      var before, c := Chopped(bigs[..last], sz), Chop(bigs[last], sz);
      ChoppedApart(bigs[..last], sz);
      ChopApart(bigs[last], sz);
      forall i: nat, j: nat | i < |before| && j < |c| ensures Disjoint(before[i], c[j]) {
        var b := ChoppedWithin(bigs[..last], sz, i);
        ChopFacts(bigs[last], sz, j);
      }
    }
  }

  lemma {:induction false} ChoppedCount(bigs: seq<MemBlock>, sz: nat)
    requires sz > 0 && forall b :: b in bigs ==> Size(b) == ALLOC_SIZE
    ensures |Chopped(bigs, sz)| == |bigs| * (ALLOC_SIZE / sz)
  {
    if bigs != [] {
      var last := |bigs| - 1;
      assert bigs[last] in bigs;
      ChoppedCount(bigs[..last], sz);
      ChopCount(bigs[last], sz);
      assert |bigs| * (ALLOC_SIZE / sz) == last * (ALLOC_SIZE / sz) + ALLOC_SIZE / sz;
    }
  }

  // ---------------------------------------------------------------- one size

  class FixedSizeHeap {
    const allocSz: nat
    var freeBlocks: seq<MemBlock>
    var bigBlocks: seq<MemBlock>
    ghost var live: multiset<MemBlock>   // handed out and not yet given back

    /** Free and live blocks together are exactly the big blocks chopped up. */
    ghost predicate Valid()
      reads this
    {
      && 0 < allocSz <= ALLOC_SIZE
      && multiset(freeBlocks) + live == multiset(Chopped(bigBlocks, allocSz))
      && (forall b :: b in bigBlocks ==> Size(b) == ALLOC_SIZE)
    }

    constructor (sz: nat)
      requires 0 < sz <= ALLOC_SIZE
      ensures Valid() && allocSz == sz && freeBlocks == [] && bigBlocks == [] && live == multiset{}
    {
      allocSz, freeBlocks, bigBlocks := sz, [], [];
      live := multiset{};
    }

    method ChopUp(bigBlk: MemBlock)
      requires 0 < allocSz <= Size(bigBlk) && freeBlocks == []
      modifies `freeBlocks
      ensures freeBlocks == Chop(bigBlk, allocSz) && freeBlocks != []
    {
      var i := bigBlk.beg;
      while i + allocSz <= bigBlk.end
        invariant i <= bigBlk.end
        invariant freeBlocks + Chop(MemBlock(i, bigBlk.end), allocSz) == Chop(bigBlk, allocSz)
        invariant i > bigBlk.beg ==> freeBlocks != []
      {
        freeBlocks := freeBlocks + [MemBlock(i, i + allocSz)];
        i := i + allocSz;
      }
      assert freeBlocks + [] == freeBlocks;
    }

    /** Takes a big block from the backing heap, at the address `at`, and chops it up. */
    method Replenish(at: nat)
      requires Valid() && freeBlocks == []
      modifies `freeBlocks, `bigBlocks
      ensures Valid() && bigBlocks == old(bigBlocks) + [MemBlock(at, at + ALLOC_SIZE)]
      ensures freeBlocks == Chop(MemBlock(at, at + ALLOC_SIZE), allocSz) && freeBlocks != []
    {
      var bigBlk := MemBlock(at, at + ALLOC_SIZE);
      ghost var before := bigBlocks;
      ChoppedPush(before, bigBlk, allocSz);
      bigBlocks := bigBlocks + [bigBlk];
      hide Chop, Chopped;
      ChopUp(bigBlk);
    }

    method Allocate(at: nat) returns (ret: MemBlock)
      requires Valid()
      modifies this
      ensures Valid() && live == old(live) + multiset{ret} && Size(ret) == allocSz
      ensures bigBlocks == if old(freeBlocks) == [] then old(bigBlocks) + [MemBlock(at, at + ALLOC_SIZE)] else old(bigBlocks)
      ensures old(freeBlocks) != [] ==> freeBlocks + [ret] == old(freeBlocks)
    {
      hide Chop, Chopped, Size;
      if freeBlocks == [] {
        Replenish(at);
      }
      ghost var before := freeBlocks;
      ret := freeBlocks[|freeBlocks| - 1];
      freeBlocks := freeBlocks[..|freeBlocks| - 1];
      assert before == freeBlocks + [ret];
      live := live + multiset{ret};
      HeldSize(ret);
    }

    method Deallocate(blk: MemBlock)
      requires Valid() && blk in live
      modifies `freeBlocks, `live
      ensures Valid() && live == old(live) - multiset{blk} && freeBlocks == old(freeBlocks) + [blk]
    {
      freeBlocks := freeBlocks + [blk];
      live := live - multiset{blk};
    }

    ghost predicate Holds(b: MemBlock)
      reads this
    {
      b in freeBlocks || b in live
    }

    lemma HeldAt(b: MemBlock) returns (k: nat)
      requires Valid() && Holds(b)
      ensures k < |Chopped(bigBlocks, allocSz)| && Chopped(bigBlocks, allocSz)[k] == b
    {
      assert b in multiset(freeBlocks) + live;
      assert b in Chopped(bigBlocks, allocSz);
      k :| 0 <= k < |Chopped(bigBlocks, allocSz)| && Chopped(bigBlocks, allocSz)[k] == b;
    }

    lemma HeldSize(b: MemBlock)
      requires Valid() && Holds(b)
      ensures Size(b) == allocSz
    {
      var k := HeldAt(b);
      var i := ChoppedWithin(bigBlocks, allocSz, k);
    }

    /** Nothing is lost: as many blocks are free or live as fit into the big blocks. */
    lemma Conserved()
      requires Valid()
      ensures |freeBlocks| + |live| == |bigBlocks| * (ALLOC_SIZE / allocSz)
    {
      ChoppedCount(bigBlocks, allocSz);
      assert |multiset(freeBlocks) + live| == |freeBlocks| + |live|;
      assert |multiset(Chopped(bigBlocks, allocSz))| == |Chopped(bigBlocks, allocSz)|;
    }
  }

  // ---------------------------------------------------------------- all sizes

  /** The next multiple of the alignment. */
  function Rounded(n: nat): (r: nat)
    ensures n <= r < n + MIN_ALLOC_SIZE && r % MIN_ALLOC_SIZE == 0
  {
    (n + (MIN_ALLOC_SIZE - 1)) / MIN_ALLOC_SIZE * MIN_ALLOC_SIZE
  }

  function Bucket(n: nat): nat {
    Rounded(n) / MIN_ALLOC_SIZE
  }

  /** The largest request that has a bucket is one granule short of the maximal allocation size. */
  lemma BucketExistsIff(n: nat)
    ensures Bucket(n) < NUM_BUCKETS <==> n <= ALLOC_SIZE - MIN_ALLOC_SIZE
    ensures n > 0 ==> Bucket(n) > 0 && Bucket(n) * MIN_ALLOC_SIZE == Rounded(n)
    ensures n % MIN_ALLOC_SIZE == 0 ==> Rounded(n) == n
  {
  }

  ghost predicate Aligned(bs: seq<MemBlock>) {
    forall k :: 0 <= k < |bs| ==> bs[k].beg > 0 && bs[k].beg % MIN_ALLOC_SIZE == 0
  }

  /** No block of one list overlaps any of the other. */
  ghost predicate AllDisjoint(cs: seq<MemBlock>, bs: seq<MemBlock>) {
    forall k, m :: 0 <= k < |cs| && 0 <= m < |bs| ==> Disjoint(cs[k], bs[m])
  }

  /** The big blocks of all buckets: aligned, and none overlaps another. */
  ghost predicate Separate(bigs: map<nat, seq<MemBlock>>) {
    && (forall i :: i in bigs ==> Aligned(bigs[i]) && Apart(bigs[i]))
    && (forall i, j :: i in bigs && j in bigs && i != j ==> AllDisjoint(bigs[i], bigs[j]))
  }

  ghost predicate FitsIn(bigs: map<nat, seq<MemBlock>>, b: MemBlock) {
    && b.beg > 0 && b.beg % MIN_ALLOC_SIZE == 0
    && forall i :: i in bigs ==> AllDisjoint(bigs[i], [b])
  }

  lemma DisjointPush(cs: seq<MemBlock>, bs: seq<MemBlock>, b: MemBlock)
    requires AllDisjoint(cs, bs) && AllDisjoint(cs, [b])
    ensures AllDisjoint(cs, bs + [b]) && AllDisjoint(bs + [b], cs)
  {
    forall k, m | 0 <= k < |cs| && 0 <= m < |bs + [b]| ensures Disjoint(cs[k], (bs + [b])[m]) {
      if m == |bs| { assert Disjoint(cs[k], [b][0]); }
    }
  }

  lemma ApartPush(bs: seq<MemBlock>, b: MemBlock)
    requires Apart(bs) && AllDisjoint(bs, [b])
    ensures Apart(bs + [b])
  {
    forall i | 0 <= i < |bs| ensures Disjoint(bs[i], b) { assert Disjoint(bs[i], [b][0]); }
  }

  lemma SeparatePush(bigs: map<nat, seq<MemBlock>>, i: nat, b: MemBlock)
    requires Separate(bigs) && i in bigs && FitsIn(bigs, b)
    ensures Separate(bigs[i := bigs[i] + [b]])
  {
    hide AllDisjoint, Apart;
    ApartPush(bigs[i], b);
    forall j | j in bigs && j != i ensures AllDisjoint(bigs[j], bigs[i] + [b]) && AllDisjoint(bigs[i] + [b], bigs[j]) {
      DisjointPush(bigs[j], bigs[i], b);
    }
  }

  lemma SeparateNew(bigs: map<nat, seq<MemBlock>>, i: nat)
    requires Separate(bigs) && i !in bigs
    ensures Separate(bigs[i := []])
    ensures forall b :: FitsIn(bigs, b) ==> FitsIn(bigs[i := []], b)
  {
  }

  lemma SeparateSame(bigs: map<nat, seq<MemBlock>>, i: nat, after: seq<MemBlock>)
    requires Separate(bigs) && i in bigs && after == bigs[i]
    ensures Separate(bigs[i := after])
  {
    assert bigs[i := after] == bigs;
  }

  lemma SeparateReplenished(bigs: map<nat, seq<MemBlock>>, i: nat, b: MemBlock, after: seq<MemBlock>)
    requires Separate(bigs) && i in bigs && FitsIn(bigs, b) && (after == bigs[i] || after == bigs[i] + [b])
    ensures Separate(bigs[i := after])
  {
    if after == bigs[i] { assert bigs[i := after] == bigs; } else { SeparatePush(bigs, i, b); }
  }

  lemma SameHeapApart(h: FixedSizeHeap, a: MemBlock, b: MemBlock)
    requires h.Valid() && h.allocSz > 0 && Apart(h.bigBlocks) && h.Holds(a) && h.Holds(b) && a != b
    ensures Disjoint(a, b)
  {
    hide FixedSizeHeap.Valid, FixedSizeHeap.Holds, Chopped, Disjoint;
    var i := h.HeldAt(a);
    var j := h.HeldAt(b);
    ChoppedApart(h.bigBlocks, h.allocSz);
    var c := Chopped(h.bigBlocks, h.allocSz);
    DisjointBothWays(c[i], c[j]);
  }

  lemma DisjointBothWays(a: MemBlock, b: MemBlock)
    ensures Disjoint(a, b) <==> Disjoint(b, a)
  {
  }

  lemma OtherHeapsApart(h: FixedSizeHeap, g: FixedSizeHeap, a: MemBlock, b: MemBlock)
    requires h.Valid() && h.allocSz > 0 && g.Valid() && g.allocSz > 0 && AllDisjoint(h.bigBlocks, g.bigBlocks)
    requires h.Holds(a) && g.Holds(b)
    ensures Disjoint(a, b)
  {
    hide FixedSizeHeap.Valid, FixedSizeHeap.Holds, Chopped;
    var i := h.HeldAt(a);
    var j := g.HeldAt(b);
    var x := ChoppedWithin(h.bigBlocks, h.allocSz, i);
    var y := ChoppedWithin(g.bigBlocks, g.allocSz, j);
    assert Disjoint(h.bigBlocks[x], g.bigBlocks[y]);
  }

  /** The big blocks after an allocation: another one only if no block was free. */
  ghost function Drawn(free: seq<MemBlock>, bigs: seq<MemBlock>, at: nat): seq<MemBlock> {
    if free == [] then bigs + [MemBlock(at, at + ALLOC_SIZE)] else bigs
  }

  lemma DrawnIs(free: seq<MemBlock>, bigs: seq<MemBlock>, at: nat)
    ensures Drawn(free, bigs, at) == if free == [] then bigs + [MemBlock(at, at + ALLOC_SIZE)] else bigs
  {
  }

  class KernArgHeap {
    var heaps: map<nat, FixedSizeHeap>   // the heaps made so far, by bucket

    /** Each bucket has its own heap, for blocks of its size. */
    ghost predicate Shaped()
      reads this
    {
      && (forall i :: i in heaps ==> 0 < i < NUM_BUCKETS && heaps[i].allocSz == i * MIN_ALLOC_SIZE)
      && (forall i, j :: i in heaps && j in heaps && i != j ==> heaps[i] != heaps[j])
    }

    ghost predicate AllValid()
      reads this, heaps.Values
    {
      forall i :: i in heaps ==> heaps[i].Valid()
    }

    ghost function Bigs(): (r: map<nat, seq<MemBlock>>)
      reads this, heaps.Values
    {
      map i | i in heaps :: heaps[i].bigBlocks
    }

    ghost predicate Valid()
      reads this, heaps.Values
    {
      Shaped() && AllValid() && Separate(Bigs())
    }

    constructor ()
      ensures Valid() && heaps == map[]
    {
      heaps := map[];
    }

    /** Only bucket `i` has changed. */
    twostate predicate OnlyBucket(i: nat)
      reads this, heaps.Values
    {
      unchanged(this) && i in heaps && forall j :: j in heaps && j != i ==> unchanged(heaps[j])
    }

    twostate lemma OthersValid(i: nat)
      requires old(Shaped()) && old(AllValid()) && OnlyBucket(i) && heaps[i].Valid()
      ensures Shaped() && AllValid()
    {
      hide FixedSizeHeap.Valid;
      forall j | j in heaps ensures heaps[j].Valid() {
        if j != i { assert unchanged(heaps[j]); }
      }
    }

    twostate lemma BigsAfter(i: nat)
      requires old(Shaped()) && OnlyBucket(i)
      ensures i in old(Bigs()) && old(Bigs())[i] == old(heaps[i].bigBlocks) && Bigs() == old(Bigs())[i := heaps[i].bigBlocks]
    {
    }

    /** Takes a block from bucket `i`. */
    method TakeFrom(i: nat, at: nat) returns (ret: MemBlock)
      requires Valid() && i in heaps && FitsIn(Bigs(), MemBlock(at, at + ALLOC_SIZE))
      modifies heaps[i]
      ensures Valid() && OnlyBucket(i) && heaps[i].live == old(heaps[i].live) + multiset{ret} && Size(ret) == heaps[i].allocSz
      ensures heaps[i].bigBlocks == Drawn(old(heaps[i].freeBlocks), old(heaps[i].bigBlocks), at)
      ensures old(heaps[i].freeBlocks) != [] ==> heaps[i].freeBlocks + [ret] == old(heaps[i].freeBlocks)
    {
      var heap := heaps[i];
      assert heap.Valid();
      hide *;
      ghost var bigs := Bigs();
      ret := heap.Allocate(at);
      assert OnlyBucket(i);
      OthersValid(i);
      BigsAfter(i);
      SeparateReplenished(bigs, i, MemBlock(at, at + ALLOC_SIZE), heap.bigBlocks);
      DrawnIs(old(heap.freeBlocks), old(heap.bigBlocks), at);
    }

    /** Bucket `i` is new, and the others are as they were. */
    twostate predicate Added(i: nat)
      reads this, heaps.Values
    {
      && i !in old(heaps) && i in heaps && heaps == old(heaps)[i := heaps[i]] && fresh(heaps[i])
      && forall j :: j in heaps && j != i ==> unchanged(heaps[j])
    }

    twostate lemma AddedShaped(i: nat)
      requires old(Shaped()) && Added(i) && 0 < i < NUM_BUCKETS && heaps[i].allocSz == i * MIN_ALLOC_SIZE
      ensures Shaped()
    {
    }

    twostate lemma AddedValid(i: nat)
      requires old(AllValid()) && Added(i) && heaps[i].Valid()
      ensures AllValid()
    {
      hide FixedSizeHeap.Valid;
      forall j | j in heaps ensures heaps[j].Valid() {
        if j != i { assert old(heaps)[j] == heaps[j] && unchanged(heaps[j]); }
      }
    }

    twostate lemma AddedBigs(i: nat)
      requires Added(i)
      ensures i !in old(Bigs()) && Bigs() == old(Bigs())[i := heaps[i].bigBlocks]
    {
    }

    /** Gives bucket `i` its heap. */
    method AddBucket(i: nat) returns (heap: FixedSizeHeap)
      requires Valid() && i !in heaps && 0 < i < NUM_BUCKETS
      modifies `heaps
      ensures Valid() && Added(i) && heap == heaps[i] && heap.live == multiset{} && heap.freeBlocks == [] && heap.bigBlocks == []
      ensures Bigs() == old(Bigs())[i := []]
    {
      hide FixedSizeHeap.Valid, Separate, Shaped, AllValid, Bigs;
      ghost var bigs := Bigs();
      heap := new FixedSizeHeap(i * MIN_ALLOC_SIZE);
      heaps := heaps[i := heap];
      AddedShaped(i);
      AddedValid(i);
      AddedBigs(i);
      SeparateNew(bigs, i);
    }

    /** The bucket's heap, made on first use. */
    method HeapForSize(n: nat) returns (heap: FixedSizeHeap)
      requires Valid() && 0 < n <= ALLOC_SIZE - MIN_ALLOC_SIZE
      modifies `heaps
      ensures Valid() && Bucket(n) in heaps && heap == heaps[Bucket(n)]
      ensures old(Bucket(n) in heaps) ==> heaps == old(heaps)
      ensures !old(Bucket(n) in heaps) ==> Added(Bucket(n)) && heap.live == multiset{} && heap.freeBlocks == [] && heap.bigBlocks == []
      ensures forall b :: FitsIn(old(Bigs()), b) ==> FitsIn(Bigs(), b)
    {
      BucketExistsIff(n);
      ghost var bigs := Bigs();
      hide Rounded, Bucket, Separate, FitsIn, Valid;
      var index := Bucket(n);
      if index in heaps {
        heap := heaps[index];
      } else {
        heap := AddBucket(index);
        FitsStill(bigs, index);
      }
    }

    /** Every bucket that was there is still there, and all but bucket `i` are as they were. */
    twostate predicate Others(i: nat)
      reads this, heaps.Values
    {
      forall j :: j in old(heaps) ==> j in heaps && heaps[j] == old(heaps)[j] && (j != i ==> unchanged(heaps[j]))
    }

    ghost function LiveIn(i: nat): multiset<MemBlock>
      reads this, heaps.Values
    {
      if i in heaps then heaps[i].live else multiset{}
    }

    ghost function FreeIn(i: nat): seq<MemBlock>
      reads this, heaps.Values
    {
      if i in heaps then heaps[i].freeBlocks else []
    }

    ghost function BigsIn(i: nat): seq<MemBlock>
      reads this, heaps.Values
    {
      if i in heaps then heaps[i].bigBlocks else []
    }

    /** A block of at least `n` bytes, from a new big block only if the bucket has no free one. `at` is where the backing heap would put another big block. */
    method Allocate(n: nat, at: nat) returns (ret: MemBlock)
      requires Valid() && n <= ALLOC_SIZE - MIN_ALLOC_SIZE && FitsIn(Bigs(), MemBlock(at, at + ALLOC_SIZE))
      modifies this, heaps.Values
      ensures Valid() && Others(Bucket(n))
      ensures n == 0 ==> ret == MemBlock(0, 0) && heaps == old(heaps) && LiveIn(Bucket(0)) == old(LiveIn(Bucket(0)))
      ensures n > 0 ==> n <= Size(ret) == Rounded(n) && ret.beg % MIN_ALLOC_SIZE == 0
      ensures n > 0 ==> heaps.Keys == old(heaps.Keys) + {Bucket(n)} && LiveIn(Bucket(n)) == old(LiveIn(Bucket(n))) + multiset{ret}
      ensures n > 0 && Bucket(n) !in old(heaps) ==> Bucket(n) in heaps && fresh(heaps[Bucket(n)])
      ensures n > 0 ==> BigsIn(Bucket(n)) == Drawn(old(FreeIn(Bucket(n))), old(BigsIn(Bucket(n))), at)
      ensures n > 0 && old(FreeIn(Bucket(n))) != [] ==> FreeIn(Bucket(n)) + [ret] == old(FreeIn(Bucket(n)))
    {
      if n == 0 {
        return MemBlock(0, 0);
      }
      BucketExistsIff(n);
      ret := AllocateFrom(Bucket(n), n, at);
    }

    method AllocateFrom(i: nat, n: nat, at: nat) returns (ret: MemBlock)
      requires Valid() && 0 < n <= ALLOC_SIZE - MIN_ALLOC_SIZE && i == Bucket(n) && FitsIn(Bigs(), MemBlock(at, at + ALLOC_SIZE))
      modifies this, heaps.Values
      ensures Valid() && Others(i) && heaps.Keys == old(heaps.Keys) + {i} && LiveIn(i) == old(LiveIn(i)) + multiset{ret}
      ensures Size(ret) == i * MIN_ALLOC_SIZE && ret.beg % MIN_ALLOC_SIZE == 0
      ensures i !in old(heaps) ==> i in heaps && fresh(heaps[i])
      ensures BigsIn(i) == Drawn(old(FreeIn(i)), old(BigsIn(i)), at)
      ensures old(FreeIn(i)) != [] ==> FreeIn(i) + [ret] == old(FreeIn(i))
    {
      hide Rounded, Bucket, Valid, FitsIn, FixedSizeHeap.Valid, Separate, Bigs;
      var heap := HeapForSize(n);
      assert Others(i) && heaps.Keys == old(heaps.Keys) + {i} && heap.live == old(LiveIn(i));
      ret := TakeAligned(i, at);
    }

    method TakeAligned(i: nat, at: nat) returns (ret: MemBlock)
      requires Valid() && i in heaps && FitsIn(Bigs(), MemBlock(at, at + ALLOC_SIZE))
      modifies heaps[i]
      ensures Valid() && OnlyBucket(i) && heaps[i].live == old(heaps[i].live) + multiset{ret}
      ensures Size(ret) == i * MIN_ALLOC_SIZE && ret.beg % MIN_ALLOC_SIZE == 0
      ensures heaps[i].bigBlocks == Drawn(old(heaps[i].freeBlocks), old(heaps[i].bigBlocks), at)
      ensures old(heaps[i].freeBlocks) != [] ==> heaps[i].freeBlocks + [ret] == old(heaps[i].freeBlocks)
    {
      ret := TakeFrom(i, at);
      hide FixedSizeHeap.Valid, Separate;
      HeldAligned(i, ret);
    }

    /** Gives a live block back to bucket `i`. */
    method PutBack(i: nat, blk: MemBlock)
      requires Valid() && i in heaps && blk in heaps[i].live
      modifies heaps[i]
      ensures Valid() && OnlyBucket(i) && heaps[i].live == old(heaps[i].live) - multiset{blk}
    {
      var heap := heaps[i];
      assert heap.Valid();
      hide *;
      ghost var bigs := Bigs();
      heap.Deallocate(blk);
      assert OnlyBucket(i);
      OthersValid(i);
      BigsAfter(i);
      SeparateSame(bigs, i, heap.bigBlocks);
    }

    /** Frees a live block: its size leads back to the bucket `i` it came from. */
    method Deallocate(blk: MemBlock, ghost i: nat)
      requires Valid() && (blk == MemBlock(0, 0) || (i in heaps && blk in heaps[i].live))
      modifies this, heaps.Values
      ensures Valid() && heaps == old(heaps)
      ensures blk == MemBlock(0, 0) ==> forall j :: j in heaps ==> unchanged(heaps[j])
      ensures blk != MemBlock(0, 0) ==> heaps[i].live == old(heaps[i].live) - multiset{blk} && forall j :: j in heaps && j != i ==> unchanged(heaps[j])
    {
      if blk == MemBlock(0, 0) || blk.beg == blk.end {
        if blk != MemBlock(0, 0) { LiveNotEmpty(i, blk); }
        return;
      }
      LiveNotEmpty(i, blk);
      hide Rounded, Bucket, Valid, FixedSizeHeap.Valid, Separate;
      var heap := HeapForSize(blk.end - blk.beg);
      PutBack(Bucket(blk.end - blk.beg), blk);
    }

    lemma LiveNotEmpty(i: nat, blk: MemBlock)
      requires Valid() && i in heaps && blk in heaps[i].live
      ensures 0 < blk.end - blk.beg <= ALLOC_SIZE - MIN_ALLOC_SIZE && Bucket(blk.end - blk.beg) == i
    {
      heaps[i].HeldSize(blk);
      BucketExistsIff(blk.end - blk.beg);
    }

    lemma HeldAligned(i: nat, b: MemBlock)
      requires Valid() && i in heaps && heaps[i].Holds(b)
      ensures b.beg % MIN_ALLOC_SIZE == 0
    {
      var h := heaps[i];
      var k := h.HeldAt(b);
      var big := ChoppedWithin(h.bigBlocks, h.allocSz, k);
      var m: nat :| b.beg == h.bigBlocks[big].beg + m * h.allocSz;
      assert Aligned(Bigs()[i]);
      MultipleAligned(h.bigBlocks[big].beg, m, i);
    }

    /** Any two blocks, free or live, of any buckets, are the same block or do not overlap. */
    lemma HeldApart(i: nat, j: nat, a: MemBlock, b: MemBlock)
      requires Valid() && i in heaps && j in heaps && heaps[i].Holds(a) && heaps[j].Holds(b) && (i != j || a != b)
      ensures Disjoint(a, b)
    {
      hide *;
      if i == j {
        ValidParts(i);
        SameHeapApart(heaps[i], a, b);
      } else {
        ValidParts(i);
        ValidParts(j);
        BucketsApart(i, j);
        OtherHeapsApart(heaps[i], heaps[j], a, b);
      }
    }

    lemma ValidParts(i: nat)
      requires Valid() && i in heaps
      ensures heaps[i].Valid() && heaps[i].allocSz > 0 && Apart(heaps[i].bigBlocks)
    {
      assert Apart(Bigs()[i]);
      hide Apart;
    }

    lemma BucketsApart(i: nat, j: nat)
      requires Valid() && i in heaps && j in heaps && i != j
      ensures AllDisjoint(heaps[i].bigBlocks, heaps[j].bigBlocks)
    {
      assert AllDisjoint(Bigs()[i], Bigs()[j]);
      hide FixedSizeHeap.Valid, AllDisjoint;
    }

    /** No block is held twice: neither live twice, nor live and free. */
    lemma HeldOnce(i: nat, b: MemBlock)
      requires Valid() && i in heaps
      ensures (multiset(heaps[i].freeBlocks) + heaps[i].live)[b] <= 1
    {
      var h := heaps[i];
      assert Apart(Bigs()[i]);
      ChoppedApart(h.bigBlocks, h.allocSz);
      ApartOnce(Chopped(h.bigBlocks, h.allocSz), h.bigBlocks, h.allocSz, b);
    }
  }

  lemma FitsStill(bigs: map<nat, seq<MemBlock>>, i: nat)
    ensures forall b :: FitsIn(bigs, b) ==> FitsIn(bigs[i := []], b)
  {
  }

  lemma MultipleAligned(beg: nat, m: nat, i: nat)
    requires beg % MIN_ALLOC_SIZE == 0
    ensures (beg + m * (i * MIN_ALLOC_SIZE)) % MIN_ALLOC_SIZE == 0
  {
    assert m * (i * MIN_ALLOC_SIZE) == (m * i) * MIN_ALLOC_SIZE;
    assert beg + (m * i) * MIN_ALLOC_SIZE == (beg / MIN_ALLOC_SIZE + m * i) * MIN_ALLOC_SIZE;
  }

  lemma {:induction false} NoDupOnce<T>(s: seq<T>, x: T)
    requires NoDup(s)
    ensures multiset(s)[x] <= 1
  {
    if s != [] {
      var rest := s[..|s| - 1];
      assert s == rest + [s[|s| - 1]];
      NoDupOnce(rest, x);
      if x == s[|s| - 1] { assert x !in rest; assert x !in multiset(rest); }
    }
  }

  lemma ApartOnce(c: seq<MemBlock>, bigs: seq<MemBlock>, sz: nat, b: MemBlock)
    requires sz > 0 && c == Chopped(bigs, sz) && Apart(c)
    ensures multiset(c)[b] <= 1
  {
    forall i: nat, j: nat | i < j < |c| ensures c[i] != c[j] {
      var k := ChoppedWithin(bigs, sz, i);
      assert Disjoint(c[i], c[j]);
    }
    NoDupOnce(c, b);
  }
}
