/** The host side of batches: `SerialUnorderedExecutor` and the barrier packets it fills in. */
module BatchExecutor {
  import opened Arithmetic
  import opened Sequences
  import opened QueueProtocol
  import opened BatchProtocol

  const MAX_ACTIVE_QUEUES := 64

  class BarrierAndPkt {
    var barrierBit: bool
    var completion: Signal
    const depSignal: array<Signal>

    constructor (slot: array<Signal>)
      requires slot.Length == BARRIER_PKT_NUM_PREDS
      ensures depSignal == slot
    {
      barrierBit, completion, depSignal := false, Null, slot;
    }

    /** Zeroes the packet, then fills in the signals to wait for. */
    method Init(bit: bool, comp: Signal, preds: seq<Signal>)
      requires depSignal.Length == BARRIER_PKT_NUM_PREDS && |preds| <= BARRIER_PKT_NUM_PREDS
      modifies this, depSignal
      ensures barrierBit == bit && completion == comp && depSignal[..] == Padded(preds)
    {
      for i := 0 to depSignal.Length
        invariant forall j :: 0 <= j < i ==> depSignal[j] == Null
      {
        depSignal[i] := Null;
      }
      completion := comp;
      for i := 0 to |preds|
        invariant completion == comp
        invariant forall j :: 0 <= j < depSignal.Length ==> depSignal[j] == if j < i then preds[j] else Null
      {
        depSignal[i] := preds[i];
      }
      barrierBit := bit;
    }
  }

  /** What `barrierTreeSize` adds up: each quotient of `n` by powers of the packet's width, rounded up. */
  ghost function QuotientSum(n: nat): nat {
    if n == 0 then 0 else (n + BARRIER_PKT_NUM_PREDS - 1) / BARRIER_PKT_NUM_PREDS + QuotientSum(n / BARRIER_PKT_NUM_PREDS)
  }

  /** How many packets a tree over `n` signals has: one per group of signals, and a tree over those packets unless it is a single one. */
  ghost function TreePackets(n: nat): nat {
    if n == 0 then 0
    else if n <= BARRIER_PKT_NUM_PREDS then 1
    else
      var groups := (n + BARRIER_PKT_NUM_PREDS - 1) / BARRIER_PKT_NUM_PREDS;
      groups + TreePackets(groups)
  }

  /** The loop's count is right for 1 to 4 signals; for 5 it is too large, for 26 too small. */
  method BarrierTreeSize(n: nat) returns (size: nat)
    ensures size == QuotientSum(n)
    ensures size == 1 <==> 1 <= n <= 4
    ensures n <= 4 ==> size == TreePackets(n)
  {
    size := 0;
    var val: nat := n;
    while val > 0
      invariant size + QuotientSum(val) == QuotientSum(n)
    {
      size := size + (val + BARRIER_PKT_NUM_PREDS - 1) / BARRIER_PKT_NUM_PREDS;
      val := val / BARRIER_PKT_NUM_PREDS;
    }
    QuotientSumIsOne(n);
  }

  lemma QuotientSumIsOne(n: nat)
    ensures QuotientSum(n) == 1 <==> 1 <= n <= 4
    ensures n > 0 ==> QuotientSum(n) > 0
  {
    if n >= BARRIER_PKT_NUM_PREDS { QuotientSumIsOne(n / BARRIER_PKT_NUM_PREDS); }
  }

  lemma QuotientSumIsNoTree()
    ensures QuotientSum(5) == 2 && TreePackets(5) == 1
    ensures QuotientSum(26) == 8 && TreePackets(26) == 9
  {
    assert QuotientSum(1) == 1;
    assert TreePackets(6) == 3;
  }

  /** A batch being filled: one counting signal per queue, and the signal for its end. */
  datatype BatchState = BatchState(perQueue: seq<Signal>, final: Signal)

  ghost function ClearOps<T>(sigs: seq<Signal>): (r: seq<Op<T>>) {
    if sigs == [] then [] else ClearOps(sigs[..|sigs| - 1]) + [Store(sigs[|sigs| - 1], 0)]
  }

  ghost function BarrierOps<T>(n: nat, dep: Signal): (r: seq<Op<T>>) {
    if n == 0 then [] else BarrierOps(n - 1, dep) + [Enqueue(n - 1, Packet(true, BarrierAnd(Padded([dep])), Null))]
  }

  /** The first queue asked that is not full. */
  ghost function FirstFree(fulls: seq<bool>): (k: nat)
    requires false in fulls
    ensures k < |fulls| && !fulls[k] && forall i :: 0 <= i < k ==> fulls[i]
  {
    if !fulls[0] then 0 else 1 + FirstFree(fulls[1..])
  }

  class SerialUnorderedExecutor<T> {
    var numQueues: nat
    var currQid: nat
    var batches: nat       // how many times signals have been taken from the pool
    var log: seq<Op<T>>    // what the host has done to queues and signals

    constructor (numQs: nat)
      ensures numQueues == if numQs < MAX_ACTIVE_QUEUES then numQs else MAX_ACTIVE_QUEUES
      ensures currQid == 0 && batches == 0 && log == []
    {
      var n := if numQs < MAX_ACTIVE_QUEUES then numQs else MAX_ACTIVE_QUEUES;
      numQueues := n;
      currQid, batches, log := 0, 0, [];
    }

    /** Round robin over the queues until one is not full. `fulls` is what asking the queues, one after the other, answers. */
    method NextQid(fulls: seq<bool>) returns (q: nat)
      requires currQid < numQueues && false in fulls
      modifies `currQid
      ensures q == currQid < numQueues && currQid == Mod(old(currQid) + 1 + FirstFree(fulls), numQueues)
    {
      ModNext(currQid, numQueues);
      currQid := (currQid + 1) % numQueues;
      hide Mod;
      var asked := 0;
      while fulls[asked]
        invariant asked <= FirstFree(fulls)
        invariant currQid == Mod(old(currQid) + 1 + asked, numQueues)
        decreases FirstFree(fulls) - asked
      {
        ModNext(old(currQid) + 1 + asked, numQueues);
        currQid := (currQid + 1) % numQueues;
        asked := asked + 1;
      }
      q := currQid;
    }

    method FillBarrier(queue: nat, comp: Signal, preds: seq<Signal>)
      requires |preds| <= BARRIER_PKT_NUM_PREDS
      modifies `log
      ensures log == old(log) + [Enqueue(queue, Packet(true, BarrierAnd(Padded(preds)), comp))]
    {
      var slot := new Signal[BARRIER_PKT_NUM_PREDS];
      var pkt := new BarrierAndPkt(slot);
      pkt.Init(true, comp, preds);
      log := log + [Enqueue(queue, Packet(pkt.barrierBit, BarrierAnd(pkt.depSignal[..]), pkt.completion))];
    }

    method StartBatch() returns (b: BatchState)
      modifies `batches, `log
      ensures b == BatchState(QueueSignals(old(batches), numQueues), Final(old(batches))) && batches == old(batches) + 1
      ensures log == old(log) + ClearOps(b.perQueue)
    {
      var perQueue := [];
      for i := 0 to numQueues
        invariant perQueue == QueueSignals(batches, i) && batches == old(batches) && log == old(log)
      {
        perQueue := perQueue + [PerQueue(batches, i)];
      }
      b := BatchState(perQueue, Final(batches));
      for i := 0 to |perQueue|
        invariant log == old(log) + ClearOps(perQueue[..i]) && batches == old(batches)
      {
        log := log + [Store(perQueue[i], 0)];
        assert perQueue[..i + 1] == perQueue[..i] + [perQueue[i]];
        ClearOpsPush<T>(perQueue[..i], perQueue[i]);
      }
      assert perQueue[..|perQueue|] == perQueue;
      batches := batches + 1;
    }

    /** A batch that starts after `dep` has reached 0: a barrier packet on every queue comes first. */
    method StartBatchWithDep(dep: Signal) returns (b: BatchState)
      modifies `batches, `log
      ensures b == BatchState(QueueSignals(old(batches), numQueues), Final(old(batches))) && batches == old(batches) + 1
      ensures log == old(log) + BarrierOps(numQueues, dep) + ClearOps(b.perQueue)
    {
      for q := 0 to numQueues
        invariant log == old(log) + BarrierOps(q, dep) && batches == old(batches)
      {
        FillBarrier(q, Null, [dep]);
      }
      b := StartBatch();
    }

    method AddToBatch(b: BatchState, task: T, fulls: seq<bool>) returns (q: nat)
      requires currQid < numQueues && |b.perQueue| == numQueues && false in fulls
      modifies `currQid, `log
      ensures q == currQid == Mod(old(currQid) + 1 + FirstFree(fulls), numQueues) < numQueues
      ensures log == old(log) + [Add(b.perQueue[q], 1), Enqueue(q, Packet(false, Kernel(task), b.perQueue[q]))]
    {
      q := NextQid(fulls);
      log := log + [Add(b.perQueue[q], 1)];
      log := log + [Enqueue(q, Packet(false, Kernel(task), b.perQueue[q]))];
    }

    method LaunchBatch(b: BatchState) returns (handle: Signal)
      requires 1 <= numQueues <= 4 && |b.perQueue| == numQueues
      modifies `log
      ensures handle == b.final
      ensures log == old(log) + [Enqueue(0, Packet(true, BarrierAnd(Padded(b.perQueue)), b.final))]
    {
      var numBarrierPkts := BarrierTreeSize(numQueues);
      assert numBarrierPkts == 1;
      FillBarrier(0, b.final, b.perQueue);
      handle := b.final;
    }

    method WaitOnTask(handle: Signal)
      modifies `log
      ensures log == old(log) + [WaitZero(handle)]
    {
      log := log + [WaitZero(handle)];
    }
  }

  lemma ClearOpsPush<T>(sigs: seq<Signal>, x: Signal)
    ensures ClearOps<T>(sigs + [x]) == ClearOps<T>(sigs) + [Store(x, 0)]
  {
    assert (sigs + [x])[..|sigs|] == sigs;
  }

  // ---------------------------------------------------------------- the log of an executor is a well-formed program

  /** The kernels of batch `k`, in the order they were added. */
  ghost function BatchRuns<T>(tags: seq<Tag<T>>, k: nat): seq<T> {
    if tags == [] then []
    else
      var last := tags[|tags| - 1];
      BatchRuns(tags[..|tags| - 1], k) + if last.Run? && last.k == k then [last.task] else []
  }

  lemma BatchRunsPush<T>(tags: seq<Tag<T>>, t: Tag<T>, k: nat)
    ensures BatchRuns(tags + [t], k) == BatchRuns(tags, k) + if t.Run? && t.k == k then [t.task] else []
  {
    assert (tags + [t])[..|tags|] == tags;
  }

  ghost predicate Settled<T>(tags: seq<Tag<T>>) {
    tags != [] ==> !tags[|tags| - 1].Count?
  }

  ghost predicate KeysUpTo<T>(tags: seq<Tag<T>>, b: int) {
    forall x :: x in tags ==> Key(x) <= b
  }

  ghost predicate AllHeld<T>(tags: seq<Tag<T>>, k: nat, nq: nat) {
    forall q: nat :: q < nq ==> Held(tags, k, q)
  }

  ghost predicate EndTagged<T>(tags: seq<Tag<T>>, k: nat) {
    k > 0 ==> End(k - 1) in tags
  }

  /** `n` batches have been launched, and no other has been started. */
  ghost predicate Between<T>(tags: seq<Tag<T>>, nq: nat, n: nat) {
    WellFormed(tags, nq) && Settled(tags) && KeysUpTo(tags, 5 * n - 1) && EndTagged(tags, n)
  }

  /** The host has waited for the last batch. */
  ghost predicate Waited<T>(tags: seq<Tag<T>>, n: nat) {
    n > 0 ==> Await(n - 1) in tags
  }

  /** While start barriers are being added for batch `k`, `n` of them so far. */
  ghost predicate Beginning<T>(tags: seq<Tag<T>>, nq: nat, k: nat, n: nat) {
    && WellFormed(tags, nq) && Settled(tags) && KeysUpTo(tags, 5 * k) && k > 0 && EndTagged(tags, k)
    && (forall q: nat :: q < n <==> Begin(k, q) in tags)
  }

  /** While the counting signals of batch `k` are being set to 0, `n` of them so far. */
  ghost predicate Clearing<T>(tags: seq<Tag<T>>, nq: nat, k: nat, n: nat) {
    && WellFormed(tags, nq) && Settled(tags) && KeysUpTo(tags, 5 * k + 1) && EndTagged(tags, k) && AllHeld(tags, k, nq)
    && (forall q: nat :: q < n <==> Clear(k, q) in tags)
  }

  /** Batch `k` has been started and not launched. */
  ghost predicate Within<T>(tags: seq<Tag<T>>, nq: nat, k: nat) {
    && WellFormed(tags, nq) && Settled(tags) && KeysUpTo(tags, 5 * k + 2) && EndTagged(tags, k)
    && AllHeld(tags, k, nq) && AllCleared(tags, k, nq)
  }

  /** The host operations of a program, as one value. */
  ghost function HostLog<T>(tags: seq<Tag<T>>, nq: nat): seq<Op<T>>
    requires nq <= BARRIER_PKT_NUM_PREDS
  {
    Program(tags, nq)
  }

  lemma HostLogPush<T>(tags: seq<Tag<T>>, t: Tag<T>, nq: nat)
    requires nq <= BARRIER_PKT_NUM_PREDS
    ensures HostLog(tags + [t], nq) == HostLog(tags, nq) + [Lower(t, nq)]
  {
  }

  lemma Members<T>(tags: seq<Tag<T>>, t: Tag<T>)
    ensures forall x :: x in tags + [t] <==> x in tags || x == t
  {
  }

  lemma KeysPush<T>(tags: seq<Tag<T>>, t: Tag<T>, b: int, c: int)
    requires KeysUpTo(tags, b) && b <= c && Key(t) <= c
    ensures KeysUpTo(tags + [t], c)
  {
    Members(tags, t);
  }

  lemma HeldPush<T>(tags: seq<Tag<T>>, t: Tag<T>, k: nat, nq: nat)
    ensures AllHeld(tags, k, nq) ==> AllHeld(tags + [t], k, nq)
    ensures AllCleared(tags, k, nq) ==> AllCleared(tags + [t], k, nq)
    ensures EndTagged(tags, k) ==> EndTagged(tags + [t], k)
  {
    Members(tags, t);
    forall q: nat | q < nq ensures Held(tags, k, q) ==> Held(tags + [t], k, q) {}
  }

  /** The effect of one more tag that is no kernel. */
  lemma Extended<T>(tags: seq<Tag<T>>, t: Tag<T>, nq: nat)
    requires WellFormed(tags, nq) && Allowed(tags, t, nq) && !t.Run?
    ensures WellFormed(tags + [t], nq)
    ensures HostLog(tags + [t], nq) == HostLog(tags, nq) + [Lower(t, nq)]
    ensures forall j :: BatchRuns(tags + [t], j) == BatchRuns(tags, j)
    ensures Settled(tags + [t]) <==> !t.Count?
  {
    WellFormedExtend(tags, t, nq);
    HostLogPush(tags, t, nq);
    forall j ensures BatchRuns(tags + [t], j) == BatchRuns(tags, j) { BatchRunsPush(tags, t, j); }
  }

  lemma AppendOne<X>(p: seq<X>, a: seq<X>, x: X)
    ensures p + (a + [x]) == p + a + [x]
  {
  }

  // ---------------------------------------------------------------- what a batch consists of

  /** Start barriers of batch `k` in the first `n` queues. */
  ghost function Begins<T>(k: nat, n: nat): (r: seq<Tag<T>>)
    ensures |r| == n && forall q :: 0 <= q < n ==> r[q] == Begin(k, q)
  {
    seq(n, q requires 0 <= q < n => Begin(k, q))
  }

  /** Their counting signals set to 0. */
  ghost function Clears<T>(k: nat, n: nat): (r: seq<Tag<T>>)
    ensures |r| == n && forall q :: 0 <= q < n ==> r[q] == Clear(k, q)
  {
    seq(n, q requires 0 <= q < n => Clear(k, q))
  }

  /** Kernels of batch `k`, each counted before it is enqueued. */
  ghost predicate AreKernels<T>(k: nat, ks: seq<Tag<T>>) {
    ks != [] ==>
      var last := |ks| - 1;
      last > 0 && ks[last].Run? && ks[last].k == k && ks[last - 1] == Count(k, ks[last].q) && AreKernels(k, ks[..last - 1])
  }

  /** How a batch starts: behind barriers in every queue if `dep`. */
  ghost function StartTags<T>(k: nat, nq: nat, dep: bool): seq<Tag<T>> {
    (if dep then Begins<T>(k, nq) else []) + Clears<T>(k, nq)
  }

  /** What has been added to `before` is batch `k`, from its start to its closing barrier. */
  ghost predicate IsBatch<T>(before: seq<Tag<T>>, after: seq<Tag<T>>, k: nat, nq: nat, dep: bool) {
    var start := StartTags<T>(k, nq, dep);
    var lo := |before| + |start|;
    && lo < |after| && after[..lo] == before + start
    && AreKernels(k, after[lo..|after| - 1]) && after[|after| - 1] == End(k)
  }

  lemma BeginsNext<T>(k: nat, n: nat)
    ensures Begins<T>(k, n + 1) == Begins<T>(k, n) + [Tag<T>.Begin(k, n)]
    ensures Clears<T>(k, n + 1) == Clears<T>(k, n) + [Tag<T>.Clear(k, n)]
    ensures Begins<T>(k, 0) == [] == Clears<T>(k, 0)
  {
  }

  lemma KernelsNext<T>(k: nat, ks: seq<Tag<T>>, q: nat, task: T)
    requires AreKernels(k, ks)
    ensures AreKernels(k, ks + [Count(k, q)] + [Run(k, q, task)])
  {
    assert (ks + [Count(k, q)] + [Run(k, q, task)])[..|ks|] == ks;
  }

  // ---------------------------------------------------------------- whose turn it is

  /** The queue that is current after these operations: every kernel goes to the next queue but for those found full, `skips(i)` of them
      after `i` operations. */
  ghost function CurrentQueue<T>(tags: seq<Tag<T>>, nq: nat, skips: nat -> nat): (q: nat)
    requires nq > 0
    ensures q < nq
  {
    if tags == [] then 0
    else
      var last := |tags| - 1;
      var q := CurrentQueue(tags[..last], nq, skips);
      if tags[last].Run? then Mod(q + 1 + skips(if last > 0 then last - 1 else 0), nq) else q
  }

  /** Every kernel went to the queue whose turn it was. */
  ghost predicate TakesTurns<T>(tags: seq<Tag<T>>, nq: nat, skips: nat -> nat)
    requires nq > 0
  {
    forall j :: 0 <= j < |tags| && tags[j].Run? ==> tags[j].q == CurrentQueue(tags[..j + 1], nq, skips)
  }

  lemma TurnsPush<T>(tags: seq<Tag<T>>, t: Tag<T>, nq: nat, skips: nat -> nat)
    requires nq > 0 && TakesTurns(tags, nq, skips) && (t.Run? ==> t.q == CurrentQueue(tags + [t], nq, skips))
    ensures TakesTurns(tags + [t], nq, skips)
  {
    var more := tags + [t];
    hide CurrentQueue;
    forall j | 0 <= j < |more| && more[j].Run? ensures more[j].q == CurrentQueue(more[..j + 1], nq, skips) {
      if j < |tags| { assert more[..j + 1] == tags[..j + 1]; } else { assert more[..j + 1] == more; }
    }
  }

  lemma QueueNext<T>(tags: seq<Tag<T>>, t: Tag<T>, nq: nat, skips: nat -> nat)
    requires nq > 0
    ensures CurrentQueue(tags + [t], nq, skips) ==
            if t.Run? then Mod(CurrentQueue(tags, nq, skips) + 1 + skips(if tags != [] then |tags| - 1 else 0), nq) else CurrentQueue(tags, nq, skips)
  {
    assert (tags + [t])[..|tags|] == tags;
    hide Mod;
  }

  /** Operations that are no kernels change nothing about the turns. */
  lemma {:induction false} TurnsKept<T>(tags: seq<Tag<T>>, more: seq<Tag<T>>, nq: nat, skips: nat -> nat)
    requires nq > 0 && TakesTurns(tags, nq, skips) && forall x :: x in more ==> !x.Run?
    ensures TakesTurns(tags + more, nq, skips) && CurrentQueue(tags + more, nq, skips) == CurrentQueue(tags, nq, skips)
  {
    hide CurrentQueue, TakesTurns;
    if more == [] {
      assert tags + more == tags;
    } else {
      var last := |more| - 1;
      assert forall x :: x in more[..last] ==> x in more;
      TurnsKept(tags, more[..last], nq, skips);
      assert more[last] in more && tags + more == tags + more[..last] + [more[last]];
      TurnsPush(tags + more[..last], more[last], nq, skips);
      QueueNext(tags + more[..last], more[last], nq, skips);
    }
  }

  /** A kernel is enqueued on the next queue that is not full. */
  lemma KernelTurn<T>(tags: seq<Tag<T>>, k: nat, q: nat, task: T, nq: nat, skips: nat -> nat)
    requires nq > 0 && TakesTurns(tags, nq, skips) && q == Mod(CurrentQueue(tags, nq, skips) + 1 + skips(|tags|), nq)
    ensures var after := tags + [Count(k, q)] + [Run(k, q, task)];
            TakesTurns(after, nq, skips) && CurrentQueue(after, nq, skips) == q
  {
    hide Mod, CurrentQueue, TakesTurns;
    TurnsPush(tags, Count(k, q), nq, skips);
    QueueNext(tags, Count(k, q), nq, skips);
    QueueNext(tags + [Count(k, q)], Run(k, q, task), nq, skips);
    TurnsPush(tags + [Count(k, q)], Run(k, q, task), nq, skips);
  }

  lemma StartHasNoKernels<T>(k: nat, nq: nat, dep: bool)
    ensures forall x :: x in StartTags<T>(k, nq, dep) ==> !x.Run? && x.k == k && !x.Await? && (x.Begin? ==> dep)
  {
    assert forall x :: x in Begins<T>(k, nq) ==> x.Begin? && x.k == k;
    assert forall x :: x in Clears<T>(k, nq) ==> x.Clear? && x.k == k;
  }

  // ---------------------------------------------------------------- start barriers

  lemma BeginAllowed<T>(tags: seq<Tag<T>>, nq: nat, k: nat, n: nat)
    requires Beginning(tags, nq, k, n) && n < nq
    ensures Allowed(tags, Tag<T>.Begin(k, n), nq)
  {
    hide WellFormed;
  }

  lemma BegunPush<T>(tags: seq<Tag<T>>, k: nat, n: nat)
    requires forall q: nat :: q < n <==> Begin(k, q) in tags
    ensures forall q: nat :: q < n + 1 <==> Begin(k, q) in tags + [Begin(k, n)]
  {
    Members(tags, Begin(k, n));
  }

  lemma BeginStep<T>(tags: seq<Tag<T>>, nq: nat, k: nat, n: nat)
    requires nq <= BARRIER_PKT_NUM_PREDS && Beginning(tags, nq, k, n) && n < nq
    ensures var after := tags + [Tag<T>.Begin(k, n)];
            && Beginning(after, nq, k, n + 1)
            && HostLog(after, nq) == HostLog(tags, nq) + [Lower(Tag<T>.Begin(k, n), nq)]
            && forall j :: BatchRuns(after, j) == BatchRuns(tags, j)
  {
    var t := Tag<T>.Begin(k, n);
    hide WellFormed, Allowed, Settled, KeysUpTo, EndTagged, HostLog, BatchRuns, Lower;
    BeginAllowed(tags, nq, k, n);
    Extended(tags, t, nq);
    KeysPush(tags, t, 5 * k, 5 * k);
    HeldPush(tags, t, k, nq);
    BegunPush(tags, k, n);
  }

  lemma BeginBase<T>(tags: seq<Tag<T>>, nq: nat, k: nat)
    requires Between(tags, nq, k) && k > 0
    ensures Beginning(tags, nq, k, 0) && BarrierOps<T>(0, Final(k - 1)) == []
  {
    hide WellFormed, Settled, EndTagged;
  }

  lemma {:induction false} AddBegins<T>(tags: seq<Tag<T>>, nq: nat, k: nat, n: nat) returns (after: seq<Tag<T>>)
    requires nq <= BARRIER_PKT_NUM_PREDS && Between(tags, nq, k) && k > 0 && n <= nq
    ensures Beginning(after, nq, k, n) && HostLog(after, nq) == HostLog(tags, nq) + BarrierOps(n, Final(k - 1))
    ensures forall j :: BatchRuns(after, j) == BatchRuns(tags, j)
    ensures after == tags + Begins(k, n)
  {
    hide *;
    BeginsNext<T>(k, if n == 0 then 0 else n - 1);
    if n == 0 {
      after := tags;
      BeginBase(tags, nq, k);
    } else {
      var before := AddBegins(tags, nq, k, n - 1);
      BeginStep(before, nq, k, n - 1);
      after := before + [Begin(k, n - 1)];
      AppendOne(tags, Begins<T>(k, n - 1), Begin(k, n - 1));
      BarrierOpsNext<T>(k, n, nq);
      AppendOne(HostLog(tags, nq), BarrierOps<T>(n - 1, Final(k - 1)), Lower(Tag<T>.Begin(k, n - 1), nq));
    }
  }

  lemma BarrierOpsNext<T>(k: nat, n: nat, nq: nat)
    requires k > 0 && 0 < n <= nq <= BARRIER_PKT_NUM_PREDS
    ensures BarrierOps<T>(n, Final(k - 1)) == BarrierOps<T>(n - 1, Final(k - 1)) + [Lower(Tag<T>.Begin(k, n - 1), nq)]
  {
    hide Padded;
  }

  // ---------------------------------------------------------------- counting signals

  lemma ClearAllowed<T>(tags: seq<Tag<T>>, nq: nat, k: nat, n: nat)
    requires Clearing(tags, nq, k, n) && n < nq
    ensures Allowed(tags, Tag<T>.Clear(k, n), nq)
  {
    hide WellFormed, AllHeld;
  }

  lemma ClearedPush<T>(tags: seq<Tag<T>>, k: nat, n: nat)
    requires forall q: nat :: q < n <==> Clear(k, q) in tags
    ensures forall q: nat :: q < n + 1 <==> Clear(k, q) in tags + [Clear(k, n)]
  {
    Members(tags, Clear(k, n));
  }

  lemma ClearStep<T>(tags: seq<Tag<T>>, nq: nat, k: nat, n: nat)
    requires nq <= BARRIER_PKT_NUM_PREDS && Clearing(tags, nq, k, n) && n < nq
    ensures var after := tags + [Tag<T>.Clear(k, n)];
            && Clearing(after, nq, k, n + 1)
            && HostLog(after, nq) == HostLog(tags, nq) + [Lower(Tag<T>.Clear(k, n), nq)]
            && forall j :: BatchRuns(after, j) == BatchRuns(tags, j)
  {
    var t := Tag<T>.Clear(k, n);
    hide WellFormed, Allowed, Settled, KeysUpTo, EndTagged, AllHeld, HostLog, BatchRuns, Lower;
    ClearAllowed(tags, nq, k, n);
    Extended(tags, t, nq);
    KeysPush(tags, t, 5 * k + 1, 5 * k + 1);
    HeldPush(tags, t, k, nq);
    ClearedPush(tags, k, n);
  }

  lemma ClearOpsNext<T>(k: nat, n: nat, nq: nat)
    requires 0 < n <= nq <= BARRIER_PKT_NUM_PREDS
    ensures ClearOps<T>(QueueSignals(k, n)) == ClearOps<T>(QueueSignals(k, n - 1)) + [Lower(Tag<T>.Clear(k, n - 1), nq)]
  {
    hide ClearOps;
    assert QueueSignals(k, n) == QueueSignals(k, n - 1) + [PerQueue(k, n - 1)];
    ClearOpsPush<T>(QueueSignals(k, n - 1), PerQueue(k, n - 1));
  }

  lemma {:induction false} AddClears<T>(tags: seq<Tag<T>>, nq: nat, k: nat, n: nat) returns (after: seq<Tag<T>>)
    requires nq <= BARRIER_PKT_NUM_PREDS && Clearing(tags, nq, k, 0) && n <= nq
    ensures Clearing(after, nq, k, n) && HostLog(after, nq) == HostLog(tags, nq) + ClearOps(QueueSignals(k, n))
    ensures forall j :: BatchRuns(after, j) == BatchRuns(tags, j)
    ensures after == tags + Clears(k, n)
  {
    BeginsNext<T>(k, if n == 0 then 0 else n - 1);
    if n == 0 {
      after := tags;
      assert ClearOps<T>(QueueSignals(k, 0)) == [];
      hide *;
    } else {
      hide *;
      var before := AddClears(tags, nq, k, n - 1);
      ClearStep(before, nq, k, n - 1);
      after := before + [Clear(k, n - 1)];
      AppendOne(tags, Clears<T>(k, n - 1), Clear(k, n - 1));
      ClearOpsNext<T>(k, n, nq);
      AppendOne(HostLog(tags, nq), ClearOps<T>(QueueSignals(k, n - 1)), Lower(Tag<T>.Clear(k, n - 1), nq));
    }
  }

  // ---------------------------------------------------------------- starting, filling and launching a batch

  /** A batch started after the host has waited for all earlier ones. */
  lemma Start<T>(tags: seq<Tag<T>>, nq: nat, k: nat) returns (after: seq<Tag<T>>)
    requires nq <= BARRIER_PKT_NUM_PREDS && Between(tags, nq, k) && Waited(tags, k)
    ensures Within(after, nq, k) && HostLog(after, nq) == HostLog(tags, nq) + ClearOps(QueueSignals(k, nq))
    ensures forall j :: BatchRuns(after, j) == BatchRuns(tags, j)
    ensures after == tags + StartTags(k, nq, false)
  {
    assert [] + Clears<T>(k, nq) == Clears<T>(k, nq);
    assert Clearing(tags, nq, k, 0) by { hide WellFormed, Settled; }
    after := AddClears(tags, nq, k, nq);
    assert Within(after, nq, k) by { hide WellFormed, Settled, HostLog, BatchRuns; }
  }

  lemma BegunMeansHeld<T>(tags: seq<Tag<T>>, nq: nat, k: nat)
    requires Beginning(tags, nq, k, nq)
    ensures Clearing(tags, nq, k, 0)
  {
    hide WellFormed, Settled;
  }

  lemma ClearedMeansWithin<T>(tags: seq<Tag<T>>, nq: nat, k: nat)
    requires Clearing(tags, nq, k, nq)
    ensures Within(tags, nq, k)
  {
    hide WellFormed, Settled, EndTagged, AllHeld;
  }

  /** A batch started behind barriers on the previous batch's final signal. */
  lemma StartWithDep<T>(tags: seq<Tag<T>>, nq: nat, k: nat) returns (after: seq<Tag<T>>)
    requires nq <= BARRIER_PKT_NUM_PREDS && Between(tags, nq, k) && k > 0
    ensures Within(after, nq, k)
    ensures HostLog(after, nq) == HostLog(tags, nq) + BarrierOps(nq, Final(k - 1)) + ClearOps(QueueSignals(k, nq))
    ensures forall j :: BatchRuns(after, j) == BatchRuns(tags, j)
    ensures after == tags + StartTags(k, nq, true)
  {
    StartIs<T>(k, nq);
    hide *;
    var begun := AddBegins(tags, nq, k, nq);
    BegunMeansHeld(begun, nq, k);
    after := AddClears(begun, nq, k, nq);
    ClearedMeansWithin(after, nq, k);
    Assoc(tags, Begins<T>(k, nq), Clears<T>(k, nq));
  }

  lemma StartIs<T>(k: nat, nq: nat)
    ensures StartTags<T>(k, nq, true) == Begins<T>(k, nq) + Clears<T>(k, nq)
  {
  }

  lemma KernelAllowed<T>(tags: seq<Tag<T>>, nq: nat, k: nat, q: nat, task: T)
    requires Within(tags, nq, k) && q < nq
    ensures var c := Tag<T>.Count(k, q); Allowed(tags, c, nq) && Allowed(tags + [c], Run(k, q, task), nq)
  {
    hide WellFormed;
    Members(tags, Tag<T>.Count(k, q));
  }

  lemma KernelStep<T>(tags: seq<Tag<T>>, nq: nat, k: nat, q: nat, task: T)
    requires Within(tags, nq, k) && q < nq
    ensures Within(tags + [Count(k, q)] + [Run(k, q, task)], nq, k)
  {
    var c, r := Tag<T>.Count(k, q), Run(k, q, task);
    KernelAllowed(tags, nq, k, q, task);
    assert Settled(tags + [c] + [r]);
    hide WellFormed, Allowed, KeysUpTo, AllHeld, AllCleared, EndTagged, Settled;
    WellFormedExtend(tags, c, nq);
    WellFormedExtend(tags + [c], r, nq);
    HeldPush(tags, c, k, nq);
    HeldPush(tags + [c], r, k, nq);
    KeysPush(tags, c, 5 * k + 2, 5 * k + 2);
    KeysPush(tags + [c], r, 5 * k + 2, 5 * k + 2);
  }

  lemma AddKernel<T>(tags: seq<Tag<T>>, nq: nat, k: nat, q: nat, task: T)
    requires nq <= BARRIER_PKT_NUM_PREDS && Within(tags, nq, k) && q < nq
    ensures var after := tags + [Count(k, q)] + [Run(k, q, task)];
            && Within(after, nq, k)
            && HostLog(after, nq) == HostLog(tags, nq) + [Add(PerQueue(k, q), 1), Enqueue(q, Packet(false, Kernel(task), PerQueue(k, q)))]
            && BatchRuns(after, k) == BatchRuns(tags, k) + [task]
            && forall j :: j != k ==> BatchRuns(after, j) == BatchRuns(tags, j)
  {
    var c, r := Tag<T>.Count(k, q), Run(k, q, task);
    KernelStep(tags, nq, k, q, task);
    hide Within, BatchRuns, HostLog;
    HostLogPush(tags, c, nq);
    HostLogPush(tags + [c], r, nq);
    assert [Lower(c, nq)] + [Lower(r, nq)] == [Lower(c, nq), Lower(r, nq)];
    forall j ensures BatchRuns(tags + [c] + [r], j) == BatchRuns(tags, j) + if j == k then [task] else [] {
      BatchRunsPush(tags, c, j);
      BatchRunsPush(tags + [c], r, j);
    }
  }

  lemma EndAllowed<T>(tags: seq<Tag<T>>, nq: nat, k: nat)
    requires Within(tags, nq, k)
    ensures Allowed(tags, Tag<T>.End(k), nq)
  {
    hide WellFormed, AllHeld;
  }

  lemma CloseBatch<T>(tags: seq<Tag<T>>, nq: nat, k: nat)
    requires nq <= BARRIER_PKT_NUM_PREDS && Within(tags, nq, k)
    ensures var after := tags + [End(k)];
            && Between(after, nq, k + 1) && KeysUpTo(after, 5 * k + 3)
            && HostLog(after, nq) == HostLog(tags, nq) + [Enqueue(0, Packet(true, BarrierAnd(Padded(QueueSignals(k, nq))), Final(k)))]
            && forall j :: BatchRuns(after, j) == BatchRuns(tags, j)
  {
    var t := Tag<T>.End(k);
    EndAllowed(tags, nq, k);
    hide WellFormed, Allowed, Settled, KeysUpTo, AllHeld, AllCleared, HostLog, BatchRuns, Padded, QueueSignals;
    Extended(tags, t, nq);
    KeysPush(tags, t, 5 * k + 2, 5 * k + 3);
    KeysPush(tags, t, 5 * k + 2, 5 * (k + 1) - 1);
    assert t in tags + [t];
  }

  lemma EndTaggedBefore<T>(tags: seq<Tag<T>>, nq: nat, k: nat)
    requires WellFormed(tags, nq) && End(k) in tags
    ensures EndTagged(tags, k)
  {
    var e :| 0 <= e < |tags| && tags[e] == End(k);
    assert Allowed(tags[..e], tags[e], nq);
    if k > 0 { var e0 := At(tags, End(k - 1), e); }
  }

  lemma AwaitAllowed<T>(tags: seq<Tag<T>>, nq: nat, k: nat)
    requires Between(tags, nq, k + 1) && KeysUpTo(tags, 5 * k + 3)
    ensures Allowed(tags, Tag<T>.Await(k), nq)
  {
    hide WellFormed;
    EndTaggedBefore(tags, nq, k);
  }

  lemma AddWait<T>(tags: seq<Tag<T>>, nq: nat, k: nat)
    requires nq <= BARRIER_PKT_NUM_PREDS && Between(tags, nq, k + 1) && KeysUpTo(tags, 5 * k + 3)
    ensures var after := tags + [Await(k)];
            && Between(after, nq, k + 1) && Waited(after, k + 1)
            && HostLog(after, nq) == HostLog(tags, nq) + [WaitZero(Final(k))]
            && forall j :: BatchRuns(after, j) == BatchRuns(tags, j)
  {
    var t := Tag<T>.Await(k);
    AwaitAllowed(tags, nq, k);
    hide WellFormed, Allowed, Settled, KeysUpTo, EndTagged, HostLog, BatchRuns;
    Extended(tags, t, nq);
    KeysPush(tags, t, 5 * k + 3, 5 * (k + 1) - 1);
    HeldPush(tags, t, k + 1, nq);
    assert t in tags + [t];
  }
}
