/** Batches of kernels spread over several queues, joined by counting signals and barrier packets. */
module BatchProtocol {
  import opened Sequences
  import opened QueueProtocol

  const BARRIER_PKT_NUM_PREDS := 5

  /** The host operations of a batch executor. `k` numbers the batches, `q` the queues. */
  datatype Tag<T> = Begin(k: nat, q: nat) | Clear(k: nat, q: nat) | Count(k: nat, q: nat)
                  | Run(k: nat, q: nat, task: T) | End(k: nat) | Await(k: nat)

  /** The dependency slots of a barrier packet: the given signals, and null signals after them. */
  ghost function Padded(preds: seq<Signal>): (deps: seq<Signal>)
    requires |preds| <= BARRIER_PKT_NUM_PREDS
    ensures |deps| == BARRIER_PKT_NUM_PREDS
    ensures forall j :: 0 <= j < |deps| ==> deps[j] == if j < |preds| then preds[j] else Null
  {
    preds + seq(BARRIER_PKT_NUM_PREDS - |preds|, _ => Null)
  }

  ghost function QueueSignals(k: nat, nq: nat): (r: seq<Signal>)
    ensures |r| == nq && forall q :: 0 <= q < nq ==> r[q] == PerQueue(k, q)
  {
    seq(nq, q requires 0 <= q < nq => PerQueue(k, q))
  }

  /** What each tag does to queues and signals. */
  ghost function Lower<T>(t: Tag<T>, nq: nat): Op<T>
    requires nq <= BARRIER_PKT_NUM_PREDS
  {
    match t
    case Begin(k, q) => Enqueue(q, Packet(true, BarrierAnd(Padded([Final(if k > 0 then k - 1 else 0)])), Null))
    case Clear(k, q) => Store(PerQueue(k, q), 0)
    case Count(k, q) => Add(PerQueue(k, q), 1)
    case Run(k, q, task) => Enqueue(q, Packet(false, Kernel(task), PerQueue(k, q)))
    case End(k) => Enqueue(0, Packet(true, BarrierAnd(Padded(QueueSignals(k, nq))), Final(k)))
    case Await(k) => WaitZero(Final(k))
  }

  ghost function Program<T>(tags: seq<Tag<T>>, nq: nat): (r: seq<Op<T>>)
    requires nq <= BARRIER_PKT_NUM_PREDS
    ensures |r| == |tags| && forall i :: 0 <= i < |tags| ==> r[i] == Lower(tags[i], nq)
  {
    seq(|tags|, i requires 0 <= i < |tags| => Lower(tags[i], nq))
  }

  /** Where a tag belongs in the sequence of batches, and within its batch. */
  ghost function Key<T>(t: Tag<T>): nat {
    match t
    case Begin(k, _) => 5 * k
    case Clear(k, _) => 5 * k + 1
    case Count(k, _) => 5 * k + 2
    case Run(k, _, _) => 5 * k + 2
    case End(k) => 5 * k + 3
    case Await(k) => 5 * k + 4
  }

  /** Before the first kernel of batch `k` on queue `q`, the queue or the host waits for batch `k - 1`. */
  ghost predicate Held<T>(before: seq<Tag<T>>, k: nat, q: nat) {
    k > 0 ==> Begin(k, q) in before || Await(k - 1) in before
  }

  ghost predicate AllCleared<T>(before: seq<Tag<T>>, k: nat, nq: nat) {
    forall q: nat :: q < nq ==> Clear(k, q) in before
  }

  /** After a count comes the kernel it counts, and only then. */
  ghost predicate Paired<T>(before: seq<Tag<T>>, t: Tag<T>) {
    match t
    case Run(k, q, _) => before != [] && before[|before| - 1] == Count(k, q)
    case _ => before != [] ==> !before[|before| - 1].Count?
  }

  /** The host may do `t` after `before`. */
  ghost predicate Allowed<T>(before: seq<Tag<T>>, t: Tag<T>, nq: nat) {
    && (forall x :: x in before ==> Key(x) <= Key(t) && (x == t ==> t.Count? || t.Run?))
    && Paired(before, t)
    && (!t.End? && !t.Await? ==> t.q < nq)
    && (t.k > 0 ==> End(t.k - 1) in before)
    && match t
       case Begin(k, _) => k > 0
       case Count(k, q) => AllCleared(before, k, nq) && Held(before, k, q)
       case End(k) => AllCleared(before, k, nq)
       case Await(k) => End(k) in before
       case _ => true
  }

  ghost predicate WellFormed<T>(tags: seq<Tag<T>>, nq: nat) {
    && 0 < nq <= BARRIER_PKT_NUM_PREDS
    && forall i :: 0 <= i < |tags| ==> Allowed(tags[..i], tags[i], nq)
  }

  lemma WellFormedExtend<T>(tags: seq<Tag<T>>, t: Tag<T>, nq: nat)
    requires WellFormed(tags, nq) && Allowed(tags, t, nq)
    ensures WellFormed(tags + [t], nq)
  {
    forall i | 0 <= i < |tags + [t]| ensures Allowed((tags + [t])[..i], (tags + [t])[i], nq) {
      assert (tags + [t])[..i] == tags[..i];
      assert tags[..|tags|] == tags;
    }
  }

  lemma InOrder<T>(tags: seq<Tag<T>>, nq: nat, i: nat, j: nat)
    requires WellFormed(tags, nq) && i < j < |tags|
    ensures Key(tags[i]) <= Key(tags[j]) && (tags[i] == tags[j] ==> tags[i].Count? || tags[i].Run?)
  {
    assert Allowed(tags[..j], tags[j], nq);
    assert tags[..j][i] in tags[..j];
  }

  lemma At<T>(tags: seq<Tag<T>>, t: Tag<T>, i: nat) returns (j: nat)
    requires i <= |tags| && t in tags[..i]
    ensures j < i && tags[j] == t
  {
    j :| 0 <= j < i && tags[..i][j] == t;
  }

  lemma RunFollowsCount<T>(tags: seq<Tag<T>>, nq: nat, i: nat)
    requires WellFormed(tags, nq) && i < |tags|
    ensures tags[i].Run? ==> i > 0 && tags[i - 1] == Count(tags[i].k, tags[i].q)
    ensures i > 0 && tags[i - 1].Count? ==> tags[i].Run? && tags[i].k == tags[i - 1].k && tags[i].q == tags[i - 1].q
  {
    assert Allowed(tags[..i], tags[i], nq);
  }

  // ---------------------------------------------------------------- what the signals say

  /** The counts of batch `k` on queue `q` whose kernel is not complete. */
  ghost function Pending<T>(tags: seq<Tag<T>>, s: State, k: nat, q: nat): set<nat> {
    set i: nat | i < |tags| && i < s.pos && tags[i] == Count(k, q) && i + 1 !in s.done
  }

  ghost predicate Ended<T>(tags: seq<Tag<T>>, s: State, k: nat) {
    exists i :: i in s.done && i < |tags| && tags[i] == End(k)
  }

  ghost predicate Cleared<T>(tags: seq<Tag<T>>, s: State, k: nat, q: nat) {
    exists i: nat :: i < |tags| && i < s.pos && tags[i] == Clear(k, q)
  }

  /** Each per-queue signal counts the unfinished kernels of its batch on its queue; the final signal reaches 0 when the batch has ended. */
  ghost predicate SignalsExact<T>(tags: seq<Tag<T>>, s: State) {
    && (forall k, q :: s.sig(PerQueue(k, q)) == if Cleared(tags, s, k, q) then |Pending(tags, s, k, q)| else 1)
    && (forall k :: s.sig(Final(k)) == if Ended(tags, s, k) then 0 else 1)
  }

  /** A dependency once observed as 0 stays 0. */
  ghost predicate ObservedZero<T>(prog: seq<Op<T>>, s: State) {
    forall i: nat, j: nat :: (i, j) in s.observed ==> IsDep(prog, i, j) && s.sig(Dep(prog, i, j)) == 0
  }

  /** Every batch the host has waited for has ended. */
  ghost predicate WaitsOver<T>(tags: seq<Tag<T>>, s: State) {
    forall i: nat :: i < |tags| && i < s.pos && tags[i].Await? ==> Ended(tags, s, tags[i].k)
  }

  ghost predicate Inv<T>(tags: seq<Tag<T>>, nq: nat, s: State)
    requires WellFormed(tags, nq)
  {
    && QueueInv(Program(tags, nq), s) && SignalsExact(tags, s) && ObservedZero(Program(tags, nq), s)
    && WaitsOver(tags, s)
  }

  lemma DepOf<T>(tags: seq<Tag<T>>, nq: nat, i: nat, j: nat)
    requires WellFormed(tags, nq) && IsDep(Program(tags, nq), i, j)
    ensures i < |tags| && match tags[i]
            case Begin(k, _) => k > 0 && j == 0 && Dep(Program(tags, nq), i, j) == Final(k - 1)
            case End(k) => j < nq && Dep(Program(tags, nq), i, j) == PerQueue(k, j)
            case _ => false
  {
    assert Allowed(tags[..i], tags[i], nq);
  }

  ghost predicate HostGoes<T>(tags: seq<Tag<T>>, nq: nat, s: State, s': State)
    requires WellFormed(tags, nq)
  {
    Inv(tags, nq, s) && NextBy(Program(tags, nq), s, s', Host)
  }

  lemma HostEffect<T>(tags: seq<Tag<T>>, nq: nat, s: State, s': State)
    requires WellFormed(tags, nq) && HostGoes(tags, nq, s, s')
    ensures s.pos < |tags| && s' == s.(pos := s.pos + 1, sig := s'.sig)
    ensures forall k, q :: s'.sig(PerQueue(k, q)) ==
              if tags[s.pos] == Clear(k, q) then 0
              else s.sig(PerQueue(k, q)) + if tags[s.pos] == Count(k, q) then 1 else 0
    ensures forall k :: s'.sig(Final(k)) == s.sig(Final(k))
    ensures forall i :: i in s.done ==> i < s.pos
    ensures SignalsExact(tags, s) && Allowed(tags[..s.pos], tags[s.pos], nq)
  {
  }

  lemma PendingAfterHost<T>(tags: seq<Tag<T>>, s: State, s': State, k: nat, q: nat)
    requires s.pos < |tags| && s'.pos == s.pos + 1 && s'.done == s.done && s.pos + 1 !in s.done
    ensures Pending(tags, s', k, q) == Pending(tags, s, k, q) + if tags[s.pos] == Count(k, q) then {s.pos} else {}
    ensures s.pos !in Pending(tags, s, k, q)
    ensures Cleared(tags, s', k, q) <==> Cleared(tags, s, k, q) || tags[s.pos] == Clear(k, q)
  {
  }

  lemma NothingPendingYet<T>(tags: seq<Tag<T>>, nq: nat, s: State, k: nat, q: nat)
    requires WellFormed(tags, nq) && s.pos < |tags| && tags[s.pos] == Clear(k, q)
    ensures Pending(tags, s, k, q) == {}
  {
    forall i: nat | i < s.pos ensures tags[i] != Count(k, q) { InOrder(tags, nq, i, s.pos); }
  }

  lemma HostKeepsCount<T>(tags: seq<Tag<T>>, nq: nat, s: State, s': State, k: nat, q: nat)
    requires WellFormed(tags, nq) && HostGoes(tags, nq, s, s')
    ensures s'.sig(PerQueue(k, q)) == if Cleared(tags, s', k, q) then |Pending(tags, s', k, q)| else 1
  {
    HostEffect(tags, nq, s, s');
    PendingAfterHost(tags, s, s', k, q);
    if tags[s.pos] == Clear(k, q) { NothingPendingYet(tags, nq, s, k, q); }
    if tags[s.pos] == Count(k, q) { var c := At(tags, Clear(k, q), s.pos); }
    hide HostGoes, WellFormed, Pending, Allowed;
  }

  lemma HostKeepsObserved<T>(tags: seq<Tag<T>>, nq: nat, s: State, s': State, i: nat, j: nat)
    requires WellFormed(tags, nq) && HostGoes(tags, nq, s, s') && (i, j) in s.observed
    ensures IsDep(Program(tags, nq), i, j) && s'.sig(Dep(Program(tags, nq), i, j)) == 0
  {
    HostEffect(tags, nq, s, s');
    assert IsDep(Program(tags, nq), i, j) && s.sig(Dep(Program(tags, nq), i, j)) == 0;
    DepOf(tags, nq, i, j);
    assert i < s.pos;
    InOrder(tags, nq, i, s.pos);
    hide HostGoes, WellFormed, IsDep, Dep, SignalsExact, Allowed;
  }

  lemma HostKeepsFinal<T>(tags: seq<Tag<T>>, nq: nat, s: State, s': State, k: nat)
    requires WellFormed(tags, nq) && HostGoes(tags, nq, s, s')
    ensures s'.sig(Final(k)) == if Ended(tags, s', k) then 0 else 1
  {
    HostEffect(tags, nq, s, s');
    hide HostGoes, WellFormed, Pending, Cleared, Allowed;
    assert Ended(tags, s', k) <==> Ended(tags, s, k);
  }

  lemma HostKeepsSignals<T>(tags: seq<Tag<T>>, nq: nat, s: State, s': State)
    requires WellFormed(tags, nq) && HostGoes(tags, nq, s, s')
    ensures SignalsExact(tags, s')
  {
    hide *;
    forall k, q ensures s'.sig(PerQueue(k, q)) == if Cleared(tags, s', k, q) then |Pending(tags, s', k, q)| else 1 {
      HostKeepsCount(tags, nq, s, s', k, q);
    }
    forall k ensures s'.sig(Final(k)) == if Ended(tags, s', k) then 0 else 1 {
      HostKeepsFinal(tags, nq, s, s', k);
    }
    SignalsFrom(tags, s');
  }

  lemma SignalsFrom<T>(tags: seq<Tag<T>>, s: State)
    requires forall k, q :: s.sig(PerQueue(k, q)) == if Cleared(tags, s, k, q) then |Pending(tags, s, k, q)| else 1
    requires forall k :: s.sig(Final(k)) == if Ended(tags, s, k) then 0 else 1
    ensures SignalsExact(tags, s)
  {
  }

  lemma HostKeepsZeros<T>(tags: seq<Tag<T>>, nq: nat, s: State, s': State)
    requires WellFormed(tags, nq) && HostGoes(tags, nq, s, s')
    ensures ObservedZero(Program(tags, nq), s')
  {
    HostEffect(tags, nq, s, s');
    assert s'.observed == s.observed;
    hide HostGoes, WellFormed, Allowed, IsDep, Dep, SignalsExact;
    forall i: nat, j: nat | (i, j) in s.observed
      ensures IsDep(Program(tags, nq), i, j) && s'.sig(Dep(Program(tags, nq), i, j)) == 0
    {
      HostKeepsObserved(tags, nq, s, s', i, j);
    }
  }

  // ---------------------------------------------------------------- completions

  ghost predicate Completes<T>(tags: seq<Tag<T>>, nq: nat, s: State, s': State, i: nat)
    requires WellFormed(tags, nq)
  {
    Inv(tags, nq, s) && NextBy(Program(tags, nq), s, s', Complete(i))
  }

  lemma CompleteEffect<T>(tags: seq<Tag<T>>, nq: nat, s: State, s': State, i: nat)
    requires WellFormed(tags, nq) && Completes(tags, nq, s, s', i)
    ensures i < s.pos <= |tags| && i !in s.done && s' == s.(done := s.done + {i}, sig := s'.sig)
    ensures tags[i].Run? || tags[i].Begin? || tags[i].End?
    ensures forall k, q :: s'.sig(PerQueue(k, q)) ==
              s.sig(PerQueue(k, q)) - if tags[i].Run? && tags[i].k == k && tags[i].q == q then 1 else 0
    ensures forall k :: s'.sig(Final(k)) == s.sig(Final(k)) - if tags[i] == End(k) then 1 else 0
    ensures forall j :: j in s.done ==> j < s.pos
    ensures SignalsExact(tags, s) && Allowed(tags[..i], tags[i], nq)
  {
  }

  lemma KernelIsPending<T>(tags: seq<Tag<T>>, nq: nat, s: State, i: nat)
    requires WellFormed(tags, nq) && i < s.pos <= |tags| && tags[i].Run? && i !in s.done
    ensures i > 0 && i - 1 in Pending(tags, s, tags[i].k, tags[i].q)
    ensures Cleared(tags, s, tags[i].k, tags[i].q)
  {
    hide *;
    RunFollowsCount(tags, nq, i);
    var c := CountCleared(tags, nq, i - 1);
    CountIsPending(tags, s, i - 1, c);
  }

  /** The counting signal was set to 0 before it counted. */
  lemma CountCleared<T>(tags: seq<Tag<T>>, nq: nat, i: nat) returns (c: nat)
    requires WellFormed(tags, nq) && i < |tags| && tags[i].Count?
    ensures c < i && tags[c] == Clear(tags[i].k, tags[i].q)
  {
    var t := tags[i];
    assert Allowed(tags[..i], t, nq);
    hide WellFormed;
    c := At(tags, Clear(t.k, t.q), i);
  }

  lemma CountIsPending<T>(tags: seq<Tag<T>>, s: State, i: nat, c: nat)
    requires i + 1 < s.pos <= |tags| && tags[i].Count? && i + 1 !in s.done && c < i && tags[c] == Clear(tags[i].k, tags[i].q)
    ensures i in Pending(tags, s, tags[i].k, tags[i].q) && Cleared(tags, s, tags[i].k, tags[i].q)
  {
  }

  lemma PendingAfterCompletion<T>(tags: seq<Tag<T>>, s: State, s': State, i: nat, k: nat, q: nat)
    requires s'.pos == s.pos && s'.done == s.done + {i}
    ensures Pending(tags, s', k, q) == Pending(tags, s, k, q) - if i > 0 then {i - 1} else {}
    ensures Cleared(tags, s', k, q) <==> Cleared(tags, s, k, q)
  {
  }

  lemma CompleteKeepsCount<T>(tags: seq<Tag<T>>, nq: nat, s: State, s': State, i: nat, k: nat, q: nat)
    requires WellFormed(tags, nq) && Completes(tags, nq, s, s', i)
    ensures s'.sig(PerQueue(k, q)) == if Cleared(tags, s', k, q) then |Pending(tags, s', k, q)| else 1
  {
    CompleteEffect(tags, nq, s, s', i);
    PendingAfterCompletion(tags, s, s', i, k, q);
    if tags[i].Run? { KernelIsPending(tags, nq, s, i); }
    RunFollowsCount(tags, nq, i);
    if i > 0 && i - 1 in Pending(tags, s, k, q) { PendingIsCount(tags, nq, s, i, k, q); }
    hide Completes, WellFormed, Pending, Cleared, Allowed;
  }

  lemma PendingIsCount<T>(tags: seq<Tag<T>>, nq: nat, s: State, i: nat, k: nat, q: nat)
    requires WellFormed(tags, nq) && 0 < i < |tags| && i - 1 in Pending(tags, s, k, q)
    ensures tags[i].Run? && tags[i].k == k && tags[i].q == q
  {
    RunFollowsCount(tags, nq, i);
    hide WellFormed;
  }

  lemma EndsOnce<T>(tags: seq<Tag<T>>, nq: nat, i: nat, j: nat, k: nat)
    requires WellFormed(tags, nq) && i < |tags| && j < |tags| && tags[i] == End(k) == tags[j]
    ensures i == j
  {
    if i < j { InOrder(tags, nq, i, j); }
    if j < i { InOrder(tags, nq, j, i); }
  }

  lemma CompleteKeepsFinal<T>(tags: seq<Tag<T>>, nq: nat, s: State, s': State, i: nat, k: nat)
    requires WellFormed(tags, nq) && Completes(tags, nq, s, s', i)
    ensures s'.sig(Final(k)) == if Ended(tags, s', k) then 0 else 1
  {
    CompleteEffect(tags, nq, s, s', i);
    hide Completes, Pending, Cleared, Allowed, WellFormed;
    if tags[i] == End(k) {
      assert Ended(tags, s', k);
      if Ended(tags, s, k) {
        var j :| j in s.done && j < |tags| && tags[j] == End(k);
        EndsOnce(tags, nq, i, j, k);
      }
    } else {
      assert Ended(tags, s, k) <==> Ended(tags, s', k);
    }
  }

  lemma CompleteKeepsSignals<T>(tags: seq<Tag<T>>, nq: nat, s: State, s': State, i: nat)
    requires WellFormed(tags, nq) && Completes(tags, nq, s, s', i)
    ensures SignalsExact(tags, s')
  {
    hide Completes, Pending, Cleared, Ended, WellFormed;
    forall k, q ensures s'.sig(PerQueue(k, q)) == if Cleared(tags, s', k, q) then |Pending(tags, s', k, q)| else 1 {
      CompleteKeepsCount(tags, nq, s, s', i, k, q);
    }
    forall k ensures s'.sig(Final(k)) == if Ended(tags, s', k) then 0 else 1 {
      CompleteKeepsFinal(tags, nq, s, s', i, k);
    }
  }

  lemma CompleteKeepsObserved<T>(tags: seq<Tag<T>>, nq: nat, s: State, s': State, i: nat)
    requires WellFormed(tags, nq) && Completes(tags, nq, s, s', i)
    ensures ObservedZero(Program(tags, nq), s')
  {
    CompleteEffect(tags, nq, s, s', i);
    if tags[i].Run? { KernelIsPending(tags, nq, s, i); }
    CompleteKeepsSignals(tags, nq, s, s', i);
    forall a: nat, b: nat | (a, b) in s.observed ensures s'.sig(Dep(Program(tags, nq), a, b)) == 0 {
      DepOf(tags, nq, a, b);
    }
  }

  // ---------------------------------------------------------------- every reachable state

  lemma InitInv<T>(tags: seq<Tag<T>>, nq: nat, s: State)
    requires WellFormed(tags, nq) && Init(s)
    ensures Inv(tags, nq, s)
  {
  }

  lemma StepKeepsInv<T>(tags: seq<Tag<T>>, nq: nat, s: State, s': State, e: Step)
    requires WellFormed(tags, nq) && Inv(tags, nq, s) && NextBy(Program(tags, nq), s, s', e)
    ensures Inv(tags, nq, s')
  {
    StepKeepsQueueInv(Program(tags, nq), s, s', e);
    match e
    case Host =>
      HostKeepsSignals(tags, nq, s, s');
      HostKeepsZeros(tags, nq, s, s');
      HostKeepsWaits(tags, nq, s, s');
    case Complete(i) =>
      CompleteKeepsSignals(tags, nq, s, s', i);
      CompleteKeepsObserved(tags, nq, s, s', i);
      EndedStays(tags, s, s');
    case _ =>
      SameSignals(tags, s, s');
      EndedStays(tags, s, s');
  }

  lemma EndedStays<T>(tags: seq<Tag<T>>, s: State, s': State)
    requires s.done <= s'.done
    ensures forall k :: Ended(tags, s, k) ==> Ended(tags, s', k)
    ensures WaitsOver(tags, s) && s'.pos == s.pos ==> WaitsOver(tags, s')
  {
  }

  lemma WaitSeesEnd<T>(tags: seq<Tag<T>>, nq: nat, s: State, s': State)
    requires WellFormed(tags, nq) && HostGoes(tags, nq, s, s')
    ensures s.pos < |tags| && (tags[s.pos].Await? ==> Ended(tags, s, tags[s.pos].k))
    ensures WaitsOver(tags, s) && s'.pos == s.pos + 1 && s'.done == s.done
  {
    hide Ended, Pending, Cleared, ObservedZero, QueueInv, Allowed;
  }

  lemma HostKeepsWaits<T>(tags: seq<Tag<T>>, nq: nat, s: State, s': State)
    requires WellFormed(tags, nq) && HostGoes(tags, nq, s, s')
    ensures WaitsOver(tags, s')
  {
    hide HostGoes, WellFormed, Ended;
    WaitSeesEnd(tags, nq, s, s');
    EndedStays(tags, s, s');
  }

  lemma SameSignals<T>(tags: seq<Tag<T>>, s: State, s': State)
    requires SignalsExact(tags, s) && s'.sig == s.sig && s'.pos == s.pos && s'.done == s.done
    ensures SignalsExact(tags, s')
  {
    forall k, q ensures Cleared(tags, s, k, q) == Cleared(tags, s', k, q) && Pending(tags, s, k, q) == Pending(tags, s', k, q) {}
    forall k ensures Ended(tags, s, k) == Ended(tags, s', k) {}
  }

  /** In every run of a well-formed program the signals say exactly what is unfinished. */
  lemma {:induction false} RunKeepsInv<T>(tags: seq<Tag<T>>, nq: nat, run: seq<State>, i: nat)
    requires WellFormed(tags, nq) && IsRun(Program(tags, nq), run) && i < |run|
    ensures Inv(tags, nq, run[i])
  {
    assert nq <= BARRIER_PKT_NUM_PREDS;
    hide Inv, WellFormed;
    if i == 0 {
      InitInv(tags, nq, run[0]);
    } else {
      RunKeepsInv(tags, nq, run, i - 1);
      var e :| NextBy(Program(tags, nq), run[i - 1], run[i], e);
      StepKeepsInv(tags, nq, run[i - 1], run[i], e);
    }
  }

  // ---------------------------------------------------------------- no batch overtakes another

  /** Whatever comes after batch `k` comes after the end of batch `k`. */
  lemma {:induction false} EndsBefore<T>(tags: seq<Tag<T>>, nq: nat, i: nat, k: nat) returns (e: nat)
    requires WellFormed(tags, nq) && i < |tags| && k < tags[i].k
    ensures e < i && tags[e] == End(k)
    decreases tags[i].k
  {
    assert Allowed(tags[..i], tags[i], nq);
    e := At(tags, End(tags[i].k - 1), i);
    if k < tags[i].k - 1 { e := EndsBefore(tags, nq, e, k); }
  }

  /** Once a batch has ended, so have all batches before it: their closing packets stand ahead of its own in queue 0. */
  lemma EndedEarlier<T>(tags: seq<Tag<T>>, nq: nat, s: State, k: nat, k0: nat)
    requires WellFormed(tags, nq) && Inv(tags, nq, s) && Ended(tags, s, k) && k0 <= k
    ensures Ended(tags, s, k0)
  {
    if k0 < k {
      var e :| e in s.done && e < |tags| && tags[e] == End(k);
      var e0 := EndsBefore(tags, nq, e, k0);
      assert Ahead(Program(tags, nq), e0, e);
      assert LetsPass(Program(tags, nq), s, e0, e);
    }
  }

  lemma EndedMeansKernelDone<T>(tags: seq<Tag<T>>, nq: nat, s: State, j: nat)
    requires WellFormed(tags, nq) && Inv(tags, nq, s) && j < |tags| && tags[j].Run? && Ended(tags, s, tags[j].k)
    ensures j in s.done
  {
    var prog, k, q := Program(tags, nq), tags[j].k, tags[j].q;
    var e :| e in s.done && e < |tags| && tags[e] == End(k);
    if e < j { InOrder(tags, nq, e, j); }
    assert Allowed(tags[..j], tags[j], nq);
    assert IsDep(prog, e, q) && Dep(prog, e, q) == PerQueue(k, q);
    assert DepsObserved(prog, s, e);
    assert (e, q) in s.observed;
    assert s.sig(PerQueue(k, q)) == 0 && j < s.pos;
    if j !in s.done { KernelIsPending(tags, nq, s, j); }
  }

  /** A start barrier holds back its queue until the previous batch has ended. */
  lemma BehindBegin<T>(tags: seq<Tag<T>>, nq: nat, s: State, b: nat, i: nat)
    requires WellFormed(tags, nq) && Inv(tags, nq, s) && i in s.launched && b < i < |tags|
    requires tags[i].Run? && tags[i].k > 0 && tags[b] == Begin(tags[i].k, tags[i].q)
    ensures Ended(tags, s, tags[i].k - 1)
  {
    var prog, k := Program(tags, nq), tags[i].k;
    hide WellFormed, Allowed, Ended, Pending, Cleared;
    assert Ahead(prog, b, i);
    assert LetsPass(prog, s, b, i);
    assert IsDep(prog, b, 0) && Dep(prog, b, 0) == Final(k - 1);
    assert DepsObserved(prog, s, b);
    assert (b, 0) in s.observed;
  }

  lemma HeldBefore<T>(tags: seq<Tag<T>>, nq: nat, i: nat) returns (b: nat)
    requires WellFormed(tags, nq) && i < |tags| && tags[i].Run? && tags[i].k > 0
    ensures b < i && (tags[b] == Begin(tags[i].k, tags[i].q) || tags[b] == Await(tags[i].k - 1))
  {
    RunFollowsCount(tags, nq, i);
    var before := tags[..i - 1];
    assert Allowed(before, tags[i - 1], nq);
    hide WellFormed, Allowed;
    b := At(tags, if Begin(tags[i].k, tags[i].q) in before then Begin(tags[i].k, tags[i].q) else Await(tags[i].k - 1), i - 1);
  }

  lemma AwaitedEnded<T>(tags: seq<Tag<T>>, nq: nat, s: State, w: nat, i: nat)
    requires WellFormed(tags, nq) && Inv(tags, nq, s) && i in s.launched && w < i < |tags| && tags[w].Await?
    ensures Ended(tags, s, tags[w].k)
  {
    assert i < s.pos;
    hide WellFormed, SignalsExact, ObservedZero, QueueInv, Ended;
  }

  lemma PassedWait<T>(tags: seq<Tag<T>>, nq: nat, s: State, w: nat)
    requires WellFormed(tags, nq) && Inv(tags, nq, s) && w < |tags| && w < s.pos && tags[w].Await?
    ensures Ended(tags, s, tags[w].k)
  {
    hide WellFormed, SignalsExact, ObservedZero, QueueInv, Ended;
  }

  /** Before a kernel of batch `k > 0` is launched, batch `k - 1` has ended. */
  lemma LaunchedAfterEnd<T>(tags: seq<Tag<T>>, nq: nat, s: State, i: nat)
    requires WellFormed(tags, nq) && Inv(tags, nq, s) && i in s.launched
    requires i < |tags| && tags[i].Run? && tags[i].k > 0
    ensures Ended(tags, s, tags[i].k - 1)
  {
    hide *;
    var b := HeldBefore(tags, nq, i);
    if tags[b].Begin? {
      BehindBegin(tags, nq, s, b, i);
    } else {
      AwaitedEnded(tags, nq, s, b, i);
    }
  }

  /** In no interleaving is a kernel of a batch launched before every kernel of every earlier batch is complete. */
  lemma BatchesInOrder<T>(tags: seq<Tag<T>>, nq: nat, run: seq<State>, n: nat, j: nat, i: nat)
    requires WellFormed(tags, nq) && IsRun(Program(tags, nq), run) && n < |run|
    requires i < |tags| && tags[i].Run? && i in run[n].launched
    requires j < |tags| && tags[j].Run? && tags[j].k < tags[i].k
    ensures j in run[n].done
  {
    hide *;
    RunKeepsInv(tags, nq, run, n);
    LaunchedAfterEnd(tags, nq, run[n], i);
    EndedEarlier(tags, nq, run[n], tags[i].k - 1, tags[j].k);
    EndedMeansKernelDone(tags, nq, run[n], j);
  }

  /** When the host sees batch `k`'s final signal at 0, every kernel of batch `k` and of all earlier ones is complete. */
  lemma FinalSignalMeansDone<T>(tags: seq<Tag<T>>, nq: nat, run: seq<State>, n: nat, k: nat, j: nat)
    requires WellFormed(tags, nq) && IsRun(Program(tags, nq), run) && n < |run| && run[n].sig(Final(k)) == 0
    requires j < |tags| && tags[j].Run? && tags[j].k <= k
    ensures j in run[n].done
  {
    RunKeepsInv(tags, nq, run, n);
    assert Ended(tags, run[n], k);
    hide Inv, WellFormed;
    EndedEarlier(tags, nq, run[n], k, tags[j].k);
    EndedMeansKernelDone(tags, nq, run[n], j);
  }

  // ---------------------------------------------------------------- progress

  lemma {:induction false} FirstUndone<T>(prog: seq<Op<T>>, s: State, n: nat) returns (i: nat)
    requires n < s.pos && IsPacket(prog, n) && n !in s.done
    ensures i <= n && IsPacket(prog, i) && i !in s.done
    ensures forall j: nat :: j < i && IsPacket(prog, j) ==> j in s.done
    decreases n
  {
    if m: nat :| m < n && IsPacket(prog, m) && m !in s.done {
      i := FirstUndone(prog, s, m);
    } else {
      i := n;
    }
  }

  /** Packet `i` is the oldest unfinished one. */
  ghost predicate Oldest<T>(tags: seq<Tag<T>>, nq: nat, s: State, i: nat)
    requires WellFormed(tags, nq)
  {
    && Inv(tags, nq, s) && i < s.pos && IsPacket(Program(tags, nq), i) && i !in s.done
    && (forall m: nat :: m < i && IsPacket(Program(tags, nq), m) ==> m in s.done)
  }

  lemma KernelBeforeEnd<T>(tags: seq<Tag<T>>, nq: nat, i: nat, m: nat)
    requires WellFormed(tags, nq) && i < |tags| && tags[i].End?
    requires m < |tags| && tags[m].Count? && tags[m].k == tags[i].k
    ensures m + 1 < i && tags[m + 1].Run?
  {
    hide WellFormed;
    if i < m { InOrder(tags, nq, i, m); }
    RunFollowsCount(tags, nq, m + 1);
  }

  lemma CountedIsDone<T>(tags: seq<Tag<T>>, nq: nat, s: State, i: nat, m: nat)
    requires WellFormed(tags, nq) && Oldest(tags, nq, s, i) && i < |tags| && tags[i].End?
    requires m < |tags| && tags[m].Count? && tags[m].k == tags[i].k
    ensures m + 1 in s.done
  {
    KernelBeforeEnd(tags, nq, i, m);
    assert nq <= BARRIER_PKT_NUM_PREDS;
    hide WellFormed, Inv;
    assert Program(tags, nq)[m + 1] == Lower(tags[m + 1], nq);
    assert IsPacket(Program(tags, nq), m + 1);
  }

  lemma NothingPending<T>(tags: seq<Tag<T>>, nq: nat, s: State, i: nat, q: nat)
    requires WellFormed(tags, nq) && Oldest(tags, nq, s, i) && i < |tags| && tags[i].End? && q < nq
    ensures Pending(tags, s, tags[i].k, q) == {} && Cleared(tags, s, tags[i].k, q)
  {
    var k := tags[i].k;
    assert Allowed(tags[..i], tags[i], nq);
    var c := At(tags, Clear(k, q), i);
    assert i < s.pos;
    hide Oldest, Allowed, WellFormed;
    forall m: nat | m < |tags| && m < s.pos && tags[m] == Count(k, q) ensures m + 1 in s.done {
      CountedIsDone(tags, nq, s, i, m);
    }
  }

  /** The signals the oldest unfinished packet waits for are all 0. */
  lemma DepIsZero<T>(tags: seq<Tag<T>>, nq: nat, s: State, i: nat, j: nat)
    requires WellFormed(tags, nq) && Oldest(tags, nq, s, i) && IsDep(Program(tags, nq), i, j)
    ensures s.sig(Dep(Program(tags, nq), i, j)) == 0
  {
    DepOf(tags, nq, i, j);
    assert SignalsExact(tags, s);
    if tags[i].Begin? {
      assert Allowed(tags[..i], tags[i], nq);
      var e := At(tags, End(tags[i].k - 1), i);
      hide WellFormed, Inv, Allowed, Pending, Cleared, IsDep, Dep;
      assert IsPacket(Program(tags, nq), e);
    } else {
      NothingPending(tags, nq, s, i, j);
      hide Oldest, Pending, Cleared, Ended, WellFormed, IsDep, Dep;
    }
  }

  lemma OldestMoves<T>(tags: seq<Tag<T>>, nq: nat, s: State, i: nat) returns (s': State, e: Step)
    requires WellFormed(tags, nq) && Oldest(tags, nq, s, i)
    ensures Moves(Program(tags, nq), s, s', e, i)
  {
    var prog := Program(tags, nq);
    assert QueueInv(prog, s);
    if i !in s.launched {
      hide Inv, WellFormed, Moves;
      forall j | Ahead(prog, j, i) ensures LetsPass(prog, s, j, i) { assert j in s.done; }
      s', e := LaunchMoves(prog, s, i);
    } else if j: nat :| IsDep(prog, i, j) && (i, j) !in s.observed {
      hide Inv, WellFormed, QueueInv, Moves;
      DepIsZero(tags, nq, s, i, j);
      s', e := ObserveMoves(prog, s, i, j);
    } else {
      hide Inv, WellFormed, QueueInv, Moves;
      s', e := CompleteMoves(prog, s, i);
    }
  }

  lemma OldestCanMove<T>(tags: seq<Tag<T>>, nq: nat, s: State, i: nat)
    requires WellFormed(tags, nq) && Oldest(tags, nq, s, i)
    ensures !Stuck(Program(tags, nq), s)
  {
    assert nq <= BARRIER_PKT_NUM_PREDS;
    hide WellFormed, Oldest;
    var s', e := OldestMoves(tags, nq, s, i);
    assert Next(Program(tags, nq), s, s');
  }

  ghost predicate Finished<T>(prog: seq<Op<T>>, s: State) {
    s.pos == |prog| && forall i: nat :: IsPacket(prog, i) ==> i in s.done
  }

  lemma HostCanMove<T>(tags: seq<Tag<T>>, nq: nat, s: State)
    requires WellFormed(tags, nq) && Inv(tags, nq, s) && s.pos < |tags|
    ensures !Stuck(Program(tags, nq), s) || (tags[s.pos].Await? && !Ended(tags, s, tags[s.pos].k))
  {
    assert SignalsExact(tags, s);
    hide Inv, WellFormed, Ended, Pending, Cleared, Stuck;
    if !tags[s.pos].Await? || Ended(tags, s, tags[s.pos].k) {
      var s' := HostMoves(Program(tags, nq), s);
      assert Next(Program(tags, nq), s, s');
    }
  }

  /** Until everything submitted is complete, the host or the device can take a step. */
  lemma NeverStuck<T>(tags: seq<Tag<T>>, nq: nat, s: State)
    requires WellFormed(tags, nq) && Inv(tags, nq, s) && !Finished(Program(tags, nq), s)
    ensures !Stuck(Program(tags, nq), s)
  {
    var prog := Program(tags, nq);
    var n: nat;
    if s.pos < |tags| {
      HostCanMove(tags, nq, s);
      if Stuck(prog, s) {
        assert Allowed(tags[..s.pos], tags[s.pos], nq);
        n := At(tags, End(tags[s.pos].k), s.pos);
      } else {
        return;
      }
    } else {
      n :| IsPacket(prog, n) && n !in s.done;
    }
    var i := FirstUndone(prog, s, n);
    hide Inv, WellFormed;
    OldestCanMove(tags, nq, s, i);
  }

  /** Every run is finite, and one that cannot continue has completed every packet and brought every final signal to 0. */
  lemma EveryRunFinishes<T>(tags: seq<Tag<T>>, nq: nat, run: seq<State>)
    requires WellFormed(tags, nq) && IsRun(Program(tags, nq), run)
    ensures var prog := Program(tags, nq);
            && |run| <= 1 + |prog| + 2 * |Packets(prog)| + |DepSlots(prog, |prog|)|
            && (Stuck(prog, run[|run| - 1]) ==>
                  && Finished(prog, run[|run| - 1])
                  && forall k :: End(k) in tags ==> run[|run| - 1].sig(Final(k)) == 0)
  {
    var prog := Program(tags, nq);
    RunsAreBounded(prog, run);
    var last := run[|run| - 1];
    RunKeepsInv(tags, nq, run, |run| - 1);
    if Stuck(prog, last) {
      if !Finished(prog, last) { NeverStuck(tags, nq, last); }
      forall k | End(k) in tags ensures last.sig(Final(k)) == 0 {
        var e :| 0 <= e < |tags| && tags[e] == End(k);
        assert IsPacket(prog, e);
      }
    }
  }

  // ---------------------------------------------------------------- runs that can be forced

  /** The closing barrier of packet `x`'s batch is among the first `p` operations: the batch has been submitted. */
  ghost predicate SubmittedBy<T>(tags: seq<Tag<T>>, x: nat, p: nat)
    requires x < |tags|
  {
    exists e: nat :: e < p && e < |tags| && tags[e] == End(tags[x].k)
  }

  /** No packet is launched before its batch has been submitted. */
  ghost predicate Submitted<T>(tags: seq<Tag<T>>, run: seq<State>) {
    forall t: nat, x: nat :: t < |run| && x < |tags| && x in run[t].launched ==> SubmittedBy(tags, x, run[t].pos)
  }

  /** The host has done `p` operations; exactly the packets before `m` are complete, and exactly those before `n` launched. */
  ghost predicate Forced<T>(prog: seq<Op<T>>, s: State, m: nat, n: nat, p: nat) {
    && m <= n <= p == s.pos <= |prog|
    && (forall i: nat :: i in s.done <==> i < m && IsPacket(prog, i))
    && (forall i: nat :: i in s.launched <==> i < n && IsPacket(prog, i))
  }

  /** Every packet before `m` belongs to a batch submitted within the first `p` operations. */
  ghost predicate AllSubmitted<T>(tags: seq<Tag<T>>, m: nat, p: nat) {
    forall x: nat :: x < m && x < |tags| ==> SubmittedBy(tags, x, p)
  }

  ghost predicate LaunchedBelow(s: State, m: nat) {
    forall i :: i in s.launched ==> i < m
  }

  lemma SubmittedNext<T>(tags: seq<Tag<T>>, run: seq<State>, s': State)
    requires Submitted(tags, run) && run != [] && run[|run| - 1].pos <= s'.pos
    requires forall x: nat :: x in s'.launched && x < |tags| ==> x in run[|run| - 1].launched || SubmittedBy(tags, x, s'.pos)
    ensures Submitted(tags, run + [s'])
  {
    var longer, s := run + [s'], run[|run| - 1];
    forall t: nat, x: nat | t < |longer| && x < |tags| && x in longer[t].launched ensures SubmittedBy(tags, x, longer[t].pos) {
      if t == |run| && x in s.launched {
        assert SubmittedBy(tags, x, s.pos);
        SubmittedLater(tags, x, s.pos, s'.pos);
      }
    }
  }

  lemma SubmittedLater<T>(tags: seq<Tag<T>>, x: nat, p: nat, p': nat)
    requires x < |tags| && SubmittedBy(tags, x, p) && p <= p'
    ensures SubmittedBy(tags, x, p')
  {
  }

  /** What batch `k`'s closing barrier stands behind has been submitted once it is there. */
  lemma AllSubmittedUpTo<T>(tags: seq<Tag<T>>, nq: nat, m: nat, e: nat, p: nat)
    requires WellFormed(tags, nq) && m <= p <= |tags| && e < p && tags[e].End?
    requires forall x: nat :: x < m ==> Key(tags[x]) <= 5 * tags[e].k + 4
    ensures AllSubmitted(tags, m, p)
  {
    hide WellFormed;
    forall x: nat | x < m && x < |tags| ensures SubmittedBy(tags, x, p) {
      if tags[x].k < tags[e].k {
        var e0 := EndsBefore(tags, nq, e, tags[x].k);
      } else {
        assert tags[e] == End(tags[x].k);
      }
    }
  }

  lemma FindUndone<T>(prog: seq<Op<T>>, s: State, m: nat) returns (found: bool, i: nat)
    requires m <= s.pos
    ensures found ==> i < m && i < s.pos && IsPacket(prog, i) && i !in s.done && forall j: nat :: j < i && IsPacket(prog, j) ==> j in s.done
    ensures !found ==> forall j: nat :: j < m && IsPacket(prog, j) ==> j in s.done
  {
    found, i := false, 0;
    if n: nat :| n < m && IsPacket(prog, n) && n !in s.done {
      i := FirstUndone(prog, s, n);
      found := true;
    }
  }

  /** The device can complete all packets before `m`, always moving the oldest, without anything later being launched. */
  lemma {:induction false} Drain<T>(tags: seq<Tag<T>>, nq: nat, run: seq<State>, m: nat, p: nat) returns (longer: seq<State>)
    requires WellFormed(tags, nq) && nq <= BARRIER_PKT_NUM_PREDS && IsRun(Program(tags, nq), run) && run != [] && Submitted(tags, run)
    requires run[|run| - 1].pos == p && m <= p && AllSubmitted(tags, m, p)
    requires LaunchedBelow(run[|run| - 1], m)
    ensures IsRun(Program(tags, nq), longer) && longer != [] && Submitted(tags, longer) && Forced(Program(tags, nq), longer[|longer| - 1], m, m, p)
    decreases 1 + |tags| + 2 * |Packets(Program(tags, nq))| + |DepSlots(Program(tags, nq), |tags|)| - |run|
  {
    hide *;
    var prog, s := Program(tags, nq), run[|run| - 1];
    RunKeepsInv(tags, nq, run, |run| - 1);
    var found, i := FindUndone(prog, s, m);
    if found {
      MakeOldest(tags, nq, s, i);
      var s', e := OldestMoves(tags, nq, s, i);
      MovedOn(prog, s, s', e, i);
      longer := ExtendRun(prog, run, s', e);
      SubmittedOne(tags, run, s', m, p, i);
      StaysBelow(s, s', m, i);
      RunsAreBounded(prog, longer);
      longer := Drain(tags, nq, longer, m, p);
    } else {
      longer := run;
      AllDrained(tags, nq, s, m, p);
    }
  }

  lemma MakeOldest<T>(tags: seq<Tag<T>>, nq: nat, s: State, i: nat)
    requires WellFormed(tags, nq) && nq <= BARRIER_PKT_NUM_PREDS && Inv(tags, nq, s)
    requires i < s.pos && IsPacket(Program(tags, nq), i) && i !in s.done
    requires forall j: nat :: j < i && IsPacket(Program(tags, nq), j) ==> j in s.done
    ensures Oldest(tags, nq, s, i)
  {
    hide Inv, WellFormed;
  }

  lemma MovedOn<T>(prog: seq<Op<T>>, s: State, s': State, e: Step, i: nat)
    requires Moves(prog, s, s', e, i)
    ensures NextBy(prog, s, s', e) && s'.pos == s.pos && s'.launched <= s.launched + {i}
  {
    hide NextBy;
  }

  lemma StaysBelow(s: State, s': State, m: nat, i: nat)
    requires LaunchedBelow(s, m) && i < m && s'.launched <= s.launched + {i}
    ensures LaunchedBelow(s', m)
  {
  }

  lemma SubmittedOne<T>(tags: seq<Tag<T>>, run: seq<State>, s': State, m: nat, p: nat, i: nat)
    requires Submitted(tags, run) && run != [] && run[|run| - 1].pos == p == s'.pos && AllSubmitted(tags, m, p) && i < m
    requires s'.launched <= run[|run| - 1].launched + {i}
    ensures Submitted(tags, run + [s'])
  {
    hide Submitted, SubmittedBy;
    SubmittedNext(tags, run, s');
  }

  lemma AllDrained<T>(tags: seq<Tag<T>>, nq: nat, s: State, m: nat, p: nat)
    requires WellFormed(tags, nq) && nq <= BARRIER_PKT_NUM_PREDS && Inv(tags, nq, s) && s.pos == p && m <= p
    requires LaunchedBelow(s, m)
    requires forall j: nat :: j < m && IsPacket(Program(tags, nq), j) ==> j in s.done
    ensures Forced(Program(tags, nq), s, m, m, p)
  {
    assert QueueInv(Program(tags, nq), s);
    hide Inv;
  }

  /** The host goes on as long as it can, and the device only works while the host waits: nothing is launched before the last wait. */
  lemma {:induction false} HostFirst<T>(tags: seq<Tag<T>>, nq: nat, n: nat) returns (run: seq<State>, w: nat)
    requires WellFormed(tags, nq) && nq <= BARRIER_PKT_NUM_PREDS && n <= |tags|
    ensures IsRun(Program(tags, nq), run) && run != [] && Submitted(tags, run) && run[|run| - 1].pos == n
    ensures w <= n && (w > 0 ==> w < n && tags[w].Await?)
    ensures LaunchedBelow(run[|run| - 1], w)
  {
    hide *;
    if n == 0 {
      run, w := [State(0, x => 1, {}, {}, {})], 0;
      FreshRun(tags, nq, run);
    } else {
      run, w := HostFirst(tags, nq, n - 1);
      if tags[n - 1].Await? {
        AwaitSubmitted(tags, nq, n - 1);
        BelowMore(run[|run| - 1], run[|run| - 1], w, n - 1);
        run := Drain(tags, nq, run, n - 1, n - 1);
        DrainedBelow(Program(tags, nq), run[|run| - 1], n - 1);
        RunKeepsInv(tags, nq, run, |run| - 1);
        AwaitPasses(tags, nq, run[|run| - 1], n - 1);
        w := n - 1;
      } else {
        NotAwaiting(tags, nq, n - 1);
      }
      var s' := HostMoves(Program(tags, nq), run[|run| - 1]);
      SubmittedNext(tags, run, s');
      BelowMore(run[|run| - 1], s', w, w);
      run := ExtendRun(Program(tags, nq), run, s', Host);
    }
  }

  lemma FreshRun<T>(tags: seq<Tag<T>>, nq: nat, run: seq<State>)
    requires nq <= BARRIER_PKT_NUM_PREDS && run == [State(0, x => 1, {}, {}, {})]
    ensures IsRun(Program(tags, nq), run) && Submitted(tags, run) && LaunchedBelow(run[0], 0)
  {
  }

  lemma BelowMore(s: State, s': State, w: nat, m: nat)
    requires LaunchedBelow(s, w) && w <= m && s'.launched == s.launched
    ensures LaunchedBelow(s', m)
  {
  }

  lemma AwaitSubmitted<T>(tags: seq<Tag<T>>, nq: nat, n: nat)
    requires WellFormed(tags, nq) && n < |tags| && tags[n].Await?
    ensures AllSubmitted(tags, n, n)
  {
    assert Allowed(tags[..n], tags[n], nq);
    var e := At(tags, End(tags[n].k), n);
    hide WellFormed, Allowed;
    forall x: nat | x < n ensures Key(tags[x]) <= 5 * tags[e].k + 4 { InOrder(tags, nq, x, n); }
    AllSubmittedUpTo(tags, nq, n, e, n);
  }

  lemma DrainedBelow<T>(prog: seq<Op<T>>, s: State, m: nat)
    requires Forced(prog, s, m, m, m)
    ensures s.pos == m && LaunchedBelow(s, m) && forall i: nat :: i < m && IsPacket(prog, i) ==> i in s.done
  {
  }

  lemma AwaitPasses<T>(tags: seq<Tag<T>>, nq: nat, s: State, n: nat)
    requires WellFormed(tags, nq) && nq <= BARRIER_PKT_NUM_PREDS && Inv(tags, nq, s) && s.pos == n < |tags| && tags[n].Await?
    requires forall i: nat :: i < n && IsPacket(Program(tags, nq), i) ==> i in s.done
    ensures n < |Program(tags, nq)|
    ensures var op := Program(tags, nq)[n]; op.WaitZero? ==> s.sig(op.sig) == 0
  {
    assert Allowed(tags[..n], tags[n], nq);
    var e := At(tags, End(tags[n].k), n);
    assert IsPacket(Program(tags, nq), e) && Ended(tags, s, tags[n].k);
    assert SignalsExact(tags, s);
  }

  lemma NotAwaiting<T>(tags: seq<Tag<T>>, nq: nat, n: nat)
    requires nq <= BARRIER_PKT_NUM_PREDS && n < |tags| && !tags[n].Await?
    ensures n < |Program(tags, nq)| && !Program(tags, nq)[n].WaitZero?
  {
  }

  lemma KernelCanLaunch<T>(tags: seq<Tag<T>>, nq: nat, s: State, m: nat, n: nat, p: nat)
    requires WellFormed(tags, nq) && n < p && n < |tags| && tags[n].Run? && Forced(Program(tags, nq), s, m, n, p)
    requires forall i :: m <= i < n ==> tags[i].Count? || tags[i].Run?
    ensures CanLaunch(Program(tags, nq), s, n)
  {
    var prog := Program(tags, nq);
    hide WellFormed;
    forall j: nat | Ahead(prog, j, n) ensures LetsPass(prog, s, j, n) {
      assert prog[j] == Lower(tags[j], nq);
    }
  }

  lemma CountIsNoPacket<T>(tags: seq<Tag<T>>, nq: nat, s: State, m: nat, n: nat, p: nat)
    requires nq <= BARRIER_PKT_NUM_PREDS && n < p && n < |tags| && tags[n].Count? && Forced(Program(tags, nq), s, m, n, p)
    ensures Forced(Program(tags, nq), s, m, n + 1, p)
  {
    assert Program(tags, nq)[n] == Lower(tags[n], nq);
  }

  lemma LaunchForces<T>(prog: seq<Op<T>>, s: State, s': State, m: nat, n: nat, p: nat)
    requires Forced(prog, s, m, n, p) && CanLaunch(prog, s, n) && n < p && s' == s.(launched := s.launched + {n})
    ensures NextBy(prog, s, s', Launch(n)) && Forced(prog, s', m, n + 1, p)
  {
  }

  /** With all of a batch enqueued, its kernels can be launched one after the other without any of them completing. */
  lemma {:induction false} LaunchOnly<T>(tags: seq<Tag<T>>, nq: nat, start: seq<State>, m: nat, n: nat, p: nat) returns (run: seq<State>)
    requires WellFormed(tags, nq) && nq <= BARRIER_PKT_NUM_PREDS && m <= n < p <= |tags|
    requires IsRun(Program(tags, nq), start) && start != [] && Submitted(tags, start) && Forced(Program(tags, nq), start[|start| - 1], m, m, p)
    requires forall i :: m <= i < n ==> tags[i].Count? || tags[i].Run?
    requires AllSubmitted(tags, n, p)
    ensures IsRun(Program(tags, nq), run) && run != [] && Submitted(tags, run) && Forced(Program(tags, nq), run[|run| - 1], m, n, p)
    decreases n
  {
    hide *;
    if m == n {
      run := start;
    } else {
      FewerSubmitted(tags, n - 1, n, p);
      run := LaunchOnly(tags, nq, start, m, n - 1, p);
      var s := run[|run| - 1];
      if tags[n - 1].Count? {
        CountIsNoPacket(tags, nq, s, m, n - 1, p);
      } else {
        KernelCanLaunch(tags, nq, s, m, n - 1, p);
        var s' := s.(launched := s.launched + {n - 1});
        LaunchForces(Program(tags, nq), s, s', m, n - 1, p);
        ForcedAt(Program(tags, nq), s, m, n - 1, p);
        SubmittedOne(tags, run, s', n, p, n - 1);
        run := ExtendRun(Program(tags, nq), run, s', Launch(n - 1));
      }
    }
  }

  lemma FewerSubmitted<T>(tags: seq<Tag<T>>, m: nat, n: nat, p: nat)
    requires AllSubmitted(tags, n, p) && m <= n
    ensures AllSubmitted(tags, m, p)
  {
    hide SubmittedBy;
  }

  lemma ForcedAt<T>(prog: seq<Op<T>>, s: State, m: nat, n: nat, p: nat)
    requires Forced(prog, s, m, n, p)
    ensures s.pos == p
  {
  }

  lemma OnlyKernelsBetween<T>(tags: seq<Tag<T>>, nq: nat, i: nat, j: nat, n: nat)
    requires WellFormed(tags, nq) && i < |tags| && j <= n <= i
    requires tags[i].Run? && tags[j].Run? && tags[i].k <= tags[j].k
    ensures tags[n].Count? || tags[n].Run?
  {
    hide WellFormed;
    if n < i { InOrder(tags, nq, n, i); }
    if j < n { InOrder(tags, nq, j, n); }
  }

  /** Between a kernel and the closing barrier of its batch there are only kernels and their counts. */
  lemma KernelsUpToEnd<T>(tags: seq<Tag<T>>, nq: nat, i: nat, e: nat)
    requires WellFormed(tags, nq) && i < |tags| && e < |tags| && tags[i].Run? && tags[e] == End(tags[i].k)
    ensures i < e && forall n: nat :: i <= n < e ==> tags[n].Count? || tags[n].Run?
  {
    hide WellFormed;
    if e < i { InOrder(tags, nq, e, i); }
    forall n: nat | i <= n < e ensures tags[n].Count? || tags[n].Run? {
      if i < n { InOrder(tags, nq, i, n); }
      InOrder(tags, nq, n, e);
    }
  }

  /** Kernels of one batch do not wait for each other, and no kernel waits for a later batch, even if every batch is enqueued as a whole
      before anything of it is launched. */
  lemma OverlapRun<T>(tags: seq<Tag<T>>, nq: nat, i: nat, j: nat) returns (run: seq<State>)
    requires WellFormed(tags, nq) && i < |tags| && j < |tags| && i != j && End(tags[i].k) in tags
    requires tags[i].Run? && tags[j].Run? && tags[i].k <= tags[j].k
    ensures nq <= BARRIER_PKT_NUM_PREDS && IsRun(Program(tags, nq), run) && run != [] && Submitted(tags, run)
    ensures i in run[|run| - 1].launched && j !in run[|run| - 1].done
  {
    assert nq <= BARRIER_PKT_NUM_PREDS;
    hide *;
    var e: nat :| e < |tags| && tags[e] == End(tags[i].k);
    KernelsUpToEnd(tags, nq, i, e);
    if i < j {
      run := OverlapFrom(tags, nq, i, i, j, e);
    } else {
      forall n | j <= n < i + 1 ensures tags[n].Count? || tags[n].Run? { OnlyKernelsBetween(tags, nq, i, j, n); }
      run := OverlapFrom(tags, nq, j, i, j, e);
    }
  }

  lemma OverlapFrom<T>(tags: seq<Tag<T>>, nq: nat, m: nat, i: nat, j: nat, e: nat) returns (run: seq<State>)
    requires WellFormed(tags, nq) && nq <= BARRIER_PKT_NUM_PREDS && m <= i < e < |tags| && m <= j && tags[i].Run? && tags[e].End?
    requires forall n :: m <= n < e ==> tags[n].Count? || tags[n].Run?
    ensures IsRun(Program(tags, nq), run) && run != [] && Submitted(tags, run)
    ensures i in run[|run| - 1].launched && j !in run[|run| - 1].done
  {
    hide *;
    KernelIsPacket(tags, nq, i);
    var w;
    run, w := HostFirst(tags, nq, e + 1);
    assert w <= m;
    BelowMore(run[|run| - 1], run[|run| - 1], w, m);
    EndSubmits(tags, nq, m, e);
    run := Drain(tags, nq, run, m, e + 1);
    EndSubmits(tags, nq, i + 1, e);
    run := LaunchOnly(tags, nq, run, m, i + 1, e + 1);
    ForcedMeans(Program(tags, nq), run[|run| - 1], m, i, j, e + 1);
  }

  lemma EndSubmits<T>(tags: seq<Tag<T>>, nq: nat, m: nat, e: nat)
    requires WellFormed(tags, nq) && m <= e < |tags| && tags[e].End?
    ensures AllSubmitted(tags, m, e + 1)
  {
    hide WellFormed;
    forall x: nat | x < m ensures Key(tags[x]) <= 5 * tags[e].k + 4 { InOrder(tags, nq, x, e); }
    AllSubmittedUpTo(tags, nq, m, e, e + 1);
  }

  lemma KernelIsPacket<T>(tags: seq<Tag<T>>, nq: nat, i: nat)
    requires nq <= BARRIER_PKT_NUM_PREDS && i < |tags| && tags[i].Run?
    ensures IsPacket(Program(tags, nq), i)
  {
  }

  lemma ForcedMeans<T>(prog: seq<Op<T>>, s: State, m: nat, i: nat, j: nat, p: nat)
    requires Forced(prog, s, m, i + 1, p) && IsPacket(prog, i) && m <= j
    ensures i in s.launched && j !in s.done
  {
  }
}
