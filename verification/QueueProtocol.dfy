/** Hardware queues and counting signals: one host thread, several in-order packet queues, any interleaving. */
module QueueProtocol {
  import opened Sequences

  /** The signals of a batch executor. Each batch takes fresh ones from the pool, one per queue and one for its end. */
  datatype Signal = Null | PerQueue(batch: nat, queue: nat) | Final(batch: nat)

  datatype Body<T> = Kernel(task: T) | BarrierAnd(deps: seq<Signal>)

  datatype Packet<T> = Packet(barrierBit: bool, body: Body<T>, completion: Signal)

  /** What the host does, one operation at a time. */
  datatype Op<T> = Store(sig: Signal, value: int) | Add(sig: Signal, amount: int) | WaitZero(sig: Signal)
                 | Enqueue(queue: nat, packet: Packet<T>)

  /** A packet is known by the position of the host operation that enqueued it. */
  datatype State = State(pos: nat, sig: Signal -> int, launched: set<nat>, observed: set<(nat, nat)>, done: set<nat>)

  /** The signals with the value of `x` changed. The null signal has no value to change. */
  ghost function Put(sig: Signal -> int, x: Signal, v: int): (r: Signal -> int)
    ensures forall y :: r(y) == if y == x && x != Null then v else sig(y)
  {
    y => if y == x && x != Null then v else sig(y)
  }

  ghost predicate IsPacket<T>(prog: seq<Op<T>>, i: nat) {
    i < |prog| && prog[i].Enqueue?
  }

  ghost predicate IsBarrier<T>(prog: seq<Op<T>>, i: nat) {
    IsPacket(prog, i) && prog[i].packet.body.BarrierAnd?
  }

  /** Slot `j` of barrier packet `i` names a signal to wait for. */
  ghost predicate IsDep<T>(prog: seq<Op<T>>, i: nat, j: nat) {
    IsBarrier(prog, i) && j < |prog[i].packet.body.deps| && prog[i].packet.body.deps[j] != Null
  }

  ghost function Dep<T>(prog: seq<Op<T>>, i: nat, j: nat): Signal
    requires IsDep(prog, i, j)
  {
    prog[i].packet.body.deps[j]
  }

  /** Packet `j` comes earlier in the queue of packet `i`. */
  ghost predicate Ahead<T>(prog: seq<Op<T>>, j: nat, i: nat) {
    j < i && IsPacket(prog, j) && IsPacket(prog, i) && prog[j].queue == prog[i].queue
  }

  /** Nothing about packet `j` holds back packet `i` behind it: packets launch in order, a barrier bit
      waits for all earlier packets, and nothing launches past an incomplete barrier packet. */
  ghost predicate LetsPass<T>(prog: seq<Op<T>>, s: State, j: nat, i: nat)
    requires IsPacket(prog, i)
  {
    j in s.launched && (prog[i].packet.barrierBit || IsBarrier(prog, j) ==> j in s.done)
  }

  ghost predicate DepsObserved<T>(prog: seq<Op<T>>, s: State, i: nat) {
    forall j: nat :: IsDep(prog, i, j) ==> (i, j) in s.observed
  }

  datatype Step = Host | Launch(i: nat) | Observe(i: nat, j: nat) | Complete(i: nat)

  ghost predicate CanLaunch<T>(prog: seq<Op<T>>, s: State, i: nat) {
    && i < s.pos && IsPacket(prog, i) && i !in s.launched
    && (forall j :: Ahead(prog, j, i) ==> LetsPass(prog, s, j, i))
  }

  ghost predicate HostStep<T>(op: Op<T>, s: State, s': State) {
    match op
    case Store(x, v) => s' == s.(pos := s.pos + 1, sig := Put(s.sig, x, v))
    case Add(x, n) => s' == s.(pos := s.pos + 1, sig := Put(s.sig, x, s.sig(x) + n))
    case WaitZero(x) => s.sig(x) == 0 && s' == s.(pos := s.pos + 1)
    case Enqueue(_, _) => s' == s.(pos := s.pos + 1)
  }

  ghost predicate NextBy<T>(prog: seq<Op<T>>, s: State, s': State, e: Step) {
    match e
    case Host => s.pos < |prog| && HostStep(prog[s.pos], s, s')
    case Launch(i) => CanLaunch(prog, s, i) && s' == s.(launched := s.launched + {i})
    case Observe(i, j) =>
      && i in s.launched && i !in s.done && IsDep(prog, i, j) && (i, j) !in s.observed
      && s.sig(Dep(prog, i, j)) == 0
      && s' == s.(observed := s.observed + {(i, j)})
    case Complete(i) =>
      && i in s.launched && i !in s.done && IsPacket(prog, i) && DepsObserved(prog, s, i)
      && var x := prog[i].packet.completion;
         s' == s.(done := s.done + {i}, sig := Put(s.sig, x, s.sig(x) - 1))
  }

  ghost predicate Next<T>(prog: seq<Op<T>>, s: State, s': State) {
    exists e :: NextBy(prog, s, s', e)
  }

  /** Signals come out of the pool with value 1. */
  ghost predicate Init(s: State) {
    s.pos == 0 && s.launched == {} && s.observed == {} && s.done == {} && forall x :: s.sig(x) == 1
  }

  ghost predicate IsRun<T>(prog: seq<Op<T>>, run: seq<State>) {
    && run != [] && Init(run[0])
    && (forall i :: 0 <= i < |run| - 1 ==> Next(prog, run[i], run[i + 1]))
  }

  ghost predicate Stuck<T>(prog: seq<Op<T>>, s: State) {
    forall s' :: !Next(prog, s, s')
  }

  // ---------------------------------------------------------------- what every program keeps

  ghost predicate QueueInv<T>(prog: seq<Op<T>>, s: State) {
    && s.pos <= |prog| && s.done <= s.launched
    && (forall i :: i in s.launched ==> i < s.pos && IsPacket(prog, i))
    && (forall i, j :: i in s.launched && Ahead(prog, j, i) ==> LetsPass(prog, s, j, i))
    && (forall i :: i in s.done ==> DepsObserved(prog, s, i))
    && (forall p :: p in s.observed ==> p.0 in s.launched && IsDep(prog, p.0, p.1))
  }

  lemma StepKeepsQueueInv<T>(prog: seq<Op<T>>, s: State, s': State, e: Step)
    requires QueueInv(prog, s) && NextBy(prog, s, s', e)
    ensures QueueInv(prog, s')
  {
    assert s.done <= s'.done && s.launched <= s'.launched && s.observed <= s'.observed && s.pos <= s'.pos;
  }

  // ---------------------------------------------------------------- how long a run can be

  ghost function Packets<T>(prog: seq<Op<T>>): set<nat> {
    set i: nat | i < |prog| && IsPacket(prog, i)
  }

  ghost function SlotsOf<T>(prog: seq<Op<T>>, i: nat): (r: set<(nat, nat)>)
    ensures forall k: nat, j: nat :: (k, j) in r <==> k == i && IsDep(prog, k, j)
  {
    if !IsBarrier(prog, i) then {}
    else set j: nat | j < |prog[i].packet.body.deps| && IsDep(prog, i, j) :: (i, j)
  }

  /** The dependency slots of all packets before position `n`. */
  ghost function DepSlots<T>(prog: seq<Op<T>>, n: nat): (r: set<(nat, nat)>)
    ensures forall i: nat, j: nat :: (i, j) in r <==> i < n && IsDep(prog, i, j)
  {
    if n == 0 then {} else DepSlots(prog, n - 1) + SlotsOf(prog, n - 1)
  }

  /** How many operations, launches, observations and completions can still happen. */
  ghost function Remaining<T>(prog: seq<Op<T>>, s: State): int {
    (|prog| - s.pos) + (|Packets(prog)| - |s.launched|) + (|DepSlots(prog, |prog|)| - |s.observed|) + (|Packets(prog)| - |s.done|)
  }

  lemma RemainingBounded<T>(prog: seq<Op<T>>, s: State)
    requires QueueInv(prog, s)
    ensures Remaining(prog, s) >= 0
  {
    SubsetCard(s.launched, Packets(prog));
    SubsetCard(s.done, Packets(prog));
    SubsetCard(s.observed, DepSlots(prog, |prog|));
  }

  lemma StepShrinksRemaining<T>(prog: seq<Op<T>>, s: State, s': State, e: Step)
    requires NextBy(prog, s, s', e)
    ensures Remaining(prog, s') == Remaining(prog, s) - 1
  {
    assert !e.Host? ==> s'.pos == s.pos;
    match e
    case Launch(i) => assert i !in s.launched && s'.done == s.done && s'.observed == s.observed;
    case Observe(i, j) => assert (i, j) !in s.observed && s'.done == s.done && s'.launched == s.launched;
    case Complete(i) => assert i !in s.done && s'.launched == s.launched && s'.observed == s.observed;
    case Host => assert s'.launched == s.launched && s'.observed == s.observed && s'.done == s.done;
  }

  lemma {:induction false} RunKeepsQueueInv<T>(prog: seq<Op<T>>, run: seq<State>, i: nat)
    requires IsRun(prog, run) && i < |run|
    ensures QueueInv(prog, run[i]) && Remaining(prog, run[i]) == Remaining(prog, run[0]) - i
  {
    if i > 0 {
      RunKeepsQueueInv(prog, run, i - 1);
      var e :| NextBy(prog, run[i - 1], run[i], e);
      StepKeepsQueueInv(prog, run[i - 1], run[i], e);
      StepShrinksRemaining(prog, run[i - 1], run[i], e);
    }
  }

  /** Every run ends: it has no more steps than there are operations, dependencies, launches and completions. */
  lemma RunsAreBounded<T>(prog: seq<Op<T>>, run: seq<State>)
    requires IsRun(prog, run)
    ensures |run| <= 1 + |prog| + 2 * |Packets(prog)| + |DepSlots(prog, |prog|)|
  {
    var last := |run| - 1;
    RunKeepsQueueInv(prog, run, last);
    RemainingBounded(prog, run[last]);
  }

  // ---------------------------------------------------------------- what can move

  lemma HostMoves<T>(prog: seq<Op<T>>, s: State) returns (s': State)
    requires s.pos < |prog| && (prog[s.pos].WaitZero? ==> s.sig(prog[s.pos].sig) == 0)
    ensures NextBy(prog, s, s', Host) && s'.pos == s.pos + 1 && s'.launched == s.launched && s'.done == s.done
  {
    var op := prog[s.pos];
    var sig' := if op.Store? then Put(s.sig, op.sig, op.value)
                else if op.Add? then Put(s.sig, op.sig, s.sig(op.sig) + op.amount)
                else s.sig;
    s' := s.(pos := s.pos + 1, sig := sig');
    assert HostStep(op, s, s');
  }

  /** A step of the device on packet `i` and no other. */
  ghost predicate Moves<T>(prog: seq<Op<T>>, s: State, s': State, e: Step, i: nat) {
    NextBy(prog, s, s', e) && s'.pos == s.pos && s'.launched <= s.launched + {i}
  }

  lemma LaunchMoves<T>(prog: seq<Op<T>>, s: State, i: nat) returns (s': State, e: Step)
    requires CanLaunch(prog, s, i)
    ensures Moves(prog, s, s', e, i)
  {
    s', e := s.(launched := s.launched + {i}), Launch(i);
  }

  lemma ObserveMoves<T>(prog: seq<Op<T>>, s: State, i: nat, j: nat) returns (s': State, e: Step)
    requires i in s.launched && i !in s.done && IsDep(prog, i, j) && (i, j) !in s.observed && s.sig(Dep(prog, i, j)) == 0
    ensures Moves(prog, s, s', e, i)
  {
    s', e := s.(observed := s.observed + {(i, j)}), Observe(i, j);
  }

  lemma CompleteMoves<T>(prog: seq<Op<T>>, s: State, i: nat) returns (s': State, e: Step)
    requires i in s.launched && i !in s.done && IsPacket(prog, i) && DepsObserved(prog, s, i)
    ensures Moves(prog, s, s', e, i)
  {
    var x := prog[i].packet.completion;
    s', e := s.(done := s.done + {i}, sig := Put(s.sig, x, s.sig(x) - 1)), Complete(i);
  }

  // ---------------------------------------------------------------- building runs

  lemma ExtendRun<T>(prog: seq<Op<T>>, run: seq<State>, s': State, e: Step) returns (longer: seq<State>)
    requires IsRun(prog, run) && NextBy(prog, run[|run| - 1], s', e)
    ensures IsRun(prog, longer) && longer == run + [s']
  {
    longer := run + [s'];
    assert Next(prog, run[|run| - 1], s');
  }
}
