/** The runtime underneath the DAG executors: created tasks, and how they run once the host activates the sources. */
module AsyncRuntime {
  import opened Sequences

  /** A created task is known by its handle, its position in creation order. */
  datatype Task = Task(needs: seq<nat>)

  /** Handle 0 is the null task: it needs nothing and counts as complete. */
  class Runtime {
    var tasks: seq<Task>

    constructor ()
      ensures tasks == [Task([])]
    {
      tasks := [Task([])];
    }

    method CreateTask(needs: seq<nat>) returns (h: nat)
      modifies this
      ensures h == |old(tasks)| && tasks == old(tasks) + [Task(needs)]
    {
      h := |tasks|;
      tasks := tasks + [Task(needs)];
    }
  }

  // ---------------------------------------------------------------- one execution

  /** What one execution hands to the runtime: tasks below `base` belong to earlier, finished executions. */
  datatype Launch = Launch(tasks: seq<Task>, base: nat, sources: seq<nat>, sinks: seq<nat>)

  /** Tasks need only earlier tasks of the same execution. */
  ghost predicate NeedsEarlier(l: Launch) {
    && l.base <= |l.tasks|
    && (forall t, h :: l.base <= t < |l.tasks| && h in l.tasks[t].needs ==> l.base <= h < t)
  }

  /** The host activates exactly the tasks that need nothing. */
  ghost predicate SourcesExact(l: Launch) {
    && l.base <= |l.tasks|
    && (forall h :: h in l.sources ==> l.base <= h < |l.tasks|)
    && (forall t :: l.base <= t < |l.tasks| ==> (l.tasks[t].needs == [] <==> t in l.sources))
  }

  /** A task nobody waits for directly is needed by another task. */
  ghost predicate SinksCover(l: Launch) {
    && l.base <= |l.tasks|
    && (forall h :: h in l.sinks ==> l.base <= h < |l.tasks|)
    && (forall t :: l.base <= t < |l.tasks| && t !in l.sinks ==>
          exists u :: t < u < |l.tasks| && t in l.tasks[u].needs)
  }

  ghost predicate ValidLaunch(l: Launch) {
    NeedsEarlier(l) && SourcesExact(l) && SinksCover(l)
  }

  /** All tasks can run and be waited for, though the host may wait for too few. They may need tasks of earlier executions. */
  ghost predicate Runnable(l: Launch) {
    && SourcesExact(l)
    && (forall t, h :: l.base <= t < |l.tasks| && h in l.tasks[t].needs ==> h < t)
    && (forall h :: h in l.sinks ==> l.base <= h < |l.tasks|)
  }

  /** `host` counts the host's calls so far: first an activation per source, then a wait per sink. */
  datatype RunState = RunState(host: nat, activated: set<nat>, started: set<nat>, done: set<nat>)

  ghost function Handles(lo: nat, hi: nat): (s: set<nat>)
    ensures forall h: nat :: h in s <==> lo <= h < hi
    ensures lo <= hi ==> |s| == hi - lo
  {
    if lo >= hi then {} else Handles(lo, hi - 1) + {hi - 1}
  }

  ghost predicate Init(l: Launch, s: RunState) {
    s == RunState(0, {}, Handles(0, l.base), Handles(0, l.base))
  }

  ghost predicate CanStart(l: Launch, s: RunState, t: nat) {
    && l.base <= t < |l.tasks| && t !in s.started
    && (forall h :: h in l.tasks[t].needs ==> h in s.done)
    && (l.tasks[t].needs == [] ==> t in s.activated)
  }

  datatype Step = Activate | Wait | Start(t: nat) | Finish(t: nat)

  ghost predicate NextBy(l: Launch, s: RunState, s': RunState, e: Step) {
    match e
    case Activate =>
      && s.host < |l.sources|
      && s' == s.(host := s.host + 1, activated := s.activated + {l.sources[s.host]})
    case Wait =>
      && |l.sources| <= s.host < |l.sources| + |l.sinks|
      && l.sinks[s.host - |l.sources|] in s.done
      && s' == s.(host := s.host + 1)
    case Start(t) =>
      CanStart(l, s, t) && s' == s.(started := s.started + {t})
    case Finish(t) =>
      && t in s.started && t !in s.done
      && s' == s.(done := s.done + {t})
  }

  ghost predicate Next(l: Launch, s: RunState, s': RunState) {
    exists e :: NextBy(l, s, s', e)
  }

  /** A run: states linked by steps, from the moment every task has been created. */
  ghost predicate IsRun(l: Launch, run: seq<RunState>) {
    && run != [] && Init(l, run[0])
    && (forall i :: 0 <= i < |run| - 1 ==> Next(l, run[i], run[i + 1]))
  }

  /** No step is possible. */
  ghost predicate Stuck(l: Launch, s: RunState) {
    forall s' :: !Next(l, s, s')
  }

  ghost predicate Returned(l: Launch, s: RunState) {
    s.host == |l.sources| + |l.sinks|
  }

  /** What every reachable state satisfies. */
  ghost predicate RunInv(l: Launch, s: RunState) {
    && s.host <= |l.sources| + |l.sinks|
    && s.done <= s.started <= Handles(0, |l.tasks|)
    && Handles(0, l.base) <= s.done
    && (forall t :: t in s.started && l.base <= t < |l.tasks| ==> forall h :: h in l.tasks[t].needs ==> h in s.done)
    && (forall i :: 0 <= i < |l.sources| && i < s.host ==> l.sources[i] in s.activated)
    && (forall i :: 0 <= i < |l.sinks| && |l.sources| + i < s.host ==> l.sinks[i] in s.done)
  }

  lemma StepKeepsInv(l: Launch, s: RunState, s': RunState)
    requires l.base <= |l.tasks| && RunInv(l, s) && Next(l, s, s')
    ensures RunInv(l, s')
  {
    hide Handles;
    var e :| NextBy(l, s, s', e);
    assert s.done <= s'.done && s.started <= s'.started && s.activated <= s'.activated;
  }

  lemma {:induction false} RunKeepsInv(l: Launch, run: seq<RunState>, i: nat)
    requires l.base <= |l.tasks| && IsRun(l, run) && i < |run|
    ensures RunInv(l, run[i])
  {
    if i > 0 {
      RunKeepsInv(l, run, i - 1);
      StepKeepsInv(l, run[i - 1], run[i]);
    }
  }

  /** In every run, whatever has started had everything it needs finished beforehand. */
  lemma NoTaskStartsEarly(l: Launch, run: seq<RunState>, i: nat, t: nat, h: nat)
    requires l.base <= |l.tasks| && IsRun(l, run) && i < |run|
    requires l.base <= t < |l.tasks| && h in l.tasks[t].needs && t in run[i].started
    ensures h in run[i].done
  {
    RunKeepsInv(l, run, i);
  }

  /** Task `t` needs `h` through a chain of `k` requirements. */
  ghost predicate NeedsVia(l: Launch, h: nat, t: nat, k: nat)
    decreases k
  {
    if k == 0 then h == t
    else l.base <= t < |l.tasks| && exists m :: m in l.tasks[t].needs && NeedsVia(l, h, m, k - 1)
  }

  /** Whatever a started task needs, through any chain, is complete. */
  lemma {:induction false} ChainStartsInOrder(l: Launch, s: RunState, h: nat, t: nat, k: nat)
    requires RunInv(l, s) && NeedsVia(l, h, t, k) && k > 0 && t in s.started
    ensures h in s.done
    decreases k
  {
    var m :| m in l.tasks[t].needs && NeedsVia(l, h, m, k - 1);
    assert m in s.done;
    if k > 1 { ChainStartsInOrder(l, s, h, m, k - 1); }
  }

  /** A task nobody waited for is complete because something that needs it is. */
  lemma {:induction false} SinksDoneMeansAllDone(l: Launch, s: RunState, t: nat)
    requires SinksCover(l) && RunInv(l, s)
    requires forall h :: h in l.sinks ==> h in s.done
    requires l.base <= t < |l.tasks|
    ensures t in s.done
    decreases |l.tasks| - t
  {
    if t !in l.sinks {
      var u :| t < u < |l.tasks| && t in l.tasks[u].needs;
      SinksDoneMeansAllDone(l, s, u);
      assert u in s.started;
    }
  }

  /** When the host gets control back, every task of the execution is complete. */
  lemma ReturnedMeansAllDone(l: Launch, run: seq<RunState>, i: nat)
    requires SinksCover(l) && IsRun(l, run) && i < |run| && Returned(l, run[i])
    ensures run[i].done == Handles(0, |l.tasks|)
  {
    RunKeepsInv(l, run, i);
    forall h | h in l.sinks ensures h in run[i].done {
      var k :| 0 <= k < |l.sinks| && l.sinks[k] == h;
    }
    forall t | t in Handles(0, |l.tasks|) ensures t in run[i].done {
      if t < l.base { assert t in Handles(0, l.base); } else { SinksDoneMeansAllDone(l, run[i], t); }
    }
  }

  // ---------------------------------------------------------------- progress

  /** How much is left to do: host calls, starts and completions. */
  ghost function Remaining(l: Launch, s: RunState): int {
    (|l.sources| + |l.sinks| - s.host) + (|l.tasks| - |s.started|) + (|l.tasks| - |s.done|)
  }

  lemma RemainingBounded(l: Launch, s: RunState)
    requires RunInv(l, s)
    ensures Remaining(l, s) >= 0
  {
    SubsetCard(s.started, Handles(0, |l.tasks|));
    SubsetCard(s.done, Handles(0, |l.tasks|));
  }

  /** Until the host has returned, some step is possible. */
  lemma NeverStuck(l: Launch, s: RunState)
    requires Runnable(l) && RunInv(l, s) && !Returned(l, s)
    ensures !Stuck(l, s)
  {
    var e: Step;
    var s': RunState;
    if s.host < |l.sources| {
      e, s' := Activate, s.(host := s.host + 1, activated := s.activated + {l.sources[s.host]});
    } else if l.sinks[s.host - |l.sources|] in s.done {
      e, s' := Wait, s.(host := s.host + 1);
    } else {
      var u := l.sinks[s.host - |l.sources|];
      assert u in l.sinks;
      var t := FirstUnfinished(l, s, u);
      if t in s.started {
        e, s' := Finish(t), s.(done := s.done + {t});
      } else {
        if l.tasks[t].needs == [] {
          var k :| 0 <= k < |l.sources| && l.sources[k] == t;
        }
        e, s' := Start(t), s.(started := s.started + {t});
      }
    }
    assert NextBy(l, s, s', e);
    assert Next(l, s, s');
  }

  lemma {:induction false} FirstUnfinished(l: Launch, s: RunState, u: nat) returns (t: nat)
    requires Runnable(l) && RunInv(l, s) && l.base <= u < |l.tasks| && u !in s.done
    ensures l.base <= t < |l.tasks| && t !in s.done && forall h :: h in l.tasks[t].needs ==> h in s.done
    decreases u
  {
    if h :| h in l.tasks[u].needs && h !in s.done {
      t := FirstUnfinished(l, s, h);
    } else {
      t := u;
    }
  }

  lemma StuckMeansDone(l: Launch, s: RunState, u: nat)
    requires Runnable(l) && RunInv(l, s) && Returned(l, s) && Stuck(l, s) && u < |l.tasks|
    ensures u in s.done
  {
    if u !in s.done && l.base <= u {
      var t := FirstUnfinished(l, s, u);
      var s' := if t in s.started then s.(done := s.done + {t}) else s.(started := s.started + {t});
      if l.tasks[t].needs == [] {
        var k :| 0 <= k < |l.sources| && l.sources[k] == t;
      }
      assert NextBy(l, s, s', if t in s.started then Finish(t) else Start(t));
      assert Next(l, s, s');
    }
  }

  /** Every step brings the end nearer. */
  lemma StepShrinksRemaining(l: Launch, s: RunState, s': RunState)
    requires Next(l, s, s')
    ensures Remaining(l, s') == Remaining(l, s) - 1
  {
  }

  lemma {:induction false} RunShrinksRemaining(l: Launch, run: seq<RunState>, i: nat)
    requires IsRun(l, run) && i < |run|
    ensures Remaining(l, run[i]) == Remaining(l, run[0]) - i
  {
    if i > 0 {
      RunShrinksRemaining(l, run, i - 1);
      StepShrinksRemaining(l, run[i - 1], run[i]);
    }
  }

  /** No run is longer than the work there is, and a run that cannot continue has returned to the host, with all tasks complete
      even if the host has waited for too few. */
  lemma EveryRunFinishes(l: Launch, run: seq<RunState>)
    requires Runnable(l) && IsRun(l, run)
    ensures |run| <= |l.sources| + |l.sinks| + 2 * (|l.tasks| - l.base) + 1
    ensures Stuck(l, run[|run| - 1]) ==>
      Returned(l, run[|run| - 1]) && run[|run| - 1].done == Handles(0, |l.tasks|)
  {
    var last := |run| - 1;
    RunKeepsInv(l, run, last);
    RunShrinksRemaining(l, run, last);
    RemainingBounded(l, run[last]);
    if Stuck(l, run[last]) {
      if !Returned(l, run[last]) { NeverStuck(l, run[last]); }
      forall t | t in Handles(0, |l.tasks|) ensures t in run[last].done { StuckMeansDone(l, run[last], t); }
    }
  }

  // ---------------------------------------------------------------- runs that can be forced

  ghost function ActivatedBy(l: Launch, k: nat): set<nat>
    requires k <= |l.sources|
  {
    set h | h in l.sources[..k]
  }

  lemma {:induction false} ActivateFirst(l: Launch, k: nat) returns (run: seq<RunState>)
    requires l.base <= |l.tasks| && k <= |l.sources|
    ensures IsRun(l, run) && |run| > 0
    ensures run[|run| - 1] == RunState(k, ActivatedBy(l, k), Handles(0, l.base), Handles(0, l.base))
  {
    if k == 0 {
      run := [RunState(0, {}, Handles(0, l.base), Handles(0, l.base))];
    } else {
      run := ActivateFirst(l, k - 1);
      var s := run[|run| - 1];
      var s' := s.(host := k, activated := s.activated + {l.sources[k - 1]});
      assert l.sources[..k] == l.sources[..k - 1] + [l.sources[k - 1]];
      assert ActivatedBy(l, k) == s'.activated;
      assert NextBy(l, s, s', Activate);
      run := ExtendRun(l, run, s');
    }
  }

  lemma ExtendRun(l: Launch, run: seq<RunState>, s': RunState) returns (longer: seq<RunState>)
    requires IsRun(l, run) && Next(l, run[|run| - 1], s')
    ensures IsRun(l, longer) && longer == run + [s']
  {
    longer := run + [s'];
  }

  /** Task `t` needs only older tasks: members of `d`, or tasks from before this execution. */
  ghost predicate NeedsInside(l: Launch, d: set<nat>, t: nat)
    requires t < |l.tasks|
  {
    forall h :: h in l.tasks[t].needs ==> h < t && (h < l.base || h in d)
  }

  /** A set of new tasks that needs nothing outside itself except tasks from before this execution. */
  ghost predicate Closed(l: Launch, d: set<nat>) {
    && (forall t :: t in d ==> l.base <= t < |l.tasks| && NeedsInside(l, d, t))
    && (forall t :: t in d && l.tasks[t].needs == [] ==> t in l.sources)
  }

  lemma RunOne(l: Launch, run: seq<RunState>, t: nat) returns (longer: seq<RunState>)
    requires IsRun(l, run) && CanStart(l, run[|run| - 1], t) && t !in run[|run| - 1].done
    ensures IsRun(l, longer) && |longer| > 0
    ensures var s := run[|run| - 1]; longer[|longer| - 1] == s.(started := s.started + {t}, done := s.done + {t})
  {
    var s := run[|run| - 1];
    var s1 := s.(started := s.started + {t});
    assert NextBy(l, s, s1, Start(t));
    longer := ExtendRun(l, run, s1);
    var s2 := s1.(done := s1.done + {t});
    assert NextBy(l, s1, s2, Finish(t));
    longer := ExtendRun(l, longer, s2);
  }

  /** Everything from before this execution, and the members of `d` below `n`. */
  ghost function DoneBelow(l: Launch, d: set<nat>, n: nat): set<nat> {
    Handles(0, l.base) + set t | t in d && t < n
  }

  lemma DoneBelowStart(l: Launch, d: set<nat>)
    requires Closed(l, d)
    ensures DoneBelow(l, d, l.base) == Handles(0, l.base)
  {
  }

  lemma DoneBelowAll(l: Launch, d: set<nat>)
    requires Closed(l, d)
    ensures DoneBelow(l, d, |l.tasks|) == Handles(0, l.base) + d
  {
  }

  lemma DoneBelowStep(l: Launch, d: set<nat>, t: nat)
    ensures DoneBelow(l, d, t + 1) == DoneBelow(l, d, t) + if t in d then {t} else {}
  {
  }

  lemma ClosedCanStart(l: Launch, d: set<nat>, t: nat, s: RunState)
    requires l.base <= |l.tasks| && Closed(l, d) && t in d
    requires s.activated == ActivatedBy(l, |l.sources|)
    requires s.started == s.done == DoneBelow(l, d, t)
    ensures CanStart(l, s, t) && t !in s.done
  {
    assert l.sources[..|l.sources|] == l.sources;
    assert NeedsInside(l, d, t);
  }

  /** Any closed set of tasks can be run to completion before anything else starts. */
  lemma {:induction false} RunClosed(l: Launch, d: set<nat>, n: nat) returns (run: seq<RunState>)
    requires l.base <= n <= |l.tasks| && Closed(l, d)
    ensures IsRun(l, run) && |run| > 0
    ensures run[|run| - 1] == RunState(|l.sources|, ActivatedBy(l, |l.sources|), DoneBelow(l, d, n), DoneBelow(l, d, n))
    decreases n
  {
    hide Closed, IsRun, ActivatedBy, CanStart, DoneBelow, Handles;
    if n == l.base {
      run := ActivateFirst(l, |l.sources|);
      DoneBelowStart(l, d);
    } else {
      run := RunClosed(l, d, n - 1);
      DoneBelowStep(l, d, n - 1);
      if n - 1 in d {
        ClosedCanStart(l, d, n - 1, run[|run| - 1]);
        run := RunOne(l, run, n - 1);
      }
    }
  }

  /** Once every task it waits for is complete, the host can make all its waits. */
  lemma {:induction false} WaitForAll(l: Launch, run: seq<RunState>, n: nat) returns (longer: seq<RunState>)
    requires IsRun(l, run) && run[|run| - 1].host == |l.sources| && n <= |l.sinks|
    requires forall h :: h in l.sinks ==> h in run[|run| - 1].done
    ensures IsRun(l, longer) && |longer| > 0 && longer[|longer| - 1] == run[|run| - 1].(host := |l.sources| + n)
  {
    if n == 0 {
      longer := run;
    } else {
      longer := WaitForAll(l, run, n - 1);
      var s := longer[|longer| - 1];
      var s' := s.(host := s.host + 1);
      assert l.sinks[n - 1] in l.sinks;
      assert NextBy(l, s, s', Wait);
      longer := ExtendRun(l, longer, s');
    }
  }

  /** A task that needs nothing never starts unless the host activates it. */
  lemma {:induction false} OnlyActivatedStart(l: Launch, run: seq<RunState>, i: nat, t: nat)
    requires l.base <= |l.tasks| && IsRun(l, run) && i < |run| && l.base <= t < |l.tasks| && l.tasks[t].needs == []
    ensures forall h :: h in run[i].activated ==> h in l.sources
    ensures t in run[i].started ==> t in l.sources
  {
    if i > 0 {
      OnlyActivatedStart(l, run, i - 1, t);
      var e :| NextBy(l, run[i - 1], run[i], e);
    }
  }

  // ---------------------------------------------------------------- waiting for enough

  /** In every run, everything is complete when the host gets control back. */
  ghost predicate ReturnMeansDone(l: Launch) {
    forall run: seq<RunState>, i: nat :: IsRun(l, run) && i < |run| && Returned(l, run[i]) ==> run[i].done == Handles(0, |l.tasks|)
  }

  /** Every new task but one. */
  ghost function AllBut(l: Launch, h: nat): set<nat> {
    Handles(l.base, |l.tasks|) - {h}
  }

  /** Nobody waits for `t`, and no task needs it. */
  ghost predicate Forgotten(l: Launch, t: nat) {
    l.base <= t < |l.tasks| && t !in l.sinks && forall u :: t < u < |l.tasks| ==> t !in l.tasks[u].needs
  }

  lemma AllButClosed(l: Launch, t: nat)
    requires Runnable(l) && Forgotten(l, t)
    ensures Closed(l, AllBut(l, t))
  {
    forall u | u in AllBut(l, t) ensures NeedsInside(l, AllBut(l, t), u) {
      assert t !in l.tasks[u].needs;
    }
  }

  /** Some run returns before a forgotten task has started. */
  lemma EarlyReturn(l: Launch, t: nat) returns (run: seq<RunState>)
    requires Runnable(l) && Forgotten(l, t)
    ensures IsRun(l, run) && |run| > 0 && Returned(l, run[|run| - 1]) && t !in run[|run| - 1].done
  {
    var d := AllBut(l, t);
    AllButClosed(l, t);
    assert t !in Handles(0, l.base) + d;
    assert forall h :: h in l.sinks ==> h in d;
    hide Runnable, Closed, IsRun, Handles, AllBut;
    run := RunClosed(l, d, |l.tasks|);
    DoneBelowAll(l, d);
    run := WaitForAll(l, run, |l.sinks|);
  }

  /** Everything is complete when the host gets control back, in every run, if and only if every task nobody waits for is needed. */
  lemma ReturnMeansDoneIffCovered(l: Launch)
    requires Runnable(l)
    ensures ReturnMeansDone(l) <==> SinksCover(l)
  {
    hide IsRun, Returned;
    if SinksCover(l) {
      forall run: seq<RunState>, i: nat | IsRun(l, run) && i < |run| && Returned(l, run[i]) ensures run[i].done == Handles(0, |l.tasks|) {
        ReturnedMeansAllDone(l, run, i);
      }
    } else {
      var t: nat :| l.base <= t < |l.tasks| && t !in l.sinks && !exists u :: t < u < |l.tasks| && t in l.tasks[u].needs;
      var run := EarlyReturn(l, t);
      assert Returned(l, run[|run| - 1]) && t in Handles(0, |l.tasks|);
    }
  }
}
