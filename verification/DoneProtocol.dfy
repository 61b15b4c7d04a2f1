/** wait_first_simple: the caller sleeps on a condition variable until one of N functions has
    completed. `notify` is split into its locked write and the later notify_one. */
module DoneProtocol {
  import opened SeqFacts

  /** The flag and whether the waiting fiber is queued on the condition variable. */
  datatype Flag = Flag(ready: bool, sleeping: bool) {
    /** One pass of the wait loop under the lock: test, and queue up if the test fails. */
    function AfterTest(): Flag {
      if ready then this else this.(sleeping := true)
    }

    function AfterWrite(): Flag {
      this.(ready := true)
    }

    function AfterNotify(): Flag {
      this.(sleeping := false)
    }
  }

  /** The object itself, one method per critical section. */
  class Done {
    var ready: bool
    var sleeping: bool

    function View(): Flag
      reads this
    {
      Flag(ready, sleeping)
    }

    constructor ()
      ensures View() == Flag(false, false)
    {
      ready, sleeping := false, false;
    }

    method TestOrSleep() returns (done: bool)
      modifies this
      ensures done == old(ready)
      ensures View() == old(View()).AfterTest()
    {
      if !ready {
        sleeping := true;
      }
      done := ready;
    }

    method WriteReady()
      modifies this
      ensures View() == old(View()).AfterWrite()
    {
      ready := true;
    }

    method NotifyOne()
      modifies this
      ensures View() == old(View()).AfterNotify()
    {
      sleeping := false;
    }
  }

  datatype Task =
    | Unlaunched
    | Running
    | Completed   // the function returned, the flag is not written yet
    | Written     // wrote the flag, notify_one is still to run
    | Ended

  datatype Waiter = Launching(next: nat) | Testing | Asleep | Returned

  datatype State = State(tasks: seq<Task>, flag: Flag, waiter: Waiter)

  datatype Label = Launch | Complete(task: nat) | Write(task: nat) | Notify(task: nat) | Test | Spurious

  function Init(n: nat): State {
    State(seq(n, i => Unlaunched), Flag(false, false), if n == 0 then Testing else Launching(0))
  }

  predicate Enabled(s: State, l: Label) {
    match l
    case Launch => s.waiter.Launching? && s.waiter.next < |s.tasks|
    case Complete(i) => i < |s.tasks| && s.tasks[i] == Running
    case Write(i) => i < |s.tasks| && s.tasks[i] == Completed
    case Notify(i) => i < |s.tasks| && s.tasks[i] == Written
    case Test => s.waiter == Testing
    case Spurious => s.waiter == Asleep
  }

  function Wake(w: Waiter): Waiter {
    if w == Asleep then Testing else w
  }

  function Apply(s: State, l: Label): State {
    if !Enabled(s, l) then s else
    match l
    case Launch =>
      var k := s.waiter.next;
      s.(tasks := s.tasks[k := Running], waiter := if k + 1 < |s.tasks| then Launching(k + 1) else Testing)
    case Complete(i) => s.(tasks := s.tasks[i := Completed])
    case Write(i) => s.(tasks := s.tasks[i := Written], flag := s.flag.AfterWrite())
    case Notify(i) => s.(tasks := s.tasks[i := Ended], flag := s.flag.AfterNotify(), waiter := Wake(s.waiter))
    case Test => s.(flag := s.flag.AfterTest(), waiter := if s.flag.ready then Returned else Asleep)
    case Spurious => s.(flag := s.flag.AfterNotify(), waiter := Testing)
  }

  function Exec(n: nat, ls: seq<Label>): State {
    if ls == [] then Init(n) else Apply(Exec(n, ls[..|ls| - 1]), ls[|ls| - 1])
  }

  ghost predicate Legal(n: nat, ls: seq<Label>) {
    ls != [] ==> Legal(n, ls[..|ls| - 1]) && Enabled(Exec(n, ls[..|ls| - 1]), ls[|ls| - 1])
  }

  /** No fiber can take a step of its own; a spurious wakeup is not one. */
  ghost predicate Quiescent(s: State) {
    forall l :: Enabled(s, l) ==> l == Spurious
  }

  ghost predicate SomeTask(s: State, t: Task) {
    exists i: nat :: i < |s.tasks| && s.tasks[i] == t
  }

  ghost predicate Inv(n: nat, s: State) {
    && |s.tasks| == n
    && (forall i: nat :: i < n ==> (s.tasks[i].Unlaunched? <==> s.waiter.Launching? && s.waiter.next <= i))
    && (s.waiter.Launching? ==> s.waiter.next < n)
    && (s.flag.ready <==> SomeTask(s, Written) || SomeTask(s, Ended))
    && (s.flag.sleeping <==> s.waiter == Asleep)
    && (s.waiter == Asleep && s.flag.ready ==> SomeTask(s, Written))
    && (s.waiter == Returned ==> s.flag.ready)
  }

  lemma SomeTaskUpdate(s: State, s': State, i: nat, x: Task, t: Task)
    requires i < |s.tasks| && s'.tasks == s.tasks[i := x]
    ensures x == t ==> SomeTask(s', t)
    ensures x != t && s.tasks[i] != t ==> (SomeTask(s', t) <==> SomeTask(s, t))
  {
    if x == t {
      assert s'.tasks[i] == t;
    } else if s.tasks[i] != t {
      if SomeTask(s, t) {
        var j: nat :| j < |s.tasks| && s.tasks[j] == t;
        assert s'.tasks[j] == t;
      }
      if SomeTask(s', t) {
        var j: nat :| j < |s'.tasks| && s'.tasks[j] == t;
        assert s.tasks[j] == t;
      }
    }
  }

  lemma InvStep(n: nat, s: State, l: Label)
    requires Inv(n, s) && Enabled(s, l)
    ensures Inv(n, Apply(s, l))
  {
    var s' := Apply(s, l);
    match l
    case Launch =>
      SomeTaskUpdate(s, s', s.waiter.next, Running, Written);
      SomeTaskUpdate(s, s', s.waiter.next, Running, Ended);
    case Complete(i) =>
      SomeTaskUpdate(s, s', i, Completed, Written);
      SomeTaskUpdate(s, s', i, Completed, Ended);
    case Write(i) =>
      SomeTaskUpdate(s, s', i, Written, Written);
    case Notify(i) =>
      SomeTaskUpdate(s, s', i, Ended, Ended);
      assert SomeTask(s, Written);
    case _ =>
      assert s'.tasks == s.tasks;
      assert SomeTask(s', Written) == SomeTask(s, Written) && SomeTask(s', Ended) == SomeTask(s, Ended);
  }

  lemma {:induction false} InvRun(n: nat, ls: seq<Label>)
    requires Legal(n, ls)
    ensures Inv(n, Exec(n, ls))
  {
    if ls != [] {
      InvRun(n, ls[..|ls| - 1]);
      InvStep(n, Exec(n, ls[..|ls| - 1]), ls[|ls| - 1]);
    }
  }

  /** Whether the run completed task i's function before this point. */
  predicate HasCompleted(ls: seq<Label>, i: nat) {
    Complete(i) in ls
  }

  lemma {:induction false} PastRunningMeansCompleted(n: nat, ls: seq<Label>, i: nat)
    requires Legal(n, ls) && i < |Exec(n, ls).tasks|
    ensures Exec(n, ls).tasks[i] in {Completed, Written, Ended} <==> HasCompleted(ls, i)
  {
    if ls != [] {
      InvRun(n, ls);
      InvRun(n, ls[..|ls| - 1]);
      PastRunningMeansCompleted(n, ls[..|ls| - 1], i);
      assert ls == ls[..|ls| - 1] + [ls[|ls| - 1]];
    }
  }

  /** The caller returns only after some function has completed, and it is never left asleep once the
      flag is set and every pending notify has run. */
  lemma NoLostWakeup(n: nat, ls: seq<Label>)
    requires Legal(n, ls)
    ensures var s := Exec(n, ls);
            && (s.waiter == Returned ==> exists i: nat :: i < n && HasCompleted(ls, i))
            && (s.flag.ready && !SomeTask(s, Written) ==> s.waiter != Asleep)
  {
    var s := Exec(n, ls);
    InvRun(n, ls);
    if s.waiter == Returned {
      var i: nat :| i < n && s.tasks[i] in {Written, Ended};
      PastRunningMeansCompleted(n, ls, i);
    }
  }

  /** Where every run stops: with N >= 1 the caller has returned and all fibers have ended; with N = 0
      the caller sleeps for ever. */
  lemma MaximalRuns(n: nat, ls: seq<Label>)
    requires Legal(n, ls) && Quiescent(Exec(n, ls))
    ensures var s := Exec(n, ls);
            && (s.waiter == Returned <==> n >= 1) && (s.waiter == Asleep <==> n == 0)
            && |s.tasks| == n && forall i: nat :: i < n ==> s.tasks[i] == Ended
  {
    var s := Exec(n, ls);
    InvRun(n, ls);
    assert !Enabled(s, Launch) && !Enabled(s, Test);
    forall i: nat | i < n ensures s.tasks[i] == Ended {
      assert !Enabled(s, Complete(i)) && !Enabled(s, Write(i)) && !Enabled(s, Notify(i));
    }
    if n >= 1 {
      assert s.tasks[0] == Ended;
    }
  }

  function Rank(t: Task): nat {
    match t
    case Unlaunched => 5
    case Running => 4
    case Completed => 3
    case Written => 2
    case Ended => 0
  }

  function Measure(s: State): nat {
    Total(s.tasks, Rank)
    + match s.waiter
      case Launching(_) => 2
      case Testing => 2
      case Asleep => 1
      case Returned => 0
  }

  function SpuriousCount(ls: seq<Label>): nat {
    if ls == [] then 0
    else SpuriousCount(ls[..|ls| - 1]) + if ls[|ls| - 1] == Spurious then 1 else 0
  }

  lemma MeasureStep(n: nat, s: State, l: Label)
    requires Inv(n, s) && Enabled(s, l)
    ensures Measure(Apply(s, l)) + 1 <= Measure(s) + if l == Spurious then 2 else 0
  {
    match l
    case Launch => TotalUpdate(s.tasks, Rank, s.waiter.next, Running);
    case Complete(i) => TotalUpdate(s.tasks, Rank, i, Completed);
    case Write(i) => TotalUpdate(s.tasks, Rank, i, Written);
    case Notify(i) => TotalUpdate(s.tasks, Rank, i, Ended);
    case _ =>
  }

  /** A run has at most 5N + 2 steps, plus two for each spurious wakeup. */
  lemma {:induction false} EveryRunEnds(n: nat, ls: seq<Label>)
    requires Legal(n, ls)
    ensures |ls| + Measure(Exec(n, ls)) <= 5 * n + 2 + 2 * SpuriousCount(ls)
  {
    if ls == [] {
      TotalUniform(Init(n).tasks, Rank, 5);
    } else {
      var before := ls[..|ls| - 1];
      EveryRunEnds(n, before);
      InvRun(n, before);
      MeasureStep(n, Exec(n, before), ls[|ls| - 1]);
    }
  }

  ghost predicate Maximal(n: nat, ls: seq<Label>) {
    Legal(n, ls) && Quiescent(Exec(n, ls))
  }

  lemma LegalExtends(n: nat, ls: seq<Label>, l: Label)
    requires Legal(n, ls) && Enabled(Exec(n, ls), l)
    ensures Legal(n, ls + [l]) && Exec(n, ls + [l]) == Apply(Exec(n, ls), l)
  {
    assert (ls + [l])[..|ls + [l]| - 1] == ls;
  }

  lemma NextStep(n: nat, ls: seq<Label>) returns (l: Label)
    requires Legal(n, ls) && !Maximal(n, ls)
    ensures Legal(n, ls + [l]) && Measure(Exec(n, ls + [l])) < Measure(Exec(n, ls))
  {
    l :| Enabled(Exec(n, ls), l) && l != Spurious;
    InvRun(n, ls);
    LegalExtends(n, ls, l);
    MeasureStep(n, Exec(n, ls), l);
  }

  lemma {:induction false} GoOn(n: nat, ls: seq<Label>) returns (run: seq<Label>)
    requires Legal(n, ls)
    ensures ls <= run && Maximal(n, run)
    decreases Measure(Exec(n, ls))
  {
    run := ls;
    if !Maximal(n, ls) {
      var l := NextStep(n, ls);
      run := GoOn(n, ls + [l]);
    }
  }

  /** Every run goes on to one that cannot go on. */
  lemma EveryRunGoesOn(n: nat, ls: seq<Label>)
    requires Legal(n, ls)
    ensures exists run :: ls <= run && Maximal(n, run)
  {
    var run := GoOn(n, ls);
  }

  /** A call can be left asleep for ever if and only if there was no function to wait for. */
  lemma CallerSleepsIff(n: nat)
    ensures (exists ls :: Maximal(n, ls) && Exec(n, ls).waiter == Asleep) <==> n == 0
  {
    if ls :| Maximal(n, ls) && Exec(n, ls).waiter == Asleep {
      MaximalRuns(n, ls);
    }
    var run := GoOn(n, []);
    MaximalRuns(n, run);
  }

  // ---------- Nobody waits for a fiber it does not need ----------

  /** A step of the caller, or a notify. */
  predicate IsWakingStep(l: Label) {
    l.Launch? || l.Test? || l.Notify?
  }

  predicate IsStepOf(l: Label, i: nat) {
    l == Complete(i) || l == Write(i) || l == Notify(i)
  }

  /** `run` continues `ls` with steps of the caller and pending notifies only. */
  ghost predicate OnlyWakes(n: nat, ls: seq<Label>, run: seq<Label>) {
    Legal(n, run) && ls <= run && forall k :: |ls| <= k < |run| ==> IsWakingStep(run[k])
  }

  lemma ReadyStep(s: State, l: Label)
    requires Enabled(s, l)
    ensures Apply(s, l).flag.ready <==> s.flag.ready || l.Write?
  {
  }

  lemma {:induction false} ReadyIff(n: nat, ls: seq<Label>)
    requires Legal(n, ls)
    ensures Exec(n, ls).flag.ready <==> exists i: nat :: Write(i) in ls
  {
    if ls != [] {
      var before, l := ls[..|ls| - 1], ls[|ls| - 1];
      assert ls == before + [l];
      ReadyIff(n, before);
      ReadyStep(Exec(n, before), l);
      if i: nat :| Write(i) in before {
        assert Write(i) in ls;
      }
      if l.Write? {
        assert Write(l.task) in ls;
      }
    }
  }

  lemma CallerMoves(n: nat, s: State) returns (l: Label)
    requires Inv(n, s) && s.flag.ready && s.waiter != Returned
    ensures Enabled(s, l) && IsWakingStep(l)
  {
    match s.waiter
    case Launching(_) => l := Launch;
    case Testing => l := Test;
    case Asleep =>
      var i: nat :| i < |s.tasks| && s.tasks[i] == Written;
      l := Notify(i);
  }

  lemma {:induction false} CallerReturns(n: nat, ls: seq<Label>, before: seq<Label>) returns (run: seq<Label>)
    requires OnlyWakes(n, ls, before) && Exec(n, before).flag.ready
    ensures OnlyWakes(n, ls, run) && Exec(n, run).waiter == Returned
    decreases Measure(Exec(n, before))
  {
    run := before;
    if Exec(n, before).waiter != Returned {
      InvRun(n, before);
      var l := CallerMoves(n, Exec(n, before));
      LegalExtends(n, before, l);
      MeasureStep(n, Exec(n, before), l);
      ReadyStep(Exec(n, before), l);
      run := CallerReturns(n, ls, before + [l]);
    }
  }

  lemma {:induction false} WakesDoNotWrite(n: nat, ls: seq<Label>, run: seq<Label>)
    requires OnlyWakes(n, ls, run) && Exec(n, run).flag.ready
    ensures Exec(n, ls).flag.ready
  {
    if |run| == |ls| {
      assert run == ls;
    } else {
      ReadyStep(Exec(n, run[..|run| - 1]), run[|run| - 1]);
      WakesDoNotWrite(n, ls, run[..|run| - 1]);
    }
  }

  ghost predicate ReturnsOnWakes(n: nat, ls: seq<Label>) {
    exists run :: OnlyWakes(n, ls, run) && Exec(n, run).waiter == Returned
  }

  /** The caller can return with its own steps and pending notifies alone, with no other function
      completing, if and only if some fiber has written the flag. */
  lemma CallerReturnsIff(n: nat, ls: seq<Label>)
    requires Legal(n, ls)
    ensures ReturnsOnWakes(n, ls) <==> exists i: nat :: Write(i) in ls
  {
    ReadyIff(n, ls);
    if Exec(n, ls).flag.ready {
      var run := CallerReturns(n, ls, ls);
    }
    if ReturnsOnWakes(n, ls) {
      var run :| OnlyWakes(n, ls, run) && Exec(n, run).waiter == Returned;
      InvRun(n, run);
      WakesDoNotWrite(n, ls, run);
    }
  }

  /** `run` continues `ls` with steps of task i alone. */
  ghost predicate Alone(n: nat, i: nat, ls: seq<Label>, run: seq<Label>) {
    Legal(n, run) && ls <= run && forall k :: |ls| <= k < |run| ==> IsStepOf(run[k], i)
  }

  lemma {:induction false} TaskEnds(n: nat, i: nat, ls: seq<Label>, before: seq<Label>) returns (run: seq<Label>)
    requires Alone(n, i, ls, before) && i < |Exec(n, before).tasks| && Exec(n, before).tasks[i] != Unlaunched
    ensures Alone(n, i, ls, run) && i < |Exec(n, run).tasks| && Exec(n, run).tasks[i] == Ended
    decreases Rank(Exec(n, before).tasks[i])
  {
    run := before;
    var t := Exec(n, before).tasks[i];
    if t != Ended {
      var l := if t == Running then Complete(i) else if t == Completed then Write(i) else Notify(i);
      LegalExtends(n, before, l);
      run := TaskEnds(n, i, ls, before + [l]);
    }
  }

  /** A launched fiber runs to its end with its own steps alone, whether the caller sleeps or not. */
  lemma TaskEndsAlone(n: nat, ls: seq<Label>, i: nat)
    requires Legal(n, ls) && i < |Exec(n, ls).tasks| && Exec(n, ls).tasks[i] != Unlaunched
    ensures exists run :: Alone(n, i, ls, run) && i < |Exec(n, run).tasks| && Exec(n, run).tasks[i] == Ended
  {
    var run := TaskEnds(n, i, ls, ls);
  }

  lemma {:induction false} Launches(n: nat, ls: seq<Label>, before: seq<Label>) returns (run: seq<Label>)
    requires Legal(n, before) && ls <= before && forall k :: |ls| <= k < |before| ==> before[k] == Launch
    ensures Legal(n, run) && ls <= run && forall k :: |ls| <= k < |run| ==> run[k] == Launch
    ensures !Exec(n, run).waiter.Launching?
    decreases Measure(Exec(n, before))
  {
    run := before;
    if Exec(n, before).waiter.Launching? {
      InvRun(n, before);
      LegalExtends(n, before, Launch);
      MeasureStep(n, Exec(n, before), Launch);
      run := Launches(n, ls, before + [Launch]);
    }
  }

  /** The caller launches all functions without waiting for any of them. */
  lemma LaunchesAlone(n: nat, ls: seq<Label>)
    requires Legal(n, ls)
    ensures exists run ::
              && Legal(n, run) && ls <= run && (forall k :: |ls| <= k < |run| ==> run[k] == Launch)
              && forall i: nat :: i < |Exec(n, run).tasks| ==> Exec(n, run).tasks[i] != Unlaunched
  {
    var run := Launches(n, ls, ls);
    InvRun(n, run);
  }

  // ---------- The object ----------

  /** At every point of a run the invariant holds and the next label is enabled. */
  lemma {:induction false} LegalPrefix(n: nat, ls: seq<Label>, i: nat)
    requires Legal(n, ls) && i < |ls|
    ensures Enabled(Exec(n, ls[..i]), ls[i]) && Exec(n, ls[..i + 1]) == Apply(Exec(n, ls[..i]), ls[i])
    ensures Inv(n, Exec(n, ls[..i]))
  {
    var before := ls[..|ls| - 1];
    if i < |before| {
      LegalPrefix(n, before, i);
      assert before[..i] == ls[..i] && before[..i + 1] == ls[..i + 1];
    } else {
      assert ls[..i + 1] == ls && ls[..i] == before;
      InvRun(n, before);
    }
  }

  /** One step on the object. A notify wakes the caller exactly when it is queued. */
  method Step(done: Done, tasks: seq<Task>, waiter: Waiter, l: Label) returns (tasks': seq<Task>, waiter': Waiter)
    requires Enabled(State(tasks, done.View(), waiter), l) && (done.sleeping <==> waiter == Asleep)
    modifies done
    ensures State(tasks', done.View(), waiter') == Apply(old(State(tasks, done.View(), waiter)), l)
  {
    tasks', waiter' := tasks, waiter;
    match l
    case Launch =>
      tasks' := tasks[waiter.next := Running];
      waiter' := if waiter.next + 1 < |tasks| then Launching(waiter.next + 1) else Testing;
    case Complete(k) =>
      tasks' := tasks[k := Completed];
    case Write(k) =>
      done.WriteReady();
      tasks' := tasks[k := Written];
    case Notify(k) =>
      if done.sleeping {
        waiter' := Testing;
      }
      done.NotifyOne();
      tasks' := tasks[k := Ended];
    case Test =>
      var ready := done.TestOrSleep();
      waiter' := if ready then Returned else Asleep;
    case Spurious =>
      done.NotifyOne();
      waiter' := Testing;
  }

  /** Running any schedule on the object, each fiber in its own critical sections, leads where the
      transition system says. */
  method Replay(n: nat, ls: seq<Label>) returns (done: Done, tasks: seq<Task>, waiter: Waiter)
    requires Legal(n, ls)
    ensures State(tasks, done.View(), waiter) == Exec(n, ls)
  {
    done := new Done();
    tasks := seq(n, i => Unlaunched);
    waiter := if n == 0 then Testing else Launching(0);
    for i := 0 to |ls|
      invariant fresh(done)
      invariant State(tasks, done.View(), waiter) == Exec(n, ls[..i])
    {
      LegalPrefix(n, ls, i);
      tasks, waiter := Step(done, tasks, waiter, ls[i]);
    }
    assert ls[..|ls|] == ls;
  }
}
