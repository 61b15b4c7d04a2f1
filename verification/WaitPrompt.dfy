/** Nobody waits for a fiber it does not need: exactly when the caller can end its call by its own steps,
    exactly when a producer can end by its own steps, and that every order of outcomes can happen. */
module WaitPrompt {
  import opened SeqFacts
  import opened FiberChannel
  import opened WaitProtocol
  import opened WaitInvariant
  import opened WaitTheorems
  import opened WaitProgress

  datatype Fiber = Caller | Task(task: nat)

  function FiberOf(l: Label): Fiber {
    match l
    case Launch => Caller
    case Pop => Caller
    case SeeClosed => Caller
    case CloseEarly => Caller
    case Complete(i) => Task(i)
    case Push(i) => Task(i)
    case Refuse(i) => Task(i)
    case CountDown(i) => Task(i)
    case CloseFull(i) => Task(i)
  }

  /** `run` continues `ls` with steps of one fiber alone. */
  ghost predicate Alone(c: Config, who: Fiber, ls: seq<Label>, run: seq<Label>) {
    Legal(c, run) && ls <= run && forall k :: |ls| <= k < |run| ==> FiberOf(run[k]) == who
  }

  lemma AloneStep(c: Config, who: Fiber, ls: seq<Label>, run: seq<Label>, l: Label) returns (longer: seq<Label>)
    requires Alone(c, who, ls, run) && Enabled(c, Exec(c, run), l) && FiberOf(l) == who
    ensures Alone(c, who, ls, longer) && Exec(c, longer) == Apply(c, Exec(c, run), l)
    ensures |longer| == |run| + 1
  {
    LegalExtends(c, run, l);
    longer := run + [l];
  }

  // ---------- The caller ----------

  ghost predicate SomeSucceededIn(c: Config, order: seq<nat>) {
    exists k: nat :: k < |order| && !c.Fails(order[k])
  }

  ghost predicate SomeFailedIn(c: Config, order: seq<nat>) {
    exists k: nat :: k < |order| && c.Fails(order[k])
  }

  /** What has to have been pushed for the call to end, given whether the facade has closed the channel. */
  ghost predicate EnoughPushed(c: Config, order: seq<nat>, closed: bool) {
    match c.mode
    case First => order != []
    case FirstSuccess => SomeSucceededIn(c, order) || |order| == c.N()
    case UntilError => SomeFailedIn(c, order) || closed
    case CollectErrors => closed
  }

  ghost predicate CanEnd(c: Config, s: State) {
    EnoughPushed(c, s.pushed, s.chan.closed)
  }

  /** A caller with enough to end its call is never blocked. */
  lemma CallerMoves(c: Config, s: State) returns (l: Label)
    requires Inv(c, s) && CanEnd(c, s) && !s.consumer.Finished?
    ensures Enabled(c, s, l) && FiberOf(l) == Caller
  {
    match s.consumer
    case Launching(_) => l := Launch;
    case Deciding(_) => l := CloseEarly;
    case Popping =>
      if s.chan.buf != [] {
        l := Pop;
      } else {
        assert s.pushed == s.popped;
        l := SeeClosed;
      }
  }

  /** The caller's steps push nothing, and behind the facade they do not close the channel. */
  lemma CallerKeeps(c: Config, s: State, l: Label)
    requires Inv(c, s) && Enabled(c, s, l) && FiberOf(l) == Caller
    ensures CanEnd(c, Apply(c, s, l)) <==> CanEnd(c, s)
  {
    assert Apply(c, s, l).pushed == s.pushed;
  }

  lemma {:induction false} CallerEnds(c: Config, ls: seq<Label>, before: seq<Label>) returns (run: seq<Label>)
    requires Alone(c, Caller, ls, before) && CanEnd(c, Exec(c, before))
    ensures Alone(c, Caller, ls, run) && Exec(c, run).consumer.Finished?
    decreases 6 * c.N() + 2 - |before|
  {
    run := before;
    if !Exec(c, before).consumer.Finished? {
      InvRun(c, before);
      var l := CallerMoves(c, Exec(c, before));
      CallerKeeps(c, Exec(c, before), l);
      run := AloneStep(c, Caller, ls, before, l);
      EveryRunEnds(c, run);
      run := CallerEnds(c, ls, run);
    }
  }

  lemma FinishedHadEnough(c: Config, s: State)
    requires Inv(c, s) && s.consumer.Finished?
    ensures CanEnd(c, s)
  {
    match c.mode
    case First =>
    case FirstSuccess =>
      NoDupBound(s.pushed, c.N());
      if s.consumer.verdict.ReturnsOne? {
        assert s.pushed[|s.errors|] == s.popped[|s.errors|];
      }
    case UntilError =>
      if s.consumer.verdict.ThrowsOne? {
        assert s.pushed[|s.results|] == s.popped[|s.results|];
      }
    case CollectErrors =>
  }

  lemma {:induction false} EnoughFromTheStart(c: Config, ls: seq<Label>, run: seq<Label>)
    requires Alone(c, Caller, ls, run) && CanEnd(c, Exec(c, run))
    ensures CanEnd(c, Exec(c, ls))
  {
    if |run| == |ls| {
      assert run == ls;
    } else {
      var before := run[..|run| - 1];
      InvRun(c, before);
      CallerKeeps(c, Exec(c, before), run[|run| - 1]);
      EnoughFromTheStart(c, ls, before);
    }
  }

  /** Whether the facade has closed the channel, read off the run. */
  ghost predicate ClosedByFacade(c: Config, ls: seq<Label>) {
    c.mode.Counted() && (c.N() == 0 || exists i: nat :: CloseFull(i) in ls)
  }

  lemma {:induction false} FacadeCloses(c: Config, ls: seq<Label>)
    requires Legal(c, ls) && c.mode.Counted()
    ensures Exec(c, ls).chan.closed <==> ClosedByFacade(c, ls)
  {
    if ls != [] {
      var before, l := ls[..|ls| - 1], ls[|ls| - 1];
      assert ls == before + [l];
      FacadeCloses(c, before);
      InvRun(c, before);
      FacadeStep(c, Exec(c, before), l);
      if i: nat :| CloseFull(i) in before {
        assert CloseFull(i) in ls;
      }
      if l.CloseFull? {
        assert CloseFull(l.task) in ls;
      }
    }
  }

  lemma FacadeStep(c: Config, s: State, l: Label)
    requires Inv(c, s) && Enabled(c, s, l) && c.mode.Counted()
    ensures Apply(c, s, l).chan.closed <==> s.chan.closed || l.CloseFull?
  {
  }

  ghost predicate EndsAlone(c: Config, ls: seq<Label>) {
    exists run :: Alone(c, Caller, ls, run) && Exec(c, run).consumer.Finished?
  }

  /** The caller can end its call with its own steps alone if and only if what it waits for has been
      pushed: for a race the first outcome, whatever the other tasks are doing; for the first success a
      success or all N failures; for a join a failure it throws or the closing of the channel. */
  lemma CallerEndsAloneIff(c: Config, ls: seq<Label>)
    requires Legal(c, ls)
    ensures EndsAlone(c, ls) <==> EnoughPushed(c, PushOrder(ls), ClosedByFacade(c, ls))
  {
    HistoryIsPushOrder(c, ls);
    if c.mode.Counted() {
      FacadeCloses(c, ls);
    }
    if CanEnd(c, Exec(c, ls)) {
      var run := CallerEnds(c, ls, ls);
    }
    if EndsAlone(c, ls) {
      var run :| Alone(c, Caller, ls, run) && Exec(c, run).consumer.Finished?;
      InvRun(c, run);
      FinishedHadEnough(c, Exec(c, run));
      EnoughFromTheStart(c, ls, run);
    }
  }

  lemma {:induction false} Launches(c: Config, ls: seq<Label>, before: seq<Label>) returns (run: seq<Label>)
    requires Alone(c, Caller, ls, before)
    ensures Alone(c, Caller, ls, run) && !Exec(c, run).consumer.Launching?
    decreases 6 * c.N() + 2 - |before|
  {
    run := before;
    if Exec(c, before).consumer.Launching? {
      InvRun(c, before);
      run := AloneStep(c, Caller, ls, before, Launch);
      EveryRunEnds(c, run);
      run := Launches(c, ls, run);
    }
  }

  /** The caller launches all N tasks without waiting for any of them. */
  lemma LaunchesAlone(c: Config, ls: seq<Label>)
    requires Legal(c, ls)
    ensures exists run :: Alone(c, Caller, ls, run) && Times(run, Launch) == c.N()
  {
    var run := Launches(c, ls, ls);
    PopsAndLaunches(c, run);
  }

  // ---------- The producers ----------

  function Times(ls: seq<Label>, l: Label): nat {
    if ls == [] then 0 else Times(ls[..|ls| - 1], l) + if ls[|ls| - 1] == l then 1 else 0
  }

  function Launched(c: Config, s: State): nat {
    if s.consumer.Launching? then s.consumer.next else c.N()
  }

  lemma PopsAndLaunchesStep(c: Config, s: State, l: Label)
    requires LaunchInv(c, s) && Enabled(c, s, l)
    ensures |Apply(c, s, l).popped| == |s.popped| + if l == Pop then 1 else 0
    ensures Launched(c, Apply(c, s, l)) == Launched(c, s) + if l == Launch then 1 else 0
  {
  }

  lemma {:induction false} PopsAndLaunches(c: Config, ls: seq<Label>)
    requires Legal(c, ls)
    ensures |Exec(c, ls).popped| == Times(ls, Pop) && Launched(c, Exec(c, ls)) == Times(ls, Launch)
  {
    if ls != [] {
      var before := ls[..|ls| - 1];
      PopsAndLaunches(c, before);
      InvRun(c, before);
      PopsAndLaunchesStep(c, Exec(c, before), ls[|ls| - 1]);
    }
  }

  /** The push of task i has returned, or would not have to wait. */
  predicate NeedNotWait(c: Config, s: State, i: nat)
    requires i < |s.producers|
  {
    match s.producers[i]
    case Unlaunched => false
    case Running => s.chan.closed || |s.chan.buf| < c.cap
    case Ready => s.chan.closed || |s.chan.buf| < c.cap
    case _ => true
  }

  lemma TaskMoves(c: Config, s: State, i: nat) returns (l: Label)
    requires i < |s.producers| && NeedNotWait(c, s, i) && !s.producers[i].Ended?
    ensures Enabled(c, s, l) && FiberOf(l) == Task(i)
    ensures |Apply(c, s, l).producers| == |s.producers| && NeedNotWait(c, Apply(c, s, l), i)
  {
    l := match s.producers[i]
      case Running => Complete(i)
      case Ready => if s.chan.closed then Refuse(i) else Push(i)
      case Counting => CountDown(i)
      case _ => CloseFull(i);
  }

  lemma {:induction false} TaskEnds(c: Config, i: nat, ls: seq<Label>, before: seq<Label>) returns (run: seq<Label>)
    requires Alone(c, Task(i), ls, before)
    requires i < |Exec(c, before).producers| && NeedNotWait(c, Exec(c, before), i)
    ensures Alone(c, Task(i), ls, run)
    ensures i < |Exec(c, run).producers| && Exec(c, run).producers[i].Ended?
    decreases 6 * c.N() + 2 - |before|
  {
    run := before;
    if !Exec(c, before).producers[i].Ended? {
      var l := TaskMoves(c, Exec(c, before), i);
      run := AloneStep(c, Task(i), ls, before, l);
      EveryRunEnds(c, run);
      run := TaskEnds(c, i, ls, run);
    }
  }

  lemma TaskStays(c: Config, s: State, i: nat, l: Label)
    requires i < |s.producers| && !NeedNotWait(c, s, i) && Enabled(c, s, l) && FiberOf(l) == Task(i)
    ensures |Apply(c, s, l).producers| == |s.producers| && !NeedNotWait(c, Apply(c, s, l), i)
  {
  }

  lemma {:induction false} TaskWaits(c: Config, i: nat, ls: seq<Label>, run: seq<Label>)
    requires Alone(c, Task(i), ls, run)
    requires i < |Exec(c, ls).producers| && !NeedNotWait(c, Exec(c, ls), i)
    ensures i < |Exec(c, run).producers| && !NeedNotWait(c, Exec(c, run), i)
  {
    if |run| == |ls| {
      assert run == ls;
    } else {
      var before := run[..|run| - 1];
      TaskWaits(c, i, ls, before);
      TaskStays(c, Exec(c, before), i, run[|run| - 1]);
    }
  }

  ghost predicate TaskEndsAlone(c: Config, ls: seq<Label>, i: nat) {
    exists run :: Alone(c, Task(i), ls, run) && i < |Exec(c, run).producers| && Exec(c, run).producers[i].Ended?
  }

  lemma NeedNotWaitIff(c: Config, s: State, i: nat)
    requires Inv(c, s) && i < c.N()
    ensures NeedNotWait(c, s, i) <==>
              i < Launched(c, s) && (i in s.pushed || s.chan.closed || |s.pushed| < |s.popped| + c.cap)
  {
    assert |s.pushed| == |s.popped| + |s.chan.buf|;
  }

  lemma EndsIfNeedNotWait(c: Config, ls: seq<Label>, i: nat)
    requires Legal(c, ls) && i < |Exec(c, ls).producers|
    ensures TaskEndsAlone(c, ls, i) <==> NeedNotWait(c, Exec(c, ls), i)
  {
    if NeedNotWait(c, Exec(c, ls), i) {
      var run := TaskEnds(c, i, ls, ls);
    } else if TaskEndsAlone(c, ls, i) {
      var run :| Alone(c, Task(i), ls, run) && i < |Exec(c, run).producers| && Exec(c, run).producers[i].Ended?;
      TaskWaits(c, i, ls, run);
    }
  }

  /** A producer can end with its own steps alone if and only if it has been launched and its push has
      succeeded already, or the channel is closed, or fewer than `cap` outcomes are waiting in it. */
  lemma TaskEndsAloneIff(c: Config, ls: seq<Label>, i: nat)
    requires Legal(c, ls) && i < c.N()
    ensures TaskEndsAlone(c, ls, i) <==>
              && i < Times(ls, Launch)
              && (i in PushOrder(ls) || Exec(c, ls).chan.closed || |PushOrder(ls)| < Times(ls, Pop) + c.cap)
  {
    InvRun(c, ls);
    HistoryIsPushOrder(c, ls);
    PopsAndLaunches(c, ls);
    NeedNotWaitIff(c, Exec(c, ls), i);
    EndsIfNeedNotWait(c, ls, i);
  }
}
