/** What the wait functions promise, for every number of tasks, every capacity and every run. */
module WaitTheorems {
  import opened SeqFacts
  import opened FiberChannel
  import opened WaitProtocol
  import opened WaitInvariant

  /** The channel's history is the order in which the run's pushes succeeded. */
  lemma {:induction false} HistoryIsPushOrder(c: Config, ls: seq<Label>)
    requires Legal(c, ls)
    ensures Exec(c, ls).pushed == PushOrder(ls)
  {
    if ls != [] {
      HistoryIsPushOrder(c, ls[..|ls| - 1]);
    }
  }

  /** With the facade no push is ever refused, the unsigned counter never wraps, and a closed channel
      means that all N pushes succeeded, were counted, and left no producer behind. */
  lemma CountedPushesAllSucceed(c: Config, ls: seq<Label>)
    requires Legal(c, ls) && c.mode.Counted()
    ensures var s := Exec(c, ls);
            && |s.producers| == c.N()
            && (forall i: nat :: i < c.N() ==> s.producers[i] != Ended(false) && !Enabled(c, s, Refuse(i)))
            && (forall i: nat :: Enabled(c, s, CountDown(i)) ==> 0 < s.limit <= c.N())
            && (s.chan.closed ==>
                  && IsPermutation(PushOrder(ls), c.N()) && s.limit == 0
                  && forall i: nat :: i < c.N() ==> s.producers[i] == Ended(true))
  {
    var s := Exec(c, ls);
    InvRun(c, ls);
    HistoryIsPushOrder(c, ls);
    forall i: nat | i < c.N()
      ensures !Enabled(c, s, Refuse(i))
      ensures s.chan.closed ==> s.producers[i] == Ended(true)
      ensures Enabled(c, s, CountDown(i)) ==> 0 < s.limit
    {
      if s.limit == 0 {
        ClosedMeansAllTallied(c, s, i);
      }
    }
    NoDupBound(s.pushed, c.N());
  }

  // ---------- Termination and deadlock freedom ----------

  function Rank(p: Producer): nat {
    match p
    case Unlaunched => 5
    case Running => 4
    case Ready => 3
    case Counting => 2
    case Closing => 1
    case Ended(_) => 0
  }

  /** Steps the run can still take. */
  function Measure(c: Config, s: State): int {
    Total(s.producers, Rank) + (c.N() - |s.popped|)
    + match s.consumer
      case Launching(_) => 2
      case Popping => 2
      case Deciding(_) => 1
      case Finished(_) => 0
  }

  /** A step of a producer changes neither the consumer nor what it has popped. */
  lemma ProducerDrops(c: Config, s: State, l: Label)
    requires Enabled(c, s, l) && (l.Complete? || l.Push? || l.Refuse? || l.CountDown? || l.CloseFull?)
    ensures Measure(c, Apply(c, s, l)) < Measure(c, s)
  {
    var s' := Apply(c, s, l);
    assert s'.producers == s.producers[l.task := s'.producers[l.task]];
    TotalUpdate(s.producers, Rank, l.task, s'.producers[l.task]);
  }

  lemma MeasureDrops(c: Config, s: State, l: Label)
    requires LaunchInv(c, s) && Enabled(c, s, l)
    ensures Measure(c, Apply(c, s, l)) < Measure(c, s)
  {
    match l
    case Launch => TotalUpdate(s.producers, Rank, s.consumer.next, Running);
    case Pop =>
    case SeeClosed =>
    case CloseEarly =>
    case _ => ProducerDrops(c, s, l);
  }

  /** No run of N tasks is longer than 6N + 2 steps, whatever the schedule. */
  lemma {:induction false} EveryRunEnds(c: Config, ls: seq<Label>)
    requires Legal(c, ls)
    ensures 0 <= Measure(c, Exec(c, ls))
    ensures |ls| + Measure(c, Exec(c, ls)) <= 6 * c.N() + 2
  {
    InvRun(c, ls);
    NoDupBound(Exec(c, ls).pushed, c.N());
    if ls == [] {
      TotalUniform(Exec(c, ls).producers, Rank, 5);
    } else {
      var before := ls[..|ls| - 1];
      EveryRunEnds(c, before);
      InvRun(c, before);
      MeasureDrops(c, Exec(c, before), ls[|ls| - 1]);
    }
  }

  /** The producers that wait in push for room in the channel. */
  ghost function Waiting(s: State): set<nat> {
    set i: nat | i < |s.producers| && s.producers[i] == Ready
  }

  lemma QuiescentProducer(c: Config, s: State, i: nat)
    requires |s.producers| == c.N() && LaunchInv(c, s) && Quiescent(c, s) && i < c.N()
    ensures s.producers[i].Ended? || i in Waiting(s)
    ensures i in Waiting(s) ==> !s.chan.closed && |s.chan.buf| >= c.cap
  {
    assert !Enabled(c, s, Launch);
    assert !Enabled(c, s, Complete(i)) && !Enabled(c, s, CountDown(i)) && !Enabled(c, s, CloseFull(i));
    assert !Enabled(c, s, Refuse(i)) && !Enabled(c, s, Push(i));
  }

  /** When each producer has been accepted or waits in push, the two groups make up N. */
  lemma AcceptedAndWaiting(c: Config, s: State)
    requires HistoryInv(c, s)
    requires forall i: nat :: i < c.N() ==> Accepted(s.producers[i]) || i in Waiting(s)
    ensures |s.pushed| + |Waiting(s)| == c.N()
  {
    NoDupSize(s.pushed);
    forall i | i in Elements(s.pushed) ensures i < c.N() && i !in Waiting(s) {
      var k :| 0 <= k < |s.pushed| && s.pushed[k] == i;
    }
    BelowSize(Elements(s.pushed) + Waiting(s), c.N());
  }

  /** A quiescent state with an open channel: who is not waiting has been accepted. */
  lemma QuiescentProducers(c: Config, s: State)
    requires Inv(c, s) && Quiescent(c, s)
    ensures forall i: nat :: i < c.N() ==> s.producers[i].Ended? || i in Waiting(s)
    ensures s.chan.closed ==> Waiting(s) == {}
    ensures !s.chan.closed ==> |s.pushed| + |Waiting(s)| == c.N()
    ensures Waiting(s) != {} ==> |s.chan.buf| == c.cap
  {
    forall i: nat | i < c.N()
      ensures s.producers[i].Ended? || i in Waiting(s)
      ensures i in Waiting(s) ==> !s.chan.closed && |s.chan.buf| >= c.cap
    {
      QuiescentProducer(c, s, i);
    }
    if !s.chan.closed {
      assert forall i: nat :: i < c.N() ==> s.producers[i] != Ended(false);
      AcceptedAndWaiting(c, s);
    }
  }

  /** Which producers a call leaves waiting for ever: only wait_all_until_error does, after a throw. */
  function Stranded(c: Config, s: State): nat {
    if c.mode.UntilError? && s.consumer.Finished? && s.consumer.verdict.ThrowsOne? && |s.popped| + c.cap < c.N()
    then c.N() - |s.popped| - c.cap
    else 0
  }

  lemma QuiescentConsumer(c: Config, s: State)
    requires c.Valid() && Inv(c, s) && Quiescent(c, s)
    ensures s.consumer.Finished? <==> !(c.mode.First? && c.N() == 0)
  {
    QuiescentProducers(c, s);
    assert !Enabled(c, s, CloseEarly) && !Enabled(c, s, Pop) && !Enabled(c, s, SeeClosed);
    assert !Enabled(c, s, Launch);
    if s.consumer == Popping {
      assert s.chan.buf == [] && !s.chan.closed;
      assert Waiting(s) == {} && |s.popped| == c.N();
      if c.mode.Counted() {
        BelowSize(TallySet(s.producers), c.N());
      }
    } else if s.popped != [] {
      assert s.pushed[0] == s.popped[0];
    }
  }

  /** Where every maximal run stops. The call has returned or thrown, except for wait_first_value_c and
      wait_first_outcome_c on no functions, which wait for an item that cannot come. All producers have
      ended, except that after wait_all_until_error throws, exactly max(0, N - popped - cap) never do. */
  lemma MaximalRuns(c: Config, ls: seq<Label>)
    requires c.Valid() && Legal(c, ls) && Quiescent(c, Exec(c, ls))
    ensures var s := Exec(c, ls);
            && (s.consumer.Finished? <==> !(c.mode.First? && c.N() == 0))
            && |s.producers| == c.N()
            && (forall i: nat :: i < c.N() ==> s.producers[i].Ended? || i in Waiting(s))
            && |Waiting(s)| == Stranded(c, s)
  {
    var s := Exec(c, ls);
    InvRun(c, ls);
    QuiescentConsumer(c, s);
    QuiescentProducers(c, s);
    NoDupBound(s.pushed, c.N());
  }

  /** Once the call has ended, nothing the remaining producers do changes its result. */
  lemma {:induction false} VerdictIsFinal(c: Config, ls: seq<Label>, more: seq<Label>)
    requires Exec(c, ls).consumer.Finished?
    ensures Exec(c, ls + more).consumer == Exec(c, ls).consumer
  {
    if more == [] {
      assert ls + more == ls;
    } else {
      VerdictIsFinal(c, ls, more[..|more| - 1]);
      assert (ls + more)[..|ls + more| - 1] == ls + more[..|more| - 1];
    }
  }

  // ---------- Results ----------

  ghost predicate SomeFails(c: Config) {
    exists i: nat :: i < |c.fails| && c.fails[i]
  }

  /** `order[k]` is the first task of `order` that fails, or the first that does not. */
  ghost predicate IsFirst(c: Config, order: seq<nat>, k: nat, failing: bool) {
    && k < |order| && InRange(order, |c.fails|)
    && c.fails[order[k]] == failing
    && forall j :: 0 <= j < k ==> c.fails[order[j]] != failing
  }

  /** wait_first_value and wait_first_outcome end with the outcome of the first push that succeeded. */
  lemma WaitFirstOutcome(c: Config, ls: seq<Label>)
    requires Legal(c, ls) && c.mode.First? && Exec(c, ls).consumer.Finished?
    ensures PushOrder(ls) != [] && PushOrder(ls)[0] < |c.fails|
    ensures var x := PushOrder(ls)[0];
            Exec(c, ls).consumer.verdict == if c.fails[x] then ThrowsOne(x) else ReturnsOne(x)
  {
    InvRun(c, ls);
    HistoryIsPushOrder(c, ls);
  }

  /** wait_first_success returns the first success in push order, or throws all N errors in push order;
      it throws if and only if every task failed. */
  lemma WaitFirstSuccess(c: Config, ls: seq<Label>)
    requires Legal(c, ls) && c.mode.FirstSuccess? && Exec(c, ls).consumer.Finished?
    ensures var v := Exec(c, ls).consumer.verdict;
            if forall i: nat :: i < |c.fails| ==> c.fails[i]
            then v == ThrowsList(PushOrder(ls)) && IsPermutation(PushOrder(ls), c.N())
            else v.ReturnsOne? && exists k: nat :: IsFirst(c, PushOrder(ls), k, false) && PushOrder(ls)[k] == v.task
  {
    var s := Exec(c, ls);
    InvRun(c, ls);
    HistoryIsPushOrder(c, ls);
    NoDupBound(s.pushed, c.N());
    match s.consumer.verdict
    case ReturnsOne(x) =>
      var k := |s.errors|;
      assert s.popped[k] == x && s.popped[..k] == s.errors;
      assert s.pushed[k] == s.popped[k] && forall j :: 0 <= j < k ==> s.pushed[j] == s.errors[j];
      assert IsFirst(c, s.pushed, k, false);
    case ThrowsList(es) =>
      assert |s.popped| == c.N() && s.chan.buf == [] && s.pushed == es;
      forall i: nat | i < c.N() ensures c.fails[i] {
        assert i in es;
        assert c.Fails(i);
      }
    case _ =>
  }

  /** wait_all_until_error returns every task's value in push order when no task failed, and otherwise
      throws the first failure in push order, having popped only successes before it. */
  lemma WaitAllUntilError(c: Config, ls: seq<Label>)
    requires Legal(c, ls) && c.mode.UntilError? && Exec(c, ls).consumer.Finished?
    ensures var v := Exec(c, ls).consumer.verdict;
            if SomeFails(c)
            then v.ThrowsOne? && exists k: nat ::
                   && IsFirst(c, PushOrder(ls), k, true) && PushOrder(ls)[k] == v.task
                   && Exec(c, ls).popped == PushOrder(ls)[..k + 1]
            else v == ReturnsAll(PushOrder(ls)) && IsPermutation(PushOrder(ls), c.N())
  {
    var s := Exec(c, ls);
    InvRun(c, ls);
    HistoryIsPushOrder(c, ls);
    match s.consumer.verdict
    case ThrowsOne(x) =>
      var k := |s.results|;
      assert s.popped[k] == x && s.pushed[..k + 1] == s.popped;
      assert forall j :: 0 <= j < k ==> s.pushed[j] == s.results[j];
      assert IsFirst(c, s.pushed, k, true);
    case ReturnsAll(r) =>
      CountedPushesAllSucceed(c, ls);
      NoDupBound(s.pushed, c.N());
      assert s.pushed == s.popped;
      forall i: nat | i < c.N() ensures !c.fails[i] {
        assert i in s.results;
        assert !c.Fails(i);
      }
    case _ =>
  }

  lemma {:induction false} SplitConserves(c: Config, ids: seq<nat>)
    ensures multiset(Succeeded(c, ids)) + multiset(Failed(c, ids)) == multiset(ids)
  {
    if ids != [] {
      SplitConserves(c, ids[..|ids| - 1]);
      assert ids == ids[..|ids| - 1] + [ids[|ids| - 1]];
    }
  }

  lemma {:induction false} NothingFailed(c: Config, ids: seq<nat>)
    requires Failed(c, ids) == []
    ensures Succeeded(c, ids) == ids
  {
    if ids != [] {
      assert ids == ids[..|ids| - 1] + [ids[|ids| - 1]];
      assert ids[|ids| - 1] in ids;
      assert ids[|ids| - 1] !in Failed(c, ids);
      NothingFailed(c, ids[..|ids| - 1]);
    }
  }

  /** wait_all_collect_errors sorts each of the N tasks once, to exactly one side, and throws the
      failures in push order if there is one. */
  lemma WaitAllCollectErrors(c: Config, ls: seq<Label>)
    requires Legal(c, ls) && c.mode.CollectErrors? && Exec(c, ls).consumer.Finished?
    ensures IsPermutation(PushOrder(ls), c.N())
    ensures var s := Exec(c, ls);
            && s.results == Succeeded(c, PushOrder(ls)) && s.errors == Failed(c, PushOrder(ls))
            && multiset(s.results) + multiset(s.errors) == multiset(PushOrder(ls))
            && |s.results| + |s.errors| == c.N()
            && s.consumer.verdict == if SomeFails(c) then ThrowsList(s.errors) else ReturnsAll(PushOrder(ls))
  {
    var s := Exec(c, ls);
    InvRun(c, ls);
    HistoryIsPushOrder(c, ls);
    CountedPushesAllSucceed(c, ls);
    assert s.popped == s.pushed;
    SplitConserves(c, s.pushed);
    assert |multiset(s.results) + multiset(s.errors)| == |multiset(s.pushed)|;
    NoDupBound(s.pushed, c.N());
    if s.errors == [] {
      NothingFailed(c, s.pushed);
      forall i: nat | i < c.N() ensures !c.fails[i] {
        assert i in s.pushed && i !in s.errors;
      }
    } else {
      assert s.errors[0] in s.errors;
      assert c.Fails(s.errors[0]);
    }
  }

  /** A returned vector holds exactly the tasks' values, each once, in the order of the pushes. */
  lemma ReturnedValues<T>(c: Config, ls: seq<Label>, vals: seq<T>, ids: seq<nat>)
    requires Legal(c, ls) && c.mode.Counted() && |vals| == c.N()
    requires Exec(c, ls).consumer == Finished(ReturnsAll(ids))
    ensures ids == PushOrder(ls) && IsPermutation(ids, |vals|)
    ensures multiset(Gather(vals, ids)) == multiset(vals)
  {
    if c.mode.UntilError? {
      WaitAllUntilError(c, ls);
    } else {
      WaitAllCollectErrors(c, ls);
    }
    PermutationConserves(vals, ids);
  }
}
