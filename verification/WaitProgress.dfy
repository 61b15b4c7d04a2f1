/** Where the runs of the wait functions can stop: every run goes on to a maximal one, and which
    maximal runs leave the caller or a producer waiting is decided by the arguments of the call. */
module WaitProgress {
  import opened SeqFacts
  import opened FiberChannel
  import opened WaitProtocol
  import opened WaitInvariant
  import opened WaitTheorems

  ghost predicate Maximal(c: Config, ls: seq<Label>) {
    Legal(c, ls) && Quiescent(c, Exec(c, ls))
  }

  lemma LegalExtends(c: Config, ls: seq<Label>, l: Label)
    requires Legal(c, ls) && Enabled(c, Exec(c, ls), l)
    ensures Legal(c, ls + [l]) && Exec(c, ls + [l]) == Apply(c, Exec(c, ls), l)
  {
    assert (ls + [l])[..|ls + [l]| - 1] == ls;
  }

  /** A step that somebody can take, within the bound on the length of a run. */
  lemma NextStep(c: Config, ls: seq<Label>) returns (l: Label)
    requires Legal(c, ls) && !Maximal(c, ls)
    ensures Legal(c, ls + [l]) && |ls| < 6 * c.N() + 2
  {
    l :| Enabled(c, Exec(c, ls), l);
    LegalExtends(c, ls, l);
    EveryRunEnds(c, ls + [l]);
  }

  lemma {:induction false} GoOn(c: Config, ls: seq<Label>) returns (run: seq<Label>)
    requires Legal(c, ls)
    ensures ls <= run && Maximal(c, run)
    decreases 6 * c.N() + 2 - |ls|
  {
    run := ls;
    if !Maximal(c, ls) {
      var l := NextStep(c, ls);
      run := GoOn(c, ls + [l]);
    }
  }

  /** No run is a dead end on the way: each goes on to one in which nobody can move. */
  lemma EveryRunGoesOn(c: Config, ls: seq<Label>)
    requires Legal(c, ls)
    ensures exists run :: ls <= run && Maximal(c, run)
  {
    var run := GoOn(c, ls);
  }

  /** A call can be left waiting for ever only by wait_first_value_c and wait_first_outcome_c on no
      functions, and then it is. */
  lemma CallerWaitsIff(c: Config)
    requires c.Valid()
    ensures (exists ls :: Maximal(c, ls) && !Exec(c, ls).consumer.Finished?) <==> c.mode.First? && c.N() == 0
  {
    forall ls | Maximal(c, ls) ensures Exec(c, ls).consumer.Finished? <==> !(c.mode.First? && c.N() == 0) {
      MaximalRuns(c, ls);
    }
    var run := GoOn(c, []);
  }

  // ---------- Producers that wait for ever ----------

  ghost function Successes(c: Config): set<nat> {
    set i: nat | i < |c.fails| && !c.fails[i]
  }

  ghost function Failures(c: Config): set<nat> {
    set i: nat | i < |c.fails| && c.fails[i]
  }

  lemma SuccessesAndFailures(c: Config)
    ensures |Successes(c)| + |Failures(c)| == c.N()
    ensures SomeFails(c) <==> Failures(c) != {}
  {
    BelowSize(Successes(c) + Failures(c), c.N());
    if SomeFails(c) {
      var i: nat :| i < |c.fails| && c.fails[i];
      assert i in Failures(c);
    }
  }

  /** How many of the N tasks are left when p are popped and the rest has filled the channel. */
  function Excess(c: Config, p: nat): nat {
    if c.N() > p + c.cap then c.N() - p - c.cap else 0
  }

  /** The tasks that succeed and are popped before the first failure, plus the failure itself. */
  lemma PoppedBound(c: Config, ls: seq<Label>)
    requires c.Valid() && c.mode.UntilError? && SomeFails(c) && Maximal(c, ls)
    ensures var s := Exec(c, ls);
            && 1 <= |s.popped| <= |Successes(c)| + 1
            && |Waiting(s)| == Excess(c, |s.popped|)
  {
    var s := Exec(c, ls);
    InvRun(c, ls);
    MaximalRuns(c, ls);
    WaitAllUntilError(c, ls);
    assert forall k :: 0 <= k < |s.results| ==> s.results[k] == s.pushed[k];
    NoDupSize(s.results);
    SubsetSize(Elements(s.results), Successes(c));
  }

  /** `m` elements of a set, in some order. */
  lemma {:induction false} PickFrom(a: set<nat>, m: nat) returns (ids: seq<nat>)
    requires m <= |a|
    ensures |ids| == m && NoDup(ids) && forall x :: x in ids ==> x in a
    decreases m
  {
    if m == 0 {
      ids := [];
    } else {
      var x :| x in a;
      var rest := PickFrom(a - {x}, m - 1);
      ids := rest + [x];
    }
  }

  // ---------- Every order of outcomes ----------

  /** Whether the caller goes on popping after the outcome of task x. */
  predicate KeepsPopping(c: Config, x: nat) {
    match c.mode
    case First => false
    case FirstSuccess => c.Fails(x)
    case UntilError => !c.Fails(x)
    case CollectErrors => true
  }

  /** Where a producer stands right after its push. */
  function Pushed(c: Config): Producer {
    if c.mode.Counted() then Counting else Ended(true)
  }

  /** All tasks are launched; those in `ids` have been pushed and popped, and the others have not
      completed. */
  ghost predicate PoppedSoFar(c: Config, s: State, ids: seq<nat>) {
    && s.consumer == Popping && s.pushed == ids && s.popped == ids && s.chan == Channel([], false)
    && |s.producers| == c.N()
    && forall i: nat :: i < c.N() ==>
         s.producers[i] == if i in ids then Pushed(c) else Running
  }

  lemma {:induction false} LaunchRun(c: Config, k: nat) returns (ls: seq<Label>)
    requires k < c.N()
    ensures Legal(c, ls)
    ensures Exec(c, ls) == Init(c).(producers := seq(c.N(), i => if i < k then Running else Unlaunched),
                                    consumer := Launching(k))
  {
    if k == 0 {
      ls := [];
      assert Init(c).producers == seq(c.N(), i => if i < k then Running else Unlaunched);
    } else {
      var before := LaunchRun(c, k - 1);
      ls := before + [Launch];
      LegalExtends(c, before, Launch);
      assert Exec(c, ls).producers == seq(c.N(), i => if i < k then Running else Unlaunched);
    }
  }

  lemma AllLaunched(c: Config) returns (ls: seq<Label>)
    requires 0 < c.N()
    ensures Legal(c, ls) && PoppedSoFar(c, Exec(c, ls), [])
  {
    var before := LaunchRun(c, c.N() - 1);
    ls := before + [Launch];
    LegalExtends(c, before, Launch);
  }

  lemma PushOne(c: Config, before: seq<Label>, x: nat) returns (ls: seq<Label>)
    requires c.Valid() && Legal(c, before) && x < |Exec(c, before).producers|
    requires Exec(c, before).producers[x] == Running && Exec(c, before).chan == Channel([], false)
    ensures Legal(c, ls)
    ensures var s := Exec(c, before);
            Exec(c, ls) == s.(producers := s.producers[x := Pushed(c)], chan := Channel([x], false),
                              pushed := s.pushed + [x])
  {
    LegalExtends(c, before, Complete(x));
    var completed := before + [Complete(x)];
    LegalExtends(c, completed, Push(x));
    ls := completed + [Push(x)];
    assert Exec(c, ls).producers == Exec(c, before).producers[x := Pushed(c)];
  }

  /** One more task completes, pushes and is popped. */
  lemma PopOne(c: Config, before: seq<Label>, ids: seq<nat>, x: nat) returns (ls: seq<Label>)
    requires c.Valid() && Legal(c, before) && PoppedSoFar(c, Exec(c, before), ids)
    requires x < c.N() && x !in ids
    ensures Legal(c, ls) && Exec(c, ls).popped == ids + [x] && Exec(c, ls).pushed == ids + [x]
    ensures KeepsPopping(c, x) && |ids| + 1 < c.N() ==> PoppedSoFar(c, Exec(c, ls), ids + [x])
    ensures c.mode.UntilError? && c.Fails(x) ==> Exec(c, ls).consumer == Finished(ThrowsOne(x))
  {
    var pushed := PushOne(c, before, x);
    LegalExtends(c, pushed, Pop);
    ls := pushed + [Pop];
  }

  lemma {:induction false} PopAll(c: Config, ids: seq<nat>) returns (ls: seq<Label>)
    requires c.Valid() && |ids| < c.N() && NoDup(ids) && InRange(ids, c.N())
    requires forall k :: 0 <= k < |ids| ==> KeepsPopping(c, ids[k])
    ensures Legal(c, ls) && PoppedSoFar(c, Exec(c, ls), ids)
  {
    if ids == [] {
      ls := AllLaunched(c);
    } else {
      var before := PopAll(c, ids[..|ids| - 1]);
      var x := ids[|ids| - 1];
      ls := PopOne(c, before, ids[..|ids| - 1], x);
      assert ids == ids[..|ids| - 1] + [x];
    }
  }

  lemma RunInOrder(c: Config, ids: seq<nat>) returns (ls: seq<Label>)
    requires c.Valid() && NoDup(ids) && InRange(ids, c.N())
    requires forall k :: 0 <= k < |ids| - 1 ==> KeepsPopping(c, ids[k])
    ensures Legal(c, ls) && Exec(c, ls).pushed == ids && Exec(c, ls).popped == ids
  {
    ls := [];
    if ids != [] {
      var init, x := ids[..|ids| - 1], ids[|ids| - 1];
      assert ids == init + [x] && x !in init;
      NoDupBound(ids, c.N());
      var before := PopAll(c, init);
      ls := PopOne(c, before, init, x);
    }
  }

  ghost predicate PossibleOrder(c: Config, ids: seq<nat>) {
    && NoDup(ids) && InRange(ids, c.N())
    && forall k :: 0 <= k < |ids| - 1 ==> KeepsPopping(c, ids[k])
  }

  lemma PoppedIsPossible(c: Config, s: State)
    requires Inv(c, s)
    ensures PossibleOrder(c, s.popped)
  {
    assert forall k :: 0 <= k < |s.popped| ==> s.popped[k] == s.pushed[k];
  }

  /** The race is open and the join takes outcomes as they come: the outcomes the caller pops can be those
      of any tasks in any order, if and only if it goes on popping after all but the last. */
  lemma PossibleOrders(c: Config, ids: seq<nat>)
    requires c.Valid()
    ensures (exists ls :: Legal(c, ls) && Exec(c, ls).popped == ids) <==> PossibleOrder(c, ids)
  {
    if PossibleOrder(c, ids) {
      var ls := RunInOrder(c, ids);
    }
    forall ls | Legal(c, ls) && Exec(c, ls).popped == ids ensures PossibleOrder(c, ids) {
      InvRun(c, ls);
      PoppedIsPossible(c, Exec(c, ls));
    }
  }

  lemma {:induction false} PoppedIsFinal(c: Config, ls: seq<Label>, more: seq<Label>)
    requires Exec(c, ls).consumer.Finished?
    ensures Exec(c, ls + more).popped == Exec(c, ls).popped
  {
    if more == [] {
      assert ls + more == ls;
    } else {
      PoppedIsFinal(c, ls, more[..|more| - 1]);
      VerdictIsFinal(c, ls, more[..|more| - 1]);
      assert (ls + more)[..|ls + more| - 1] == ls + more[..|more| - 1];
    }
  }

  /** A maximal run that pops p outcomes, the last of them a failure. */
  lemma RunThatPops(c: Config, p: nat) returns (ls: seq<Label>)
    requires c.Valid() && c.mode.UntilError? && SomeFails(c) && 1 <= p <= |Successes(c)| + 1
    ensures Maximal(c, ls) && |Exec(c, ls).popped| == p && c.Fails(Exec(c, ls).popped[p - 1])
  {
    var x: nat :| x < |c.fails| && c.fails[x];
    assert c.Fails(x);
    var ids := PickFrom(Successes(c), p - 1);
    SuccessesAndFailures(c);
    forall k | 0 <= k < |ids| ensures ids[k] in Successes(c) {
      assert ids[k] in ids;
    }
    var before := PopAll(c, ids);
    before := PopOne(c, before, ids, x);
    ls := GoOn(c, before);
    PoppedIsFinal(c, before, ls[|before|..]);
    assert ls == before + ls[|before|..];
  }

  ghost predicate CanStrand(c: Config, count: nat) {
    exists ls :: Maximal(c, ls) && |Waiting(Exec(c, ls))| == count
  }

  /** How many producers a wait_all_until_error that throws can leave waiting for ever: exactly the
      counts that arise when one failure and any number of the successes are popped before it. */
  lemma StrandedCounts(c: Config, count: nat)
    requires c.Valid() && c.mode.UntilError? && SomeFails(c)
    ensures CanStrand(c, count)
            <==> exists p: nat :: 1 <= p <= |Successes(c)| + 1 && count == Excess(c, p)
  {
    if ls :| Maximal(c, ls) && |Waiting(Exec(c, ls))| == count {
      PoppedBound(c, ls);
    }
    if p: nat :| 1 <= p <= |Successes(c)| + 1 && count == Excess(c, p) {
      var ls := RunThatPops(c, p);
      PoppedBound(c, ls);
    }
  }

  /** Some schedule leaves a producer waiting for ever if and only if the call is wait_all_until_error,
      some task fails, and there are more tasks than the popped failure and a full channel account for. */
  lemma StrandsIff(c: Config)
    requires c.Valid()
    ensures (exists ls :: Maximal(c, ls) && Waiting(Exec(c, ls)) != {})
            <==> c.mode.UntilError? && SomeFails(c) && c.N() > c.cap + 1
  {
    if ls :| Maximal(c, ls) && Waiting(Exec(c, ls)) != {} {
      MaximalRuns(c, ls);
      WaitAllUntilError(c, ls);
      PoppedBound(c, ls);
    }
    if c.mode.UntilError? && SomeFails(c) && c.N() > c.cap + 1 {
      var ls := RunThatPops(c, 1);
      PoppedBound(c, ls);
    }
  }

  /** Every schedule leaves a producer waiting for ever if and only if there are more failing tasks than
      the popped failure and a full channel account for. */
  lemma AlwaysStrandsIff(c: Config)
    requires c.Valid() && c.mode.UntilError? && SomeFails(c)
    ensures (forall ls :: Maximal(c, ls) ==> Waiting(Exec(c, ls)) != {}) <==> |Failures(c)| > c.cap + 1
  {
    SuccessesAndFailures(c);
    var latest := RunThatPops(c, |Successes(c)| + 1);
    PoppedBound(c, latest);
    forall ls | Maximal(c, ls) ensures |Failures(c)| > c.cap + 1 ==> Waiting(Exec(c, ls)) != {} {
      PoppedBound(c, ls);
    }
  }
}
