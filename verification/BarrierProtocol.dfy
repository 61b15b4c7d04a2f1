/** wait_all_simple: N functions and the caller meet at a barrier made for N + 1 parties. Party N is
    the caller, whose "function" is launching the others. */
module BarrierProtocol {
  import opened SeqFacts

  datatype Party =
    | Unlaunched
    | Running
    | Arriving               // its function is done, it has not entered the barrier
    | Sleeping(since: nat)   // inside the barrier, waiting for the cycle to change
    | Passed

  /** `current` counts the arrivals still missing; `cycle` changes when the last party arrives. */
  datatype State = State(parties: seq<Party>, launched: nat, current: nat, cycle: nat)

  datatype Label = Launch | Complete(party: nat) | Arrive(party: nat) | Resume(party: nat)

  function Init(n: nat): State {
    State(seq(n + 1, i => if i < n then Unlaunched else Running), 0, n + 1, 0)
  }

  predicate Enabled(n: nat, s: State, l: Label) {
    match l
    case Launch => s.launched < n && s.launched < |s.parties|
    case Complete(i) => i < |s.parties| && s.parties[i] == Running && (i == n ==> s.launched == n)
    case Arrive(i) => i < |s.parties| && s.parties[i] == Arriving
    case Resume(i) => i < |s.parties| && s.parties[i].Sleeping? && s.parties[i].since != s.cycle
  }

  function Apply(n: nat, s: State, l: Label): State {
    if !Enabled(n, s, l) then s else
    match l
    case Launch => s.(parties := s.parties[s.launched := Running], launched := s.launched + 1)
    case Complete(i) => s.(parties := s.parties[i := Arriving])
    case Arrive(i) =>
      if s.current == 1
      then s.(parties := s.parties[i := Passed], current := n + 1, cycle := s.cycle + 1)
      else s.(parties := s.parties[i := Sleeping(s.cycle)], current := if s.current == 0 then 0 else s.current - 1)
    case Resume(i) => s.(parties := s.parties[i := Passed])
  }

  function Exec(n: nat, ls: seq<Label>): State {
    if ls == [] then Init(n) else Apply(n, Exec(n, ls[..|ls| - 1]), ls[|ls| - 1])
  }

  ghost predicate Legal(n: nat, ls: seq<Label>) {
    ls != [] ==> Legal(n, ls[..|ls| - 1]) && Enabled(n, Exec(n, ls[..|ls| - 1]), ls[|ls| - 1])
  }

  ghost predicate Quiescent(n: nat, s: State) {
    forall l :: !Enabled(n, s, l)
  }

  predicate InBarrier(p: Party) {
    p.Sleeping? || p.Passed?
  }

  ghost function Arrived(s: State): set<nat> {
    set i: nat | i < |s.parties| && InBarrier(s.parties[i])
  }

  ghost predicate Inv(n: nat, s: State) {
    && |s.parties| == n + 1
    && s.launched <= n
    && (forall i: nat :: i <= n ==> (s.parties[i].Unlaunched? <==> s.launched <= i < n))
    && (forall i: nat :: i <= n && s.parties[i].Sleeping? ==> s.parties[i].since == 0)
    && s.cycle <= 1
    && (s.cycle == 0 ==> s.current + |Arrived(s)| == n + 1 && 1 <= s.current)
    && (s.cycle == 0 ==> forall i: nat :: i <= n ==> !s.parties[i].Passed?)
    && (s.cycle == 1 ==> forall i: nat :: i <= n ==> InBarrier(s.parties[i]))
  }

  lemma ArrivedUpdate(s: State, s': State, i: nat, p: Party)
    requires i < |s.parties| && s'.parties == s.parties[i := p] && !InBarrier(s.parties[i])
    ensures |Arrived(s')| == |Arrived(s)| + if InBarrier(p) then 1 else 0
  {
    if InBarrier(p) {
      assert Arrived(s') == Arrived(s) + {i};
    } else {
      assert Arrived(s') == Arrived(s);
    }
  }

  /** The last arrival finds everybody else inside. */
  lemma LastArrival(n: nat, s: State, i: nat)
    requires Inv(n, s) && Enabled(n, s, Arrive(i)) && s.current == 1
    ensures forall j: nat :: j <= n && j != i ==> s.parties[j].Sleeping?
  {
    BelowSize(Arrived(s) + {i}, n + 1);
    forall j: nat | j <= n && j != i ensures s.parties[j].Sleeping? {
      assert j in Arrived(s) + {i};
    }
  }

  lemma InvStep(n: nat, s: State, l: Label)
    requires Inv(n, s) && Enabled(n, s, l)
    ensures Inv(n, Apply(n, s, l))
  {
    var s' := Apply(n, s, l);
    match l
    case Launch => ArrivedUpdate(s, s', s.launched, Running);
    case Complete(i) => ArrivedUpdate(s, s', i, Arriving);
    case Arrive(i) =>
      if s.current == 1 {
        LastArrival(n, s, i);
      } else {
        ArrivedUpdate(s, s', i, Sleeping(s.cycle));
      }
    case Resume(i) =>
  }

  lemma {:induction false} InvRun(n: nat, ls: seq<Label>)
    requires Legal(n, ls)
    ensures Inv(n, Exec(n, ls))
  {
    if ls == [] {
      assert Arrived(Init(n)) == {};
    } else {
      InvRun(n, ls[..|ls| - 1]);
      InvStep(n, Exec(n, ls[..|ls| - 1]), ls[|ls| - 1]);
    }
  }

  predicate IsDone(p: Party) {
    !p.Unlaunched? && !p.Running?
  }

  lemma PartyStep(n: nat, s: State, l: Label, i: nat)
    requires Inv(n, s) && Enabled(n, s, l) && i <= n
    ensures |Apply(n, s, l).parties| == n + 1
    ensures IsDone(Apply(n, s, l).parties[i]) <==> IsDone(s.parties[i]) || l == Complete(i)
    ensures InBarrier(Apply(n, s, l).parties[i]) <==> InBarrier(s.parties[i]) || l == Arrive(i)
  {
  }

  lemma {:induction false} ArrivedMeansCompleted(n: nat, ls: seq<Label>, i: nat)
    requires Legal(n, ls) && i <= n && |Exec(n, ls).parties| == n + 1
    ensures IsDone(Exec(n, ls).parties[i]) <==> Complete(i) in ls
    ensures InBarrier(Exec(n, ls).parties[i]) <==> Arrive(i) in ls
  {
    if ls != [] {
      InvRun(n, ls[..|ls| - 1]);
      PartyStep(n, Exec(n, ls[..|ls| - 1]), ls[|ls| - 1], i);
      ArrivedMeansCompleted(n, ls[..|ls| - 1], i);
      assert ls == ls[..|ls| - 1] + [ls[|ls| - 1]];
    }
  }

  /** Nobody, the caller included, is past the barrier before all N + 1 parties have arrived, so when the
      caller resumes all N functions have completed. */
  lemma BarrierJoins(n: nat, ls: seq<Label>, party: nat)
    requires Legal(n, ls) && party < |Exec(n, ls).parties| && Exec(n, ls).parties[party] == Passed
    ensures forall i: nat :: i <= n ==> Complete(i) in ls && Arrive(i) in ls
  {
    InvRun(n, ls);
    forall i: nat | i <= n ensures Complete(i) in ls && Arrive(i) in ls {
      ArrivedMeansCompleted(n, ls, i);
    }
  }

  /** Every maximal run releases the caller and all N fibers. */
  lemma MaximalRuns(n: nat, ls: seq<Label>)
    requires Legal(n, ls) && Quiescent(n, Exec(n, ls))
    ensures |Exec(n, ls).parties| == n + 1
    ensures forall i: nat :: i <= n ==> Exec(n, ls).parties[i] == Passed
  {
    var s := Exec(n, ls);
    InvRun(n, ls);
    assert !Enabled(n, s, Launch);
    forall i: nat | i <= n ensures InBarrier(s.parties[i]) {
      assert !Enabled(n, s, Complete(i)) && !Enabled(n, s, Arrive(i));
    }
    BelowSize(Arrived(s), n + 1);
    forall i: nat | i <= n ensures s.parties[i] == Passed {
      assert !Enabled(n, s, Resume(i));
    }
  }

  function Rank(p: Party): nat {
    match p
    case Unlaunched => 4
    case Running => 3
    case Arriving => 2
    case Sleeping(_) => 1
    case Passed => 0
  }

  function Measure(s: State): nat {
    Total(s.parties, Rank)
  }

  lemma MeasureDrops(n: nat, s: State, l: Label)
    requires Inv(n, s) && Enabled(n, s, l)
    ensures Measure(Apply(n, s, l)) < Measure(s)
  {
    match l
    case Launch => TotalUpdate(s.parties, Rank, s.launched, Running);
    case Complete(i) => TotalUpdate(s.parties, Rank, i, Arriving);
    case Arrive(i) => TotalUpdate(s.parties, Rank, i, Apply(n, s, l).parties[i]);
    case Resume(i) => TotalUpdate(s.parties, Rank, i, Passed);
  }

  /** No run is longer than 4(N + 1) steps. */
  lemma {:induction false} EveryRunEnds(n: nat, ls: seq<Label>)
    requires Legal(n, ls)
    ensures |ls| + Measure(Exec(n, ls)) <= 4 * (n + 1)
  {
    if ls == [] {
      var ps := Init(n).parties;
      TotalUniform(ps[..n], Rank, 4);
    } else {
      var before := ls[..|ls| - 1];
      EveryRunEnds(n, before);
      InvRun(n, before);
      MeasureDrops(n, Exec(n, before), ls[|ls| - 1]);
    }
  }

  ghost predicate Maximal(n: nat, ls: seq<Label>) {
    Legal(n, ls) && Quiescent(n, Exec(n, ls))
  }

  lemma NextStep(n: nat, ls: seq<Label>) returns (l: Label)
    requires Legal(n, ls) && !Maximal(n, ls)
    ensures Legal(n, ls + [l]) && Measure(Exec(n, ls + [l])) < Measure(Exec(n, ls))
  {
    l :| Enabled(n, Exec(n, ls), l);
    InvRun(n, ls);
    MeasureDrops(n, Exec(n, ls), l);
    assert (ls + [l])[..|ls + [l]| - 1] == ls;
  }

  lemma {:induction false} GoOn(n: nat, ls: seq<Label>) returns (run: seq<Label>)
    requires Legal(n, ls)
    ensures ls <= run && Maximal(n, run)
    decreases Measure(Exec(n, ls))
  {
    run := ls;
    if !Maximal(n, ls) {
      var l := NextStep(n, ls);
      run := GoOn(n, ls + [l]);
    }
  }

  /** Every run goes on to one in which the caller and all N fibers are past the barrier. */
  lemma EveryRunGoesOn(n: nat, ls: seq<Label>)
    requires Legal(n, ls)
    ensures exists run :: ls <= run && Maximal(n, run) && Exec(n, run).parties == seq(n + 1, i => Passed)
  {
    var run := GoOn(n, ls);
    MaximalRuns(n, run);
    assert Exec(n, run).parties == seq(n + 1, i => Passed);
  }

  // ---------- Nobody waits for a party it does not need ----------

  /** Party n, the caller, also launches. */
  predicate IsStepOf(n: nat, l: Label, i: nat) {
    l == Complete(i) || l == Arrive(i) || l == Resume(i) || (l == Launch && i == n)
  }

  /** `run` continues `ls` with steps of party i alone. */
  ghost predicate Alone(n: nat, i: nat, ls: seq<Label>, run: seq<Label>) {
    Legal(n, run) && ls <= run && forall k :: |ls| <= k < |run| ==> IsStepOf(n, run[k], i)
  }

  lemma AloneStep(n: nat, i: nat, ls: seq<Label>, run: seq<Label>, l: Label) returns (longer: seq<Label>)
    requires Alone(n, i, ls, run) && Enabled(n, Exec(n, run), l) && IsStepOf(n, l, i)
    ensures Alone(n, i, ls, longer) && Exec(n, longer) == Apply(n, Exec(n, run), l)
    ensures Measure(Exec(n, longer)) < Measure(Exec(n, run))
  {
    longer := run + [l];
    assert longer[..|longer| - 1] == run;
    InvRun(n, run);
    MeasureDrops(n, Exec(n, run), l);
  }

  lemma ArrivingMoves(n: nat, s: State, i: nat) returns (l: Label)
    requires Inv(n, s) && i <= n && !s.parties[i].Unlaunched? && !InBarrier(s.parties[i])
    ensures Enabled(n, s, l) && IsStepOf(n, l, i)
    ensures |Apply(n, s, l).parties| == n + 1 && !Apply(n, s, l).parties[i].Unlaunched?
  {
    l := if s.parties[i] == Arriving then Arrive(i)
         else if i == n && s.launched < n then Launch
         else Complete(i);
  }

  lemma {:induction false} Arrives(n: nat, i: nat, ls: seq<Label>, before: seq<Label>) returns (run: seq<Label>)
    requires Alone(n, i, ls, before) && i < |Exec(n, before).parties| && !Exec(n, before).parties[i].Unlaunched?
    ensures Alone(n, i, ls, run) && i < |Exec(n, run).parties| && InBarrier(Exec(n, run).parties[i])
    decreases Measure(Exec(n, before))
  {
    run := before;
    InvRun(n, before);
    if !InBarrier(Exec(n, before).parties[i]) {
      var l := ArrivingMoves(n, Exec(n, before), i);
      run := AloneStep(n, i, ls, before, l);
      run := Arrives(n, i, ls, run);
    }
  }

  /** A launched party comes to the barrier with its own steps alone; the caller also launches all the
      others alone. */
  lemma ArrivesAlone(n: nat, ls: seq<Label>, i: nat)
    requires Legal(n, ls) && i < |Exec(n, ls).parties| && !Exec(n, ls).parties[i].Unlaunched?
    ensures exists run :: Alone(n, i, ls, run) && Arrive(i) in run
  {
    var run := Arrives(n, i, ls, ls);
    InvRun(n, run);
    ArrivedMeansCompleted(n, run, i);
  }

  /** Steps of party i alone do not let another party arrive. */
  lemma OthersStay(n: nat, i: nat, j: nat, ls: seq<Label>, run: seq<Label>)
    requires Alone(n, i, ls, run) && i != j && Arrive(j) in run
    ensures Arrive(j) in ls
  {
    var k :| 0 <= k < |run| && run[k] == Arrive(j);
    assert k < |ls|;
    assert ls[k] == run[k];
  }

  ghost predicate PassesAlone(n: nat, ls: seq<Label>, i: nat) {
    exists run :: Alone(n, i, ls, run) && i < |Exec(n, run).parties| && Exec(n, run).parties[i] == Passed
  }

  ghost predicate OthersArrived(n: nat, ls: seq<Label>, i: nat) {
    forall j: nat :: j <= n && j != i ==> Arrive(j) in ls
  }

  lemma NobodyUnlaunched(n: nat, ls: seq<Label>, i: nat)
    requires Legal(n, ls) && i <= n && OthersArrived(n, ls, i) && |Exec(n, ls).parties| == n + 1
    ensures !Exec(n, ls).parties[i].Unlaunched?
  {
    InvRun(n, ls);
    if i < n {
      ArrivedMeansCompleted(n, ls, n);
      CallerLaunchedAll(n, ls);
    }
  }

  lemma {:induction false} CallerLaunchedAll(n: nat, ls: seq<Label>)
    requires Legal(n, ls)
    ensures |Exec(n, ls).parties| == n + 1 && (IsDone(Exec(n, ls).parties[n]) ==> Exec(n, ls).launched == n)
  {
    InvRun(n, ls);
    if ls != [] {
      CallerLaunchedAll(n, ls[..|ls| - 1]);
    }
  }

  /** Once everybody is inside, the cycle has changed. */
  lemma AllInside(n: nat, s: State)
    requires Inv(n, s) && forall j: nat :: j <= n ==> InBarrier(s.parties[j])
    ensures s.cycle == 1
  {
    BelowSize(Arrived(s), n + 1);
  }

  /** A party gets past the barrier with its own steps alone if and only if all the others have arrived. */
  lemma PassesAloneIff(n: nat, ls: seq<Label>, i: nat)
    requires Legal(n, ls) && i <= n
    ensures PassesAlone(n, ls, i) <==> OthersArrived(n, ls, i)
  {
    InvRun(n, ls);
    if OthersArrived(n, ls, i) {
      NobodyUnlaunched(n, ls, i);
      var run := Arrives(n, i, ls, ls);
      run := PassOn(n, ls, run, i);
    }
    if PassesAlone(n, ls, i) {
      var run :| Alone(n, i, ls, run) && i < |Exec(n, run).parties| && Exec(n, run).parties[i] == Passed;
      BarrierJoins(n, run, i);
      forall j: nat | j <= n && j != i ensures Arrive(j) in ls {
        OthersStay(n, i, j, ls, run);
      }
    }
  }

  lemma PassOn(n: nat, ls: seq<Label>, before: seq<Label>, i: nat) returns (run: seq<Label>)
    requires Alone(n, i, ls, before) && OthersArrived(n, ls, i)
    requires i < |Exec(n, before).parties| && InBarrier(Exec(n, before).parties[i])
    ensures Alone(n, i, ls, run) && i < |Exec(n, run).parties| && Exec(n, run).parties[i] == Passed
  {
    run := before;
    InvRun(n, before);
    if Exec(n, before).parties[i] != Passed {
      forall j: nat | j <= n ensures InBarrier(Exec(n, before).parties[j]) {
        assert j != i ==> Arrive(j) in ls && Arrive(j) in before;
        ArrivedMeansCompleted(n, before, j);
      }
      AllInside(n, Exec(n, before));
      run := AloneStep(n, i, ls, before, Resume(i));
    }
  }
}
