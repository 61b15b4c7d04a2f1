/** One start/stop cycle of the HTTP server: the accept fiber, the session fibers it launches and the
    fiber that runs stop() share a session counter, a running flag, a condition variable and the
    acceptor. The accept fiber launches a session first and counts it afterwards. Closing the acceptor
    aborts an accept that is pending; an accept issued on a closed acceptor fails with another error,
    which the fiber throws. */
module ServerShutdown {

  /** How an asynchronous accept ends. */
  datatype Outcome = Accepted | NoDescriptors | Aborted | OtherError

  datatype Accept =
    | Opening                      // has not opened and bound the acceptor yet
    | LoopHead                     // no accept issued
    | Pending                      // an accept is queued
    | Resolved(outcome: Outcome)   // the accept has ended, the fiber has not resumed
    | Launched                     // launched a session fiber, has not counted it yet
    | Exited
    | Threw                        // the exception leaves the fiber and ends the process

  datatype Session = Live | Ended

  datatype Stop =
    | Idle
    | FlagCleared
    | AcceptorClosed
    | Testing     // accept fiber joined, about to test the counter under the lock
    | Asleep
    | Drained     // the wait returned
    | IoStopped

  datatype State = State(
    running: bool, acceptorOpen: bool, number: int,
    accept: Accept, sessions: seq<Session>, stop: Stop)

  datatype Label =
    | Open | OpenFails | Issue | Complete(outcome: Outcome) | Resume | Count
    | End(session: nat)
    | StopFlag | StopClose | StopJoin | StopTest | Spurious | StopIo

  const INIT := State(true, false, 0, Opening, [], Idle)

  predicate Enabled(s: State, l: Label) {
    && s.accept != Threw
    && match l
       case Open => s.accept == Opening
       case OpenFails => s.accept == Opening
       case Issue => s.accept == LoopHead
       case Complete(o) => s.accept == Pending && o != Aborted
       case Resume => s.accept.Resolved?
       case Count => s.accept == Launched
       case End(k) => k < |s.sessions| && s.sessions[k] == Live
       case StopFlag => s.stop == Idle
       case StopClose => s.stop == FlagCleared
       case StopJoin => s.stop == AcceptorClosed && s.accept == Exited
       case StopTest => s.stop == Testing
       case Spurious => s.stop == Asleep
       case StopIo => s.stop == Drained
  }

  function Wake(st: Stop): Stop {
    if st == Asleep then Testing else st
  }

  /** Whether a session that ends when the counter reads `number` notifies stop(). */
  predicate EndNotifies(running: bool, number: int) {
    !running && number - 1 == 0
  }

  /** Where the accept fiber goes once its accept has ended. */
  function AfterAccept(o: Outcome): Accept {
    match o
    case Accepted => Launched
    case NoDescriptors => LoopHead
    case Aborted => Exited
    case OtherError => Threw
  }

  function Apply(s: State, l: Label): State {
    if !Enabled(s, l) then s else
    match l
    case Open => s.(accept := LoopHead, acceptorOpen := true)
    case OpenFails => s.(accept := Threw)
    case Issue => s.(accept := if s.acceptorOpen then Pending else Resolved(OtherError))
    case Complete(o) => s.(accept := Resolved(o))
    case Resume =>
      s.(accept := AfterAccept(s.accept.outcome),
         sessions := if s.accept.outcome == Accepted then s.sessions + [Live] else s.sessions)
    case Count => s.(accept := LoopHead, number := s.number + 1)
    case End(k) =>
      s.(sessions := s.sessions[k := Ended], number := s.number - 1,
         stop := if EndNotifies(s.running, s.number) then Wake(s.stop) else s.stop)
    case StopFlag => s.(stop := FlagCleared, running := false)
    case StopClose =>
      s.(stop := AcceptorClosed, acceptorOpen := false,
         accept := if s.accept == Pending then Resolved(Aborted) else s.accept)
    case StopJoin => s.(stop := Testing)
    case StopTest => s.(stop := if s.number == 0 then Drained else Asleep)
    case Spurious => s.(stop := Testing)
    case StopIo => s.(stop := IoStopped)
  }

  function Exec(ls: seq<Label>): State {
    if ls == [] then INIT else Apply(Exec(ls[..|ls| - 1]), ls[|ls| - 1])
  }

  ghost predicate Legal(ls: seq<Label>) {
    ls != [] ==> Legal(ls[..|ls| - 1]) && Enabled(Exec(ls[..|ls| - 1]), ls[|ls| - 1])
  }

  lemma LegalExtends(ls: seq<Label>, l: Label)
    requires Legal(ls) && Enabled(Exec(ls), l)
    ensures Legal(ls + [l]) && Exec(ls + [l]) == Apply(Exec(ls), l)
  {
  }

  /** A run up to i is a run, and its next label is enabled there. */
  lemma {:induction false} LegalPrefix(ls: seq<Label>, i: nat)
    requires Legal(ls) && i < |ls|
    ensures Legal(ls[..i]) && Enabled(Exec(ls[..i]), ls[i]) && Exec(ls[..i + 1]) == Apply(Exec(ls[..i]), ls[i])
  {
    var before := ls[..|ls| - 1];
    if i < |before| {
      LegalPrefix(before, i);
      assert before[..i] == ls[..i] && before[..i + 1] == ls[..i + 1];
    } else {
      assert ls[..i + 1] == ls && ls[..i] == before;
    }
  }

  // ---------- The invariant ----------

  ghost function LiveIn(ss: seq<Session>): set<nat> {
    set k: nat | k < |ss| && ss[k] == Live
  }

  ghost function LiveSessions(s: State): set<nat> {
    LiveIn(s.sessions)
  }

  predicate PastJoin(st: Stop) {
    st == Testing || st == Asleep || st == Drained || st == IoStopped
  }

  ghost predicate Inv(s: State) {
    && s.number == |LiveSessions(s)| - (if s.accept == Launched then 1 else 0)
    && (s.running <==> s.stop == Idle)
    && (s.accept == Pending ==> s.acceptorOpen)
    && (s.stop == Idle || s.stop == FlagCleared ==> s.accept != Exited && s.accept != Resolved(Aborted))
    && (PastJoin(s.stop) ==> s.accept == Exited)
    && (s.stop == Asleep ==> s.number != 0)
    && (s.stop == Drained || s.stop == IoStopped ==> s.number == 0)
  }

  lemma LiveLaunch(ss: seq<Session>)
    ensures |LiveIn(ss + [Live])| == |LiveIn(ss)| + 1
  {
    var after := ss + [Live];
    assert forall k: nat :: k < |ss| ==> after[k] == ss[k];
    assert |ss| !in LiveIn(ss) && LiveIn(after) == LiveIn(ss) + {|ss|};
  }

  lemma LiveEnd(ss: seq<Session>, k: nat)
    requires k < |ss| && ss[k] == Live
    ensures |LiveIn(ss[k := Ended])| == |LiveIn(ss)| - 1
  {
    var after := ss[k := Ended];
    assert k !in LiveIn(after) && LiveIn(ss) == LiveIn(after) + {k};
  }

  lemma InvStep(s: State, l: Label)
    requires Inv(s) && Enabled(s, l)
    ensures Inv(Apply(s, l))
  {
    match l
    case Resume => LiveLaunch(s.sessions);
    case End(k) => LiveEnd(s.sessions, k);
    case _ =>
  }

  lemma {:induction false} InvRun(ls: seq<Label>)
    requires Legal(ls)
    ensures Inv(Exec(ls))
  {
    if ls == [] {
      assert LiveSessions(INIT) == {};
    } else {
      InvRun(ls[..|ls| - 1]);
      InvStep(Exec(ls[..|ls| - 1]), ls[|ls| - 1]);
    }
  }

  // ---------- Safety ----------

  /** Increments minus decrements of the counter along a run. */
  function Balance(ls: seq<Label>): int {
    if ls == [] then 0
    else
      Balance(ls[..|ls| - 1])
      + match ls[|ls| - 1]
        case Count => 1
        case End(_) => -1
        case _ => 0
  }

  lemma {:induction false} CounterIsBalance(ls: seq<Label>)
    requires Legal(ls)
    ensures Exec(ls).number == Balance(ls)
  {
    if ls != [] {
      CounterIsBalance(ls[..|ls| - 1]);
    }
  }

  ghost predicate AllEnded(s: State) {
    forall k: nat :: k < |s.sessions| ==> s.sessions[k] == Ended
  }

  lemma NoneLive(s: State)
    ensures LiveSessions(s) == {} <==> AllEnded(s)
  {
    if LiveSessions(s) == {} {
      forall k: nat | k < |s.sessions| ensures s.sessions[k] == Ended {
        assert k !in LiveSessions(s);
      }
    }
  }

  /** In every interleaving: the counter is increments minus decrements, is at least -1, and is -1
      exactly while the only uncounted session has already ended with no other alive; after the accept
      fiber is joined it is the number of live sessions; the io context is stopped only when every
      accepted session has ended; and stop() is asleep only while a session lives that will wake it. */
  lemma ShutdownSafety(ls: seq<Label>)
    requires Legal(ls)
    ensures var s := Exec(ls);
            && s.number == Balance(ls) >= -1
            && (s.number == -1 <==> s.accept == Launched && LiveSessions(s) == {})
            && (PastJoin(s.stop) ==> s.number == |LiveSessions(s)|)
            && (s.stop == IoStopped ==> s.accept == Exited && AllEnded(s))
            && (s.stop == Asleep ==> !s.running && LiveSessions(s) != {})
  {
    InvRun(ls);
    CounterIsBalance(ls);
    NoneLive(Exec(ls));
  }

  /** The decrement that ends the last session always wakes a sleeping stop(). */
  lemma LastSessionWakesStop(ls: seq<Label>, k: nat)
    requires Legal(ls) && Enabled(Exec(ls), End(k)) && Exec(ls).stop == Asleep
    ensures Exec(ls + [End(k)]).stop == Testing <==> LiveSessions(Exec(ls)) == {k}
  {
    InvRun(ls);
    var live := LiveSessions(Exec(ls));
    assert (ls + [End(k)])[..|ls|] == ls;
    assert k in live;
    assert |live - {k}| == |live| - 1;
    assert live == {k} <==> live - {k} == {};
  }

  /** Four steps: an accept succeeds and its session fiber is launched, not counted yet. */
  const LAUNCH := [Open, Issue, Complete(Accepted), Resume]

  /** Follow `run` for one more step. */
  lemma Follow(run: seq<Label>, i: nat)
    requires i < |run| && Legal(run[..i]) && Enabled(Exec(run[..i]), run[i])
    ensures Legal(run[..i + 1]) && Exec(run[..i + 1]) == Apply(Exec(run[..i]), run[i])
  {
    LegalExtends(run[..i], run[i]);
    assert run[..i] + [run[i]] == run[..i + 1];
  }

  lemma LaunchRun(run: seq<Label>)
    requires run == LAUNCH
    ensures Legal(run[..0]) && Exec(run[..0]) == INIT
    ensures Legal(run[..1]) && Exec(run[..1]) == State(true, true, 0, LoopHead, [], Idle)
    ensures Legal(run[..3]) && Exec(run[..3]) == State(true, true, 0, Resolved(Accepted), [], Idle)
    ensures Legal(run[..4]) && Exec(run[..4]) == State(true, true, 0, Launched, [Live], Idle)
  {
    Follow(run, 0);
    Follow(run, 1);
    Follow(run, 2);
    Follow(run, 3);
  }

  /** A run in which the counter is -1: a session ends before the accept fiber counts it. */
  lemma CounterCanBeNegative()
    ensures Legal(LAUNCH + [End(0)]) && Exec(LAUNCH + [End(0)]).number == -1
  {
    LaunchRun(LAUNCH);
    assert LAUNCH[..4] == LAUNCH;
    LegalExtends(LAUNCH, End(0));
  }

  // ---------- Progress ----------

  /** Nobody can move; a spurious wakeup does not count. */
  ghost predicate Quiescent(s: State) {
    forall l :: Enabled(s, l) ==> l == Spurious
  }

  lemma QuiescentAccept(s: State)
    requires Quiescent(s)
    ensures s.accept == Exited || s.accept == Threw
  {
    assert !Enabled(s, Open) && !Enabled(s, Issue) && !Enabled(s, Complete(Accepted));
    assert !Enabled(s, Resume) && !Enabled(s, Count);
  }

  lemma QuiescentStop(s: State)
    requires Quiescent(s) && s.accept == Exited
    ensures AllEnded(s) && (s.stop == Asleep || s.stop == IoStopped)
  {
    assert !Enabled(s, StopFlag) && !Enabled(s, StopClose) && !Enabled(s, StopJoin);
    assert !Enabled(s, StopTest) && !Enabled(s, StopIo);
    forall k: nat | k < |s.sessions| ensures s.sessions[k] == Ended {
      assert !Enabled(s, End(k));
    }
  }

  /** A run that cannot go on has ended the process or completed the shutdown: stop() is never stuck
      with nothing left to happen. */
  lemma MaximalRuns(ls: seq<Label>)
    requires Legal(ls) && Quiescent(Exec(ls))
    ensures var s := Exec(ls);
            s.accept == Threw || (s.stop == IoStopped && s.accept == Exited && AllEnded(s))
  {
    var s := Exec(ls);
    QuiescentAccept(s);
    if s.accept == Exited {
      QuiescentStop(s);
      ShutdownSafety(ls);
      NoneLive(s);
    }
  }

  /** After the close the accept fiber can no longer exit: it opens the acceptor again, or it will issue
      an accept on the closed acceptor and throw. */
  predicate CannotJoin(s: State) {
    && s.stop == AcceptorClosed
    && s.accept != Exited && s.accept != Resolved(Aborted)
    && (s.accept == Pending ==> s.acceptorOpen)
  }

  lemma CannotJoinStep(s: State, l: Label)
    requires CannotJoin(s) && Enabled(s, l)
    ensures CannotJoin(Apply(s, l))
  {
  }

  lemma {:induction false} StuckAtJoin(run: seq<Label>, i: nat)
    requires Legal(run) && i <= |run| && CannotJoin(Exec(run[..i]))
    ensures CannotJoin(Exec(run))
  {
    if i == |run| {
      assert run[..i] == run;
    } else {
      var before := run[..|run| - 1];
      assert before[..i] == run[..i];
      StuckAtJoin(before, i);
      CannotJoinStep(Exec(before), run[|run| - 1]);
    }
  }

  /** Once joined, stop() completes as soon as the sessions that still live have ended. */
  lemma {:induction false} FinishWitness(ls: seq<Label>) returns (run: seq<Label>)
    requires Legal(ls) && Exec(ls).stop == Testing
    ensures ls <= run && Legal(run) && Exec(run).stop == IoStopped
    decreases |LiveSessions(Exec(ls))|
  {
    var s := Exec(ls);
    InvRun(ls);
    if s.number == 0 {
      LegalExtends(ls, StopTest);
      run := ls + [StopTest];
      LegalExtends(run, StopIo);
      run := run + [StopIo];
    } else {
      var k :| k in LiveSessions(s);
      LiveEnd(s.sessions, k);
      LegalExtends(ls, End(k));
      run := FinishWitness(ls + [End(k)]);
    }
  }

  ghost predicate CanJoin(ls: seq<Label>) {
    exists run :: ls <= run && Legal(run) && PastJoin(Exec(run).stop)
  }

  ghost predicate CanComplete(ls: seq<Label>) {
    exists run :: ls <= run && Legal(run) && Exec(run).stop == IoStopped
  }

  lemma PendingCompletes(ls: seq<Label>)
    requires Legal(ls) && Enabled(Exec(ls), StopClose) && Exec(ls).accept == Pending
    ensures CanComplete(ls + [StopClose])
  {
    LegalExtends(ls, StopClose);
    var closed := ls + [StopClose];
    LegalExtends(closed, Resume);
    var exited := closed + [Resume];
    LegalExtends(exited, StopJoin);
    var run := FinishWitness(exited + [StopJoin]);
    assert closed <= run;
  }

  /** Whether stop() can complete is decided when it closes the acceptor: it can, and can get past the
      join, if and only if an accept is pending at that moment. */
  lemma StopCompletesIff(ls: seq<Label>)
    requires Legal(ls) && Enabled(Exec(ls), StopClose)
    ensures CanJoin(ls + [StopClose]) <==> Exec(ls).accept == Pending
    ensures CanComplete(ls + [StopClose]) <==> Exec(ls).accept == Pending
  {
    var closed := ls + [StopClose];
    if Exec(ls).accept == Pending {
      PendingCompletes(ls);
      var run :| closed <= run && Legal(run) && Exec(run).stop == IoStopped;
      assert PastJoin(Exec(run).stop);
    } else {
      InvRun(ls);
      LegalExtends(ls, StopClose);
      forall run | closed <= run && Legal(run) ensures !PastJoin(Exec(run).stop) {
        assert run[..|closed|] == closed;
        StuckAtJoin(run, |closed|);
      }
    }
  }

  /** `ls` is about to close the acceptor, and no continuation gets past the join. */
  ghost predicate NeverJoins(ls: seq<Label>) {
    Legal(ls) && Enabled(Exec(ls), StopClose) && !CanJoin(ls + [StopClose])
  }

  lemma Mistimed(ls: seq<Label>, a: Accept)
    requires Legal(ls) && Exec(ls).stop == Idle && Exec(ls).accept == a && a != Pending && a != Threw
    ensures NeverJoins(ls + [StopFlag]) && Exec(ls + [StopFlag]).accept == a
  {
    LegalExtends(ls, StopFlag);
    StopCompletesIff(ls + [StopFlag]);
  }

  /** Runs that fail: the close comes before the open, at the head of the loop, when an accept has
      succeeded and the fiber has not resumed, or before a launched session is counted. */
  lemma CloseCanBeMistimed()
    ensures NeverJoins(LAUNCH[..0] + [StopFlag]) && Exec(LAUNCH[..0] + [StopFlag]).accept == Opening
    ensures NeverJoins(LAUNCH[..1] + [StopFlag]) && Exec(LAUNCH[..1] + [StopFlag]).accept == LoopHead
    ensures NeverJoins(LAUNCH[..3] + [StopFlag]) && Exec(LAUNCH[..3] + [StopFlag]).accept == Resolved(Accepted)
    ensures NeverJoins(LAUNCH[..4] + [StopFlag]) && Exec(LAUNCH[..4] + [StopFlag]).accept == Launched
  {
    LaunchRun(LAUNCH);
    Mistimed(LAUNCH[..0], Opening);
    Mistimed(LAUNCH[..1], LoopHead);
    Mistimed(LAUNCH[..3], Resolved(Accepted));
    Mistimed(LAUNCH[..4], Launched);
  }

  // ---------- The object ----------

  /** The shared fields, one method per critical section of the source. */
  class HttpApiServer {
    var running: bool
    var acceptorOpen: bool
    var sessionNumber: int

    constructor Started()
      ensures running && !acceptorOpen && sessionNumber == 0
    {
      running, acceptorOpen, sessionNumber := true, false, 0;
    }

    method CountSession()
      modifies this`sessionNumber
      ensures sessionNumber == old(sessionNumber) + 1
    {
      sessionNumber := sessionNumber + 1;
    }

    /** The end of a session fiber; `notify` says whether it wakes stop(). */
    method EndSession() returns (notify: bool)
      modifies this`sessionNumber
      ensures sessionNumber == old(sessionNumber) - 1
      ensures notify == EndNotifies(running, old(sessionNumber))
    {
      sessionNumber := sessionNumber - 1;
      notify := !running && sessionNumber == 0;
    }
  }

  ghost function View(server: HttpApiServer, accept: Accept, sessions: seq<Session>, stop: Stop): State
    reads server
  {
    State(server.running, server.acceptorOpen, server.sessionNumber, accept, sessions, stop)
  }

  /** One step of the accept fiber on the object. */
  method AcceptStep(server: HttpApiServer, accept: Accept, sessions: seq<Session>, ghost stop: Stop, l: Label)
    returns (accept': Accept, sessions': seq<Session>)
    requires Enabled(View(server, accept, sessions, stop), l)
    requires l.Open? || l.OpenFails? || l.Issue? || l.Complete? || l.Resume? || l.Count?
    modifies server
    ensures View(server, accept', sessions', stop) == Apply(old(View(server, accept, sessions, stop)), l)
  {
    accept', sessions' := accept, sessions;
    match l
    case Open =>
      server.acceptorOpen := true;
      accept' := LoopHead;
    case OpenFails =>
      accept' := Threw;
    case Issue =>
      if server.acceptorOpen {
        accept' := Pending;
      } else {
        accept' := Resolved(OtherError);
      }
    case Complete(o) =>
      accept' := Resolved(o);
    case Resume =>
      if accept.outcome == NoDescriptors {
        accept' := LoopHead;
      } else if accept.outcome == Aborted {
        accept' := Exited;
      } else if accept.outcome == OtherError {
        accept' := Threw;
      } else {
        sessions' := sessions + [Live];
        accept' := Launched;
      }
    case Count =>
      server.CountSession();
      accept' := LoopHead;
  }

  /** One step of the fiber that runs stop(). */
  method StopStep(server: HttpApiServer, accept: Accept, ghost sessions: seq<Session>, stop: Stop, l: Label)
    returns (accept': Accept, stop': Stop)
    requires Enabled(View(server, accept, sessions, stop), l)
    requires l.StopFlag? || l.StopClose? || l.StopJoin? || l.StopTest? || l.Spurious? || l.StopIo?
    modifies server
    ensures View(server, accept', sessions, stop') == Apply(old(View(server, accept, sessions, stop)), l)
  {
    accept', stop' := accept, Testing;
    match l
    case StopFlag =>
      server.running := false;
      stop' := FlagCleared;
    case StopClose =>
      server.acceptorOpen := false;
      if accept == Pending {
        accept' := Resolved(Aborted);
      }
      stop' := AcceptorClosed;
    case StopTest =>
      stop' := if server.sessionNumber == 0 then Drained else Asleep;
    case StopIo =>
      stop' := IoStopped;
    case _ =>
  }

  /** Running any schedule on the object, each fiber in its own critical sections, leads where the
      transition system says. */
  method Replay(ls: seq<Label>)
    returns (server: HttpApiServer, accept: Accept, sessions: seq<Session>, stop: Stop)
    requires Legal(ls)
    ensures View(server, accept, sessions, stop) == Exec(ls)
  {
    server := new HttpApiServer.Started();
    accept, sessions, stop := Opening, [], Idle;
    for i := 0 to |ls|
      invariant fresh(server)
      invariant View(server, accept, sessions, stop) == Exec(ls[..i])
    {
      LegalPrefix(ls, i);
      match ls[i]
      case End(k) =>
        sessions := sessions[k := Ended];
        var notify := server.EndSession();
        if notify && stop == Asleep {
          stop := Testing;
        }
      case StopFlag => accept, stop := StopStep(server, accept, sessions, stop, ls[i]);
      case StopClose => accept, stop := StopStep(server, accept, sessions, stop, ls[i]);
      case StopJoin => accept, stop := StopStep(server, accept, sessions, stop, ls[i]);
      case StopTest => accept, stop := StopStep(server, accept, sessions, stop, ls[i]);
      case Spurious => accept, stop := StopStep(server, accept, sessions, stop, ls[i]);
      case StopIo => accept, stop := StopStep(server, accept, sessions, stop, ls[i]);
      case _ => accept, sessions := AcceptStep(server, accept, sessions, stop, ls[i]);
    }
    assert ls[..|ls|] == ls;
  }
}
