/** What the accept loop promises over every run: why the process ends, when one more session can be
    accepted, and that sessions and stop() need not wait for each other before the join. */
module ServerAccept {
  import opened SeqFacts
  import opened ServerShutdown

  // ---------- Why the process ends ----------

  /** Whether the acceptor is open, read off the run: the last open is not followed by a close. */
  function OpenAfter(ls: seq<Label>): bool {
    if ls == [] then false
    else
      match ls[|ls| - 1]
      case Open => true
      case StopClose => false
      case _ => OpenAfter(ls[..|ls| - 1])
  }

  lemma AcceptorStep(s: State, l: Label)
    requires Enabled(s, l)
    ensures Apply(s, l).acceptorOpen == (l == Open || (s.acceptorOpen && l != StopClose))
  {
  }

  lemma {:induction false} AcceptorIs(ls: seq<Label>)
    requires Legal(ls)
    ensures Exec(ls).acceptorOpen == OpenAfter(ls)
  {
    if ls != [] {
      AcceptorIs(ls[..|ls| - 1]);
      AcceptorStep(Exec(ls[..|ls| - 1]), ls[|ls| - 1]);
    }
  }

  /** The accept that step j ends, or issues on a closed acceptor, reports a fatal error. */
  ghost predicate FailsAt(ls: seq<Label>, j: nat) {
    j < |ls| && (ls[j] == Complete(OtherError) || (ls[j] == Issue && !OpenAfter(ls[..j])))
  }

  /** A fatal error that the accept fiber has not seen yet. */
  ghost predicate UnseenAt(ls: seq<Label>, j: nat) {
    FailsAt(ls, j) && Resume !in ls[j + 1..]
  }

  /** Opening failed at step j, or the accept fiber has resumed after the fatal error of step j. */
  ghost predicate FatalAt(ls: seq<Label>, j: nat) {
    j < |ls| && (ls[j] == OpenFails || (FailsAt(ls, j) && Resume in ls[j + 1..]))
  }

  /** How the marks on a run change with one more step. */
  lemma MarksStep(ls: seq<Label>, j: nat)
    requires j + 1 < |ls|
    ensures var before, l := ls[..|ls| - 1], ls[|ls| - 1];
            && (FailsAt(ls, j) <==> FailsAt(before, j))
            && (UnseenAt(ls, j) <==> UnseenAt(before, j) && l != Resume)
            && (FatalAt(ls, j) <==> FatalAt(before, j) || (UnseenAt(before, j) && l == Resume))
  {
    var before := ls[..|ls| - 1];
    assert before[..j] == ls[..j];
    assert ls[j + 1..] == before[j + 1..] + [ls[|ls| - 1]];
  }

  lemma MarksLast(ls: seq<Label>)
    requires Legal(ls) && ls != []
    ensures var before, l := ls[..|ls| - 1], ls[|ls| - 1];
            && (UnseenAt(ls, |ls| - 1) <==> l == Complete(OtherError) || (l == Issue && !Exec(before).acceptorOpen))
            && (FatalAt(ls, |ls| - 1) <==> l == OpenFails)
  {
    AcceptorIs(ls[..|ls| - 1]);
  }

  lemma {:induction false} UnseenIff(ls: seq<Label>)
    requires Legal(ls)
    ensures Exec(ls).accept == Resolved(OtherError) <==> exists j: nat :: UnseenAt(ls, j)
  {
    if ls != [] {
      var before := ls[..|ls| - 1];
      UnseenIff(before);
      MarksLast(ls);
      if j: nat :| UnseenAt(ls, j) {
        if j + 1 < |ls| {
          MarksStep(ls, j);
        }
      }
      if j: nat :| UnseenAt(before, j) {
        MarksStep(ls, j);
      }
    }
  }

  /** The process ends if and only if the acceptor could not be opened, or the accept fiber resumed from
      an accept that failed with an unexpected error or was issued on a closed acceptor. */
  lemma {:induction false} ThrowsIff(ls: seq<Label>)
    requires Legal(ls)
    ensures Exec(ls).accept == Threw <==> exists j: nat :: FatalAt(ls, j)
  {
    if ls != [] {
      var before := ls[..|ls| - 1];
      ThrowsIff(before);
      UnseenIff(before);
      MarksLast(ls);
      if j: nat :| FatalAt(ls, j) {
        if j + 1 < |ls| {
          MarksStep(ls, j);
        }
      }
      if j: nat :| UnseenAt(before, j) {
        MarksStep(ls, j);
      }
    }
  }

  // ---------- Accepting goes on ----------

  predicate IsAcceptStep(l: Label) {
    l.Open? || l.Issue? || l.Complete? || l.Resume? || l.Count?
  }

  /** `run` continues `ls` with steps of the accept fiber and ends of its accepts. */
  ghost predicate AcceptAlone(ls: seq<Label>, run: seq<Label>) {
    Legal(run) && ls <= run && forall k :: |ls| <= k < |run| ==> IsAcceptStep(run[k])
  }

  lemma AcceptStep(ls: seq<Label>, run: seq<Label>, l: Label) returns (longer: seq<Label>)
    requires AcceptAlone(ls, run) && Enabled(Exec(run), l) && IsAcceptStep(l)
    ensures AcceptAlone(ls, longer) && Exec(longer) == Apply(Exec(run), l)
  {
    LegalExtends(run, l);
    longer := run + [l];
  }

  /** Where one more session can still be accepted. */
  predicate CanAccept(s: State) {
    match s.accept
    case Opening => true
    case LoopHead => s.acceptorOpen
    case Pending => s.acceptorOpen
    case Resolved(o) => o == Accepted || (o == NoDescriptors && s.acceptorOpen)
    case Launched => s.acceptorOpen
    case _ => false
  }

  /** One more session was launched and counted, and the accept fiber is back at the head of its loop. */
  ghost predicate OneMore(ls: seq<Label>, run: seq<Label>) {
    Exec(run).sessions == Exec(ls).sessions + [Live] && Exec(run).accept == LoopHead
  }

  lemma FromResolved(ls: seq<Label>, before: seq<Label>) returns (run: seq<Label>)
    requires AcceptAlone(ls, before) && Exec(before).accept == Resolved(Accepted)
    requires Exec(before).sessions == Exec(ls).sessions
    ensures AcceptAlone(ls, run) && OneMore(ls, run)
  {
    run := AcceptStep(ls, before, Resume);
    run := AcceptStep(ls, run, Count);
  }

  lemma FromLoopHead(ls: seq<Label>, before: seq<Label>) returns (run: seq<Label>)
    requires AcceptAlone(ls, before) && Exec(before).accept == LoopHead && Exec(before).acceptorOpen
    requires Exec(before).sessions == Exec(ls).sessions
    ensures AcceptAlone(ls, run) && OneMore(ls, run)
  {
    run := AcceptStep(ls, before, Issue);
    run := AcceptStep(ls, run, Complete(Accepted));
    run := FromResolved(ls, run);
  }

  lemma AcceptOneMore(ls: seq<Label>) returns (run: seq<Label>)
    requires Legal(ls) && CanAccept(Exec(ls))
    ensures AcceptAlone(ls, run) && OneMore(ls, run)
  {
    match Exec(ls).accept
    case Resolved(Accepted) =>
      run := FromResolved(ls, ls);
    case Pending =>
      run := AcceptStep(ls, ls, Complete(Accepted));
      run := FromResolved(ls, run);
    case LoopHead =>
      run := FromLoopHead(ls, ls);
    case Opening =>
      run := AcceptStep(ls, ls, Open);
      run := FromLoopHead(ls, run);
    case Launched =>
      run := AcceptStep(ls, ls, Count);
      run := FromLoopHead(ls, run);
    case Resolved(_) =>
      run := AcceptStep(ls, ls, Resume);
      run := FromLoopHead(ls, run);
    case _ =>
  }

  lemma CannotAcceptStep(s: State, l: Label)
    requires Inv(s) && !CanAccept(s) && Enabled(s, l)
    ensures !CanAccept(Apply(s, l)) && |Apply(s, l).sessions| == |s.sessions|
  {
  }

  lemma {:induction false} NoMoreSessions(run: seq<Label>, i: nat)
    requires Legal(run) && i <= |run| && !CanAccept(Exec(run[..i]))
    ensures !CanAccept(Exec(run)) && |Exec(run).sessions| == |Exec(run[..i]).sessions|
  {
    if i == |run| {
      assert run[..i] == run;
    } else {
      var before := run[..|run| - 1];
      assert before[..i] == run[..i];
      NoMoreSessions(before, i);
      InvRun(before);
      CannotAcceptStep(Exec(before), run[|run| - 1]);
    }
  }

  ghost predicate AcceptsMore(ls: seq<Label>) {
    exists run :: ls <= run && Legal(run) && |Exec(run).sessions| > |Exec(ls).sessions|
  }

  ghost predicate AcceptsOneAlone(ls: seq<Label>) {
    exists run :: AcceptAlone(ls, run) && OneMore(ls, run)
  }

  lemma AloneIsMore(ls: seq<Label>)
    requires AcceptsOneAlone(ls)
    ensures AcceptsMore(ls)
  {
    var run :| AcceptAlone(ls, run) && OneMore(ls, run);
    assert |Exec(run).sessions| == |Exec(ls).sessions| + 1;
  }

  lemma MoreMeansCan(ls: seq<Label>)
    requires Legal(ls) && AcceptsMore(ls)
    ensures CanAccept(Exec(ls))
  {
    var run :| ls <= run && Legal(run) && |Exec(run).sessions| > |Exec(ls).sessions|;
    assert run[..|ls|] == ls;
    if !CanAccept(Exec(ls)) {
      NoMoreSessions(run, |ls|);
    }
  }

  /** Some continuation has one more session if and only if the accept fiber alone can accept, launch and
      count one and come back for the next; and that is so in exactly the states of `CanAccept`. */
  lemma AcceptsAgainIff(ls: seq<Label>)
    requires Legal(ls)
    ensures AcceptsMore(ls) <==> CanAccept(Exec(ls))
    ensures AcceptsOneAlone(ls) <==> CanAccept(Exec(ls))
  {
    if CanAccept(Exec(ls)) {
      var run := AcceptOneMore(ls);
    }
    if AcceptsOneAlone(ls) {
      AloneIsMore(ls);
    }
    if AcceptsMore(ls) {
      MoreMeansCan(ls);
    }
  }

  /** Until stop() closes the acceptor the server goes on accepting, whatever it has accepted before,
      unless opening failed or an accept has failed with an unexpected error. */
  lemma AcceptsUntilClosed(ls: seq<Label>)
    requires Legal(ls) && StopClose !in ls
    ensures CanAccept(Exec(ls)) <==> !(exists j: nat :: FatalAt(ls, j)) && !(exists j: nat :: UnseenAt(ls, j))
  {
    ThrowsIff(ls);
    UnseenIff(ls);
    InvRun(ls);
    BeforeClose(ls);
    OpenMeansAccepting(Exec(ls));
  }

  lemma OpenMeansAccepting(s: State)
    requires Inv(s) && (s.stop == Idle || s.stop == FlagCleared)
    requires s.acceptorOpen || s.accept == Opening || s.accept == Threw
    ensures CanAccept(s) <==> s.accept != Threw && s.accept != Resolved(OtherError)
  {
  }

  lemma {:induction false} BeforeClose(ls: seq<Label>)
    requires Legal(ls) && StopClose !in ls
    ensures Exec(ls).stop == Idle || Exec(ls).stop == FlagCleared
    ensures Exec(ls).acceptorOpen || Exec(ls).accept == Opening || Exec(ls).accept == Threw
  {
    if ls != [] {
      BeforeClose(ls[..|ls| - 1]);
      InvRun(ls[..|ls| - 1]);
    }
  }

  // ---------- Sessions and stop() ----------

  lemma EndOne(ls: seq<Label>, k: nat)
    requires Legal(ls) && Exec(ls).accept != Threw && k in LiveSessions(Exec(ls))
    ensures Legal(ls + [End(k)]) && Exec(ls + [End(k)]).accept == Exec(ls).accept
    ensures LiveSessions(Exec(ls + [End(k)])) == LiveSessions(Exec(ls)) - {k}
  {
    LegalExtends(ls, End(k));
  }

  /** `run` is `ls` followed by the ends of the sessions `ks`, in that order. */
  ghost predicate ThenEnds(ls: seq<Label>, ks: seq<nat>, run: seq<Label>) {
    ls <= run && |run| == |ls| + |ks| && forall i :: 0 <= i < |ks| ==> run[|ls| + i] == End(ks[i])
  }

  /** Live sessions end in any order, at any point of any run; each end removes that session only. */
  lemma {:induction false} EndInAnyOrder(ls: seq<Label>, ks: seq<nat>) returns (run: seq<Label>)
    requires Legal(ls) && Exec(ls).accept != Threw
    requires NoDup(ks) && forall k :: k in ks ==> k in LiveSessions(Exec(ls))
    ensures ThenEnds(ls, ks, run) && Legal(run) && Exec(run).accept == Exec(ls).accept
    ensures LiveSessions(Exec(run)) == LiveSessions(Exec(ls)) - Elements(ks)
  {
    run := ls;
    if ks == [] {
      assert Elements(ks) == {};
    } else {
      var init, k := ks[..|ks| - 1], ks[|ks| - 1];
      run := EndInAnyOrder(ls, init);
      assert ks == init + [k] && k in ks && k !in Elements(init);
      EndOne(run, k);
      run := run + [End(k)];
      assert Elements(ks) == Elements(init) + {k};
    }
  }

  /** stop() may be called at any point; it comes to close the acceptor at once, and completes if and only
      if an accept is pending then. */
  lemma StopAtAnyTime(ls: seq<Label>)
    requires Legal(ls) && Exec(ls).stop == Idle && Exec(ls).accept != Threw
    ensures Legal(ls + [StopFlag] + [StopClose])
    ensures CanComplete(ls + [StopFlag] + [StopClose]) <==> Exec(ls).accept == Pending
  {
    LegalExtends(ls, StopFlag);
    LegalExtends(ls + [StopFlag], StopClose);
    StopCompletesIff(ls + [StopFlag]);
  }
}
