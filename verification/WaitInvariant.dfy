/** What every step of the channel protocols keeps. Each predicate is preserved on its own terms,
    one lemma per predicate; `InvStep` puts them together and `InvRun` lifts them to whole runs. */
module WaitInvariant {
  import opened SeqFacts
  import opened FiberChannel
  import opened WaitProtocol

  /** The producer's push on the channel has succeeded. */
  predicate Accepted(p: Producer) {
    p.Counting? || p.Closing? || p == Ended(true)
  }

  /** The facade has counted the producer's push. */
  predicate Tallied(p: Producer) {
    p.Closing? || p == Ended(true)
  }

  ghost function TallySet(ps: seq<Producer>): set<nat> {
    set i: nat | i < |ps| && Tallied(ps[i])
  }

  function Failed(c: Config, ids: seq<nat>): seq<nat> {
    Select(ids, (i: nat) => i < |c.fails| && c.fails[i])
  }

  function Succeeded(c: Config, ids: seq<nat>): seq<nat> {
    Select(ids, (i: nat) => !(i < |c.fails| && c.fails[i]))
  }

  ghost predicate NoneFails(c: Config, ids: seq<nat>) {
    forall k :: 0 <= k < |ids| ==> !c.Fails(ids[k])
  }

  ghost predicate AllFail(c: Config, ids: seq<nat>) {
    forall k :: 0 <= k < |ids| ==> c.Fails(ids[k])
  }

  /** The channel is first-in first-out and holds exactly the accepted tasks not popped yet. */
  ghost predicate HistoryInv(c: Config, s: State) {
    && |s.producers| == c.N()
    && s.pushed == s.popped + s.chan.buf
    && |s.chan.buf| <= c.cap
    && NoDup(s.pushed) && InRange(s.pushed, c.N())
    && forall i: nat :: i < c.N() ==> (i in s.pushed <==> Accepted(s.producers[i]))
  }

  ghost predicate LaunchInv(c: Config, s: State) {
    && |s.producers| == c.N()
    && (forall i: nat :: i < c.N() ==>
          (s.producers[i].Unlaunched? <==> s.consumer.Launching? && s.consumer.next <= i))
    && (s.consumer.Launching? ==>
          s.consumer.next < c.N() && s.popped == [] && s.results == [] && s.errors == [])
  }

  /** With the facade: the counter is what is left to count, the channel is closed exactly once,
      by the fiber that counted the last push, and no push is refused. */
  ghost predicate CountInv(c: Config, s: State) {
    c.mode.Counted() ==>
      && |s.producers| == c.N()
      && s.limit + |TallySet(s.producers)| == c.N()
      && (forall i: nat :: i < c.N() ==> s.producers[i] != Ended(false))
      && (forall i: nat, j: nat ::
            i < c.N() && j < c.N() && s.producers[i].Closing? && s.producers[j].Closing? ==> i == j)
      && (forall i: nat :: i < c.N() && s.producers[i].Closing? ==> s.limit == 0 && !s.chan.closed)
      && (s.chan.closed ==> s.limit == 0)
      && (s.limit == 0 && !s.chan.closed ==> exists i: nat :: i < c.N() && s.producers[i].Closing?)
      && !s.consumer.Deciding?
  }

  /** Without the facade only the consumer closes the channel, and only when it is done. */
  ghost predicate RawInv(c: Config, s: State) {
    !c.mode.Counted() ==>
      && |s.producers| == c.N()
      && (forall i: nat :: i < c.N() ==> !s.producers[i].Counting? && !s.producers[i].Closing?)
      && (forall i: nat :: i < c.N() && s.producers[i] == Ended(false) ==> s.chan.closed)
      && (s.chan.closed ==> s.consumer.Finished?)
      && (s.consumer.Finished? && !s.chan.closed ==> s.consumer.verdict.ThrowsList?)
  }

  ghost predicate FirstInv(c: Config, s: State) {
    match s.consumer
    case Launching(_) => true
    case Popping => s.popped == []
    case _ =>
      && |s.popped| == 1
      && s.consumer.verdict == if c.Fails(s.popped[0]) then ThrowsOne(s.popped[0]) else ReturnsOne(s.popped[0])
  }

  ghost predicate SuccessVerdict(c: Config, s: State, v: Verdict) {
    match v
    case ReturnsOne(x) => s.popped == s.errors + [x] && !c.Fails(x)
    case ThrowsList(es) => es == s.errors == s.popped && |es| == c.N()
    case _ => false
  }

  ghost predicate FirstSuccessInv(c: Config, s: State) {
    && AllFail(c, s.errors)
    && match s.consumer
       case Launching(_) => true
       case Popping => s.errors == s.popped && |s.popped| != c.N()
       case Deciding(v) => v.ReturnsOne? && SuccessVerdict(c, s, v)
       case Finished(v) => SuccessVerdict(c, s, v) && (v.ReturnsOne? ==> s.chan.closed)
  }

  ghost predicate UntilErrorInv(c: Config, s: State) {
    && NoneFails(c, s.results)
    && match s.consumer
       case Finished(ThrowsOne(x)) => s.popped == s.results + [x] && c.Fails(x)
       case Finished(ReturnsAll(r)) => r == s.results == s.popped && s.chan == Channel([], true)
       case Finished(_) => false
       case _ => s.results == s.popped
  }

  ghost predicate CollectInv(c: Config, s: State) {
    && s.results == Succeeded(c, s.popped)
    && s.errors == Failed(c, s.popped)
    && (s.consumer.Finished? ==> s.consumer.verdict == AtClosed(c, s) && s.chan == Channel([], true))
  }

  ghost predicate VerdictInv(c: Config, s: State) {
    match c.mode
    case First => FirstInv(c, s)
    case FirstSuccess => FirstSuccessInv(c, s)
    case UntilError => UntilErrorInv(c, s)
    case CollectErrors => CollectInv(c, s)
  }

  ghost predicate Inv(c: Config, s: State) {
    HistoryInv(c, s) && LaunchInv(c, s) && CountInv(c, s) && RawInv(c, s) && VerdictInv(c, s)
  }

  lemma InvInit(c: Config)
    ensures Inv(c, Init(c))
  {
  }

  lemma HistoryPush(c: Config, s: State, i: nat)
    requires HistoryInv(c, s) && Enabled(c, s, Push(i))
    ensures HistoryInv(c, Apply(c, s, Push(i)))
  {
  }

  /** Steps other than push leave the history and the set of accepted tasks alone. */
  lemma HistoryStep(c: Config, s: State, l: Label)
    requires HistoryInv(c, s) && LaunchInv(c, s) && Enabled(c, s, l)
    ensures HistoryInv(c, Apply(c, s, l))
  {
    var s' := Apply(c, s, l);
    match l
    case Push(i) =>
      HistoryPush(c, s, i);
    case _ =>
      assert s'.pushed == s.pushed;
      assert s'.popped + s'.chan.buf == s.popped + s.chan.buf;
      assert |s'.producers| == |s.producers|;
      assert forall i: nat :: i < c.N() ==> Accepted(s'.producers[i]) == Accepted(s.producers[i]);
  }

  lemma LaunchStep(c: Config, s: State, l: Label)
    requires Inv(c, s) && Enabled(c, s, l)
    ensures LaunchInv(c, Apply(c, s, l))
  {
  }

  lemma TallyStep(ps: seq<Producer>, i: nat, p: Producer)
    requires i < |ps| && !Tallied(ps[i])
    ensures |TallySet(ps[i := p])| == |TallySet(ps)| + if Tallied(p) then 1 else 0
  {
    var after := TallySet(ps[i := p]);
    if Tallied(p) {
      assert after == TallySet(ps) + {i};
    } else {
      assert after == TallySet(ps);
    }
  }

  /** A producer that is neither the last to count nor counted may move on freely. */
  lemma CountFrame(c: Config, s: State, s': State, i: nat, p: Producer)
    requires CountInv(c, s) && c.mode.Counted()
    requires i < c.N() && !Tallied(s.producers[i]) && !Tallied(p) && p != Ended(false)
    requires s'.producers == s.producers[i := p]
    requires s'.limit == s.limit && s'.chan.closed == s.chan.closed && !s'.consumer.Deciding?
    ensures CountInv(c, s')
  {
    TallyStep(s.producers, i, p);
    if s'.limit == 0 && !s'.chan.closed {
      var j: nat :| j < c.N() && s.producers[j].Closing?;
      assert s'.producers[j].Closing?;
    }
  }

  /** Once the channel is closed every push has been accepted and counted. */
  lemma ClosedMeansAllTallied(c: Config, s: State, i: nat)
    requires CountInv(c, s) && c.mode.Counted() && s.limit == 0 && i < c.N()
    ensures Tallied(s.producers[i])
  {
    BelowSize(TallySet(s.producers), c.N());
    assert i in TallySet(s.producers);
  }

  lemma CountStep(c: Config, s: State, l: Label)
    requires LaunchInv(c, s) && CountInv(c, s) && Enabled(c, s, l)
    ensures CountInv(c, Apply(c, s, l))
  {
    var s' := Apply(c, s, l);
    if c.mode.Counted() {
      match l
      case Launch => CountFrame(c, s, s', s.consumer.next, Running);
      case Complete(i) => CountFrame(c, s, s', i, Ready);
      case Push(i) => CountFrame(c, s, s', i, Counting);
      case Refuse(i) => ClosedMeansAllTallied(c, s, i);
      case CountDown(i) => CountDownStep(c, s, i);
      case CloseFull(i) => assert TallySet(s'.producers) == TallySet(s.producers);
      case Pop => assert s'.producers == s.producers;
      case SeeClosed => assert s'.producers == s.producers;
      case CloseEarly =>
    }
  }

  lemma CountDownStep(c: Config, s: State, i: nat)
    requires CountInv(c, s) && c.mode.Counted() && Enabled(c, s, CountDown(i))
    ensures CountInv(c, Apply(c, s, CountDown(i)))
  {
    var s' := Apply(c, s, CountDown(i));
    TallyStep(s.producers, i, s'.producers[i]);
    if s.limit == 0 {
      ClosedMeansAllTallied(c, s, i);
    }
    assert s'.limit == 0 ==> s'.producers[i].Closing?;
  }

  lemma RawStep(c: Config, s: State, l: Label)
    requires Inv(c, s) && Enabled(c, s, l)
    ensures RawInv(c, Apply(c, s, l))
  {
  }

  lemma FirstStep(c: Config, s: State, l: Label)
    requires c.mode.First? && LaunchInv(c, s) && RawInv(c, s) && FirstInv(c, s) && Enabled(c, s, l)
    ensures FirstInv(c, Apply(c, s, l))
  {
  }

  lemma FirstSuccessStep(c: Config, s: State, l: Label)
    requires c.mode.FirstSuccess? && LaunchInv(c, s) && RawInv(c, s) && FirstSuccessInv(c, s) && Enabled(c, s, l)
    ensures FirstSuccessInv(c, Apply(c, s, l))
  {
  }

  lemma UntilErrorStep(c: Config, s: State, l: Label)
    requires c.mode.UntilError? && CountInv(c, s) && UntilErrorInv(c, s) && Enabled(c, s, l)
    ensures UntilErrorInv(c, Apply(c, s, l))
  {
  }

  lemma CollectStep(c: Config, s: State, l: Label)
    requires c.mode.CollectErrors? && CountInv(c, s) && CollectInv(c, s) && Enabled(c, s, l)
    ensures CollectInv(c, Apply(c, s, l))
  {
    if l == Pop {
      CollectPop(c, s);
    }
  }

  lemma CollectPop(c: Config, s: State)
    requires c.mode.CollectErrors? && CollectInv(c, s) && Enabled(c, s, Pop)
    ensures CollectInv(c, Apply(c, s, Pop))
  {
  }

  lemma VerdictStep(c: Config, s: State, l: Label)
    requires Inv(c, s) && Enabled(c, s, l)
    ensures VerdictInv(c, Apply(c, s, l))
  {
    match c.mode
    case First => FirstStep(c, s, l);
    case FirstSuccess => FirstSuccessStep(c, s, l);
    case UntilError => UntilErrorStep(c, s, l);
    case CollectErrors => CollectStep(c, s, l);
  }

  lemma InvStep(c: Config, s: State, l: Label)
    requires Inv(c, s) && Enabled(c, s, l)
    ensures Inv(c, Apply(c, s, l))
  {
    HistoryStep(c, s, l);
    LaunchStep(c, s, l);
    CountStep(c, s, l);
    RawStep(c, s, l);
    VerdictStep(c, s, l);
  }

  /** Every state of every run satisfies the invariant. */
  lemma {:induction false} InvRun(c: Config, ls: seq<Label>)
    requires Legal(c, ls)
    ensures Inv(c, Exec(c, ls))
  {
    if ls == [] {
      InvInit(c);
    } else {
      InvRun(c, ls[..|ls| - 1]);
      InvStep(c, Exec(c, ls[..|ls| - 1]), ls[|ls| - 1]);
    }
  }
}
