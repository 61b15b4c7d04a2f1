/** The wait functions on the channel objects: each fiber's steps change the channel, the facade and
    the call's own variables in place, and every schedule of them leads where `WaitProtocol` says. */
module WaitReplay {
  import opened FiberChannel
  import opened WaitProtocol
  import opened WaitInvariant

  /** One call with the fibers it launches. Only the variants that wait for all tasks have a facade. */
  class Call {
    const c: Config
    const chan: BufferedChannel<nat>
    const facade: NChannel?<nat>
    var producers: seq<Producer>
    var consumer: Consumer
    var results: seq<nat>
    var errors: seq<nat>
    var pushed: seq<nat>
    var popped: seq<nat>

    ghost predicate Valid() {
      && chan.cap == c.cap
      && (facade != null <==> c.mode.Counted())
      && (facade != null ==> facade.chan == chan)
    }

    ghost function View(): State
      reads this, chan, facade
    {
      State(producers, chan.View(), if facade != null then facade.limit else c.N(),
            consumer, results, errors, pushed, popped)
    }

    constructor (c: Config)
      ensures Valid() && fresh(chan) && (facade != null ==> fresh(facade))
      ensures this.c == c && View() == Init(c)
    {
      var ch := new BufferedChannel<nat>(c.cap);
      var fa: NChannel?<nat> := null;
      if c.mode.Counted() {
        fa := new NChannel<nat>(ch, c.N());
      }
      this.c, chan, facade := c, ch, fa;
      producers := seq(c.N(), i => Unlaunched);
      consumer := if c.N() == 0 then LoopHead(c, 0, []) else Launching(0);
      results, errors, pushed, popped := [], [], [], [];
    }

    method LaunchNext()
      requires Valid() && Enabled(c, View(), Launch)
      modifies this
      ensures Valid() && View() == Apply(c, old(View()), Launch)
    {
      var k := consumer.next;
      producers := producers[k := Running];
      consumer := if k + 1 < c.N() then Launching(k + 1) else LoopHead(c, 0, errors);
    }

    /** Producer i attempts its push: it gets in, is refused, or stays where it is. */
    method Attempt(i: nat) returns (st: Status)
      requires Valid() && i < |producers| && producers[i] == Ready
      modifies this, chan
      ensures Valid() && st == old(chan.View()).PushStatus(c.cap)
      ensures View() == Apply(c, old(View()), if st == Closed then Refuse(i) else Push(i))
    {
      st := chan.TryPush(i);
      match st
      case Success =>
        producers := producers[i := if facade != null then Counting else Ended(true)];
        pushed := pushed + [i];
      case Closed =>
        producers := producers[i := Ended(false)];
      case Blocked =>
    }

    /** The facade counts producer i's push. */
    method Tally(i: nat)
      requires Valid() && facade != null && i < |producers| && producers[i] == Counting
      modifies this, facade
      ensures Valid() && View() == Apply(c, old(View()), CountDown(i))
    {
      var last := facade.CountDown();
      producers := producers[i := if last then Closing else Ended(true)];
    }

    method CloseByProducer(i: nat)
      requires Valid() && i < |producers| && producers[i] == Closing
      modifies this, chan
      ensures Valid() && View() == Apply(c, old(View()), CloseFull(i))
    {
      chan.Close();
      producers := producers[i := Ended(true)];
    }

    /** The caller attempts a pop: it receives an outcome, learns that the channel is closed, or waits. */
    method Take() returns (st: Status)
      requires Valid() && consumer == Popping
      modifies this, chan
      ensures Valid() && st == old(chan.View()).PopStatus()
      ensures View() == Apply(c, old(View()), if st == Closed then SeeClosed else Pop)
    {
      var x;
      st, x := chan.TryPop(0);
      match st
      case Success =>
        popped := popped + [x];
        Handle(x);
      case Closed =>
        consumer := Finished(match c.mode
                             case UntilError => ReturnsAll(results)
                             case CollectErrors => if errors != [] then ThrowsList(errors) else ReturnsAll(results)
                             case _ => ThrowsClosed);
      case Blocked =>
    }

    /** The body of the caller's loop, once it has an outcome. */
    method Handle(x: nat)
      requires Valid()
      modifies this
      ensures Valid() && View() == Receive(c, old(View()), x)
    {
      match c.mode
      case First =>
        consumer := Deciding(if c.Fails(x) then ThrowsOne(x) else ReturnsOne(x));
      case FirstSuccess =>
        if c.Fails(x) {
          errors := errors + [x];
          consumer := LoopHead(c, |popped|, errors);
        } else {
          consumer := Deciding(ReturnsOne(x));
        }
      case UntilError =>
        if c.Fails(x) {
          consumer := Finished(ThrowsOne(x));
        } else {
          results := results + [x];
        }
      case CollectErrors =>
        if c.Fails(x) {
          errors := errors + [x];
        } else {
          results := results + [x];
        }
    }

    method CloseByCaller()
      requires Valid() && consumer.Deciding?
      modifies this, chan
      ensures Valid() && View() == Apply(c, old(View()), CloseEarly)
    {
      chan.Close();
      consumer := Finished(consumer.verdict);
    }

    /** One step of one fiber; only the facade's producers count. */
    method Step(l: Label)
      requires Valid() && Enabled(c, View(), l) && (l.CountDown? ==> c.mode.Counted())
      modifies this, chan, facade
      ensures Valid() && View() == Apply(c, old(View()), l)
    {
      match l
      case Launch => LaunchNext();
      case Complete(i) => producers := producers[i := Ready];
      case Push(i) => var _ := Attempt(i);
      case Refuse(i) => var _ := Attempt(i);
      case CountDown(i) => Tally(i);
      case CloseFull(i) => CloseByProducer(i);
      case Pop => var _ := Take();
      case SeeClosed => var _ := Take();
      case CloseEarly => CloseByCaller();
    }
  }

  /** At every point of a run the next label is enabled, and only the facade's producers count. */
  lemma {:induction false} RunPrefix(c: Config, ls: seq<Label>, i: nat)
    requires Legal(c, ls) && i < |ls|
    ensures Enabled(c, Exec(c, ls[..i]), ls[i]) && (ls[i].CountDown? ==> c.mode.Counted())
    ensures Exec(c, ls[..i + 1]) == Apply(c, Exec(c, ls[..i]), ls[i])
  {
    var before := ls[..|ls| - 1];
    if i < |before| {
      RunPrefix(c, before, i);
      assert before[..i] == ls[..i] && before[..i + 1] == ls[..i + 1];
    } else {
      assert ls[..i + 1] == ls && ls[..i] == before;
      InvRun(c, before);
    }
  }

  /** Running any schedule on the objects, step by step, leads where the transition system says. */
  method Replay(c: Config, ls: seq<Label>) returns (call: Call)
    requires Legal(c, ls)
    ensures call.View() == Exec(c, ls)
  {
    call := new Call(c);
    for i := 0 to |ls|
      invariant fresh(call) && fresh(call.chan) && (call.facade != null ==> fresh(call.facade))
      invariant call.c == c && call.Valid() && call.View() == Exec(c, ls[..i])
    {
      RunPrefix(c, ls, i);
      call.Step(ls[i]);
    }
    assert ls[..|ls|] == ls;
  }
}
