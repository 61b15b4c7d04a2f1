/** The join and race functions that collect task outcomes through a channel, as one labelled
    transition system. N producer fibers and the calling fiber interleave arbitrarily; each label
    is one atomic step of one fiber. A task is named by its position in the argument list. */
module WaitProtocol {
  import opened FiberChannel

  /** Which function the caller runs:
      `First` is wait_first_value and wait_first_outcome, `FirstSuccess` is wait_first_success,
      `UntilError` is wait_all_until_error (and wait_all_values when no task fails),
      `CollectErrors` is wait_all_collect_errors. */
  datatype Mode = First | FirstSuccess | UntilError | CollectErrors {
    /** Whether the producers push through the `nchannel` facade. */
    predicate Counted() {
      UntilError? || CollectErrors?
    }
  }

  /** `fails[i]` says whether task i ends with an exception. */
  datatype Config = Config(fails: seq<bool>, cap: nat, mode: Mode) {
    function N(): nat {
      |fails|
    }

    predicate Valid() {
      1 <= cap && N() < SIZE_T_LIMIT
    }

    predicate Fails(i: nat) {
      i < N() && fails[i]
    }
  }

  datatype Producer =
    | Unlaunched
    | Running              // inside its function
    | Ready                // has the outcome, has not got past the channel's push
    | Counting             // push succeeded, the facade has not counted it yet
    | Closing              // counted the last one, has not closed the channel yet
    | Ended(accepted: bool)

  /** How a call ends, with tasks standing for the values and exceptions they produced. */
  datatype Verdict =
    | ReturnsOne(task: nat)
    | ReturnsAll(tasks: seq<nat>)
    | ThrowsOne(task: nat)
    | ThrowsList(tasks: seq<nat>)
    | ThrowsClosed         // value_pop() on a closed, empty channel

  datatype Consumer =
    | Launching(next: nat)
    | Popping
    | Deciding(verdict: Verdict)   // popped what it needs, has not closed the channel yet
    | Finished(verdict: Verdict)

  /** `pushed` and `popped` record the history of the channel; no step reads them, except that the
      length of `popped` is the loop counter of wait_first_success. */
  datatype State = State(
    producers: seq<Producer>,
    chan: Channel<nat>,
    limit: nat,
    consumer: Consumer,
    results: seq<nat>,
    errors: seq<nat>,
    pushed: seq<nat>,
    popped: seq<nat>)

  datatype Label =
    | Launch
    | Complete(task: nat)
    | Push(task: nat)
    | Refuse(task: nat)
    | CountDown(task: nat)
    | CloseFull(task: nat)
    | Pop
    | SeeClosed
    | CloseEarly

  /** The head of the consumer's loop. Only wait_first_success bounds the number of pops. */
  function LoopHead(c: Config, popped: nat, errors: seq<nat>): Consumer {
    if c.mode.FirstSuccess? && popped == c.N() then Finished(ThrowsList(errors)) else Popping
  }

  function Init(c: Config): State {
    State(
      seq(c.N(), i => Unlaunched),
      Channel([], c.mode.Counted() && c.N() == 0),
      c.N(),
      if c.N() == 0 then LoopHead(c, 0, []) else Launching(0),
      [], [], [], [])
  }

  predicate Enabled(c: Config, s: State, l: Label) {
    match l
    case Launch => s.consumer.Launching? && s.consumer.next < |s.producers|
    case Complete(i) => i < |s.producers| && s.producers[i] == Running
    case Push(i) => i < |s.producers| && s.producers[i] == Ready && s.chan.PushStatus(c.cap) == Success
    case Refuse(i) => i < |s.producers| && s.producers[i] == Ready && s.chan.PushStatus(c.cap) == Closed
    case CountDown(i) => i < |s.producers| && s.producers[i] == Counting
    case CloseFull(i) => i < |s.producers| && s.producers[i] == Closing
    case Pop => s.consumer == Popping && s.chan.PopStatus() == Success
    case SeeClosed => s.consumer == Popping && s.chan.PopStatus() == Closed
    case CloseEarly => s.consumer.Deciding?
  }

  /** The step a label stands for; a label that is not enabled changes nothing. */
  function Apply(c: Config, s: State, l: Label): State {
    if !Enabled(c, s, l) then s else
    match l
    case Launch =>
      var k := s.consumer.next;
      s.(producers := s.producers[k := Running],
         consumer := if k + 1 < c.N() then Launching(k + 1) else LoopHead(c, 0, s.errors))
    case Complete(i) =>
      s.(producers := s.producers[i := Ready])
    case Push(i) =>
      s.(producers := s.producers[i := if c.mode.Counted() then Counting else Ended(true)],
         chan := s.chan.AfterPush(c.cap, i),
         pushed := s.pushed + [i])
    case Refuse(i) =>
      s.(producers := s.producers[i := Ended(false)])
    case CountDown(i) =>
      var left := Decremented(s.limit);
      s.(producers := s.producers[i := if left == 0 then Closing else Ended(true)],
         limit := left)
    case CloseFull(i) =>
      s.(producers := s.producers[i := Ended(true)],
         chan := s.chan.AfterClose())
    case Pop =>
      Receive(c, s.(chan := s.chan.AfterPop(), popped := s.popped + [s.chan.buf[0]]), s.chan.buf[0])
    case SeeClosed =>
      s.(consumer := Finished(AtClosed(c, s)))
    case CloseEarly =>
      s.(consumer := Finished(s.consumer.verdict),
         chan := s.chan.AfterClose())
  }

  /** What the consumer does with the outcome it has just popped. */
  function Receive(c: Config, s: State, x: nat): State {
    match c.mode
    case First =>
      s.(consumer := Deciding(if c.Fails(x) then ThrowsOne(x) else ReturnsOne(x)))
    case FirstSuccess =>
      if c.Fails(x)
      then s.(errors := s.errors + [x], consumer := LoopHead(c, |s.popped|, s.errors + [x]))
      else s.(consumer := Deciding(ReturnsOne(x)))
    case UntilError =>
      if c.Fails(x) then s.(consumer := Finished(ThrowsOne(x))) else s.(results := s.results + [x])
    case CollectErrors =>
      if c.Fails(x) then s.(errors := s.errors + [x]) else s.(results := s.results + [x])
  }

  /** What the consumer does when pop reports that the channel is closed and empty. */
  function AtClosed(c: Config, s: State): Verdict {
    match c.mode
    case First => ThrowsClosed
    case FirstSuccess => ThrowsClosed
    case UntilError => ReturnsAll(s.results)
    case CollectErrors => if s.errors != [] then ThrowsList(s.errors) else ReturnsAll(s.results)
  }

  function Exec(c: Config, ls: seq<Label>): State {
    if ls == [] then Init(c) else Apply(c, Exec(c, ls[..|ls| - 1]), ls[|ls| - 1])
  }

  /** `ls` is a run: each label is enabled where it is taken. */
  ghost predicate Legal(c: Config, ls: seq<Label>) {
    ls != [] ==> Legal(c, ls[..|ls| - 1]) && Enabled(c, Exec(c, ls[..|ls| - 1]), ls[|ls| - 1])
  }

  /** No fiber can take a step. */
  ghost predicate Quiescent(c: Config, s: State) {
    forall l :: !Enabled(c, s, l)
  }

  /** The tasks whose push succeeded, in the order of the pushes, read off the run itself. */
  function PushOrder(ls: seq<Label>): seq<nat> {
    if ls == [] then []
    else
      var before := PushOrder(ls[..|ls| - 1]);
      match ls[|ls| - 1]
      case Push(i) => before + [i]
      case _ => before
  }
}
