/** The bounded channel that producers and the consumer share, and the `nchannel` facade
    that closes it after a fixed number of successful pushes. The value type `Channel` is the
    specification; the classes are the objects whose fields the program updates. */
module FiberChannel {

  const SIZE_T_LIMIT: nat := 0x1_0000_0000_0000_0000

  /** What one attempt at a channel operation reports. `Blocked` stands for a fiber that has to wait. */
  datatype Status = Success | Closed | Blocked

  datatype Channel<T> = Channel(buf: seq<T>, closed: bool) {

    function PushStatus(cap: nat): Status {
      if closed then Closed else if |buf| < cap then Success else Blocked
    }

    function PopStatus(): Status {
      if buf != [] then Success else if closed then Closed else Blocked
    }

    function AfterPush(cap: nat, v: T): (r: Channel<T>)
      ensures r.closed == closed
      ensures |buf| <= cap ==> |r.buf| <= cap
    {
      if PushStatus(cap) == Success then this.(buf := buf + [v]) else this
    }

    function AfterPop(): (r: Channel<T>)
      ensures r.closed == closed
      ensures PopStatus() == Success ==> buf == [buf[0]] + r.buf
    {
      if buf != [] then this.(buf := buf[1..]) else this
    }

    function AfterClose(): Channel<T> {
      this.(closed := true)
    }
  }

  /** `--limit_` on an unsigned counter. */
  function Decremented(limit: nat): nat {
    if limit == 0 then SIZE_T_LIMIT - 1 else limit - 1
  }

  class BufferedChannel<T> {
    const cap: nat
    var buf: seq<T>
    var closed: bool

    function View(): Channel<T>
      reads this
    {
      Channel(buf, closed)
    }

    constructor (cap: nat)
      ensures this.cap == cap && View() == Channel([], false)
    {
      this.cap := cap;
      buf, closed := [], false;
    }

    method TryPush(v: T) returns (st: Status)
      modifies this
      ensures st == old(View()).PushStatus(cap)
      ensures View() == old(View()).AfterPush(cap, v)
    {
      if closed {
        return Closed;
      }
      if |buf| >= cap {
        return Blocked;
      }
      buf := buf + [v];
      st := Success;
    }

    method TryPop(fallback: T) returns (st: Status, v: T)
      modifies this
      ensures st == old(View()).PopStatus()
      ensures st == Success ==> v == old(buf[0])
      ensures View() == old(View()).AfterPop()
    {
      v := fallback;
      if buf != [] {
        v, buf := buf[0], buf[1..];
        return Success, v;
      }
      st := if closed then Closed else Blocked;
    }

    method Close()
      modifies this
      ensures View() == old(View()).AfterClose()
    {
      closed := true;
    }
  }

  /** The facade. A push is three atomic steps: push on the channel, count down, close; another
      fiber may run between any two of them. */
  class NChannel<T> {
    const chan: BufferedChannel<T>
    var limit: nat

    constructor (chan: BufferedChannel<T>, lm: nat)
      modifies chan
      ensures this.chan == chan && limit == lm
      ensures chan.View() == if lm == 0 then old(chan.View()).AfterClose() else old(chan.View())
    {
      this.chan, limit := chan, lm;
      new;
      if limit == 0 {
        chan.Close();
      }
    }

    method CountDown() returns (last: bool)
      modifies this`limit
      ensures limit == Decremented(old(limit))
      ensures last <==> limit == 0
    {
      limit := if limit == 0 then SIZE_T_LIMIT - 1 else limit - 1;
      last := limit == 0;
    }

    /** A push that no other fiber interrupts. */
    method Push(v: T) returns (st: Status)
      modifies this`limit, chan
      ensures st == old(chan.View()).PushStatus(chan.cap)
      ensures limit == if st == Success then Decremented(old(limit)) else old(limit)
      ensures var pushed := old(chan.View()).AfterPush(chan.cap, v);
              chan.View() == if st == Success && limit == 0 then pushed.AfterClose() else pushed
    {
      st := chan.TryPush(v);
      if st == Success {
        var last := CountDown();
        if last {
          chan.Close();
        }
      }
    }
  }
}
