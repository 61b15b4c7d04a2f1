/** What the keep-alive list holds, read off the run: where each connection leads, when it was released,
    when it leaves the list, and that no request has to wait for another. */
module PoolHistory {
  import opened ConnPool
  import opened PoolProtocol
  import opened PoolTheorems

  // ---------- Where a connection leads ----------

  /** Step j is the arrival of the latest request numbered r. */
  ghost predicate LatestArrive(ls: seq<Label>, r: nat, j: nat, a: Args) {
    && j < |ls| && ls[j] == Arrive(r, a)
    && forall k :: j < k < |ls| ==> !(ls[k].Arrive? && ls[k].req == r)
  }

  lemma ArgsStep(s: State, l: Label, r: nat)
    requires Enabled(s, l) && r in Apply(s, l).reqs && !(l.Arrive? && l.req == r)
    ensures r in s.reqs && Apply(s, l).reqs[r].args == s.reqs[r].args
  {
  }

  /** A request in flight has the arguments it arrived with. */
  lemma {:induction false} ArgsOf(t0: int, ls: seq<Label>, r: nat) returns (j: nat)
    requires Legal(t0, ls) && r in Exec(t0, ls).reqs
    ensures LatestArrive(ls, r, j, Exec(t0, ls).reqs[r].args)
  {
    var before, l := ls[..|ls| - 1], ls[|ls| - 1];
    if l.Arrive? && l.req == r {
      j := |ls| - 1;
    } else {
      ArgsStep(Exec(t0, before), l, r);
      j := ArgsOf(t0, before, r);
    }
  }

  /** Step i opened `conn`, for the request that arrived at step j. */
  ghost predicate OpenedFor(t0: int, ls: seq<Label>, conn: nat, i: nat, j: nat, a: Args) {
    && i < |ls| && ls[i].Search?
    && Exec(t0, ls[..i]).nextConn == conn && Exec(t0, ls[..i + 1]).nextConn == conn + 1
    && LatestArrive(ls[..i], ls[i].req, j, a)
  }

  /** `conn` was opened for a request that arrived with this host and this port. */
  ghost predicate LeadsTo(t0: int, ls: seq<Label>, conn: nat, host: string, port: string) {
    exists i: nat, j: nat, a: Args :: OpenedFor(t0, ls, conn, i, j, a) && a.host == host && a.port == port
  }

  lemma LeadsToStays(t0: int, ls: seq<Label>, conn: nat, host: string, port: string)
    requires ls != [] && LeadsTo(t0, ls[..|ls| - 1], conn, host, port)
    ensures LeadsTo(t0, ls, conn, host, port)
  {
    var before := ls[..|ls| - 1];
    var i: nat, j: nat, a: Args :| OpenedFor(t0, before, conn, i, j, a) && a.host == host && a.port == port;
    assert before[..i] == ls[..i] && before[..i + 1] == ls[..i + 1];
    assert OpenedFor(t0, ls, conn, i, j, a);
  }

  ghost predicate HasConn(q: Request) {
    q.Connecting? || q.Stamped? || q.Holding?
  }

  /** What is listed after a step was listed before it, for the same host and port, or was inserted. */
  lemma EntryStep(s: State, l: Label, e: Entry<nat>)
    requires Enabled(s, l) && e in Apply(s, l).pool
    ensures (exists e0 :: e0 in s.pool && SameEnd(e0, e)) || (l.Insert? && InsertedFor(s.reqs[l.req], e))
  {
    var s' := Apply(s, l);
    match l
    case SweepPool(r) =>
      SweepKeeps(s.pool, s.reqs[r].t);
      assert SameEnd(e, e);
    case Search(r) =>
      var k :| 0 <= k < |s'.pool| && s'.pool[k] == e;
      assert s.pool[k] in s.pool && SameEnd(s.pool[k], e);
    case Insert(r) =>
      assert e in s.pool ==> SameEnd(e, e);
    case Finish(r, reusable) =>
      FinishEntry(s, r, reusable, e);
    case _ =>
      assert SameEnd(e, e);
  }

  lemma FinishEntry(s: State, r: nat, reusable: bool, e: Entry<nat>)
    requires Enabled(s, Finish(r, reusable)) && e in Apply(s, Finish(r, reusable)).pool
    ensures exists e0 :: e0 in s.pool && SameEnd(e0, e)
  {
    var after := Apply(s, Finish(r, reusable)).pool;
    var k :| 0 <= k < |after| && after[k] == e;
    var i := FindConn(s.pool, s.reqs[r].conn);
    var e0 := if reusable || i == |s.pool| || k < i then s.pool[k] else s.pool[k + 1];
    assert e0 in s.pool && SameEnd(e0, e);
  }

  ghost predicate SameEnd(e0: Entry<nat>, e: Entry<nat>) {
    e0.conn == e.conn && e0.args.host == e.args.host && e0.args.port == e.args.port
  }

  ghost predicate InsertedFor(q: Request, e: Entry<nat>) {
    q.Stamped? && q.conn == e.conn && q.args == e.args
  }

  /** Where a request has its connection from: it had it, found it idle, or has just begun to open it. */
  lemma RequestStep(s: State, l: Label, r: nat)
    requires Enabled(s, l) && r in Apply(s, l).reqs && HasConn(Apply(s, l).reqs[r])
    ensures var q := Apply(s, l).reqs[r];
            || (r in s.reqs && HasConn(s.reqs[r]) && s.reqs[r].conn == q.conn && s.reqs[r].args == q.args)
            || (l == Search(r) && q.Holding? && exists e :: e in s.pool && FoundBy(e, q))
            || (l == Search(r) && q == Connecting(s.reqs[r].args, s.nextConn)
                && Apply(s, l).nextConn == s.nextConn + 1)
  {
    var q := Apply(s, l).reqs[r];
    if l == Search(r) && q.Holding? {
      var e := s.pool[FindIdle(s.pool, s.reqs[r].args)];
      assert e in s.pool && FoundBy(e, q);
    }
  }

  ghost predicate FoundBy(e: Entry<nat>, q: Request)
    requires q.Holding?
  {
    e.Idle() && e.conn == q.conn && e.args.host == q.args.host && e.args.port == q.args.port
  }

  lemma {:induction false} EntryLeadsTo(t0: int, ls: seq<Label>, e: Entry<nat>)
    requires Legal(t0, ls) && e in Exec(t0, ls).pool
    ensures LeadsTo(t0, ls, e.conn, e.args.host, e.args.port)
    decreases |ls|, 0
  {
    var before, l := ls[..|ls| - 1], ls[|ls| - 1];
    var s := Exec(t0, before);
    EntryStep(s, l, e);
    if e0 :| e0 in s.pool && SameEnd(e0, e) {
      EntryLeadsTo(t0, before, e0);
    } else {
      RequestLeadsTo(t0, before, l.req);
    }
    LeadsToStays(t0, ls, e.conn, e.args.host, e.args.port);
  }

  lemma {:induction false} RequestLeadsTo(t0: int, ls: seq<Label>, r: nat)
    requires Legal(t0, ls) && r in Exec(t0, ls).reqs && HasConn(Exec(t0, ls).reqs[r])
    ensures var q := Exec(t0, ls).reqs[r]; LeadsTo(t0, ls, q.conn, q.args.host, q.args.port)
    decreases |ls|, 1
  {
    var before, l := ls[..|ls| - 1], ls[|ls| - 1];
    var s, q := Exec(t0, before), Exec(t0, ls).reqs[r];
    RequestStep(s, l, r);
    if l == Search(r) && q.Connecting? {
      var j := ArgsOf(t0, before, r);
      assert ls[..|ls|] == ls;
      assert OpenedFor(t0, ls, q.conn, |ls| - 1, j, q.args);
    } else {
      if l == Search(r) {
        var e :| e in s.pool && FoundBy(e, q);
        EntryLeadsTo(t0, before, e);
      } else {
        RequestLeadsTo(t0, before, r);
      }
      LeadsToStays(t0, ls, q.conn, q.args.host, q.args.port);
    }
  }

  /** Whoever holds a connection has the arguments it arrived with, and the connection was opened for a
      request that arrived with the same host and the same port. */
  lemma HolderLeadsTo(t0: int, ls: seq<Label>, r: nat, args: Args, conn: nat)
    requires Legal(t0, ls) && r in Exec(t0, ls).reqs && Exec(t0, ls).reqs[r] == Holding(args, conn)
    ensures exists j: nat :: LatestArrive(ls, r, j, args)
    ensures LeadsTo(t0, ls, conn, args.host, args.port)
  {
    var j := ArgsOf(t0, ls, r);
    RequestLeadsTo(t0, ls, r);
  }

  /** A search leases an idle connection to the same host and port if there is one, and only otherwise
      opens a connection, with a number nobody has used. */
  lemma SearchReusesIff(s: State, r: nat)
    requires Inv(s) && Enabled(s, Search(r))
    ensures var a, q := s.reqs[r].args, Apply(s, Search(r)).reqs[r];
            if exists e :: e in s.pool && !e.inUse && e.args.host == a.host && e.args.port == a.port
            then q.Holding? && exists e :: e in s.pool && FoundBy(e, q)
            else q == Connecting(a, s.nextConn) && forall e :: e in s.pool ==> e.conn != s.nextConn
  {
    var a := s.reqs[r].args;
    var i := FindIdle(s.pool, a);
    if i < |s.pool| {
      assert s.pool[i] in s.pool;
      RequestStep(s, Search(r), r);
    }
  }

  // ---------- When a connection was released, and when it leaves ----------

  /** Step i ended the lease of `e` with a release, at the clock reading in `e`, and `e` has lain on the
      list unchanged since. */
  ghost predicate ReleasedAt(t0: int, ls: seq<Label>, e: Entry<nat>, i: nat) {
    && i < |ls| && ls[i].Finish? && ls[i].reusable
    && Exec(t0, ls[..i]).now == e.lastUse
    && ls[i].req in Exec(t0, ls[..i]).reqs && Exec(t0, ls[..i]).reqs[ls[i].req] == Holding(e.args, e.conn)
    && forall k :: i < k <= |ls| ==> e in Exec(t0, ls[..k]).pool
  }

  lemma IdleStep(s: State, l: Label, e: Entry<nat>)
    requires Inv(s) && Enabled(s, l) && e in Apply(s, l).pool && e.Idle() && e !in s.pool
    ensures l.Finish? && l.reusable && s.reqs[l.req] == Holding(e.args, e.conn) && s.now == e.lastUse
  {
    match l
    case SweepPool(r) => SweepKeeps(s.pool, s.reqs[r].t);
    case Finish(r, reusable) => ReleaseStep(s, r, reusable, e);
    case _ =>
  }

  lemma ReleaseStep(s: State, r: nat, reusable: bool, e: Entry<nat>)
    requires Inv(s) && Enabled(s, Finish(r, reusable)) && e in Apply(s, Finish(r, reusable)).pool && e !in s.pool
    ensures reusable && s.reqs[r] == Holding(e.args, e.conn) && s.now == e.lastUse
  {
    var i := FindConn(s.pool, s.reqs[r].conn);
    if reusable && i < |s.pool| {
      assert s.pool[i] in s.pool;
    }
  }

  /** The time in an idle entry is the clock at the step that released it. */
  lemma {:induction false} IdleSinceRelease(t0: int, ls: seq<Label>, e: Entry<nat>) returns (i: nat)
    requires Legal(t0, ls) && e in Exec(t0, ls).pool && e.Idle()
    ensures ReleasedAt(t0, ls, e, i)
  {
    var before, l := ls[..|ls| - 1], ls[|ls| - 1];
    if e in Exec(t0, before).pool {
      i := IdleSinceRelease(t0, before, e);
      assert before[..i] == ls[..i];
      forall k | i < k <= |ls| ensures e in Exec(t0, ls[..k]).pool {
        assert k <= |before| ==> before[..k] == ls[..k];
        assert k == |ls| ==> ls[..k] == ls;
      }
    } else {
      InvRun(t0, before);
      IdleStep(Exec(t0, before), l, e);
      i := |ls| - 1;
      assert ls[..|ls|] == ls;
    }
  }

  /** A connection that a search can lease was released at most 55 seconds before the reading of the clock
      with which the request swept. */
  lemma FreshReuse(t0: int, ls: seq<Label>, r: nat, e: Entry<nat>)
    requires Legal(t0, ls) && Enabled(Exec(t0, ls), Search(r)) && e in Exec(t0, ls).pool && e.Idle()
    ensures exists i: nat, j: nat ::
              && ReleasedAt(t0, ls, e, i) && LatestReading(ls, r, j)
              && Exec(t0, ls[..i]).now >= Exec(t0, ls[..j]).now - 55
  {
    var i := IdleSinceRelease(t0, ls, e);
    var j := SweptAtItsReading(t0, ls, r);
    InvRun(t0, ls);
  }

  ghost predicate Listed(s: State, conn: nat) {
    exists e :: e in s.pool && e.conn == conn
  }

  /** A connection leaves the list only when its holder ends with an error or a closed stream, or when a
      sweep finds it idle for more than 55 seconds; and then it does leave. */
  lemma LeavesIff(s: State, l: Label, e: Entry<nat>)
    requires Inv(s) && Enabled(s, l) && e in s.pool
    ensures !Listed(Apply(s, l), e.conn) <==>
              || (l.Finish? && !l.reusable && s.reqs[l.req].conn == e.conn)
              || (l.SweepPool? && !e.inUse && s.reqs[l.req].t - e.lastUse > 55)
  {
    var s' := Apply(s, l);
    match l
    case SweepPool(r) =>
      SweepKeeps(s.pool, s.reqs[r].t);
      SweptLeaves(s, s', r, e);
    case Search(r) =>
      var k :| 0 <= k < |s.pool| && s.pool[k] == e;
      assert s'.pool[k] in s'.pool && s'.pool[k].conn == e.conn;
    case Finish(r, reusable) =>
      FinishLeaves(s, r, reusable, e);
    case _ =>
      assert e in s'.pool;
  }

  lemma SweptLeaves(s: State, s': State, r: nat, e: Entry<nat>)
    requires PoolOk(s) && e in s.pool
    requires r in s.reqs && s.reqs[r].Clocked?
    requires forall x :: x in s'.pool <==> x in s.pool && (x.inUse || s.reqs[r].t - x.lastUse <= 55)
    ensures Listed(s', e.conn) <==> e.inUse || s.reqs[r].t - e.lastUse <= 55
  {
    if x :| x in s'.pool && x.conn == e.conn {
      assert x in s.pool;
      FindMember(s.pool, x);
      FindMember(s.pool, e);
    }
  }

  lemma FinishLeaves(s: State, r: nat, reusable: bool, e: Entry<nat>)
    requires Inv(s) && Enabled(s, Finish(r, reusable)) && e in s.pool
    ensures Listed(Apply(s, Finish(r, reusable)), e.conn) <==> reusable || s.reqs[r].conn != e.conn
  {
    var conn := s.reqs[r].conn;
    var i := FindConn(s.pool, conn);
    var after := Apply(s, Finish(r, reusable)).pool;
    if reusable {
      var k :| 0 <= k < |s.pool| && s.pool[k] == e;
      assert after[k] in after && after[k].conn == e.conn;
    } else {
      RemoveMembers(s.pool, conn);
    }
  }

  // ---------- No request waits for another ----------

  predicate IsStepOf(l: Label, r: nat) {
    !l.Tick? && l.req == r
  }

  /** `run` continues `ls` with steps of request r alone. */
  ghost predicate Alone(t0: int, r: nat, ls: seq<Label>, run: seq<Label>) {
    Legal(t0, run) && ls <= run && forall k :: |ls| <= k < |run| ==> IsStepOf(run[k], r)
  }

  lemma AloneStep(t0: int, r: nat, ls: seq<Label>, run: seq<Label>, l: Label) returns (longer: seq<Label>)
    requires Alone(t0, r, ls, run) && Enabled(Exec(t0, run), l) && IsStepOf(l, r)
    ensures Alone(t0, r, ls, longer) && Exec(t0, longer) == Apply(Exec(t0, run), l)
  {
    longer := run + [l];
    assert longer[..|longer| - 1] == run;
  }

  function Stage(q: Request): nat {
    match q
    case Requested(_) => 5
    case Clocked(_, _) => 4
    case Swept(_, _) => 3
    case Connecting(_, _) => 2
    case Stamped(_, _, _) => 1
    case Holding(_, _) => 0
  }

  lemma {:induction false} ServedFrom(t0: int, r: nat, ls: seq<Label>, before: seq<Label>) returns (run: seq<Label>)
    requires Alone(t0, r, ls, before) && r in Exec(t0, before).reqs
    ensures Alone(t0, r, ls, run) && r in Exec(t0, run).reqs && Exec(t0, run).reqs[r].Holding?
    decreases Stage(Exec(t0, before).reqs[r])
  {
    var q := Exec(t0, before).reqs[r];
    if q.Holding? {
      run := before;
    } else {
      var l := match q
        case Requested(_) => ReadClock(r)
        case Clocked(_, _) => SweepPool(r)
        case Swept(_, _) => Search(r)
        case Connecting(_, _) => Opened(r)
        case _ => Insert(r);
      run := AloneStep(t0, r, ls, before, l);
      run := ServedFrom(t0, r, ls, run);
    }
  }

  /** From every point of every run, a request in flight can get a connection by its own steps, whatever
      stage the other requests are in. */
  lemma ServedAlone(t0: int, ls: seq<Label>, r: nat)
    requires Legal(t0, ls) && r in Exec(t0, ls).reqs
    ensures exists run :: Alone(t0, r, ls, run) && r in Exec(t0, run).reqs && Exec(t0, run).reqs[r].Holding?
  {
    var run := ServedFrom(t0, r, ls, ls);
  }
}
