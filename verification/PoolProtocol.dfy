/** Requests over the keep-alive list as a labelled transition system. Any number of requests are in
    flight; each lock-guarded block and each read of the clock is one atomic step, and the network
    decides between the steps. Connections are numbered in the order they are created. */
module PoolProtocol {
  import opened ConnPool

  /** Where a call of h1_req stands. */
  datatype Request =
    | Requested(args: Args)
    | Clocked(args: Args, t: int)            // read the clock for the sweep
    | Swept(args: Args, t: int)              // has swept with that reading
    | Connecting(args: Args, conn: nat)      // resolving, connecting, shaking hands
    | Stamped(args: Args, conn: nat, lastUse: int)   // connected, about to insert
    | Holding(args: Args, conn: nat)
  {
    predicate Opening() {
      Connecting? || Stamped?
    }
  }

  datatype State = State(now: int, pool: seq<Entry<nat>>, reqs: map<nat, Request>, nextConn: nat)

  datatype Label =
    | Tick(seconds: nat)
    | Arrive(req: nat, args: Args)
    | ReadClock(req: nat)
    | SweepPool(req: nat)
    | Search(req: nat)
    | OpenFails(req: nat)
    | Opened(req: nat)
    | Insert(req: nat)
    | Finish(req: nat, reusable: bool)   // release the connection, or delete it

  function Init(t0: int): State {
    State(t0, [], map[], 0)
  }

  predicate Enabled(s: State, l: Label) {
    match l
    case Tick(_) => true
    case Arrive(r, _) => r !in s.reqs
    case ReadClock(r) => r in s.reqs && s.reqs[r].Requested?
    case SweepPool(r) => r in s.reqs && s.reqs[r].Clocked?
    case Search(r) => r in s.reqs && s.reqs[r].Swept?
    case OpenFails(r) => r in s.reqs && s.reqs[r].Connecting?
    case Opened(r) => r in s.reqs && s.reqs[r].Connecting?
    case Insert(r) => r in s.reqs && s.reqs[r].Stamped?
    case Finish(r, _) => r in s.reqs && s.reqs[r].Holding?
  }

  function Apply(s: State, l: Label): State {
    if !Enabled(s, l) then s else
    match l
    case Tick(d) => s.(now := s.now + d)
    case Arrive(r, a) => s.(reqs := s.reqs[r := Requested(a)])
    case ReadClock(r) => s.(reqs := s.reqs[r := Clocked(s.reqs[r].args, s.now)])
    case SweepPool(r) =>
      s.(pool := Sweep(s.pool, s.reqs[r].t),
         reqs := s.reqs[r := Swept(s.reqs[r].args, s.reqs[r].t)])
    case Search(r) => AfterSearch(s, r, s.reqs[r].args)
    case OpenFails(r) => s.(reqs := s.reqs - {r})
    case Opened(r) => s.(reqs := s.reqs[r := Stamped(s.reqs[r].args, s.reqs[r].conn, s.now)])
    case Insert(r) =>
      var q := s.reqs[r];
      s.(pool := s.pool + [Entry(q.conn, q.args, true, q.lastUse)],
         reqs := s.reqs[r := Holding(q.args, q.conn)])
    case Finish(r, reusable) =>
      var conn := s.reqs[r].conn;
      s.(pool := if reusable then Release(s.pool, conn, s.now) else Remove(s.pool, conn),
         reqs := s.reqs - {r})
  }

  /** Lease the first idle match, or start opening a new connection. */
  function AfterSearch(s: State, r: nat, a: Args): State {
    var i := FindIdle(s.pool, a);
    if i < |s.pool|
    then s.(pool := Lease(s.pool, a, s.now), reqs := s.reqs[r := Holding(a, s.pool[i].conn)])
    else s.(reqs := s.reqs[r := Connecting(a, s.nextConn)], nextConn := s.nextConn + 1)
  }

  function Exec(t0: int, ls: seq<Label>): State {
    if ls == [] then Init(t0) else Apply(Exec(t0, ls[..|ls| - 1]), ls[|ls| - 1])
  }

  ghost predicate Legal(t0: int, ls: seq<Label>) {
    ls != [] ==> Legal(t0, ls[..|ls| - 1]) && Enabled(Exec(t0, ls[..|ls| - 1]), ls[|ls| - 1])
  }

  // ---------- Who is on the list after each operation ----------

  ghost predicate DistinctConns(es: seq<Entry<nat>>) {
    forall i, j :: 0 <= i < j < |es| ==> es[i].conn != es[j].conn
  }

  lemma {:induction false} SweepDistinct(es: seq<Entry<nat>>, now: int)
    requires DistinctConns(es)
    ensures DistinctConns(Sweep(es, now))
  {
    if es != [] {
      SweepDistinct(es[1..], now);
      SweepKeeps(es[1..], now);
      forall i | 0 <= i < |Sweep(es[1..], now)| ensures Sweep(es[1..], now)[i].conn != es[0].conn {
        assert Sweep(es[1..], now)[i] in es[1..];
      }
    }
  }

  lemma UpdateMembers(es: seq<Entry<nat>>, i: nat, e': Entry<nat>)
    requires DistinctConns(es) && i < |es| && e'.conn == es[i].conn
    ensures DistinctConns(es[i := e'])
    ensures forall e :: e in es[i := e'] <==> e == e' || (e in es && e.conn != e'.conn)
  {
    var fs := es[i := e'];
    forall e | e in es && e.conn != e'.conn ensures e in fs {
      var j :| 0 <= j < |es| && es[j] == e;
      assert fs[j] == e;
    }
    assert fs[i] == e';
    forall e | e in fs && e != e' ensures e in es && e.conn != e'.conn {
      var j :| 0 <= j < |fs| && fs[j] == e;
      assert es[j] == e;
    }
  }

  lemma AppendMembers(es: seq<Entry<nat>>, e': Entry<nat>)
    requires DistinctConns(es) && forall e :: e in es ==> e.conn != e'.conn
    ensures DistinctConns(es + [e'])
    ensures forall e :: e in es + [e'] <==> e == e' || (e in es && e.conn != e'.conn)
  {
  }

  lemma RemoveMembers(es: seq<Entry<nat>>, conn: nat)
    requires DistinctConns(es)
    ensures DistinctConns(Remove(es, conn))
    ensures forall e :: e in Remove(es, conn) <==> e in es && e.conn != conn
  {
  }

  lemma FindMember(es: seq<Entry<nat>>, e: Entry<nat>)
    requires DistinctConns(es) && e in es
    ensures FindConn(es, e.conn) < |es| && es[FindConn(es, e.conn)] == e
  {
  }

  // ---------- The invariant ----------

  ghost predicate PoolOk(s: State) {
    DistinctConns(s.pool) && forall e :: e in s.pool ==> e.conn < s.nextConn
  }

  ghost predicate OpeningOk(s: State) {
    && (forall r :: r in s.reqs && s.reqs[r].Opening() ==> s.reqs[r].conn < s.nextConn)
    && (forall r, e :: r in s.reqs && s.reqs[r].Opening() && e in s.pool ==> e.conn != s.reqs[r].conn)
    && (forall r, q :: r in s.reqs && q in s.reqs && s.reqs[r].Opening() && s.reqs[q].Opening() && r != q ==>
          s.reqs[r].conn != s.reqs[q].conn)
  }

  ghost function InUseConns(es: seq<Entry<nat>>): set<nat> {
    set e | e in es && e.inUse :: e.conn
  }

  ghost function HeldConns(reqs: map<nat, Request>): set<nat> {
    set r | r in reqs && reqs[r].Holding? :: reqs[r].conn
  }

  /** Leases are exclusive: holders and entries in use correspond one to one. */
  ghost predicate LeaseOk(s: State) {
    && InUseConns(s.pool) == HeldConns(s.reqs)
    && (forall r, e :: r in s.reqs && s.reqs[r].Holding? && e in s.pool && e.conn == s.reqs[r].conn ==>
          e.inUse && e.args == s.reqs[r].args)
    && (forall r, q :: r in s.reqs && q in s.reqs && s.reqs[r].Holding? && s.reqs[q].Holding? && r != q ==>
          s.reqs[r].conn != s.reqs[q].conn)
  }

  /** What a request that has swept can still find idle was used at most 55 seconds before its sweep. */
  ghost predicate FreshOk(s: State) {
    && (forall r :: r in s.reqs && (s.reqs[r].Clocked? || s.reqs[r].Swept?) ==> s.reqs[r].t <= s.now)
    && (forall r, e :: r in s.reqs && s.reqs[r].Swept? && e in s.pool && e.Idle() ==>
          e.lastUse >= s.reqs[r].t - 55)
  }

  ghost predicate Inv(s: State) {
    PoolOk(s) && OpeningOk(s) && LeaseOk(s) && FreshOk(s)
  }

  lemma HeldUpdate(reqs: map<nat, Request>, r: nat, q: Request)
    requires r in reqs ==> !reqs[r].Holding?
    ensures HeldConns(reqs[r := q]) == HeldConns(reqs) + if q.Holding? then {q.conn} else {}
  {
    var after := HeldConns(reqs[r := q]);
    forall c | c in HeldConns(reqs) ensures c in after {
      var x :| x in reqs && reqs[x].Holding? && reqs[x].conn == c;
      assert reqs[r := q][x] == reqs[x];
    }
    if q.Holding? {
      assert reqs[r := q][r] == q;
    }
  }

  lemma HeldRemove(reqs: map<nat, Request>, r: nat)
    requires r in reqs
    requires forall x :: x in reqs && x != r && reqs[x].Holding? && reqs[r].Holding? ==> reqs[x].conn != reqs[r].conn
    ensures HeldConns(reqs - {r}) == HeldConns(reqs) - if reqs[r].Holding? then {reqs[r].conn} else {}
  {
    var after := HeldConns(reqs - {r});
    forall c | c in HeldConns(reqs) && !(reqs[r].Holding? && c == reqs[r].conn) ensures c in after {
      var x :| x in reqs && reqs[x].Holding? && reqs[x].conn == c;
      assert (reqs - {r})[x] == reqs[x];
    }
  }

  lemma SweepStep(s: State, r: nat)
    requires Inv(s) && Enabled(s, SweepPool(r))
    ensures Inv(Apply(s, SweepPool(r)))
  {
    var s' := Apply(s, SweepPool(r));
    SweepDistinct(s.pool, s.reqs[r].t);
    SweepKeeps(s.pool, s.reqs[r].t);
    HeldUpdate(s.reqs, r, s'.reqs[r]);
    assert InUseConns(s'.pool) == InUseConns(s.pool);
  }

  /** No holder has the connection of an idle entry. */
  lemma IdleIsFree(s: State, e: Entry<nat>)
    requires PoolOk(s) && LeaseOk(s) && e in s.pool && e.Idle()
    ensures e.conn !in InUseConns(s.pool)
  {
  }

  /** Adding a holder and its entry keeps leases exclusive if the connection was free. */
  lemma GrantLease(s: State, s': State, r: nat, e1: Entry<nat>)
    requires LeaseOk(s) && e1.inUse && e1.conn !in InUseConns(s.pool)
    requires r in s.reqs && !s.reqs[r].Holding? && s'.reqs == s.reqs[r := Holding(e1.args, e1.conn)]
    requires forall e :: e in s'.pool <==> e == e1 || (e in s.pool && e.conn != e1.conn)
    ensures LeaseOk(s')
  {
    HeldUpdate(s.reqs, r, s'.reqs[r]);
    assert InUseConns(s'.pool) == InUseConns(s.pool) + {e1.conn};
    forall q | q in s.reqs && s.reqs[q].Holding? ensures s.reqs[q].conn != e1.conn {
      assert s.reqs[q].conn in HeldConns(s.reqs);
    }
  }

  lemma HitStep(s: State, r: nat)
    requires Inv(s) && Enabled(s, Search(r)) && FindIdle(s.pool, s.reqs[r].args) < |s.pool|
    ensures Inv(Apply(s, Search(r)))
  {
    var s' := Apply(s, Search(r));
    var i := FindIdle(s.pool, s.reqs[r].args);
    var e0, e1 := s.pool[i], Leased(s.pool[i], s.reqs[r].args, s.now);
    assert e0 in s.pool;
    UpdateMembers(s.pool, i, e1);
    IdleIsFree(s, e0);
    GrantLease(s, s', r, e1);
  }

  lemma InsertStep(s: State, r: nat)
    requires Inv(s) && Enabled(s, Insert(r))
    ensures Inv(Apply(s, Insert(r)))
  {
    var s' := Apply(s, Insert(r));
    var e1 := s'.pool[|s.pool|];
    AppendMembers(s.pool, e1);
    GrantLease(s, s', r, e1);
  }

  lemma FinishStep(s: State, r: nat, reusable: bool)
    requires Inv(s) && Enabled(s, Finish(r, reusable))
    ensures Inv(Apply(s, Finish(r, reusable)))
  {
    var s' := Apply(s, Finish(r, reusable));
    var conn := s.reqs[r].conn;
    assert conn in HeldConns(s.reqs);
    var e0 :| e0 in s.pool && e0.inUse && e0.conn == conn;
    FindMember(s.pool, e0);
    if reusable {
      UpdateMembers(s.pool, FindConn(s.pool, conn), e0.(inUse := false, lastUse := s.now));
    } else {
      RemoveMembers(s.pool, conn);
    }
    EndLease(s, s', r);
  }

  /** Ending a lease: the holder goes, and its entry goes or turns idle. */
  lemma EndLease(s: State, s': State, r: nat)
    requires LeaseOk(s) && r in s.reqs && s.reqs[r].Holding? && s'.reqs == s.reqs - {r}
    requires forall e :: e in s.pool && e.conn != s.reqs[r].conn ==> e in s'.pool
    requires forall e :: e in s'.pool ==>
               (e in s.pool && e.conn != s.reqs[r].conn) || (e.conn == s.reqs[r].conn && !e.inUse)
    ensures LeaseOk(s')
  {
    HeldRemove(s.reqs, r);
    assert InUseConns(s'.pool) == InUseConns(s.pool) - {s.reqs[r].conn};
  }

  /** Steps of one request that touch neither the list nor a lease. */
  lemma QuietStep(s: State, r: nat, q: Request)
    requires Inv(s) && (r in s.reqs ==> !s.reqs[r].Holding?) && !q.Holding? && !q.Swept?
    requires q.Clocked? ==> q.t <= s.now
    requires q.Opening() ==> r in s.reqs && s.reqs[r].Opening() && q.conn == s.reqs[r].conn
    ensures Inv(s.(reqs := s.reqs[r := q]))
  {
    HeldUpdate(s.reqs, r, q);
  }

  lemma MissStep(s: State, r: nat)
    requires Inv(s) && Enabled(s, Search(r)) && FindIdle(s.pool, s.reqs[r].args) == |s.pool|
    ensures Inv(Apply(s, Search(r)))
  {
    HeldUpdate(s.reqs, r, Apply(s, Search(r)).reqs[r]);
  }

  lemma OpenFailsStep(s: State, r: nat)
    requires Inv(s) && Enabled(s, OpenFails(r))
    ensures Inv(Apply(s, OpenFails(r)))
  {
    HeldRemove(s.reqs, r);
  }

  lemma InvStep(s: State, l: Label)
    requires Inv(s) && Enabled(s, l)
    ensures Inv(Apply(s, l))
  {
    match l
    case Tick(_) =>
    case Arrive(r, a) => QuietStep(s, r, Requested(a));
    case ReadClock(r) => QuietStep(s, r, Clocked(s.reqs[r].args, s.now));
    case SweepPool(r) => SweepStep(s, r);
    case Search(r) =>
      if FindIdle(s.pool, s.reqs[r].args) < |s.pool| {
        HitStep(s, r);
      } else {
        MissStep(s, r);
      }
    case OpenFails(r) => OpenFailsStep(s, r);
    case Opened(r) => QuietStep(s, r, Stamped(s.reqs[r].args, s.reqs[r].conn, s.now));
    case Insert(r) => InsertStep(s, r);
    case Finish(r, reusable) => FinishStep(s, r, reusable);
  }

  lemma {:induction false} InvRun(t0: int, ls: seq<Label>)
    requires Legal(t0, ls)
    ensures Inv(Exec(t0, ls))
  {
    if ls != [] {
      InvRun(t0, ls[..|ls| - 1]);
      InvStep(Exec(t0, ls[..|ls| - 1]), ls[|ls| - 1]);
    }
  }
}
