/** What the keep-alive list promises over every run. */
module PoolTheorems {
  import opened SeqFacts
  import opened ConnPool
  import opened PoolProtocol

  /** A host and a port. */
  type Key = (string, string)

  predicate To(a: Args, k: Key) {
    a.host == k.0 && a.port == k.1
  }

  ghost predicate SoleHolder(s: State, r: nat, e: Entry<nat>) {
    && r in s.reqs && s.reqs[r] == Holding(e.args, e.conn)
    && forall q :: q in s.reqs && s.reqs[q].Holding? && s.reqs[q].conn == e.conn ==> q == r
  }

  /** Entries are distinct; each entry in use has exactly one holder, with the same arguments; each
      holder's connection is on the list, where release and delete find it; and when no request is in
      flight no entry is in use. */
  lemma ExclusiveLeases(t0: int, ls: seq<Label>)
    requires Legal(t0, ls)
    ensures var s := Exec(t0, ls);
            && DistinctConns(s.pool)
            && (forall e :: e in s.pool && e.inUse ==> exists r :: SoleHolder(s, r, e))
            && (forall r :: r in s.reqs && s.reqs[r].Holding? ==>
                  var i := FindConn(s.pool, s.reqs[r].conn);
                  i < |s.pool| && s.pool[i].inUse && s.pool[i].args == s.reqs[r].args)
            && (s.reqs == map[] ==> forall e :: e in s.pool ==> e.Idle())
  {
    var s := Exec(t0, ls);
    InvRun(t0, ls);
    forall e | e in s.pool && e.inUse ensures exists r :: SoleHolder(s, r, e) {
      assert e.conn in InUseConns(s.pool);
      var r :| r in s.reqs && s.reqs[r].Holding? && s.reqs[r].conn == e.conn;
      assert SoleHolder(s, r, e);
    }
    forall r | r in s.reqs && s.reqs[r].Holding? ensures FindConn(s.pool, s.reqs[r].conn) < |s.pool| {
      assert s.reqs[r].conn in HeldConns(s.reqs);
      var e :| e in s.pool && e.inUse && e.conn == s.reqs[r].conn;
      FindMember(s.pool, e);
    }
  }

  /** Only its own ReadClock gives a request a reading, and only its own sweep makes it swept. */
  lemma ReadingStep(s: State, l: Label, r: nat)
    requires Enabled(s, l) && l != ReadClock(r)
    requires var s' := Apply(s, l); r in s'.reqs && (s'.reqs[r].Clocked? || s'.reqs[r].Swept?)
    ensures r in s.reqs && (s.reqs[r].Clocked? || s.reqs[r].Swept?) && s.reqs[r].t == Apply(s, l).reqs[r].t
    ensures Apply(s, l).reqs[r].Swept? ==> s.reqs[r].Swept? || l == SweepPool(r)
  {
  }

  /** The step j is the latest reading of the clock under the number r; numbers are used again after a
      request has ended. */
  ghost predicate LatestReading(ls: seq<Label>, r: nat, j: nat) {
    j < |ls| && ls[j] == ReadClock(r) && ReadClock(r) !in ls[j + 1..]
  }

  /** The reading a request swept with is the clock at its own ReadClock step. */
  lemma {:induction false} SweptAtItsReading(t0: int, ls: seq<Label>, r: nat) returns (j: nat)
    requires Legal(t0, ls) && r in Exec(t0, ls).reqs
    requires Exec(t0, ls).reqs[r].Clocked? || Exec(t0, ls).reqs[r].Swept?
    ensures LatestReading(ls, r, j) && Exec(t0, ls[..j]).now == Exec(t0, ls).reqs[r].t
    ensures Exec(t0, ls).reqs[r].Swept? ==> SweepPool(r) in ls[j..]
  {
    var before, l := ls[..|ls| - 1], ls[|ls| - 1];
    if l == ReadClock(r) {
      j := |ls| - 1;
    } else {
      ReadingStep(Exec(t0, before), l, r);
      j := SweptAtItsReading(t0, before, r);
      LaterSteps(before, l, j, ls);
    }
  }

  lemma LaterSteps(before: seq<Label>, l: Label, j: nat, ls: seq<Label>)
    requires j < |before| && ls == before + [l]
    ensures ls[..j] == before[..j] && ls[j] == before[j]
    ensures ls[j..] == before[j..] + [l] && ls[j + 1..] == before[j + 1..] + [l]
  {
  }

  /** A request that read the clock at t, swept, and now finds an idle connection gets one last used at
      t - 55 or later, whatever other requests did since. */
  lemma StalenessBound(t0: int, ls: seq<Label>, r: nat)
    requires Legal(t0, ls) && Enabled(Exec(t0, ls), Search(r))
    ensures var s := Exec(t0, ls);
            exists j: nat ::
              && LatestReading(ls, r, j) && SweepPool(r) in ls[j..]
              && Exec(t0, ls[..j]).now == s.reqs[r].t
              && forall e :: e in s.pool && e.Idle() ==> e.lastUse >= Exec(t0, ls[..j]).now - 55
  {
    InvRun(t0, ls);
    var j := SweptAtItsReading(t0, ls, r);
  }

  // ---------- The size of the list ----------

  function CountKey(es: seq<Entry<nat>>, k: Key): nat {
    if es == [] then 0 else (if To(es[0].args, k) then 1 else 0) + CountKey(es[1..], k)
  }

  ghost function Requests(s: State, k: Key): set<nat> {
    set r | r in s.reqs && s.reqs[r].args.host == k.0 && s.reqs[r].args.port == k.1
  }

  predicate OpensFor(q: Request, k: Key) {
    To(q.args, k) && q.Opening()
  }

  ghost function OpeningFor(reqs: map<nat, Request>, k: Key): set<nat> {
    set r | r in reqs && OpensFor(reqs[r], k)
  }

  ghost function HoldersFor(s: State, k: Key): set<nat> {
    set r | r in s.reqs && To(s.reqs[r].args, k) && s.reqs[r].Holding?
  }

  /** Listed connections to k plus connections to k being opened. */
  ghost function Load(s: State, k: Key): nat {
    CountKey(s.pool, k) + |OpeningFor(s.reqs, k)|
  }

  lemma {:induction false} CountConcat(a: seq<Entry<nat>>, b: seq<Entry<nat>>, k: Key)
    ensures CountKey(a + b, k) == CountKey(a, k) + CountKey(b, k)
  {
    if a == [] {
      assert a + b == b;
    } else {
      assert (a + b)[1..] == a[1..] + b;
      CountConcat(a[1..], b, k);
    }
  }

  lemma CountAt(es: seq<Entry<nat>>, i: nat, k: Key)
    requires i < |es|
    ensures CountKey(es, k) == CountKey(es[..i], k) + CountKey([es[i]], k) + CountKey(es[i + 1..], k)
  {
    assert es == es[..i] + [es[i]] + es[i + 1..];
    CountConcat(es[..i] + [es[i]], es[i + 1..], k);
    CountConcat(es[..i], [es[i]], k);
  }

  lemma CountUpdate(es: seq<Entry<nat>>, i: nat, e: Entry<nat>, k: Key)
    requires i < |es| && To(e.args, k) == To(es[i].args, k)
    ensures CountKey(es[i := e], k) == CountKey(es, k)
  {
    CountAt(es, i, k);
    CountAt(es[i := e], i, k);
    assert es[i := e][..i] == es[..i] && es[i := e][i + 1..] == es[i + 1..];
  }

  lemma CountRemove(es: seq<Entry<nat>>, conn: nat, k: Key)
    ensures CountKey(Remove(es, conn), k) <= CountKey(es, k)
  {
    var i := FindConn(es, conn);
    if i < |es| {
      CountAt(es, i, k);
      CountConcat(es[..i], es[i + 1..], k);
    }
  }

  lemma {:induction false} CountSweep(es: seq<Entry<nat>>, now: int, k: Key)
    ensures CountKey(Sweep(es, now), k) <= CountKey(es, k)
  {
    if es != [] {
      CountSweep(es[1..], now, k);
      assert ([es[0]] + Sweep(es[1..], now))[1..] == Sweep(es[1..], now);
    }
  }

  ghost function ConnsFor(es: seq<Entry<nat>>, k: Key): set<nat> {
    set e | e in es && To(e.args, k) :: e.conn
  }

  lemma {:induction false} CountIsConns(es: seq<Entry<nat>>, k: Key)
    requires DistinctConns(es)
    ensures CountKey(es, k) == |ConnsFor(es, k)|
  {
    if es == [] {
      assert ConnsFor(es, k) == {};
    } else {
      var e0, rest := es[0], es[1..];
      CountIsConns(rest, k);
      assert forall e :: e in es <==> e == e0 || e in rest;
      if To(e0.args, k) {
        assert ConnsFor(es, k) == ConnsFor(rest, k) + {e0.conn};
      } else {
        assert ConnsFor(es, k) == ConnsFor(rest, k);
      }
    }
  }

  lemma {:induction false} ImageSize(rs: set<nat>, reqs: map<nat, Request>)
    requires forall r :: r in rs ==> r in reqs && reqs[r].Holding?
    ensures |set r | r in rs :: reqs[r].conn| <= |rs|
  {
    var image := set r | r in rs :: reqs[r].conn;
    if rs == {} {
      assert image == {};
    } else {
      var x :| x in rs;
      ImageSize(rs - {x}, reqs);
      var rest := set r | r in rs - {x} :: reqs[r].conn;
      assert image == rest + {reqs[x].conn};
    }
  }

  /** When no connection to k is idle, there are at most as many as there are holders. */
  lemma BusyKeyIsHeld(s: State, k: Key)
    requires PoolOk(s) && LeaseOk(s)
    requires forall e :: e in s.pool && To(e.args, k) ==> e.inUse
    ensures CountKey(s.pool, k) <= |HoldersFor(s, k)|
  {
    CountIsConns(s.pool, k);
    var held := HoldersFor(s, k);
    var image := set r | r in held :: s.reqs[r].conn;
    forall c | c in ConnsFor(s.pool, k) ensures c in image {
      var e :| e in s.pool && To(e.args, k) && e.conn == c;
      assert c in InUseConns(s.pool);
      var r :| r in s.reqs && s.reqs[r].Holding? && s.reqs[r].conn == c;
      assert r in held;
    }
    SubsetSize(ConnsFor(s.pool, k), image);
    ImageSize(held, s.reqs);
  }

  /** A search that misses opens a connection that some request in flight needs. */
  lemma MissIsDemand(s: State, r: nat)
    requires Inv(s) && Enabled(s, Search(r)) && FindIdle(s.pool, s.reqs[r].args) == |s.pool|
    ensures var s' := Apply(s, Search(r));
            var k := (s.reqs[r].args.host, s.reqs[r].args.port);
            Load(s', k) <= |Requests(s', k)|
  {
    var k := (s.reqs[r].args.host, s.reqs[r].args.port);
    assert forall e :: e in s.pool && To(e.args, k) ==> e.inUse;
    BusyKeyIsHeld(s, k);
    assert HoldersFor(Apply(s, Search(r)), k) == HoldersFor(s, k);
    HoldersAndOpening(Apply(s, Search(r)), k);
  }

  lemma HoldersAndOpening(s: State, k: Key)
    ensures |HoldersFor(s, k)| + |OpeningFor(s.reqs, k)| <= |Requests(s, k)|
  {
    assert HoldersFor(s, k) !! OpeningFor(s.reqs, k);
    SubsetSize(HoldersFor(s, k) + OpeningFor(s.reqs, k), Requests(s, k));
  }

  lemma OpeningUpdate(reqs: map<nat, Request>, r: nat, q: Request, k: Key)
    requires (r in reqs && OpensFor(reqs[r], k)) || !OpensFor(q, k)
    ensures |OpeningFor(reqs[r := q], k)| <= |OpeningFor(reqs, k)|
    ensures r in reqs && OpensFor(reqs[r], k) && !OpensFor(q, k) ==>
              |OpeningFor(reqs[r := q], k)| < |OpeningFor(reqs, k)|
  {
    var after := OpeningFor(reqs[r := q], k);
    SubsetSize(after, OpeningFor(reqs, k));
    if r in reqs && OpensFor(reqs[r], k) && !OpensFor(q, k) {
      assert r in OpeningFor(reqs, k) && r !in after;
    }
  }

  lemma OpeningRemove(reqs: map<nat, Request>, r: nat, k: Key)
    ensures |OpeningFor(reqs - {r}, k)| <= |OpeningFor(reqs, k)|
  {
    SubsetSize(OpeningFor(reqs - {r}, k), OpeningFor(reqs, k));
  }

  /** The search of a request for another host and port, or one that finds an idle connection. */
  lemma LoadSearch(s: State, r: nat, k: Key)
    requires Enabled(s, Search(r))
    requires To(s.reqs[r].args, k) ==> FindIdle(s.pool, s.reqs[r].args) < |s.pool|
    ensures Load(Apply(s, Search(r)), k) <= Load(s, k)
  {
    OpeningUpdate(s.reqs, r, Apply(s, Search(r)).reqs[r], k);
    var i := FindIdle(s.pool, s.reqs[r].args);
    if i < |s.pool| {
      CountUpdate(s.pool, i, Leased(s.pool[i], s.reqs[r].args, s.now), k);
    }
  }

  lemma LoadInsert(s: State, r: nat, k: Key)
    requires Enabled(s, Insert(r))
    ensures Load(Apply(s, Insert(r)), k) <= Load(s, k)
  {
    var s' := Apply(s, Insert(r));
    OpeningUpdate(s.reqs, r, s'.reqs[r], k);
    CountConcat(s.pool, [s'.pool[|s.pool|]], k);
  }

  lemma LoadFinish(s: State, r: nat, reusable: bool, k: Key)
    requires Enabled(s, Finish(r, reusable))
    ensures Load(Apply(s, Finish(r, reusable)), k) <= Load(s, k)
  {
    OpeningRemove(s.reqs, r, k);
    var i := FindConn(s.pool, s.reqs[r].conn);
    if !reusable {
      CountRemove(s.pool, s.reqs[r].conn, k);
    } else if i < |s.pool| {
      CountUpdate(s.pool, i, s.pool[i].(inUse := false, lastUse := s.now), k);
    }
  }

  /** Every step but a search that misses leaves the load of every key where it was or lowers it. */
  lemma LoadStep(s: State, l: Label, k: Key)
    requires Enabled(s, l)
    requires l.Search? && To(s.reqs[l.req].args, k) ==> FindIdle(s.pool, s.reqs[l.req].args) < |s.pool|
    ensures Load(Apply(s, l), k) <= Load(s, k)
  {
    match l
    case Tick(_) =>
    case Arrive(r, a) => OpeningUpdate(s.reqs, r, Requested(a), k);
    case ReadClock(r) => OpeningUpdate(s.reqs, r, Clocked(s.reqs[r].args, s.now), k);
    case SweepPool(r) =>
      OpeningUpdate(s.reqs, r, Swept(s.reqs[r].args, s.reqs[r].t), k);
      CountSweep(s.pool, s.reqs[r].t, k);
    case Search(r) => LoadSearch(s, r, k);
    case OpenFails(r) => OpeningRemove(s.reqs, r, k);
    case Opened(r) => OpeningUpdate(s.reqs, r, Stamped(s.reqs[r].args, s.reqs[r].conn, s.now), k);
    case Insert(r) => LoadInsert(s, r, k);
    case Finish(r, reusable) => LoadFinish(s, r, reusable, k);
  }

  lemma {:induction false} DemandWitness(t0: int, ls: seq<Label>, k: Key) returns (j: nat)
    requires Legal(t0, ls)
    ensures j <= |ls| && Load(Exec(t0, ls), k) <= |Requests(Exec(t0, ls[..j]), k)|
  {
    if ls == [] {
      j := 0;
      assert OpeningFor(Init(t0).reqs, k) == {};
    } else {
      var before, l := ls[..|ls| - 1], ls[|ls| - 1];
      var s := Exec(t0, before);
      InvRun(t0, before);
      if l.Search? && To(s.reqs[l.req].args, k) && FindIdle(s.pool, s.reqs[l.req].args) == |s.pool| {
        MissIsDemand(s, l.req);
        j := |ls|;
        assert ls[..j] == ls;
      } else {
        j := DemandWitness(t0, before, k);
        LoadStep(s, l, k);
        assert ls[..j] == before[..j];
      }
    }
  }

  /** The list is bounded by demand: at every point of every run, and for every host and port, the
      connections listed or being opened are no more than the requests that were in flight to it at
      some moment of the run so far. */
  lemma BoundedByDemand(t0: int, ls: seq<Label>, host: string, port: string)
    requires Legal(t0, ls)
    ensures var s := Exec(t0, ls);
            var listed := set e | e in s.pool && e.args.host == host && e.args.port == port :: e.conn;
            var opening := set r | r in s.reqs && s.reqs[r].Opening()
                                   && s.reqs[r].args.host == host && s.reqs[r].args.port == port;
            exists j: nat :: j <= |ls| && |listed| + |opening| <= |Requests(Exec(t0, ls[..j]), (host, port))|
  {
    var s, k := Exec(t0, ls), (host, port);
    InvRun(t0, ls);
    var j := DemandWitness(t0, ls, k);
    CountIsConns(s.pool, k);
    assert ConnsFor(s.pool, k) == set e | e in s.pool && e.args.host == host && e.args.port == port :: e.conn;
    assert OpeningFor(s.reqs, k) == set r | r in s.reqs && s.reqs[r].Opening()
                                           && s.reqs[r].args.host == host && s.reqs[r].args.port == port;
  }
}
