/** The keep-alive list of the HTTP client. `Entry` and the functions on sequences of entries are the
    specification of the list operations; `HttpCache` is the object whose list and connections the
    operations update. The same text serves the http list and the https list: the latter's requests
    carry TLS settings. */
module ConnPool {
  import opened SeqFacts

  /** Seconds a connection may stay idle. */
  const UNUSE_TIMEOUT: int := 55

  datatype Tls = NoTls | Tls(handshakeTimeout: int, cert: string)

  datatype Args = Args(host: string, port: string, dnsTimeout: int, connTimeout: int, reqTimeout: int, tls: Tls)

  datatype Entry<C> = Entry(conn: C, args: Args, inUse: bool, lastUse: int) {
    predicate Idle() {
      !inUse
    }

    /** Whether a sweep that read the clock at `now` keeps the entry. */
    predicate Kept(now: int) {
      inUse || now - lastUse <= UNUSE_TIMEOUT
    }

    predicate Serves(a: Args) {
      !inUse && args.host == a.host && args.port == a.port
    }
  }

  /** An order-preserving filter. */
  function Sweep<C>(es: seq<Entry<C>>, now: int): (r: seq<Entry<C>>)
    ensures |r| <= |es|
  {
    if es == [] then []
    else if es[0].Kept(now) then [es[0]] + Sweep(es[1..], now)
    else Sweep(es[1..], now)
  }

  lemma {:induction false} SweepKeeps<C>(es: seq<Entry<C>>, now: int)
    ensures forall i :: 0 <= i < |Sweep(es, now)| ==> Sweep(es, now)[i] in es
    ensures forall e :: e in Sweep(es, now) <==> e in es && (e.inUse || now - e.lastUse <= 55)
  {
    if es != [] {
      SweepKeeps(es[1..], now);
      assert es == [es[0]] + es[1..];
    }
  }

  lemma {:induction false} SweepConcat<C>(a: seq<Entry<C>>, b: seq<Entry<C>>, now: int)
    ensures Sweep(a + b, now) == Sweep(a, now) + Sweep(b, now)
  {
    if a == [] {
      assert a + b == b;
    } else {
      assert (a + b)[0] == a[0] && (a + b)[1..] == a[1..] + b;
      SweepConcat(a[1..], b, now);
    }
  }

  /** A sweep decides about each entry alone and leaves the others in their order. */
  lemma SweepEach<C>(before: seq<Entry<C>>, e: Entry<C>, after: seq<Entry<C>>, now: int)
    ensures Sweep(before + [e] + after, now)
         == Sweep(before, now) + (if e.inUse || now - e.lastUse <= 55 then [e] else []) + Sweep(after, now)
  {
    SweepConcat(before + [e], after, now);
    SweepConcat(before, [e], now);
  }

  /** The first entry that can serve `a`, or the length of the list. */
  function FindIdle<C>(es: seq<Entry<C>>, a: Args): (i: nat)
    ensures i <= |es|
    ensures i < |es| ==> es[i].Serves(a)
    ensures forall j :: 0 <= j < i ==> !es[j].Serves(a)
  {
    if es == [] then 0 else if es[0].Serves(a) then 0 else 1 + FindIdle(es[1..], a)
  }

  /** The first entry for `conn`, or the length of the list. */
  function FindConn<C(==)>(es: seq<Entry<C>>, conn: C): (i: nat)
    ensures i <= |es|
    ensures i < |es| ==> es[i].conn == conn
    ensures forall j :: 0 <= j < i ==> es[j].conn != conn
  {
    if es == [] then 0 else if es[0].conn == conn then 0 else 1 + FindConn(es[1..], conn)
  }

  /** A lease takes over the settings of the request; where the connection leads stays as it was. */
  function Leased<C>(e: Entry<C>, a: Args, now: int): Entry<C> {
    e.(args := Args(e.args.host, e.args.port, a.dnsTimeout, a.connTimeout, a.reqTimeout, a.tls),
       inUse := true, lastUse := now)
  }

  function Lease<C>(es: seq<Entry<C>>, a: Args, now: int): seq<Entry<C>> {
    var i := FindIdle(es, a);
    if i < |es| then es[i := Leased(es[i], a, now)] else es
  }

  function Release<C(==)>(es: seq<Entry<C>>, conn: C, now: int): seq<Entry<C>> {
    var i := FindConn(es, conn);
    if i < |es| then es[i := es[i].(inUse := false, lastUse := now)] else es
  }

  function Remove<C(==)>(es: seq<Entry<C>>, conn: C): seq<Entry<C>> {
    var i := FindConn(es, conn);
    if i < |es| then es[..i] + es[i + 1..] else es
  }

  class HttpConnection {
    var args: Args
    var inUse: bool
    var lastUse: int

    constructor (args: Args)
      ensures this.args == args && !inUse
    {
      this.args, inUse, lastUse := args, false, 0;
    }

    function Snapshot(): Entry<HttpConnection>
      reads this
    {
      Entry(this, args, inUse, lastUse)
    }
  }

  /** The list of connections as a list of entries. */
  ghost function View(cs: seq<HttpConnection>): (es: seq<Entry<HttpConnection>>)
    reads cs
    ensures |es| == |cs|
    ensures forall i :: 0 <= i < |cs| ==> es[i] == cs[i].Snapshot()
  {
    seq(|cs|, i requires 0 <= i < |cs| reads cs => cs[i].Snapshot())
  }

  lemma FindIdleIs<C>(es: seq<Entry<C>>, a: Args, i: nat)
    requires i <= |es| && (i < |es| ==> es[i].Serves(a)) && forall j :: 0 <= j < i ==> !es[j].Serves(a)
    ensures FindIdle(es, a) == i
  {
  }

  lemma FindConnIs<C>(es: seq<Entry<C>>, conn: C, i: nat)
    requires i <= |es| && (i < |es| ==> es[i].conn == conn) && forall j :: 0 <= j < i ==> es[j].conn != conn
    ensures FindConn(es, conn) == i
  {
  }

  /** What a sweep that has dealt with the entries before `it` will leave. */
  ghost function Remaining<C>(v: seq<Entry<C>>, it: nat, now: int): seq<Entry<C>>
    requires it <= |v|
  {
    v[..it] + Sweep(v[it..], now)
  }

  lemma SweepTurn<C>(v: seq<Entry<C>>, it: nat, now: int)
    requires it < |v|
    ensures Remaining(v, it, now)
         == if v[it].Kept(now) then Remaining(v, it + 1, now) else Remaining(v[..it] + v[it + 1..], it, now)
  {
  }

  lemma NoDupErase<T>(s: seq<T>, i: nat)
    requires NoDup(s) && i < |s|
    ensures NoDup(s[..i] + s[i + 1..])
  {
  }

  /** Erasing removes that element and no other. */
  lemma EraseOnly<T>(s: seq<T>, i: nat)
    requires NoDup(s) && i < |s|
    ensures var r := s[..i] + s[i + 1..];
            forall x :: x in r <==> x in s && x != s[i]
  {
    assert s == s[..i] + [s[i]] + s[i + 1..];
  }

  class HttpCache {
    var conns: seq<HttpConnection>

    /** No connection is listed twice. */
    ghost predicate Valid()
      reads this
    {
      NoDup(conns)
    }

    constructor ()
      ensures Valid() && conns == []
    {
      conns := [];
    }

    /** list::erase. */
    method Erase(it: nat)
      requires Valid() && it < |conns|
      modifies this
      ensures Valid()
      ensures |conns| == old(|conns|) - 1
      ensures forall c :: c in conns <==> c in old(conns) && c != old(conns[it])
      ensures View(conns) == old(View(conns)[..it] + View(conns)[it + 1..])
    {
      ghost var es := View(conns);
      NoDupErase(conns, it);
      EraseOnly(conns, it);
      conns := conns[..it] + conns[it + 1..];
      assert View(conns) == es[..it] + es[it + 1..];
    }

    /** delete_timeout_http_connect: the erase-while-iterating loop is the filter. */
    method DeleteTimeout(now: int)
      requires Valid()
      modifies this
      ensures Valid()
      ensures View(conns) == Sweep(old(View(conns)), now)
    {
      ghost var es := View(conns);
      var it: nat := 0;
      while it < |conns|
        invariant it <= |conns|
        invariant Remaining(View(conns), it, now) == Sweep(es, now)
        invariant Valid()
        decreases |conns| - it
      {
        SweepTurn(View(conns), it, now);
        var ptr := conns[it];
        if !ptr.inUse {
          var diff := now - ptr.lastUse;
          if diff > UNUSE_TIMEOUT {
            Erase(it);
          } else {
            it := it + 1;
          }
        } else {
          it := it + 1;
        }
      }
    }

    /** The search of get_http_connect: lease the first idle connection to the same host and port. */
    method LeaseIdle(args: Args, now: int) returns (r: HttpConnection?)
      requires Valid()
      modifies conns
      ensures View(conns) == Lease(old(View(conns)), args, now)
      ensures r == null <==>
                forall c :: c in conns ==>
                  old(c.inUse) || old(c.args.host) != args.host || old(c.args.port) != args.port
      ensures r != null ==> exists i :: 0 <= i < |conns| && r == conns[i] && forall j :: 0 <= j < i ==>
                old(conns[j].inUse) || old(conns[j].args.host) != args.host || old(conns[j].args.port) != args.port
      ensures r != null ==>
                && r in conns && !old(r.inUse) && old(r.args.host) == args.host && old(r.args.port) == args.port
                && r.inUse && r.lastUse == now && r.args == args
      ensures forall c :: c in conns && c != r ==> c.Snapshot() == old(c.Snapshot())
    {
      ghost var es := View(conns);
      r := null;
      for it := 0 to |conns|
        invariant forall j :: 0 <= j < it ==> !es[j].Serves(args)
      {
        var ptr := conns[it];
        if !ptr.inUse && ptr.args.host == args.host && ptr.args.port == args.port {
          FindIdleIs(es, args, it);
          ptr.args := ptr.args.(dnsTimeout := args.dnsTimeout, connTimeout := args.connTimeout,
                                reqTimeout := args.reqTimeout, tls := args.tls);
          ptr.inUse, ptr.lastUse := true, now;
          assert View(conns) == es[it := Leased(es[it], args, now)];
          return ptr;
        }
      }
      FindIdleIs(es, args, |conns|);
    }

    /** The end of get_http_connect: put a freshly opened connection on the list. */
    method Insert(conn: HttpConnection, now: int)
      requires Valid() && conn !in conns
      modifies this, conn
      ensures Valid()
      ensures View(conns) == old(View(conns)) + [Entry(conn, old(conn.args), true, now)]
    {
      ghost var before := conns;
      conn.inUse, conn.lastUse := true, now;
      conns := conns + [conn];
      assert conns[..|conns| - 1] == before;
    }

    method ReleaseConnect(conn: HttpConnection, now: int)
      requires Valid()
      modifies conns
      ensures View(conns) == Release(old(View(conns)), conn, now)
      ensures conn in conns ==> !conn.inUse && conn.lastUse == now && conn.args == old(conn.args)
      ensures forall c :: c in conns && c != conn ==> c.Snapshot() == old(c.Snapshot())
    {
      ghost var es := View(conns);
      for it := 0 to |conns|
        invariant forall j :: 0 <= j < it ==> es[j].conn != conn
      {
        var ptr := conns[it];
        if ptr == conn {
          FindConnIs(es, conn, it);
          ptr.inUse, ptr.lastUse := false, now;
          assert View(conns) == es[it := es[it].(inUse := false, lastUse := now)];
          return;
        }
      }
      FindConnIs(es, conn, |conns|);
    }

    method DeleteInvalid(conn: HttpConnection)
      requires Valid()
      modifies this
      ensures Valid()
      ensures View(conns) == Remove(old(View(conns)), conn)
      ensures conn !in conns && forall c :: c in old(conns) && c != conn ==> c in conns
    {
      ghost var es := View(conns);
      for it := 0 to |conns|
        invariant forall j :: 0 <= j < it ==> es[j].conn != conn
      {
        if conns[it] == conn {
          FindConnIs(es, conn, it);
          Erase(it);
          return;
        }
      }
      FindConnIs(es, conn, |conns|);
    }
  }
}
