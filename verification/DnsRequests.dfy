/** The request table of evdns: requests in flight hashed by transaction id, requests that wait for
    room, and the counters of both and of every nameserver. */
module DnsRequests {
  import opened Wrappers
  import opened DnsRequestLists

  /** No two requests in flight have the same transaction id. */
  ghost predicate IdsDiffer(st: map<Request, Entry>) {
    forall r, s | r in st && s in st && r != s && st[r].ns != null && st[s].ns != null :: st[r].transId != st[s].transId
  }

  /** No request in flight has this transaction id. */
  ghost predicate IdIsFree(st: map<Request, Entry>, transId: nat) {
    forall r <- st :: st[r].ns != null ==> st[r].transId != transId
  }

  lemma {:induction false} NewIdsDiffer(st: map<Request, Entry>, r: Request, e: Entry)
    requires IdsDiffer(st) && (e.ns != null ==> IdIsFree(st, e.transId))
    ensures IdsDiffer(st[r := e])
  {
  }

  lemma {:induction false} EmptyTable(n: nat)
    requires n > 0
    ensures BucketsOk(map[], Empties(n)) && WaitingOk(map[], []) && Total(Empties(n)) == 0 && Counted(map[], [])
    ensures |Empties(n)| == n && forall i :: 0 <= i < n ==> Empties(n)[i] == []
  {
    TotalEmpty(Empties(n));
  }

  lemma EmptyRing()
    ensures Ring([], null)
  {
  }

  ghost predicate Distinct(servers: seq<Nameserver>) {
    forall i, j :: 0 <= i < j < |servers| ==> servers[i] != servers[j]
  }

  /** Every server counts the requests in flight at it. */
  ghost predicate Counted(st: map<Request, Entry>, servers: seq<Nameserver>)
    reads servers`requestsInflight
  {
    && Distinct(servers)
    && (forall r <- st :: st[r].ns != null ==> st[r].ns in servers)
    && (forall i :: 0 <= i < |servers| ==> servers[i].requestsInflight == |At(st, servers[i])|)
  }

  /** A request without a server comes or goes unseen by the servers. */
  lemma {:induction false} CountedWaiting(st: map<Request, Entry>, r: Request, e: Entry, servers: seq<Nameserver>)
    requires Counted(st, servers) && e.ns == null && (r in st ==> st[r].ns == null)
    ensures Counted(st[r := e], servers)
    ensures r in st ==> Counted(st - {r}, servers)
  {
    forall i | 0 <= i < |servers|
      ensures |At(st[r := e], servers[i])| == |At(st, servers[i])|
      ensures r in st ==> |At(st - {r}, servers[i])| == |At(st, servers[i])|
    {
      hide At;
      AtUpdate(st, r, e, servers[i]);
      if r in st {
        AtRemove(st, r, servers[i]);
      }
    }
  }

  /** A request that had no server arrives at `servers[k]`. */
  method CountIn(ghost st: map<Request, Entry>, ghost r: Request, ghost e: Entry, ns: Nameserver,
                 ghost servers: seq<Nameserver>, ghost k: nat)
    requires Counted(st, servers) && k < |servers| && servers[k] == ns == e.ns
    requires r in st ==> st[r].ns == null
    modifies ns`requestsInflight
    ensures Counted(st[r := e], servers)
  {
    hide At;
    forall i | 0 <= i < |servers|
      ensures |At(st[r := e], servers[i])| == |At(st, servers[i])| + if i == k then 1 else 0
    {
      AtUpdate(st, r, e, servers[i]);
    }
    ns.requestsInflight := ns.requestsInflight + 1;
  }

  /** A request leaves the table from `servers[k]`. */
  method CountOut(ghost st: map<Request, Entry>, ghost r: Request, ns: Nameserver,
                  ghost servers: seq<Nameserver>, ghost k: nat)
    requires Counted(st, servers) && k < |servers| && servers[k] == ns
    requires r in st && st[r].ns == ns
    modifies ns`requestsInflight
    ensures Counted(st - {r}, servers) && 0 < old(ns.requestsInflight)
  {
    hide At;
    forall i | 0 <= i < |servers|
      ensures |At(st - {r}, servers[i])| == |At(st, servers[i])| - if i == k then 1 else 0
    {
      AtRemove(st, r, servers[i]);
    }
    ns.requestsInflight := ns.requestsInflight - 1;
  }

  /** The circular list `s` from its `k`th server on. */
  ghost function Rotated(s: seq<Nameserver>, k: nat): seq<Nameserver>
    requires k <= |s|
  {
    s[k..] + s[..k]
  }

  ghost predicate SameElements(s: seq<Nameserver>, t: seq<Nameserver>) {
    (forall i :: 0 <= i < |s| ==> s[i] in t) && (forall i :: 0 <= i < |t| ==> t[i] in s)
  }

  lemma {:induction false} RotatedOnce(s: seq<Nameserver>, k: nat)
    requires k < |s|
    ensures Rotated(Rotated(s, k), 1) == Rotated(s, k + 1)
  {
  }

  lemma {:induction false} SameServers(s: seq<Nameserver>, k: nat)
    requires k <= |s|
    ensures forall ns :: ns in Rotated(s, k) <==> ns in s
    ensures SameElements(s, Rotated(s, k))
    ensures Distinct(s) ==> Distinct(Rotated(s, k))
  {
    assert s == s[..k] + s[k..];
  }

  ghost function Up(servers: seq<Nameserver>): set<Nameserver>
    reads servers`up
  {
    set ns | ns in servers && ns.up
  }

  lemma {:induction false} CountedRotated(st: map<Request, Entry>, s: seq<Nameserver>, k: nat)
    requires k <= |s| && Counted(st, s)
    ensures Counted(st, Rotated(s, k)) && Distinct(s) && Up(Rotated(s, k)) == Up(s)
  {
    hide At;
    SameServers(s, k);
    var t := Rotated(s, k);
    forall i | 0 <= i < |t|
      ensures t[i].requestsInflight == |At(st, t[i])|
    {
      assert t[i] in s;
    }
  }

  /** The circular list with a new server right behind its first one. */
  ghost function Behind(s: seq<Nameserver>, ns: Nameserver): seq<Nameserver> {
    if s == [] then [ns] else [s[0], ns] + s[1..]
  }

  lemma {:induction false} BehindMembers(s: seq<Nameserver>, ns: Nameserver)
    ensures forall x :: x in Behind(s, ns) <==> x in s || x == ns
  {
    assert s != [] ==> s == [s[0]] + s[1..];
  }

  lemma {:induction false} CountedAdded(st: map<Request, Entry>, s: seq<Nameserver>, ns: Nameserver)
    requires Counted(st, s) && ns !in s && ns.requestsInflight == 0
    ensures Counted(st, Behind(s, ns))
  {
    assert At(st, ns) == {};
    hide At;
    BehindMembers(s, ns);
    var t := Behind(s, ns);
    forall i | 0 <= i < |t|
      ensures t[i] == ns || t[i] in s
    {
    }
  }

  lemma {:induction false} UpAdded(s: seq<Nameserver>, ns: Nameserver)
    requires ns !in s && ns.up
    ensures |Up(Behind(s, ns))| == |Up(s)| + 1
  {
    hide Behind;
    BehindMembers(s, ns);
    assert Up(Behind(s, ns)) == Up(s) + {ns};
  }

  /** `s[k]` is the first server that is up, and the list now starts behind it. */
  ghost predicate PickedAt(s: seq<Nameserver>, k: nat, ns: Nameserver?, s': seq<Nameserver>)
    reads s`up
  {
    && k < |s| && ns == s[k] && s[k].up
    && (forall j :: 0 <= j < k ==> !s[j].up)
    && s' == Rotated(s, k + 1)
  }

  /** What nameserver_pick promises: the first server that is up, or with none up just the next one. */
  ghost predicate Picked(s: seq<Nameserver>, good: int, ns: Nameserver?, s': seq<Nameserver>)
    reads s`up
  {
    if s == [] then
      ns == null && s' == s
    else if good == 0 then
      s' == Rotated(s, 1) && ns == s'[0]
    else
      exists k :: PickedAt(s, k, ns, s')
  }

  /** The servers that are up, in the order of the list. */
  ghost function UpInTurn(s: seq<Nameserver>): seq<Nameserver>
    reads s`up
  {
    if s == [] then [] else (if s[0].up then [s[0]] else []) + UpInTurn(s[1..])
  }

  /** The servers that requests are given to in turn: those that are up, or with none up all of them,
      from the second one on. */
  ghost function Turn(s: seq<Nameserver>, good: int): seq<Nameserver>
    reads s`up
  {
    if s == [] then [] else if good == 0 then Rotated(s, 1) else UpInTurn(s)
  }

  lemma {:induction false} UpInTurnConcat(a: seq<Nameserver>, b: seq<Nameserver>)
    ensures UpInTurn(a + b) == UpInTurn(a) + UpInTurn(b)
  {
    if a == [] {
      assert a + b == b;
    } else {
      assert (a + b)[0] == a[0] && (a + b)[1..] == a[1..] + b;
      UpInTurnConcat(a[1..], b);
    }
  }

  lemma {:induction false} UpInTurnAre(s: seq<Nameserver>)
    ensures forall ns :: ns in UpInTurn(s) <==> ns in s && ns.up
  {
    if s != [] {
      UpInTurnAre(s[1..]);
      assert forall ns :: ns in s <==> ns == s[0] || ns in s[1..];
    }
  }

  lemma {:induction false} NoneUpBefore(s: seq<Nameserver>)
    requires forall j :: 0 <= j < |s| ==> !s[j].up
    ensures UpInTurn(s) == []
  {
    if s != [] {
      NoneUpBefore(s[1..]);
    }
  }

  /** Picking takes the first of them, and puts it last. */
  lemma {:induction false} TurnGoesOn(s: seq<Nameserver>, good: int, ns: Nameserver?, s': seq<Nameserver>)
    requires Picked(s, good, ns, s') && s != []
    ensures var u := Turn(s, good); u != [] && ns == u[0] && Turn(s', good) == Rotated(u, 1)
  {
    if good != 0 {
      var k: nat :| PickedAt(s, k, ns, s');
      assert k < |s|;
      var a, c := s[..k], s[k + 1..];
      assert s == a + ([s[k]] + c) && s[..k + 1] == a + [s[k]];
      NoneUpBefore(a);
      UpInTurnConcat(a, [s[k]] + c);
      UpInTurnConcat([s[k]], c);
      UpInTurnConcat(a, [s[k]]);
      UpInTurnConcat(c, s[..k + 1]);
      assert UpInTurn([s[k]]) == [s[k]];
    }
  }

  /** After `m` turns. */
  lemma {:induction false} TurnOnce(u: seq<Nameserver>, m: nat)
    requires u != []
    ensures Rotated(Rotated(u, m % |u|), 1) == Rotated(u, (m + 1) % |u|)
    ensures Rotated(u, m % |u|)[0] == u[m % |u|]
  {
    var n := |u|;
    if m % n == n - 1 {
      assert (m + 1) % n == 0 by { NextRemainder(m, n); }
      RotatedOnce(u, n - 1);
    } else {
      assert (m + 1) % n == m % n + 1 by { NextRemainder(m, n); }
      RotatedOnce(u, m % n);
    }
  }

  /** The turn has come to where it is after `m` requests. */
  ghost predicate TurnIsAt(s: seq<Nameserver>, good: int, turn: seq<Nameserver>, m: nat)
    reads s`up
  {
    Turn(s, good) == if turn == [] then [] else Rotated(turn, m % |turn|)
  }

  lemma {:induction false} TurnStarts(s: seq<Nameserver>, good: int)
    ensures TurnIsAt(s, good, Turn(s, good), 0)
  {
  }

  lemma {:induction false} NextTurn(s: seq<Nameserver>, s': seq<Nameserver>, good: int, ns: Nameserver?, turn: seq<Nameserver>, m: nat)
    requires s != [] && Picked(s, good, ns, s') && TurnIsAt(s, good, turn, m)
    ensures turn != [] && ns == turn[m % |turn|] && TurnIsAt(s', good, turn, m + 1)
  {
    hide Picked, Turn;
    TurnGoesOn(s, good, ns, s');
    TurnOnce(turn, m);
  }

  /** The requests of `q` have been given servers in turn, and the others are as they were. */
  ghost predicate MovedInTurn(s0: map<Request, Entry>, s1: map<Request, Entry>, q: seq<Request>, turn: seq<Nameserver>) {
    && s1.Keys == s0.Keys && (forall r <- s1 :: r !in q ==> s1[r] == s0[r])
    && (forall i :: 0 <= i < |q| ==> q[i] in s1 && turn != [] && s1[q[i]].ns == turn[i % |turn|] && s1[q[i]].transId != 0xffff)
  }

  lemma {:induction false} NoneMoved(s0: map<Request, Entry>, q: seq<Request>, turn: seq<Nameserver>)
    ensures MovedInTurn(s0, s0, q[..0], turn) && q[0..] == q
  {
  }

  lemma {:induction false} OneMoreMoved(s0: map<Request, Entry>, s1: map<Request, Entry>, q: seq<Request>, m: nat, e: Entry,
      turn: seq<Nameserver>)
    requires m < |q| && NoDup(q) && q[m] in s0 && MovedInTurn(s0, s1, q[..m], turn)
    requires turn != [] && e.ns == turn[m % |turn|] && e.transId != 0xffff
    ensures MovedInTurn(s0, s1[q[m] := e], q[..m + 1], turn) && q[m..][1..] == q[m + 1..]
  {
    var more := q[..m + 1];
    assert more == q[..m] + [q[m]];
    forall i | 0 <= i < |more|
      ensures more[i] == q[i] && (i < m ==> q[i] != q[m])
    {
    }
  }

  lemma {:induction false} NextRemainder(m: nat, n: nat)
    requires n > 0
    ensures (m + 1) % n == if m % n == n - 1 then 0 else m % n + 1
  {
    var q, r := m / n, m % n;
    var x := m + 1;
    assert m == n * q + r && x == n * (x / n) + x % n;
    if r == n - 1 {
      assert n * (q + 1) == n * q + n;
      SameParts(n, q + 1, 0, x / n, x % n);
    } else {
      SameParts(n, q, r + 1, x / n, x % n);
    }
  }

  lemma {:induction false} SameParts(n: nat, q: int, r: nat, q2: int, r2: nat)
    requires n * q + r == n * q2 + r2 && r < n && r2 < n
    ensures q == q2 && r == r2
  {
    if q > q2 {
      AtLeast(n, q, q2);
    } else if q < q2 {
      AtLeast(n, q2, q);
    }
  }

  lemma {:induction false} AtLeast(n: nat, a: int, b: int)
    requires a > b
    ensures n * a >= n * b + n
  {
    assert n * a == n * b + n * (a - b) && n * (a - b) == n + n * (a - b - 1) && n * (a - b - 1) >= 0;
  }

  /** What a failing server does to a request with the given number of transmissions. */
  ghost predicate MovedFrom(failed: Nameserver, txCount: nat, a: Entry, b: Entry) {
    && a.transId == b.transId
    && (a == b || (a.ns == failed && b.ns != null && b.ns != failed && txCount == 0))
  }

  /** Only requests that were not sent yet have moved, and away from the server that failed. */
  ghost predicate FailedOver(failed: Nameserver, st: map<Request, Entry>, st': map<Request, Entry>)
    reads st.Keys`txCount
  {
    st.Keys == st'.Keys && forall r <- st :: MovedFrom(failed, r.txCount, st[r], st'[r])
  }

  lemma {:induction false} FailedOverSelf(failed: Nameserver, st: map<Request, Entry>)
    ensures FailedOver(failed, st, st)
  {
  }

  lemma {:induction false} FailedOverStep(failed: Nameserver, st: map<Request, Entry>, st1: map<Request, Entry>,
                                          st2: map<Request, Entry>, r: Request)
    requires FailedOver(failed, st, st1) && r in st1 && r in st2 && st2 == st1[r := st2[r]]
    requires MovedFrom(failed, r.txCount, st1[r], st2[r])
    ensures FailedOver(failed, st, st2)
  {
    assert st2.Keys == st1.Keys;
  }

  lemma {:induction false} FailedOverTwice(failed: Nameserver, st: map<Request, Entry>, st1: map<Request, Entry>,
                                           st2: map<Request, Entry>)
    requires FailedOver(failed, st, st1) && FailedOver(failed, st1, st2)
    ensures FailedOver(failed, st, st2)
  {
  }

  /** None of the first `k` requests of `q` still waits for the server that failed. */
  ghost predicate Avoids(failed: Nameserver, q: seq<Request>, k: nat, st: map<Request, Entry>)
    requires k <= |q|
    reads q[..k]`txCount
  {
    forall j :: 0 <= j < k ==> q[j] in st && (q[j].txCount == 0 ==> st[q[j]].ns != failed)
  }

  lemma {:induction false} AvoidsNone(failed: Nameserver, q: seq<Request>, st: map<Request, Entry>)
    ensures Avoids(failed, q, 0, st)
  {
  }

  lemma {:induction false} AvoidsStep(failed: Nameserver, q: seq<Request>, k: nat, st: map<Request, Entry>, st': map<Request, Entry>)
    requires k < |q| && Avoids(failed, q, k, st) && q[k] in st' && st' == st[q[k] := st'[q[k]]]
    requires q[k].txCount == 0 ==> st'[q[k]].ns != failed
    ensures Avoids(failed, q, k + 1, st')
  {
  }

  lemma {:induction false} AvoidsStill(failed: Nameserver, q: seq<Request>, st: map<Request, Entry>, st': map<Request, Entry>)
    requires Avoids(failed, q, |q|, st) && FailedOver(failed, st, st')
    ensures Avoids(failed, q, |q|, st')
  {
  }

  class EvdnsBase {
    /** req_heads and n_req_heads */
    var reqHeads: seq<Request?>
    var reqWaitingHead: Request?
    var globalRequestsInflight: int
    var globalRequestsWaiting: int
    var globalMaxRequestsInflight: int
    /** The circular list of servers, from server_head on. */
    var servers: seq<Nameserver>
    var globalGoodNameservers: int
    ghost var lists: seq<seq<Request>>
    ghost var waiting: seq<Request>
    ghost var st: map<Request, Entry>

    /** The pointers are those of the lists, and the requests are as the snapshots say. */
    ghost predicate Rep()
      reads `reqHeads, `reqWaitingHead, `lists, `waiting, `st
      reads st.Keys`next, st.Keys`prev, st.Keys`transId, st.Keys`ns
    {
      && |reqHeads| == |lists|
      && (forall i, a :: 0 <= i < |lists| && 0 <= a < |lists[i]| ==> lists[i][a] in st.Keys)
      && (forall a :: 0 <= a < |waiting| ==> waiting[a] in st.Keys)
      && (forall i :: 0 <= i < |lists| ==> Ring(lists[i], reqHeads[i]))
      && Ring(waiting, reqWaitingHead)
      && (forall r <- st.Keys :: r.transId == st[r].transId && r.ns == st[r].ns)
    }

    ghost predicate GoodOk()
      reads `servers, `globalGoodNameservers, servers`up
    {
      globalGoodNameservers == |Up(servers)|
    }

    ghost predicate Valid()
      reads this, st.Keys`next, st.Keys`prev, st.Keys`transId, st.Keys`ns, servers`requestsInflight, servers`up
    {
      && Rep() && BucketsOk(st, lists) && WaitingOk(st, waiting)
      && Counted(st, servers) && GoodOk()
      && globalRequestsInflight == Total(lists)
      && globalRequestsWaiting == |waiting|
    }

    /** evdns_base_new: no server, and buckets for 64 requests in flight. */
    constructor ()
      ensures Valid() && st == map[] && servers == [] && globalMaxRequestsInflight == 64
    {
      reqHeads, reqWaitingHead := seq(13, _ => null), null;
      globalRequestsInflight, globalRequestsWaiting, globalMaxRequestsInflight := 0, 0, 64;
      servers, globalGoodNameservers := [], 0;
      lists, waiting, st := Empties(13), [], map[];
      new;
      hide Rep, BucketsOk, WaitingOk, Total, Empties, Counted, GoodOk;
      EmptyTable(13);
      EmptyRep();
      NoneUp();
    }

    lemma {:induction false} EmptyRep()
      requires |reqHeads| == |lists| && (forall i :: 0 <= i < |lists| ==> reqHeads[i] == null && lists[i] == [])
      requires waiting == [] && reqWaitingHead == null && st == map[]
      ensures Rep()
    {
      hide Ring;
      EmptyRing();
      forall i | 0 <= i < |lists|
        ensures Ring(lists[i], reqHeads[i])
      {
      }
    }

    lemma {:induction false} NoneUp()
      requires servers == [] && globalGoodNameservers == 0
      ensures GoodOk()
    {
      assert Up(servers) == {};
    }

    /** Inserts a request that is in no list into bucket `i`. */
    method InsertInBucket(i: nat, req: Request)
      requires Rep() && i < |lists| && req in st.Keys && Apart(lists, waiting) && Loose(req, lists, waiting)
      modifies `reqHeads, `lists, req`next, req`prev, lists[i]`next, lists[i]`prev
      ensures Rep() && lists == old(lists)[i := old(lists)[i] + [req]]
    {
      hide Ring;
      ghost var q := lists[i];
      var head := Insert(req, reqHeads[i], q);
      assert Ring(waiting, reqWaitingHead);
      forall j | 0 <= j < |lists| && j != i
        ensures Ring(lists[j], reqHeads[j])
      {
      }
      reqHeads := reqHeads[i := head];
      lists := lists[i := q + [req]];
    }

    /** Inserts a request that is in no list into the waiting list. */
    method InsertWaiting(req: Request)
      requires Rep() && req in st.Keys && Apart(lists, waiting) && Loose(req, lists, waiting)
      modifies `reqWaitingHead, `waiting, req`next, req`prev, waiting`next, waiting`prev
      ensures Rep() && waiting == old(waiting) + [req]
    {
      hide Ring;
      ghost var q := waiting;
      var head := Insert(req, reqWaitingHead, q);
      forall j | 0 <= j < |lists|
        ensures Ring(lists[j], reqHeads[j])
      {
      }
      reqWaitingHead := head;
      waiting := q + [req];
    }

    /** Takes request `k` out of bucket `i`. */
    method RemoveFromBucket(i: nat, req: Request, ghost k: nat)
      requires Rep() && i < |lists| && Apart(lists, waiting) && k < |lists[i]| && lists[i][k] == req
      modifies `reqHeads, `lists, lists[i]`next, lists[i]`prev
      ensures Rep() && lists == old(lists)[i := old(lists)[i][..k] + old(lists)[i][k + 1..]]
    {
      hide Ring;
      ghost var q := lists[i];
      var head := Remove(req, reqHeads[i], q, k);
      assert Ring(waiting, reqWaitingHead);
      forall j | 0 <= j < |lists| && j != i
        ensures Ring(lists[j], reqHeads[j])
      {
      }
      reqHeads := reqHeads[i := head];
      lists := lists[i := q[..k] + q[k + 1..]];
    }

    /** Takes request `k` out of the waiting list. */
    method RemoveWaiting(req: Request, ghost k: nat)
      requires Rep() && Apart(lists, waiting) && k < |waiting| && waiting[k] == req
      modifies `reqWaitingHead, `waiting, waiting`next, waiting`prev
      ensures Rep() && waiting == old(waiting)[..k] + old(waiting)[k + 1..]
    {
      hide Ring;
      ghost var q := waiting;
      var head := Remove(req, reqWaitingHead, q, k);
      forall j | 0 <= j < |lists|
        ensures Ring(lists[j], reqHeads[j])
      {
      }
      reqWaitingHead := head;
      waiting := q[..k] + q[k + 1..];
    }

    /** Records a request that is in no list yet. */
    ghost method Enter(r: Request)
      requires Rep() && r !in st
      modifies `st
      ensures Rep() && st == old(st)[r := Entry(r.transId, r.ns)]
    {
      st := st[r := Entry(r.transId, r.ns)];
    }

    /** Forgets a request that is in no list any more. */
    ghost method Leave(r: Request)
      requires Rep() && Loose(r, lists, waiting)
      modifies `st
      ensures Rep() && st == old(st) - {r}
    {
      st := st - {r};
    }

    /** Gives a request of the table an id and a server. */
    method Assign(r: Request, transId: nat, ns: Nameserver)
      requires Rep() && r in st
      modifies `st, r`transId, r`ns
      ensures Rep() && st == old(st)[r := Entry(transId, ns)]
    {
      r.transId, r.ns := transId, ns;
      st := st[r := Entry(transId, ns)];
    }

    /** request_find_from_trans_id: finds a request in flight with the given id iff there is one. */
    method FindFromTransId(transId: nat) returns (found: Request?)
      requires Valid()
      ensures found == null <==> IdIsFree(st, transId)
      ensures found != null ==> found in st && st[found].ns != null && st[found].transId == transId
      ensures found != null && IdsDiffer(st) ==> forall r <- st :: st[r].ns != null && st[r].transId == transId ==> r == found
    {
      hide EvdnsBase.Valid, Ring;
      AllListed();
      ghost var i := transId % |lists|;
      ghost var q := lists[i];
      RingOf(i);
      var startedAt := reqHeads[transId % |reqHeads|];
      var req := startedAt;
      if req == null {
        InItsBucket(transId);
        return null;
      }
      ghost var k := 0;
      while true
        invariant 0 <= k < |q| && req == q[k]
        invariant forall j :: 0 <= j < k ==> q[j] in st && st[q[j]].transId != transId
        decreases |q| - k
      {
        if req.transId == transId {
          return req;
        }
        RingNext(i, k);
        req := req.next;
        k := k + 1;
        if req == startedAt {
          break;
        }
      }
      InItsBucket(transId);
      found := null;
    }

    /** A request in flight with this id would be in this bucket. */
    lemma {:induction false} InItsBucket(transId: nat)
      requires Valid() && |lists| > 0
      ensures forall r <- st :: st[r].ns != null && st[r].transId == transId ==> r in lists[transId % |lists|]
    {
    }

    /** request_submit: a request with a nameserver goes in flight, one without waits. */
    method Submit(req: Request)
      requires Valid() && req !in st && (req.ns != null ==> req.ns in servers)
      modifies this, req`next, req`prev, st.Keys`next, st.Keys`prev, servers`requestsInflight
      ensures Valid() && st == old(st)[req := Entry(req.transId, req.ns)]
      ensures waiting == old(waiting) + if req.ns == null then [req] else []
      ensures servers == old(servers) && globalMaxRequestsInflight == old(globalMaxRequestsInflight)
      ensures old(IdsDiffer(st)) && (req.ns != null ==> IdIsFree(old(st), req.transId)) ==> IdsDiffer(st)
    {
      hide EvdnsBase.Valid, IdsDiffer;
      if IdsDiffer(st) && (req.ns != null ==> IdIsFree(st, req.transId)) {
        NewIdsDiffer(st, req, Entry(req.transId, req.ns));
      }
      if req.ns != null {
        SubmitInflight(req);
      } else {
        SubmitWaiting(req);
      }
    }

    method SubmitInflight(req: Request)
      requires Valid() && req !in st && req.ns != null && req.ns in servers
      modifies `reqHeads, `lists, `st, `globalRequestsInflight
      modifies req`next, req`prev, st.Keys`next, st.Keys`prev, servers`requestsInflight
      ensures Valid() && st == old(st)[req := Entry(req.transId, req.ns)]
    {
      hide Rep, NoDup, BucketsOk, WaitingOk, At, Total, Counted, Apart, Loose, GoodOk;
      SomeBuckets();
      ghost var e := Entry(req.transId, req.ns);
      ghost var st0, k :| st0 == st && 0 <= k < |servers| && servers[k] == req.ns;
      ListsApart(st, lists, waiting);
      NotListed(st, lists, waiting, req);
      BucketAdded(st, lists, req, e);
      WaitingKept(st, waiting, req, e);
      Enter(req);
      InsertInBucket(req.transId % |reqHeads|, req);
      globalRequestsInflight := globalRequestsInflight + 1;
      CountIn(st0, req, e, req.ns, servers, k);
    }

    method SubmitWaiting(req: Request)
      requires Valid() && req !in st && req.ns == null
      modifies `reqWaitingHead, `waiting, `st, `globalRequestsWaiting, req`next, req`prev, st.Keys`next, st.Keys`prev
      ensures Valid() && st == old(st)[req := Entry(req.transId, null)]
      ensures waiting == old(waiting) + [req]
    {
      hide Ring, NoDup, BucketsOk, WaitingOk, At, Total, Counted, Apart, Loose;
      ghost var e := Entry(req.transId, null);
      ListsApart(st, lists, waiting);
      NotListed(st, lists, waiting, req);
      BucketsKept(st, lists, req, e);
      WaitingAdded(st, waiting, req, e);
      CountedWaiting(st, req, e, servers);
      Enter(req);
      InsertWaiting(req);
      globalRequestsWaiting := globalRequestsWaiting + 1;
    }

    lemma {:induction false} SomeUp()
      requires GoodOk() && globalGoodNameservers != 0
      ensures exists j :: 0 <= j < |servers| && servers[j].up
    {
      assert Up(servers) != {};
      var ns :| ns in Up(servers);
    }

    /** server_head = server_head->next */
    method NextServer()
      requires Valid() && servers != []
      modifies `servers
      ensures Valid() && servers == Rotated(old(servers), 1)
    {
      hide Rep, BucketsOk, WaitingOk, Counted, Total;
      ghost var s := servers;
      CountedRotated(st, s, 1);
      servers := servers[1..] + [servers[0]];
      assert servers == Rotated(s, 1);
    }

    /** nameserver_pick: a server that is up if any is, and the next one in turn. */
    method NameserverPick() returns (ns: Nameserver?)
      requires Valid()
      modifies `servers
      ensures Valid() && Picked(old(servers), globalGoodNameservers, ns, servers)
      ensures SameElements(old(servers), servers) && (ns == null <==> servers == [])
      ensures ns != null ==> ns in servers && (globalGoodNameservers != 0 ==> ns.up)
    {
      hide Rep, BucketsOk, WaitingOk, Counted, Total;
      if servers == [] {
        return null;
      }
      if globalGoodNameservers == 0 {
        NextServer();
        return servers[0];
      }
      ghost var s := servers;
      var startedAt := servers[0];
      ghost var i := 0;
      SomeUp();
      while true
        invariant Valid() && 0 <= i < |s| && servers == Rotated(s, i)
        invariant forall j :: 0 <= j < i ==> !s[j].up
        decreases |s| - i
      {
        RotatedOnce(s, i);
        assert servers[0] == s[i];
        if servers[0].up {
          ns := servers[0];
          NextServer();
          assert PickedAt(s, i, ns, servers);
          return ns;
        }
        NextServer();
        i := i + 1;
        if servers[0] == startedAt {
          CountedRotated(st, s, 0);
          assert false;
        }
      }
    }

    /** transaction_id_pick: the first number drawn that is neither 0xffff nor in flight; `None` when
        the numbers of `draws` are used up. */
    method TransactionIdPick(draws: seq<nat>) returns (id: Option<nat>, n: nat)
      requires Valid()
      ensures n <= |draws| && forall i :: 0 <= i < n ==> draws[i] == 0xffff || !IdIsFree(st, draws[i])
      ensures id == None ==> n == |draws|
      ensures id.Some? ==> n < |draws| && id.value == draws[n] && id.value != 0xffff && IdIsFree(st, id.value)
    {
      hide Rep, BucketsOk, WaitingOk, Counted, GoodOk, Total, IdIsFree, IdsDiffer;
      n := 0;
      while n < |draws|
        invariant 0 <= n <= |draws|
        invariant forall i :: 0 <= i < n ==> draws[i] == 0xffff || !IdIsFree(st, draws[i])
      {
        if draws[n] != 0xffff {
          var found := FindFromTransId(draws[n]);
          if found == null {
            return Some(draws[n]), n;
          }
        }
        n := n + 1;
      }
      id := None;
    }

    /** Moves the first waiting request to the tail of the bucket of its new id. */
    method Relink(ns: Nameserver, transId: nat)
      requires Rep() && Apart(lists, waiting) && NoDup(waiting) && waiting != [] && |lists| > 0
      modifies `reqHeads, `lists, `reqWaitingHead, `waiting, `st
      modifies st.Keys`next, st.Keys`prev, st.Keys`transId, st.Keys`ns
      ensures Rep() && st == old(st)[old(waiting)[0] := Entry(transId, ns)]
      ensures waiting == old(waiting)[1..]
      ensures var i := transId % |old(lists)|; lists == old(lists)[i := old(lists)[i] + [old(waiting)[0]]]
    {
      hide Ring, NoDup, Apart, Loose;
      var req := reqWaitingHead;
      FirstWaits();
      DetachedWaiting(lists, waiting, 0);
      RemoveWaiting(req, 0);
      Assign(req, transId, ns);
      InsertInBucket(transId % |reqHeads|, req);
    }

    /** One step of evdns_requests_pump_waiting_queue. */
    method Promote(ns: Nameserver, transId: nat)
      requires Valid() && waiting != [] && ns in servers
      modifies `reqHeads, `lists, `reqWaitingHead, `waiting, `st, `globalRequestsInflight, `globalRequestsWaiting
      modifies st.Keys`next, st.Keys`prev, st.Keys`transId, st.Keys`ns, servers`requestsInflight
      ensures Valid() && st == old(st)[old(waiting)[0] := Entry(transId, ns)]
      ensures waiting == old(waiting)[1..] && globalRequestsInflight == old(globalRequestsInflight) + 1
    {
      hide Rep, NoDup, BucketsOk, WaitingOk, At, Total, Counted, Apart;
      ghost var st0, req, e := st, waiting[0], Entry(transId, ns);
      Waits(0);
      ghost var k :| 0 <= k < |servers| && servers[k] == ns;
      ListsApart(st, lists, waiting);
      WaitingRemoved(st, waiting, req, 0);
      assert waiting[..0] + waiting[1..] == waiting[1..];
      BucketAdded(st, lists, req, e);
      Relink(ns, transId);
      globalRequestsWaiting := globalRequestsWaiting - 1;
      globalRequestsInflight := globalRequestsInflight + 1;
      CountIn(st0, req, e, ns, servers, k);
    }

    lemma {:induction false} FirstWaits()
      requires Rep() && waiting != []
      ensures reqWaitingHead == waiting[0] && waiting[0] in st
    {
    }

    lemma {:induction false} SomeWait()
      requires Valid()
      ensures globalRequestsWaiting > 0 <==> waiting != []
    {
    }

    method PumpOne(draws: seq<nat>) returns (ok: bool, unused: seq<nat>, ghost e: Entry)
      requires Valid() && waiting != []
      modifies this, st.Keys`next, st.Keys`prev, st.Keys`transId, st.Keys`ns, servers`requestsInflight
      ensures Valid() && SameElements(old(servers), servers)
      ensures globalMaxRequestsInflight == old(globalMaxRequestsInflight)
      ensures !ok ==> st == old(st) && waiting == old(waiting) && globalRequestsInflight == old(globalRequestsInflight)
      ensures !ok ==> servers == [] || unused == []
      ensures ok ==> old(waiting)[0] in old(st) && st == old(st)[old(waiting)[0] := e] && e.ns != null && e.transId != 0xffff
      ensures ok ==> waiting == old(waiting)[1..] && globalRequestsInflight == old(globalRequestsInflight) + 1
      ensures globalGoodNameservers == old(globalGoodNameservers)
      ensures ok ==> old(servers) != [] && Picked(old(servers), globalGoodNameservers, e.ns, servers)
      ensures old(IdsDiffer(st)) ==> IdsDiffer(st)
    {
      hide Rep, NoDup, BucketsOk, WaitingOk, At, Total, Counted, GoodOk, IdsDiffer, IdIsFree, Rotated, Picked;
      ok, unused, e := false, draws, Entry(0, null);
      var ns := NameserverPick();
      if ns == null {
        return;
      }
      var id, n := TransactionIdPick(unused);
      if id == None {
        unused := [];
        return;
      }
      Waits(0);
      e := Entry(id.value, ns);
      if IdsDiffer(st) {
        NewIdsDiffer(st, waiting[0], e);
      }
      Promote(ns, id.value);
      ok, unused := true, unused[n + 1..];
    }

    /** evdns_requests_pump_waiting_queue: moves waiting requests in flight, first come first served,
        while there is room, a server, and a number for their ids. */
    method PumpWaitingQueue(draws: seq<nat>) returns (ghost moved: nat, unused: seq<nat>)
      requires Valid()
      modifies this, st.Keys`next, st.Keys`prev, st.Keys`transId, st.Keys`ns, servers`requestsInflight
      ensures Valid() && st.Keys == old(st).Keys
      ensures globalMaxRequestsInflight == old(globalMaxRequestsInflight)
      ensures moved <= |old(waiting)| && waiting == old(waiting)[moved..]
      ensures globalRequestsInflight == old(globalRequestsInflight) + moved
      ensures forall r <- st :: r !in old(waiting)[..moved] ==> st[r] == old(st)[r]
      ensures forall r <- old(waiting)[..moved] :: r in st && st[r].ns != null && st[r].transId != 0xffff
      ensures moved > 0 ==> globalRequestsInflight <= globalMaxRequestsInflight
      ensures waiting == [] || globalRequestsInflight >= globalMaxRequestsInflight || servers == [] || unused == []
      ensures globalGoodNameservers == old(globalGoodNameservers)
      ensures GivenInTurn(old(waiting)[..moved], Turn(old(servers), globalGoodNameservers))
      ensures globalGoodNameservers != 0 ==> forall r <- old(waiting)[..moved] :: st[r].ns != null && st[r].ns.up
      ensures old(IdsDiffer(st)) ==> IdsDiffer(st)
    {
      hide EvdnsBase.Valid, IdsDiffer, Turn, Picked, MovedInTurn, TurnIsAt, GivenInTurn, NoDup;
      moved, unused := 0, draws;
      ghost var s0, q, turn := st, waiting, Turn(servers, globalGoodNameservers);
      AllWait();
      NoneMoved(s0, q, turn);
      TurnStarts(servers, globalGoodNameservers);
      while globalRequestsInflight < globalMaxRequestsInflight && globalRequestsWaiting > 0
        invariant Valid() && globalMaxRequestsInflight == old(globalMaxRequestsInflight)
        invariant moved <= |q| && waiting == q[moved..]
        invariant globalRequestsInflight == old(globalRequestsInflight) + moved
        invariant moved > 0 ==> globalRequestsInflight <= globalMaxRequestsInflight
        invariant globalGoodNameservers == old(globalGoodNameservers) && SameElements(old(servers), servers)
        invariant MovedInTurn(s0, st, q[..moved], turn) && st.Keys == s0.Keys
        invariant TurnIsAt(servers, globalGoodNameservers, turn, moved)
        invariant old(IdsDiffer(st)) ==> IdsDiffer(st)
        decreases |waiting|
      {
        var ok;
        ghost var e;
        SomeWait();
        ghost var s, s1 := servers, st;
        ok, unused, e := PumpOne(unused);
        if !ok {
          break;
        }
        NextTurn(s, servers, globalGoodNameservers, e.ns, turn, moved);
        OneMoreMoved(s0, s1, q, moved, e, turn);
        moved := moved + 1;
      }
      SomeWait();
      AllMoved(s0, st, q[..moved], turn);
      TurnIsUp(old(servers), globalGoodNameservers, q[..moved], turn);
    }

    /** The requests of a list have been given to the servers of another in turn. */
    ghost predicate GivenInTurn(q: seq<Request>, turn: seq<Nameserver>)
      reads `st
    {
      forall i :: 0 <= i < |q| ==> q[i] in st && turn != [] && st[q[i]].ns == turn[i % |turn|]
    }

    lemma {:induction false} TurnIsUp(servers: seq<Nameserver>, good: int, q: seq<Request>, turn: seq<Nameserver>)
      requires GivenInTurn(q, turn) && turn == Turn(servers, good)
      ensures good != 0 ==> forall r <- q :: r in st && st[r].ns != null && st[r].ns.up
    {
      UpInTurnAre(servers);
    }

    /** What has become of the requests moved so far. */
    lemma {:induction false} AllMoved(s0: map<Request, Entry>, s1: map<Request, Entry>, q: seq<Request>, turn: seq<Nameserver>)
      requires MovedInTurn(s0, s1, q, turn) && s1 == st
      ensures GivenInTurn(q, turn) && forall r <- st :: r !in q ==> st[r] == s0[r]
      ensures forall r <- q :: r in st && st[r].ns != null && st[r].transId != 0xffff
    {
    }

    /** evdns_request_remove on the bucket of a request that then leaves the table. */
    method UnlinkInflight(req: Request, i: nat, ghost k: nat)
      requires Rep() && Apart(lists, waiting) && i < |lists| && NoDup(lists[i]) && k < |lists[i]| && lists[i][k] == req
      modifies `reqHeads, `lists, `st, st.Keys`next, st.Keys`prev
      ensures Rep() && st == old(st) - {req}
      ensures lists == old(lists)[i := old(lists)[i][..k] + old(lists)[i][k + 1..]]
    {
      hide Ring, NoDup, Apart, Loose;
      DetachedBucket(lists, waiting, i, k);
      RemoveFromBucket(i, req, k);
      Leave(req);
    }

    /** And on the waiting list. */
    method UnlinkWaiting(req: Request, ghost k: nat)
      requires Rep() && Apart(lists, waiting) && NoDup(waiting) && k < |waiting| && waiting[k] == req
      modifies `reqWaitingHead, `waiting, `st, st.Keys`next, st.Keys`prev
      ensures Rep() && st == old(st) - {req} && waiting == old(waiting)[..k] + old(waiting)[k + 1..]
    {
      hide Ring, NoDup, Apart, Loose;
      DetachedWaiting(lists, waiting, k);
      RemoveWaiting(req, k);
      Leave(req);
    }

    /** Where a request in flight is, and which server counts it. */
    lemma {:induction false} Whereabouts(req: Request) returns (i: nat, k: nat, n: nat)
      requires Rep() && BucketsOk(st, lists) && Counted(st, servers) && req in st && st[req].ns != null
      ensures i == st[req].transId % |lists| && NoDup(lists[i]) && k < |lists[i]| && lists[i][k] == req
      ensures req.transId == st[req].transId && req.ns == st[req].ns && n < |servers| && servers[n] == req.ns
      ensures |reqHeads| == |lists|
    {
      i := st[req].transId % |lists|;
      k :| k < |lists[i]| && lists[i][k] == req;
      n :| n < |servers| && servers[n] == st[req].ns;
    }

    /** The part of request_finished that takes a request in flight out of the table. */
    method TakeInflight(req: Request)
      requires Valid() && req in st && st[req].ns != null
      modifies `reqHeads, `lists, `st, `globalRequestsInflight, st.Keys`next, st.Keys`prev, servers`requestsInflight
      ensures Valid() && st == old(st) - {req} && globalRequestsInflight == old(globalRequestsInflight) - 1
    {
      hide Rep, NoDup, BucketsOk, WaitingOk, At, Total, Counted, Apart, Loose;
      ghost var st0 := st;
      ghost var i, k, n := Whereabouts(req);
      var ns := req.ns;
      ListsApart(st, lists, waiting);
      BucketRemoved(st, lists, req, k);
      WaitingKept(st, waiting, req, Entry(0, ns));
      UnlinkInflight(req, req.transId % |reqHeads|, k);
      globalRequestsInflight := globalRequestsInflight - 1;
      CountOut(st0, req, ns, servers, n);
    }

    /** And the part that takes a waiting request out. */
    method TakeWaiting(req: Request, ghost k: nat)
      requires Valid() && k < |waiting| && waiting[k] == req
      modifies `reqWaitingHead, `waiting, `st, `globalRequestsWaiting, st.Keys`next, st.Keys`prev
      ensures Valid() && st == old(st) - {req} && waiting == old(waiting)[..k] + old(waiting)[k + 1..]
    {
      hide Rep, NoDup, BucketsOk, WaitingOk, At, Total, Counted, Apart, Loose;
      Waits(k);
      ListsApart(st, lists, waiting);
      WaitingRemoved(st, waiting, req, k);
      BucketsKept(st, lists, req, Entry(0, null));
      CountedWaiting(st, req, Entry(0, null), servers);
      UnlinkWaiting(req, k);
      globalRequestsWaiting := globalRequestsWaiting - 1;
    }

    lemma {:induction false} Waits(k: nat)
      requires WaitingOk(st, waiting) && k < |waiting|
      ensures waiting[k] in st && st[waiting[k]].ns == null && NoDup(waiting)
    {
    }

    /** request_swap_ns */
    method SwapNs(req: Request, ns: Nameserver?)
      requires Valid() && req in st && st[req].ns != null && (ns != null ==> ns in servers)
      modifies `st, st.Keys`transId, st.Keys`ns, servers`requestsInflight
      ensures Valid() && st == old(st)[req := if ns == null then old(st)[req] else old(st)[req].(ns := ns)]
    {
      hide Rep, NoDup, BucketsOk, WaitingOk, At, Total, Counted;
      ghost var st0 := st;
      ghost var i, k, m := Whereabouts(req);
      if ns != null && req.ns != ns {
        ghost var e := Entry(req.transId, ns);
        ghost var n :| 0 <= n < |servers| && servers[n] == ns;
        BucketsKept(st, lists, req, e);
        WaitingKept(st, waiting, req, e);
        CountOut(st, req, req.ns, servers, m);
        CountIn(st - {req}, req, e, ns, servers, n);
        assert (st0 - {req})[req := e] == st0[req := e];
        Assign(req, req.transId, ns);
      }
    }

    /** request_finished: the request leaves the table, and the waiting queue, without it if it was in
        it, moves up as in `PumpWaitingQueue`. */
    method RequestFinished(req: Request, draws: seq<nat>) returns (ghost moved: nat, unused: seq<nat>)
      requires Valid() && req in st
      modifies this, st.Keys`next, st.Keys`prev, st.Keys`transId, st.Keys`ns, servers`requestsInflight
      ensures Valid() && st.Keys == old(st.Keys) - {req} && globalMaxRequestsInflight == old(globalMaxRequestsInflight)
      ensures globalGoodNameservers == old(globalGoodNameservers)
      ensures var queue := Without(old(waiting), req);
        && moved <= |queue| && waiting == queue[moved..]
        && (forall r <- queue[..moved] :: r in st && st[r].ns != null && st[r].transId != 0xffff)
        && (forall r <- st :: r !in queue[..moved] ==> st[r] == old(st)[r])
        && GivenInTurn(queue[..moved], Turn(old(servers), globalGoodNameservers))
        && (globalGoodNameservers != 0 ==> forall r <- queue[..moved] :: st[r].ns != null && st[r].ns.up)
      ensures globalRequestsInflight == old(globalRequestsInflight) + moved - (if old(st)[req].ns != null then 1 else 0)
      ensures moved > 0 ==> globalRequestsInflight <= globalMaxRequestsInflight
      ensures waiting == [] || globalRequestsInflight >= globalMaxRequestsInflight || servers == [] || unused == []
      ensures old(IdsDiffer(st)) ==> IdsDiffer(st)
    {
      hide EvdnsBase.Valid, Without, GivenInTurn, Turn, NoDup;
      AllWait();
      var inflight := IsInflight(req);
      if inflight {
        WithoutOther(waiting, req);
        TakeInflight(req);
      } else {
        ghost var k := WaitsAt(req);
        WithoutAt(waiting, req, k);
        TakeWaiting(req, k);
      }
      AllWait();
      moved, unused := PumpWaitingQueue(draws);
    }

    /** Callers of request_finished tell the two lists apart by `req->ns`. */
    method IsInflight(req: Request) returns (inflight: bool)
      requires Valid() && req in st
      ensures inflight <==> st[req].ns != null
    {
      inflight := req.ns != null;
    }

    lemma {:induction false} WaitsAt(req: Request) returns (k: nat)
      requires Valid() && req in st && st[req].ns == null
      ensures k < |waiting| && waiting[k] == req && NoDup(waiting)
    {
      k :| k < |waiting| && waiting[k] == req;
    }

    lemma {:induction false} AllWait()
      requires Valid()
      ensures NoDup(waiting) && forall r <- waiting :: r in st && st[r].ns == null
    {
    }

    /** request_reissue: the request goes to the server that is next in turn; `failed` says that this is
        the same one again. */
    method RequestReissue(req: Request) returns (failed: bool)
      requires Valid() && req in st && st[req].ns != null
      modifies `servers, `st, st.Keys`transId, st.Keys`ns, servers`requestsInflight
      modifies req`txCount, req`reissueCount, req`transmitMe
      ensures Valid() && st.Keys == old(st.Keys) && st[req].transId == old(st)[req].transId
      ensures forall r <- st :: r != req ==> st[r] == old(st)[r]
      ensures failed <==> st[req].ns == old(st)[req].ns
      ensures Picked(old(servers), globalGoodNameservers, st[req].ns, servers) && st[req].ns in servers
      ensures if failed then unchanged(req`txCount, req`reissueCount, req`transmitMe)
              else req.txCount == 0 && req.reissueCount == old(req.reissueCount) + 1 && req.transmitMe
      ensures globalGoodNameservers != 0 ==> st[req].ns.up
    {
      hide Rep, NoDup, BucketsOk, WaitingOk, At, Total, Counted, GoodOk, Rotated, Picked;
      ghost var i, k, m := Whereabouts(req);
      var ns := NameserverPick();
      i, k, m := Whereabouts(req);
      var lastNs := req.ns;
      SwapNs(req, ns);
      i, k, m := Whereabouts(req);
      failed := req.ns == lastNs;
      if !failed {
        req.reissueCount := req.reissueCount + 1;
        req.txCount := 0;
        req.transmitMe := true;
      }
    }

    /** Moves the unsent requests of bucket `i` away from a server that is down. */
    method FailOver(i: nat, failed: Nameserver)
      requires Valid() && i < |lists| && !failed.up && globalGoodNameservers != 0
      modifies `servers, `st, st.Keys`transId, st.Keys`ns, servers`requestsInflight
      ensures Valid() && SameElements(old(servers), servers) && FailedOver(failed, old(st), st)
      ensures Avoids(failed, lists[i], |lists[i]|, st)
    {
      hide EvdnsBase.Valid, Ring, FailedOver, Avoids;
      RingOf(i);
      var startedAt := reqHeads[i];
      var req := startedAt;
      FailedOverSelf(failed, st);
      AvoidsNone(failed, lists[i], st);
      if req == null {
        return;
      }
      ghost var q, k := lists[i], 0;
      while true
        invariant Valid() && st.Keys == old(st.Keys) && SameElements(old(servers), servers)
        invariant 0 <= k < |q| && req == q[k]
        invariant FailedOver(failed, old(st), st) && Avoids(failed, q, k, st)
        decreases |q| - k
      {
        ghost var st1 := st;
        FailOverOne(req, i, k, failed);
        FailedOverStep(failed, old(st), st1, st, req);
        AvoidsStep(failed, q, k, st1, st);
        RingNext(i, k);
        req := req.next;
        k := k + 1;
        if req == startedAt {
          break;
        }
      }
    }

    method FailOverOne(req: Request, ghost i: nat, ghost k: nat, failed: Nameserver)
      requires Valid() && i < |lists| && k < |lists[i]| && lists[i][k] == req && !failed.up && globalGoodNameservers != 0
      modifies `servers, `st, st.Keys`transId, st.Keys`ns, servers`requestsInflight
      ensures Valid() && SameElements(old(servers), servers) && req in old(st) && req in st
      ensures st == old(st)[req := st[req]] && MovedFrom(failed, req.txCount, old(st)[req], st[req])
      ensures req.txCount == 0 ==> st[req].ns != failed
    {
      hide Rep, NoDup, BucketsOk, WaitingOk, At, Total, Counted, GoodOk, Rotated, Picked;
      RingOf(i);
      if req.txCount == 0 && req.ns == failed {
        var ns := NameserverPick();
        assert old(servers)[0] in servers;
        SwapNs(req, ns);
      }
    }

    lemma {:induction false} RingOf(i: nat)
      requires Valid() && i < |lists|
      ensures |reqHeads| == |lists| && reqHeads[i] == if lists[i] == [] then null else lists[i][0]
      ensures forall k :: 0 <= k < |lists[i]| ==>
        var r := lists[i][k]; r in st && st[r].ns != null && r.ns == st[r].ns && r.transId == st[r].transId
      ensures servers == [] ==> lists[i] == []
    {
      forall k | 0 <= k < |lists[i]|
        ensures var r := lists[i][k]; r in st && st[r].ns != null && r.ns == st[r].ns && r.transId == st[r].transId
      {
        InBucket(st, lists, i, k);
      }
      if lists[i] != [] {
        assert st[lists[i][0]].ns in servers;
      }
    }

    lemma {:induction false} RingNext(i: nat, k: nat)
      requires Valid() && i < |lists| && k < |lists[i]|
      ensures lists[i][k].next == lists[i][if k + 1 < |lists[i]| then k + 1 else 0]
      ensures k + 1 < |lists[i]| ==> lists[i][k + 1] != lists[i][0]
    {
    }

    /** nameserver_failed: a server that was up is now down, and if another one is up then no request
        that was not sent yet stays with it. */
    method NameserverFailed(ns: Nameserver)
      requires Valid() && ns in servers
      modifies `servers, `globalGoodNameservers, `st, st.Keys`transId, st.Keys`ns
      modifies servers`requestsInflight, ns`up
      ensures Valid() && st.Keys == old(st.Keys) && !ns.up
      ensures globalGoodNameservers == old(globalGoodNameservers) - if old(ns.up) then 1 else 0
      ensures !old(ns.up) ==> st == old(st)
      ensures forall r <- st :: MovedFrom(ns, r.txCount, old(st)[r], st[r])
      ensures old(ns.up) && globalGoodNameservers != 0 ==> forall r <- st :: r.txCount == 0 ==> st[r].ns != ns
      ensures old(IdsDiffer(st)) ==> IdsDiffer(st)
    {
      hide EvdnsBase.Valid, Avoids;
      if !ns.up {
        return;
      }
      MarkDown(ns);
      if globalGoodNameservers == 0 {
        return;
      }
      AllListed();
      var i := 0;
      while i < |reqHeads|
        invariant 0 <= i <= |reqHeads| == |lists| && Valid() && SameElements(old(servers), servers)
        invariant !ns.up && globalGoodNameservers == old(globalGoodNameservers) - 1 && globalGoodNameservers != 0
        invariant FailedOver(ns, old(st), st)
        invariant forall j :: 0 <= j < i ==> Avoids(ns, lists[j], |lists[j]|, st)
      {
        ghost var st1 := st;
        FailOver(i, ns);
        forall j | 0 <= j < i
          ensures Avoids(ns, lists[j], |lists[j]|, st)
        {
          AvoidsStill(ns, lists[j], st1, st);
        }
        FailedOverTwice(ns, old(st), st1, st);
        i := i + 1;
      }
      AllAvoid(ns);
    }

    lemma {:induction false} AllAvoid(failed: Nameserver)
      requires Valid() && forall j :: 0 <= j < |lists| ==> Avoids(failed, lists[j], |lists[j]|, st)
      ensures forall r <- st :: r.txCount == 0 ==> st[r].ns != failed
    {
      AllListed();
      forall r | r in st && r.txCount == 0 && st[r].ns != null
        ensures st[r].ns != failed
      {
        var j :| 0 <= j < |lists| && r in lists[j];
        var k :| 0 <= k < |lists[j]| && lists[j][k] == r;
      }
    }

    method MarkDown(ns: Nameserver)
      requires Valid() && ns in servers && ns.up
      modifies `globalGoodNameservers, ns`up
      ensures Valid() && !ns.up && globalGoodNameservers == old(globalGoodNameservers) - 1
    {
      hide Rep, BucketsOk, WaitingOk, Counted, Total;
      ghost var up := Up(servers);
      globalGoodNameservers := globalGoodNameservers - 1;
      ns.up := false;
      assert Up(servers) == up - {ns};
    }

    lemma {:induction false} AllListed()
      requires Valid()
      ensures |reqHeads| == |lists| > 0
      ensures forall r <- st :: st[r].ns != null ==> exists j :: 0 <= j < |lists| && r in lists[j]
    {
    }

    /** evdns_base_set_max_requests_inflight: rehashes the requests in flight. The old and the new
        buckets lie side by side until all requests have moved. */
    method SetMaxRequestsInflight(maxInflight: int)
      requires Valid()
      modifies `reqHeads, `lists, `globalMaxRequestsInflight, st.Keys`next, st.Keys`prev
      ensures Valid() && globalMaxRequestsInflight == (if maxInflight < 1 then 1 else maxInflight)
      ensures |reqHeads| == (globalMaxRequestsInflight + 4) / 5
    {
      hide Rep, BucketsOk, WaitingOk, Total, Counted, GoodOk, Apart, Rehashing, Rehashed, Empties;
      var max := if maxInflight < 1 then 1 else maxInflight;
      var m, n := |reqHeads|, (max + 4) / 5;
      SomeBuckets();
      RehashStart(st, lists, n);
      AddBuckets(n);
      MoveBuckets(m, n);
      RehashEnd(st, lists, m, n);
      DropBuckets(m);
      globalMaxRequestsInflight := max;
    }

    lemma {:induction false} SomeBuckets()
      requires Valid()
      ensures |reqHeads| == |lists| > 0
    {
    }

    /** Empties the old buckets one by one. */
    method MoveBuckets(m: nat, n: nat)
      requires Rep() && WaitingOk(st, waiting) && Rehashing(st, lists, m, n) && |lists| == m + n
      modifies `reqHeads, `lists, st.Keys`next, st.Keys`prev
      ensures Rep() && Rehashing(st, lists, m, n) && Total(lists) == old(Total(lists)) && |lists| == m + n
      ensures forall j :: 0 <= j < m ==> lists[j] == []
    {
      hide Rep, WaitingOk, Total, Rehashing, Rehashed;
      var i := 0;
      while i < m
        invariant 0 <= i <= m && Rep() && Rehashing(st, lists, m, n)
        invariant Total(lists) == old(Total(lists)) && |lists| == m + n
        invariant forall j :: 0 <= j < i ==> lists[j] == []
      {
        MoveBucket(i, m, n);
        i := i + 1;
      }
    }

    method AddBuckets(n: nat)
      requires Rep()
      modifies `reqHeads, `lists
      ensures Rep() && lists == old(lists) + Empties(n) && |lists| == |old(lists)| + n
    {
      reqHeads := reqHeads + seq(n, _ => null);
      lists := lists + Empties(n);
    }

    method DropBuckets(m: nat)
      requires Rep() && m <= |lists|
      modifies `reqHeads, `lists
      ensures Rep() && lists == old(lists)[m..] && |reqHeads| == |lists|
    {
      reqHeads := reqHeads[m..];
      lists := lists[m..];
    }

    /** Empties the old bucket `i`. */
    method MoveBucket(i: nat, m: nat, n: nat)
      requires Rep() && WaitingOk(st, waiting) && Rehashing(st, lists, m, n) && i < m
      requires forall j :: 0 <= j < i ==> lists[j] == []
      modifies `reqHeads, `lists, st.Keys`next, st.Keys`prev
      ensures Rep() && Rehashing(st, lists, m, n) && Total(lists) == old(Total(lists)) && |lists| == m + n
      ensures forall j :: 0 <= j <= i ==> lists[j] == []
    {
      hide Ring, NoDup, WaitingOk, Total, Rehashing, Rehashed;
      HeadIs(i, m, n);
      while reqHeads[i] != null
        invariant Rep() && Rehashing(st, lists, m, n) && Total(lists) == old(Total(lists)) && |lists| == |reqHeads| == m + n
        invariant reqHeads[i] == null <==> lists[i] == []
        invariant forall j :: 0 <= j < i ==> lists[j] == []
        decreases |lists[i]|
      {
        MoveOne(i, m, n);
        HeadIs(i, m, n);
      }
    }

    lemma {:induction false} HeadIs(i: nat, m: nat, n: nat)
      requires Rep() && Rehashing(st, lists, m, n) && i < m
      ensures |reqHeads| == |lists| == m + n && reqHeads[i] == if lists[i] == [] then null else lists[i][0]
      ensures lists[i] != [] ==> var r := lists[i][0];
        r in st && st[r].ns != null && r.transId == st[r].transId && NoDup(lists[i]) && n > 0
    {
      if lists[i] != [] {
        InOneList(st, lists, m, n, i, i, lists[i][0]);
      }
    }

    /** Moves the first request of the old bucket `i` to its new bucket. */
    method MoveOne(i: nat, m: nat, n: nat)
      requires Rep() && WaitingOk(st, waiting) && Rehashing(st, lists, m, n) && i < m && lists[i] != []
      modifies `reqHeads, `lists, st.Keys`next, st.Keys`prev
      ensures Rep() && lists == Rehashed(st, old(lists), m, n, i)
      ensures Rehashing(st, lists, m, n) && Total(lists) == old(Total(lists))
      ensures |lists[i]| < |old(lists)[i]| && forall j :: 0 <= j < m && j != i ==> lists[j] == old(lists)[j]
    {
      hide Ring, NoDup, WaitingOk, Total, Rehashing, Apart, Loose;
      HeadIs(i, m, n);
      var req := reqHeads[i];
      ghost var q := lists[i];
      RehashApart(st, lists, m, n, waiting);
      RehashStep(st, lists, m, n, i);
      RehashedTotal(st, lists, m, n, i);
      DetachedBucket(lists, waiting, i, 0);
      RemoveFromBucket(i, req, 0);
      assert q[..0] + q[1..] == q[1..];
      InsertInBucket(m + req.transId % n, req);
    }

    /** The part of evdns_nameserver_add_impl_ that enters a new server, which is taken to be up,
        behind the first one. */
    method AddNameserver(ns: Nameserver)
      requires Valid() && ns !in servers && ns.up && ns.requestsInflight == 0
      modifies `servers, `globalGoodNameservers
      ensures Valid() && servers == (if old(servers) == [] then [ns] else [old(servers)[0], ns] + old(servers)[1..])
      ensures globalGoodNameservers == old(globalGoodNameservers) + 1
    {
      hide Rep, BucketsOk, WaitingOk, Counted, Total, Up;
      ghost var s := servers;
      CountedAdded(st, s, ns);
      UpAdded(s, ns);
      if servers == [] {
        servers := [ns];
      } else {
        servers := [servers[0], ns] + servers[1..];
      }
      globalGoodNameservers := globalGoodNameservers + 1;
    }
  }
}
