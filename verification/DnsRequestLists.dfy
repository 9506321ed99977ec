/** The circular lists of evdns requests, and what the request table means: requests in flight hashed
    by transaction id, and a list of waiting requests. */
module DnsRequestLists {
  class Nameserver {
    var requestsInflight: int
    /** `state`: whether the server is thought to be up. */
    var up: bool

    constructor ()
      ensures requestsInflight == 0 && up
    {
      requestsInflight, up := 0, true;
    }
  }

  class Request {
    var next: Request?
    var prev: Request?
    var transId: nat
    var ns: Nameserver?
    var txCount: nat
    var reissueCount: nat
    var transmitMe: bool

    constructor (transId: nat, ns: Nameserver?)
      ensures next == null && prev == null && this.transId == transId && this.ns == ns
    {
      next, prev, this.transId, this.ns := null, null, transId, ns;
      txCount, reissueCount, transmitMe := 0, 0, false;
    }
  }

  // ---------- circular lists ----------

  ghost predicate NoDup(q: seq<Request>) {
    forall i, j :: 0 <= i < j < |q| ==> q[i] != q[j]
  }

  /** The requests of a circular list that starts at `head`. */
  ghost predicate Ring(q: seq<Request>, head: Request?)
    reads q`next, q`prev
  {
    && head == (if q == [] then null else q[0])
    && NoDup(q)
    && (forall i {:trigger q[i].next} :: 0 <= i < |q| ==> q[i].next == if i + 1 < |q| then q[i + 1] else q[0])
    && (forall i {:trigger q[i].prev} :: 0 <= i < |q| ==> q[i].prev == if i > 0 then q[i - 1] else q[|q| - 1])
  }

  /** evdns_request_insert: at the tail. */
  method Insert(req: Request, head: Request?, ghost q: seq<Request>) returns (head': Request?)
    requires Ring(q, head) && req !in q
    modifies req`next, req`prev, q`next, q`prev
    ensures Ring(q + [req], head')
  {
    if head == null {
      req.next, req.prev := req, req;
      return req;
    }
    req.prev := head.prev;
    req.prev.next := req;
    req.next := head;
    head.prev := req;
    head' := head;
  }

  /** evdns_request_remove */
  method Remove(req: Request, head: Request?, ghost q: seq<Request>, ghost k: nat) returns (head': Request?)
    requires Ring(q, head) && k < |q| && q[k] == req
    modifies q`next, q`prev
    ensures Ring(q[..k] + q[k + 1..], head') && req.next == null && req.prev == null
  {
    head' := head;
    if req.next == req {
      head' := null;
    } else {
      req.next.prev := req.prev;
      req.prev.next := req.next;
      if head == req {
        head' := req.next;
      }
    }
    req.next, req.prev := null, null;
    ghost var r := q[..k] + q[k + 1..];
    RemovedAt(q, k);
    assert forall i :: 0 <= i < |r| ==> r[i] == q[if i < k then i else i + 1];
    forall i | 0 <= i < |r|
      ensures r[i].next == if i + 1 < |r| then r[i + 1] else r[0]
    {
      assert old(q[if i < k then i else i + 1].next) == q[if i < k then i + 1 else if i + 2 < |q| then i + 2 else 0];
    }
    forall i | 0 <= i < |r|
      ensures r[i].prev == if i > 0 then r[i - 1] else r[|r| - 1]
    {
      assert old(q[if i < k then i else i + 1].prev) == q[if i >= k then i else if i > 0 then i - 1 else |q| - 1];
    }
  }

  // ---------- the table as values ----------

  datatype Entry = Entry(transId: nat, ns: Nameserver?)

  ghost function Total(lists: seq<seq<Request>>): nat {
    if lists == [] then 0 else |lists[0]| + Total(lists[1..])
  }

  lemma {:induction false} TotalUpdate(lists: seq<seq<Request>>, i: nat, q: seq<Request>)
    requires i < |lists|
    ensures Total(lists[i := q]) == Total(lists) - |lists[i]| + |q|
  {
    if i == 0 {
      assert lists[0 := q][1..] == lists[1..];
    } else {
      TotalUpdate(lists[1..], i - 1, q);
      assert lists[i := q][1..] == lists[1..][i - 1 := q];
    }
  }

  /** The requests in flight at one nameserver. */
  ghost function At(st: map<Request, Entry>, ns: Nameserver): set<Request> {
    set r | r in st && st[r].ns == ns
  }

  /** Every bucket has exactly the requests in flight whose id belongs there. */
  ghost predicate BucketsOk(st: map<Request, Entry>, lists: seq<seq<Request>>) {
    && |lists| > 0
    && (forall i :: 0 <= i < |lists| ==> NoDup(lists[i]))
    && (forall i, r :: 0 <= i < |lists| && r in lists[i] ==> r in st && st[r].ns != null && st[r].transId % |lists| == i)
    && (forall r <- st :: st[r].ns != null ==> r in lists[st[r].transId % |lists|])
  }

  /** And the waiting list has those that have no nameserver yet. */
  ghost predicate WaitingOk(st: map<Request, Entry>, waiting: seq<Request>) {
    && NoDup(waiting)
    && (forall r <- waiting :: r in st && st[r].ns == null)
    && (forall r <- st :: st[r].ns == null ==> r in waiting)
  }

  lemma {:induction false} BucketAdded(st: map<Request, Entry>, lists: seq<seq<Request>>, r: Request, e: Entry)
    requires BucketsOk(st, lists) && (r in st ==> st[r].ns == null) && e.ns != null
    ensures var i := e.transId % |lists|;
      r !in lists[i] && BucketsOk(st[r := e], lists[i := lists[i] + [r]]) && Total(lists[i := lists[i] + [r]]) == Total(lists) + 1
  {
    hide Total, NoDup;
    var i := e.transId % |lists|;
    TotalUpdate(lists, i, lists[i] + [r]);
    assert r !in lists[i];
    NoDupPush(lists[i], r);
    var after, u := lists[i := lists[i] + [r]], st[r := e];
    forall j, x | 0 <= j < |after| && x in after[j]
      ensures x in u && u[x].ns != null && u[x].transId % |after| == j
    {
      assert x in lists[j] || (j == i && x == r);
    }
    forall x | x in u && u[x].ns != null
      ensures x in after[u[x].transId % |after|]
    {
      assert x != r ==> x in lists[st[x].transId % |lists|];
    }
  }

  lemma {:induction false} NoDupPush(q: seq<Request>, r: Request)
    requires NoDup(q) && r !in q
    ensures NoDup(q + [r])
  {
  }

  lemma {:induction false} BucketRemoved(st: map<Request, Entry>, lists: seq<seq<Request>>, r: Request, k: nat)
    requires BucketsOk(st, lists) && r in st && st[r].ns != null
    requires var i := st[r].transId % |lists|; k < |lists[i]| && lists[i][k] == r
    ensures var i := st[r].transId % |lists|;
      var q := lists[i][..k] + lists[i][k + 1..];
      BucketsOk(st - {r}, lists[i := q]) && Total(lists[i := q]) == Total(lists) - 1
  {
    var i := st[r].transId % |lists|;
    RemovedAt(lists[i], k);
    TotalUpdate(lists, i, lists[i][..k] + lists[i][k + 1..]);
  }

  lemma {:induction false} RemovedAt(q: seq<Request>, k: nat)
    requires k < |q| && NoDup(q)
    ensures NoDup(q[..k] + q[k + 1..]) && forall x :: x in q[..k] + q[k + 1..] <==> x in q && x != q[k]
  {
    var r := q[..k] + q[k + 1..];
    forall x | x in q && x != q[k]
      ensures x in r
    {
      var j: nat :| j < |q| && q[j] == x;
      assert r[if j < k then j else j - 1] == x;
    }
  }

  /** The queue without a request, if that is in it. */
  ghost function Without(q: seq<Request>, r: Request): seq<Request> {
    if q == [] then [] else if q[0] == r then q[1..] else [q[0]] + Without(q[1..], r)
  }

  lemma {:induction false} WithoutAt(q: seq<Request>, r: Request, k: nat)
    requires NoDup(q) && k < |q| && q[k] == r
    ensures Without(q, r) == q[..k] + q[k + 1..]
  {
    if k > 0 {
      var rest := q[1..];
      assert NoDup(rest) && rest[k - 1] == r;
      WithoutAt(rest, r, k - 1);
      assert q[..k] == [q[0]] + rest[..k - 1] && q[k + 1..] == rest[k..];
    }
  }

  lemma {:induction false} WithoutOther(q: seq<Request>, r: Request)
    requires r !in q
    ensures Without(q, r) == q
  {
    if q != [] {
      WithoutOther(q[1..], r);
    }
  }

  lemma {:induction false} WaitingAdded(st: map<Request, Entry>, waiting: seq<Request>, r: Request, e: Entry)
    requires WaitingOk(st, waiting) && r !in st && e.ns == null
    ensures r !in waiting && WaitingOk(st[r := e], waiting + [r])
  {
  }

  lemma {:induction false} WaitingRemoved(st: map<Request, Entry>, waiting: seq<Request>, r: Request, k: nat)
    requires WaitingOk(st, waiting) && k < |waiting| && waiting[k] == r
    ensures var q := waiting[..k] + waiting[k + 1..];
      WaitingOk(st - {r}, q) && forall e: Entry :: e.ns != null ==> WaitingOk(st[r := e], q)
  {
    RemovedAt(waiting, k);
  }

  /** The buckets do not depend on waiting requests ... */
  lemma {:induction false} BucketsKept(st: map<Request, Entry>, lists: seq<seq<Request>>, r: Request, e: Entry)
    requires BucketsOk(st, lists)
    ensures (r in st ==> st[r].ns == null) && e.ns == null ==> BucketsOk(st[r := e], lists)
    ensures r in st && st[r].ns == null ==> BucketsOk(st - {r}, lists)
    ensures r in st && st[r].ns != null && e.ns != null && e.transId == st[r].transId ==> BucketsOk(st[r := e], lists)
  {
  }

  /** ... and the waiting list does not depend on requests in flight. */
  lemma {:induction false} WaitingKept(st: map<Request, Entry>, waiting: seq<Request>, r: Request, e: Entry)
    requires WaitingOk(st, waiting)
    ensures (r in st ==> st[r].ns != null) && e.ns != null ==> WaitingOk(st[r := e], waiting)
    ensures r in st && st[r].ns != null ==> WaitingOk(st - {r}, waiting)
  {
  }

  /** How the number of requests at a server changes with one entry. */
  lemma {:induction false} AtUpdate(st: map<Request, Entry>, r: Request, e: Entry, ns: Nameserver)
    ensures |At(st[r := e], ns)| == |At(st, ns)| - (if r in st && st[r].ns == ns then 1 else 0) + if e.ns == ns then 1 else 0
  {
    var a, b := At(st, ns), At(st[r := e], ns);
    assert a - {r} == b - {r};
    assert r in a ==> a == (a - {r}) + {r};
    assert r !in a ==> a == a - {r};
    assert r in b ==> b == (b - {r}) + {r};
    assert r !in b ==> b == b - {r};
  }

  lemma {:induction false} AtRemove(st: map<Request, Entry>, r: Request, ns: Nameserver)
    requires r in st
    ensures |At(st - {r}, ns)| == |At(st, ns)| - if st[r].ns == ns then 1 else 0
  {
    var a, b := At(st, ns), At(st - {r}, ns);
    assert forall x :: x in b <==> x in a && x != r;
    hide At;
    if r in a {
      assert a == b + {r};
    } else {
      assert a == b;
    }
  }

  /** No request is in two lists. */
  ghost predicate Apart(lists: seq<seq<Request>>, waiting: seq<Request>) {
    && (forall i, j, a, b :: 0 <= i < |lists| && 0 <= j < |lists| && i != j && 0 <= a < |lists[j]| && 0 <= b < |lists[i]| ==>
          lists[j][a] != lists[i][b])
    && (forall j, a, b :: 0 <= j < |lists| && 0 <= a < |lists[j]| && 0 <= b < |waiting| ==> lists[j][a] != waiting[b])
  }

  /** `r` is in no list. */
  ghost predicate Loose(r: Request, lists: seq<seq<Request>>, waiting: seq<Request>) {
    && (forall j, a :: 0 <= j < |lists| && 0 <= a < |lists[j]| ==> lists[j][a] != r)
    && (forall a :: 0 <= a < |waiting| ==> waiting[a] != r)
  }

  lemma {:induction false} InBucket(st: map<Request, Entry>, lists: seq<seq<Request>>, i: nat, a: nat)
    requires BucketsOk(st, lists) && i < |lists| && a < |lists[i]|
    ensures var r := lists[i][a]; r in st && st[r].ns != null && st[r].transId % |lists| == i
  {
    assert lists[i][a] in lists[i];
  }

  lemma {:induction false} ListsApart(st: map<Request, Entry>, lists: seq<seq<Request>>, waiting: seq<Request>)
    requires BucketsOk(st, lists) && WaitingOk(st, waiting)
    ensures Apart(lists, waiting) && |lists| > 0
  {
    forall i, a | 0 <= i < |lists| && 0 <= a < |lists[i]|
      ensures lists[i][a] in st && st[lists[i][a]].ns != null && st[lists[i][a]].transId % |lists| == i
    {
      InBucket(st, lists, i, a);
    }
    hide BucketsOk;
    forall j, a, b | 0 <= j < |lists| && 0 <= a < |lists[j]| && 0 <= b < |waiting|
      ensures lists[j][a] != waiting[b]
    {
      assert waiting[b] in waiting;
    }
  }

  lemma {:induction false} NotListed(st: map<Request, Entry>, lists: seq<seq<Request>>, waiting: seq<Request>, r: Request)
    requires BucketsOk(st, lists) && WaitingOk(st, waiting) && r !in st
    ensures Loose(r, lists, waiting)
  {
    forall j, a | 0 <= j < |lists| && 0 <= a < |lists[j]|
      ensures lists[j][a] != r
    {
      InBucket(st, lists, j, a);
    }
    assert forall a :: 0 <= a < |waiting| ==> waiting[a] in waiting;
  }

  lemma {:induction false} DetachedWaiting(lists: seq<seq<Request>>, waiting: seq<Request>, k: nat)
    requires Apart(lists, waiting) && NoDup(waiting) && k < |waiting|
    ensures Apart(lists, waiting[..k] + waiting[k + 1..]) && Loose(waiting[k], lists, waiting[..k] + waiting[k + 1..])
  {
  }

  lemma {:induction false} DetachedBucket(lists: seq<seq<Request>>, waiting: seq<Request>, i: nat, k: nat)
    requires Apart(lists, waiting) && i < |lists| && NoDup(lists[i]) && k < |lists[i]|
    ensures var rest := lists[i := lists[i][..k] + lists[i][k + 1..]];
      Apart(rest, waiting) && Loose(lists[i][k], rest, waiting)
  {
  }

  // ---------- rehashing ----------

  /** The bucket of `m` that an id belongs to. */
  ghost function Home(transId: nat, m: nat): (i: nat)
    requires m > 0
    ensures i < m
  {
    transId % m
  }

  /** Halfway between two tables that lie side by side, `m` old buckets and then `n` new ones: every
      request in flight is in its old bucket or in its new one, not in both. */
  ghost predicate Rehashing(st: map<Request, Entry>, lists: seq<seq<Request>>, m: nat, n: nat) {
    && m > 0 && n > 0 && |lists| == m + n
    && (forall i :: 0 <= i < |lists| ==> NoDup(lists[i]))
    && (forall i, r :: 0 <= i < |lists| && r in lists[i] ==>
          r in st && st[r].ns != null && (i == Home(st[r].transId, m) || i == m + Home(st[r].transId, n)))
    && (forall r <- st :: st[r].ns != null ==> (r in lists[Home(st[r].transId, m)] <==> r !in lists[m + Home(st[r].transId, n)]))
  }

  ghost function Empties(n: nat): seq<seq<Request>> {
    seq(n, _ => [])
  }

  lemma {:induction false} TotalEmpty(lists: seq<seq<Request>>)
    requires forall i :: 0 <= i < |lists| ==> lists[i] == []
    ensures Total(lists) == 0
  {
    if lists != [] {
      TotalEmpty(lists[1..]);
    }
  }

  lemma {:induction false} TotalConcat(a: seq<seq<Request>>, b: seq<seq<Request>>)
    ensures Total(a + b) == Total(a) + Total(b)
  {
    if a == [] {
      assert a + b == b;
    } else {
      TotalConcat(a[1..], b);
      assert (a + b)[1..] == a[1..] + b;
    }
  }

  lemma {:induction false} RehashStart(st: map<Request, Entry>, lists: seq<seq<Request>>, n: nat)
    requires BucketsOk(st, lists) && n > 0
    ensures Rehashing(st, lists + Empties(n), |lists|, n) && Total(lists + Empties(n)) == Total(lists)
  {
    hide Total, NoDup;
    TotalConcat(lists, Empties(n));
    TotalEmpty(Empties(n));
    NoDupEmpty();
    var all, m := lists + Empties(n), |lists|;
    forall i | 0 <= i < |all|
      ensures all[i] == if i < m then lists[i] else []
    {
    }
    forall r | r in st && st[r].ns != null
      ensures r in all[Home(st[r].transId, m)] && r !in all[m + Home(st[r].transId, n)]
    {
    }
  }

  lemma {:induction false} NoDupEmpty()
    ensures NoDup([])
  {
  }

  lemma {:induction false} RehashEnd(st: map<Request, Entry>, lists: seq<seq<Request>>, m: nat, n: nat)
    requires Rehashing(st, lists, m, n) && forall i :: 0 <= i < m ==> lists[i] == []
    ensures BucketsOk(st, lists[m..]) && Total(lists[m..]) == Total(lists)
  {
    TotalConcat(lists[..m], lists[m..]);
    assert lists == lists[..m] + lists[m..];
    TotalEmpty(lists[..m]);
    var t := lists[m..];
    forall i, r | 0 <= i < |t| && r in t[i]
      ensures r in st && st[r].ns != null && Home(st[r].transId, n) == i
    {
      assert t[i] == lists[m + i];
    }
  }

  /** One request moves from the front of an old bucket to the end of its new one. */
  ghost function Rehashed(st: map<Request, Entry>, lists: seq<seq<Request>>, m: nat, n: nat, i: nat): seq<seq<Request>>
    requires Rehashing(st, lists, m, n) && i < m && lists[i] != []
  {
    var r := lists[i][0];
    var t := m + Home(st[r].transId, n);
    lists[i := lists[i][1..]][t := lists[t] + [r]]
  }

  /** In the middle of rehashing a request is still in one list only. */
  lemma {:induction false} InOneList(st: map<Request, Entry>, lists: seq<seq<Request>>, m: nat, n: nat, i: nat, j: nat, r: Request)
    requires Rehashing(st, lists, m, n) && i < |lists| && j < |lists|
    ensures r in lists[i] ==> r in st && st[r].ns != null
    ensures r in lists[i] && r in lists[j] ==> i == j
  {
    if r in lists[i] {
      var old0, new0 := Home(st[r].transId, m), m + Home(st[r].transId, n);
      assert i == old0 || i == new0;
      assert r in lists[j] ==> j == old0 || j == new0;
    }
  }

  /** `next` has `r` in list `t` only, and is otherwise like `lists`. */
  ghost predicate MovedTo(lists: seq<seq<Request>>, next: seq<seq<Request>>, r: Request, t: nat)
    requires t < |next| == |lists|
  {
    && (forall j, x :: 0 <= j < |next| && x in next[j] ==> if x == r then j == t else x in lists[j])
    && (forall j, x :: 0 <= j < |lists| && x in lists[j] && x != r ==> x in next[j])
    && r in next[t]
  }

  /** Which lists a request is in after a move. */
  lemma {:induction false} RehashedMembers(st: map<Request, Entry>, lists: seq<seq<Request>>, m: nat, n: nat, i: nat)
    requires Rehashing(st, lists, m, n) && i < m && lists[i] != []
    ensures var r, next := lists[i][0], Rehashed(st, lists, m, n, i);
      && r in lists[i] && Home(st[r].transId, m) == i && |next| == |lists|
      && (forall j :: 0 <= j < |next| ==> NoDup(next[j]))
      && MovedTo(lists, next, r, m + Home(st[r].transId, n))
  {
    hide Home;
    var r := lists[i][0];
    var t := m + Home(st[r].transId, n);
    assert r in lists[i];
    RemovedAt(lists[i], 0);
    assert lists[i][..0] + lists[i][1..] == lists[i][1..];
    forall j | 0 <= j < |lists| && j != i
      ensures r !in lists[j]
    {
      InOneList(st, lists, m, n, i, j, r);
    }
    InOneList(st, lists, m, n, i, i, r);
  }

  lemma {:induction false} RehashedTotal(st: map<Request, Entry>, lists: seq<seq<Request>>, m: nat, n: nat, i: nat)
    requires Rehashing(st, lists, m, n) && i < m && lists[i] != []
    ensures Total(Rehashed(st, lists, m, n, i)) == Total(lists)
  {
    hide Home, Total;
    assert lists[i][0] in lists[i];
    var t := m + Home(st[lists[i][0]].transId, n);
    TotalUpdate(lists, i, lists[i][1..]);
    TotalUpdate(lists[i := lists[i][1..]], t, lists[t] + [lists[i][0]]);
  }

  lemma {:induction false} RehashStep(st: map<Request, Entry>, lists: seq<seq<Request>>, m: nat, n: nat, i: nat)
    requires Rehashing(st, lists, m, n) && i < m && lists[i] != []
    ensures Rehashing(st, Rehashed(st, lists, m, n, i), m, n)
  {
    hide Rehashed, Home;
    RehashedMembers(st, lists, m, n, i);
    var r, next := lists[i][0], Rehashed(st, lists, m, n, i);
    forall x | x in st && st[x].ns != null
      ensures x in next[Home(st[x].transId, m)] <==> x !in next[m + Home(st[x].transId, n)]
    {
      var old0, new0 := Home(st[x].transId, m), m + Home(st[x].transId, n);
      assert x in next[old0] <==> x != r && x in lists[old0];
      assert x in next[new0] <==> (x != r && x in lists[new0]) || x == r;
    }
    forall j, x | 0 <= j < |next| && x in next[j]
      ensures x in st && st[x].ns != null && (j == Home(st[x].transId, m) || j == m + Home(st[x].transId, n))
    {
      assert x == r || x in lists[j];
    }
  }

  lemma {:induction false} RehashApart(st: map<Request, Entry>, lists: seq<seq<Request>>, m: nat, n: nat, waiting: seq<Request>)
    requires Rehashing(st, lists, m, n) && WaitingOk(st, waiting)
    ensures Apart(lists, waiting)
  {
    forall i, j, a, b | 0 <= i < |lists| && 0 <= j < |lists| && i != j && 0 <= a < |lists[j]| && 0 <= b < |lists[i]|
      ensures lists[j][a] != lists[i][b]
    {
      assert lists[j][a] in lists[j] && lists[i][b] in lists[i];
      InOneList(st, lists, m, n, i, j, lists[j][a]);
    }
    forall j, a, b | 0 <= j < |lists| && 0 <= a < |lists[j]| && 0 <= b < |waiting|
      ensures lists[j][a] != waiting[b]
    {
      assert waiting[b] in waiting;
      InOneList(st, lists, m, n, j, j, lists[j][a]);
    }
  }
}
