/** In which order events are queued, and so run. */
module EventOrder {
  import opened Events
  import opened EventState
  import opened EventSteps

  /** `q` without the events that have `gone`. */
  ghost function Rest(q: seq<Event>, gone: set<Event>): seq<Event> {
    if q == [] then []
    else Rest(q[..|q| - 1], gone) + if q[|q| - 1] in gone then [] else [q[|q| - 1]]
  }

  /** The events of `q` with priority `pri`, in order. */
  ghost function OfPriority(st: map<Event, EvState>, q: seq<Event>, pri: int): seq<Event>
    requires forall e <- q :: e in st
  {
    if q == [] then []
    else OfPriority(st, q[..|q| - 1], pri) + if st[q[|q| - 1]].pri == pri then [q[|q| - 1]] else []
  }

  lemma {:induction false} RestPush(q: seq<Event>, e: Event, gone: set<Event>)
    ensures Rest(q + [e], gone) == Rest(q, gone) + if e in gone then [] else [e]
  {
    assert (q + [e])[..|q|] == q;
  }

  lemma {:induction false} RestAppend(a: seq<Event>, b: seq<Event>, gone: set<Event>)
    ensures Rest(a + b, gone) == Rest(a, gone) + Rest(b, gone)
  {
    if b == [] {
      assert a + b == a;
    } else {
      var init := b[..|b| - 1];
      assert a + b == (a + init) + [b[|b| - 1]];
      RestPush(a + init, b[|b| - 1], gone);
      RestAppend(a, init, gone);
    }
  }

  lemma {:induction false} RestNone(q: seq<Event>, gone: set<Event>)
    requires forall e <- q :: e !in gone
    ensures Rest(q, gone) == q
  {
    if q != [] {
      RestNone(q[..|q| - 1], gone);
      assert q == q[..|q| - 1] + [q[|q| - 1]];
    }
  }

  lemma {:induction false} RestTwice(q: seq<Event>, gone: set<Event>, more: set<Event>)
    ensures Rest(Rest(q, gone), more) == Rest(q, gone + more)
  {
    if q != [] {
      var init, last := q[..|q| - 1], q[|q| - 1];
      RestTwice(init, gone, more);
      if last !in gone {
        RestPush(Rest(init, gone), last, more);
      } else {
        assert Rest(q, gone) == Rest(init, gone);
      }
    }
  }

  lemma {:induction false} WithoutIsRest(q: seq<Event>, e: Event)
    requires e in q && NoDup(q)
    ensures Without(q, e) == Rest(q, {e})
  {
    hide Without, Rest;
    var i: nat :| i < |q| && q[i] == e;
    WithoutAt(q, i);
    RestAt(q[..i], e, q[i + 1..]);
    assert q == q[..i] + [e] + q[i + 1..];
  }

  lemma {:induction false} RestAt(a: seq<Event>, e: Event, b: seq<Event>)
    requires e !in a && e !in b
    ensures Rest(a + [e] + b, {e}) == a + b
  {
    hide Rest;
    RestAppend(a + [e], b, {e});
    RestPush(a, e, {e});
    RestNone(a, {e});
    RestNone(b, {e});
  }

  lemma {:induction false} OfPriorityPush(st: map<Event, EvState>, q: seq<Event>, e: Event, pri: int)
    requires e in st && forall x <- q :: x in st
    ensures OfPriority(st, q + [e], pri) == OfPriority(st, q, pri) + if st[e].pri == pri then [e] else []
  {
    assert (q + [e])[..|q|] == q;
  }

  lemma {:induction false} OfPriorityFrom(st: map<Event, EvState>, q: seq<Event>, pri: int)
    requires forall x <- q :: x in st
    ensures forall x <- OfPriority(st, q, pri) :: x in q
  {
    if q != [] {
      OfPriorityFrom(st, q[..|q| - 1], pri);
    }
  }

  // ---------- one event ----------

  /** Where `e` is put when it becomes active. */
  ghost function Behind(s: State, e: Event, i: int): seq<Event>
    requires e in s.st
  {
    if s.st[e].pri == i then [e] else []
  }

  lemma {:induction false} ActiveInQueue(s: State, e: Event, i: int)
    requires Ok(s) && e in s.st && 0 <= i < |s.queues|
    ensures NoDup(s.queues[i]) && (e in s.queues[i] <==> s.st[e].flags.active && s.st[e].pri == i)
  {
  }

  lemma {:induction false} LaterInQueue(s: State, e: Event)
    requires Ok(s) && e in s.st
    ensures NoDup(s.later) && (e in s.later <==> s.st[e].flags.later)
  {
  }

  /** An event taken off its queue leaves all others in their order. */
  lemma {:induction false} UnqueuedOrder(s: State, e: Event)
    requires Ok(s) && e in s.st
    ensures var r := Unqueued(s, e);
      && r.later == Rest(s.later, {e})
      && forall i :: 0 <= i < |s.queues| ==> r.queues[i] == Rest(s.queues[i], {e})
  {
    hide Ok, NoDup, Without, Rest;
    var r := Unqueued(s, e);
    LaterFlag(s, e);
    LaterInQueue(s, e);
    if e in s.later {
      WithoutIsRest(s.later, e);
    } else {
      RestNone(s.later, {e});
    }
    forall i | 0 <= i < |s.queues|
      ensures r.queues[i] == Rest(s.queues[i], {e})
    {
      ActiveInQueue(s, e, i);
      if e in s.queues[i] {
        WithoutIsRest(s.queues[i], e);
      } else {
        RestNone(s.queues[i], {e});
      }
    }
  }

  /** So does an event that is deleted. */
  lemma {:induction false} DeletedOrder(s: State, e: Event)
    requires Ok(s) && e in s.st && !s.st[e].flags.finalizing
    ensures var r := Deleted(s, e);
      && r.later == Rest(s.later, {e})
      && forall i :: 0 <= i < |s.queues| ==> r.queues[i] == Rest(s.queues[i], {e})
  {
    hide Ok, Untimed, Unqueued, Uninserted, Rest;
    UnqueuedOrder(Untimed(s, e), e);
  }

  /** An event that becomes active goes to the end of the queue of its priority: first in, first out.
      One that is active already keeps its place. */
  lemma {:induction false} ActiveOrder(s: State, e: Event, res: Res)
    requires Ok(s) && e in s.st && !s.st[e].flags.finalizing
    ensures var r := MadeActive(s, e, res);
      if s.st[e].flags.active then r.queues == s.queues && r.later == s.later
      else
        && r.later == Rest(s.later, {e})
        && forall i :: 0 <= i < |s.queues| ==> r.queues[i] == s.queues[i] + Behind(s, e, i)
  {
    hide Ok, Unqueued, Rest;
    if !s.st[e].flags.active {
      var t := WithRes(s, e, if s.st[e].flags.later then s.st[e].res.Or(res) else res);
      UnqueuedOrder(t, e);
      forall i | 0 <= i < |s.queues|
        ensures MadeActive(s, e, res).queues[i] == s.queues[i] + Behind(s, e, i)
      {
        ActiveInQueue(t, e, i);
        RestNone(s.queues[i], {e});
      }
    }
  }

  /** The same for the later queue. */
  lemma {:induction false} LaterOrder(s: State, e: Event, res: Res)
    requires Ok(s) && e in s.st && e !in s.timers
    ensures var r := MadeActiveLater(s, e, res);
      r.queues == s.queues && r.later == if s.st[e].flags.active || s.st[e].flags.later then s.later else s.later + [e]
  {
  }

  /** An event whose time has come: out of its queue, if it is in one, and to the end of the queue of
      its priority. */
  lemma {:induction false} FiredOrder(s: State, e: Event, res: Res)
    requires Ok(s) && e in s.st && !s.st[e].flags.finalizing
    ensures var r := MadeActive(Deleted(s, e), e, res);
      && r.later == Rest(s.later, {e})
      && forall i :: 0 <= i < |s.queues| ==> r.queues[i] == Rest(s.queues[i], {e}) + Behind(s, e, i)
  {
    hide Ok, Deleted, MadeActive, Rest;
    var t := Deleted(s, e);
    DeletedOrder(s, e);
    DeletedFlags(s, e);
    ActiveOrder(t, e, res);
    RestTwice(s.later, {e}, {e});
    assert {e} + {e} == {e};
  }

  lemma DeletedFlags(s: State, e: Event)
    requires Ok(s) && e in s.st && !s.st[e].flags.finalizing
    ensures var t := Deleted(s, e).st[e];
      t.pri == s.st[e].pri && !t.flags.active && !t.flags.finalizing
  {
  }

  // ---------- many events ----------

  /** The events of `fired` have left their places and stand at the ends of the queues of their
      priorities, in the order of `fired`. */
  ghost predicate QueuedInTurn(st: map<Event, EvState>, before: seq<seq<Event>>, after: seq<seq<Event>>, fired: seq<Event>)
    requires forall e <- fired :: e in st
  {
    && |after| == |before|
    && forall i :: 0 <= i < |before| ==> after[i] == Rest(before[i], Set(fired)) + OfPriority(st, fired, i)
  }

  ghost function Set(q: seq<Event>): set<Event> {
    set e | e in q
  }

  lemma {:induction false} NoneInTurn(st: map<Event, EvState>, before: seq<seq<Event>>)
    ensures QueuedInTurn(st, before, before, [])
  {
    forall i | 0 <= i < |before|
      ensures Rest(before[i], Set([])) == before[i]
    {
      RestNone(before[i], Set([]));
    }
  }

  /** `e` has left its place and stands at the end of the queue of its priority. */
  ghost predicate ToTheEnd(st: map<Event, EvState>, before: seq<seq<Event>>, after: seq<seq<Event>>, e: Event)
    requires e in st
  {
    && |after| == |before|
    && forall i :: 0 <= i < |before| ==> after[i] == Rest(before[i], {e}) + if st[e].pri == i then [e] else []
  }

  /** One more event fires. */
  lemma {:induction false} NextInTurn(st: map<Event, EvState>, before: seq<seq<Event>>, now: seq<seq<Event>>,
      after: seq<seq<Event>>, fired: seq<Event>, e: Event)
    requires (forall x <- fired :: x in st) && e in st && e !in fired && QueuedInTurn(st, before, now, fired)
    requires ToTheEnd(st, now, after, e)
    ensures QueuedInTurn(st, before, after, fired + [e])
  {
    hide Set, Rest, OfPriority;
    forall i | 0 <= i < |before|
      ensures after[i] == Rest(before[i], Set(fired + [e])) + OfPriority(st, fired + [e], i)
    {
      RestAppend(Rest(before[i], Set(fired)), OfPriority(st, fired, i), {e});
      RestTwice(before[i], Set(fired), {e});
      SetPush(fired, e);
      OfPriorityFrom(st, fired, i);
      RestNone(OfPriority(st, fired, i), {e});
      OfPriorityPush(st, fired, e, i);
    }
  }

  lemma {:induction false} SetPush(q: seq<Event>, e: Event)
    ensures Set(q + [e]) == Set(q) + {e}
  {
  }

  lemma {:induction false} OneBehind(s0: map<Event, EvState>, s1: map<Event, EvState>, before: seq<seq<Event>>,
      now: seq<seq<Event>>, after: seq<seq<Event>>, fired: seq<Event>, e: Event)
    requires (forall x <- fired :: x in s0) && e in s0 && e in s1 && s1[e] == s0[e] && e !in fired
    requires QueuedInTurn(s0, before, now, fired) && ToTheEnd(s1, now, after, e)
    ensures (forall x <- fired + [e] :: x in s0) && QueuedInTurn(s0, before, after, fired + [e])
  {
    hide QueuedInTurn, Rest;
    NextInTurn(s0, before, now, after, fired, e);
  }

  lemma {:induction false} NoneAway(q: seq<Event>)
    ensures Rest(q, Set([])) == q
  {
    RestNone(q, Set([]));
  }

  lemma {:induction false} NextAway(q: seq<Event>, fired: seq<Event>, e: Event)
    ensures Rest(Rest(q, Set(fired)), {e}) == Rest(q, Set(fired + [e]))
  {
    RestTwice(q, Set(fired), {e});
    SetPush(fired, e);
  }

  /** The events that have left the heap, the earliest first. */
  ghost predicate InTime(st: map<Event, EvState>, h0: set<Event>, h: set<Event>, fired: seq<Event>) {
    && NoDup(fired) && (forall e <- h0 :: e in st) && h <= h0
    && (forall e <- fired :: e in h0 && e !in h) && (forall e <- h0 :: e in h || e in fired)
    && (forall i, j :: 0 <= i < j < |fired| ==> st[fired[i]].timeout.us <= st[fired[j]].timeout.us)
    && (forall e <- fired, x <- h :: st[e].timeout.us <= st[x].timeout.us)
  }

  lemma {:induction false} NoneInTime(st: map<Event, EvState>, h0: set<Event>)
    requires forall e <- h0 :: e in st
    ensures InTime(st, h0, h0, [])
  {
  }

  lemma {:induction false} NextInTime(st: map<Event, EvState>, h0: set<Event>, h: set<Event>, fired: seq<Event>, e: Event)
    requires InTime(st, h0, h, fired) && e in h && forall x <- h :: st[e].timeout.us <= st[x].timeout.us
    ensures InTime(st, h0, h - {e}, fired + [e]) && e !in fired && e in st && forall x <- fired :: x in st
  {
  }

  // ---------- but for a timer ----------

  /** The queues are the same but for the internal timer of a common timeout list. */
  ghost predicate SameBut(before: seq<seq<Event>>, after: seq<seq<Event>>, timer: Event) {
    |after| == |before| && forall i :: 0 <= i < |before| ==> Rest(after[i], {timer}) == Rest(before[i], {timer})
  }

  /** But for such a timer, the events of `fired` are queued in turn. */
  ghost predicate QueuedBut(st: map<Event, EvState>, before: seq<seq<Event>>, after: seq<seq<Event>>, fired: seq<Event>, timer: Event)
    requires forall e <- fired :: e in st
  {
    && |after| == |before|
    && forall i :: 0 <= i < |before| ==>
      Rest(after[i], {timer}) == Rest(before[i], Set(fired) + {timer}) + OfPriority(st, fired, i)
  }

  lemma {:induction false} SameAll(queues: seq<seq<Event>>, timer: Event)
    ensures SameBut(queues, queues, timer)
  {
  }

  lemma {:induction false} ScheduledOrder(s: State, i: nat)
    requires Ok(s) && i < |s.lists| && s.lists[i] != []
    ensures SameBut(s.queues, Scheduled(s, i).queues, s.timers[i])
  {
    hide Ok, Rest, Unqueued, Untimed;
    TimersMatch(s);
    var timer := s.timers[i];
    TimerAlone(s, i);
    UnqueuedOrder(Untimed(s, timer), timer);
    forall p | 0 <= p < |s.queues|
      ensures Rest(Scheduled(s, i).queues[p], {timer}) == Rest(s.queues[p], {timer})
    {
      RestTwice(s.queues[p], {timer}, {timer});
      assert {timer} + {timer} == {timer};
    }
  }

  lemma {:induction false} TimerAside(st: map<Event, EvState>, before: seq<seq<Event>>, now: seq<seq<Event>>, after: seq<seq<Event>>,
      fired: seq<Event>, timer: Event)
    requires (forall e <- fired :: e in st && e != timer) && QueuedInTurn(st, before, now, fired) && SameBut(now, after, timer)
    ensures QueuedBut(st, before, after, fired, timer)
  {
    hide Rest, Set, OfPriority;
    forall i | 0 <= i < |before|
      ensures Rest(after[i], {timer}) == Rest(before[i], Set(fired) + {timer}) + OfPriority(st, fired, i)
    {
      RestAppend(Rest(before[i], Set(fired)), OfPriority(st, fired, i), {timer});
      RestTwice(before[i], Set(fired), {timer});
      OfPriorityFrom(st, fired, i);
      RestNone(OfPriority(st, fired, i), {timer});
    }
  }

  lemma {:induction false} NextInList(q: seq<Event>, k: nat)
    requires k < |q|
    ensures q[k..][1..] == q[k + 1..] && q[..k] + [q[k]] == q[..k + 1]
  {
  }
}
