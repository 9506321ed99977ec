/** The event base in place: flags, queues, heap, common timeout lists and counters. */
module EventQueues {
  import opened Wrappers
  import opened Events
  import opened MinHeap
  import opened EventState
  import opened EventSteps
  import opened EventOrder

  ghost function TimesOf(st: map<Event, EvState>): (t: map<Event, int>)
    ensures t.Keys == st.Keys
  {
    map e | e in st :: st[e].timeout.us
  }

  lemma {:induction false} NoneQueued(queues: seq<seq<Event>>)
    requires forall i :: 0 <= i < |queues| ==> queues[i] == []
    ensures Total(queues) == 0
  {
    if queues != [] {
      NoneQueued(queues[1..]);
    }
  }

  lemma {:induction false} StartsOk(queues: seq<seq<Event>>)
    requires forall i :: 0 <= i < |queues| ==> queues[i] == []
    ensures Ok(State(map[], queues, [], {}, [], [], 0, 0)) && AllCovered(State(map[], queues, [], {}, [], [], 0, 0), {})
  {
    NoneQueued(queues);
  }

  lemma QueueOf(s: State, e: Event)
    requires Ok(s) && e in s.st && s.st[e].flags.active
    ensures s.st[e].pri < |s.queues| && e in s.queues[s.st[e].pri] && NoDup(s.queues[s.st[e].pri])
  {
  }

  lemma LaterQueueOf(s: State, e: Event)
    requires Ok(s) && e in s.st && s.st[e].flags.later
    ensures e in s.later && NoDup(s.later)
  {
  }

  lemma {:induction false} TimeoutOf(s: State, e: Event)
    requires Ok(s) && e in s.st && s.st[e].flags.timeout
    ensures if IsCommon(s.st[e].timeout, |s.lists|)
      then e in s.lists[s.st[e].timeout.common.value] && NoDup(s.lists[s.st[e].timeout.common.value])
      else e in s.heap
  {
    if IsCommon(s.st[e].timeout, |s.lists|) {
      assert ListOk(s.st, s.lists[s.st[e].timeout.common.value], s.st[e].timeout.common.value);
    }
  }

  lemma {:induction false} NoTimeoutOf(s: State, e: Event)
    requires Ok(s) && e in s.st && !s.st[e].flags.timeout
    ensures e !in s.heap
    ensures forall i, x :: 0 <= i < |s.lists| && x in s.lists[i] ==> x in s.st && x != e
  {
    forall i, x | 0 <= i < |s.lists| && x in s.lists[i]
      ensures x in s.st && x != e
    {
      assert ListOk(s.st, s.lists[i], i);
    }
  }

  ghost function TimeoutSet(s: State, e: Event, tv: Tv): State
    requires e in s.st
  {
    s.(st := s.st[e := s.st[e].(timeout := tv)])
  }

  lemma PriorityOk(s: State, e: Event)
    requires Ok(s) && e in s.st
    ensures s.st[e].pri < |s.queues|
  {
  }

  lemma {:induction false} SamePos(st: map<Event, EvState>, st': map<Event, EvState>, q: seq<Event>, us: int)
    requires forall e <- q :: e in st && e in st' && st[e].timeout == st'[e].timeout
    ensures InsertPos(st, q, us) == InsertPos(st', q, us)
  {
    if q != [] {
      SamePos(st, st', q[..|q| - 1], us);
    }
  }

  lemma {:induction false} InsertAfterSet(s: State, e: Event, tv: Tv)
    requires Ok(s) && e in s.st && !s.st[e].flags.timeout && Ok(TimeoutSet(s, e, tv))
    ensures InsertTimeout(TimeoutSet(s, e, tv), e, tv) == InsertTimeout(s, e, tv)
  {
    hide Ok, InsertPos, InsertedAt;
    NoTimeoutOf(s, e);
    if IsCommon(tv, |s.lists|) {
      SamePos(s.st, TimeoutSet(s, e, tv).st, s.lists[tv.common.value], tv.us);
    }
  }

  lemma {:induction false} HeadOf(s: State, i: nat)
    requires Ok(s) && i < |s.lists| && s.lists[i] != []
    ensures |s.timers| == |s.lists| && s.lists[i][0] in s.st
  {
    assert ListOk(s.st, s.lists[i], i) && s.lists[i][0] in s.lists[i];
  }

  lemma {:induction false} TimerHasNoMap(s: State, i: nat)
    requires Ok(s) && i < |s.timers|
    ensures s.timers[i] in s.timers && !s.timers[i].io
  {
  }

  lemma IoIsNoTimer(s: State, e: Event)
    requires Ok(s) && e.io
    ensures e !in s.timers
  {
  }

  lemma HeapShrank(p: seq<Event>, q: seq<Event>, e: Event)
    requires Elems(p) == Elems(q) - {e}
    ensures forall x <- p :: x in q
  {
    assert forall x <- p :: x in Elems(p);
  }

  lemma ByIndex(p: seq<Event>, q: seq<Event>)
    requires forall x <- p :: x in q
    ensures forall i :: 0 <= i < |p| ==> p[i] in q
  {
    assert forall i :: 0 <= i < |p| ==> p[i] in p;
  }

  /** TAILQ_REMOVE */
  method Removed(q: seq<Event>, e: Event) returns (r: seq<Event>)
    requires e in q && NoDup(q)
    ensures r == Without(q, e)
  {
    var i := 0;
    while q[i] != e
      invariant 0 <= i < |q| && forall j :: 0 <= j < i ==> q[j] != e
      decreases |q| - i
    {
      i := i + 1;
    }
    WithoutAt(q, i);
    r := q[..i] + q[i + 1..];
  }

  /** insert_common_timeout_inorder: looks for the place from the end. */
  method InsertedInorder(q: seq<Event>, e: Event, ghost st: map<Event, EvState>) returns (r: seq<Event>)
    requires forall x <- q :: x in st && x.timeout.us == st[x].timeout.us
    ensures r == InsertedAt(q, InsertPos(st, q, e.timeout.us), e)
  {
    var k := |q|;
    assert q[..k] == q;
    while k > 0 && e.timeout.us < q[k - 1].timeout.us
      invariant 0 <= k <= |q| && InsertPos(st, q[..k], e.timeout.us) == InsertPos(st, q, e.timeout.us)
    {
      assert q[..k][..k - 1] == q[..k - 1] && q[k - 1] in q;
      k := k - 1;
    }
    assert k > 0 ==> q[k - 1] in q;
    r := q[..k] + [e] + q[k..];
  }

  function Max(a: int, b: int): int {
    if a <= b then b else a
  }

  /** Sleeping for `wait` from `now` ends before any pending timeout has passed. */
  ghost predicate WakesInTime(st: map<Event, EvState>, now: int, wait: Option<nat>) {
    forall e <- st :: st[e].flags.timeout ==> wait.Some? && now + wait.value <= Max(now, st[e].timeout.us)
  }

  /** An event whose timeout has passed: active for that reason alone, and pending nowhere. */
  ghost function Fired(s: EvState): EvState {
    s.(flags := Flags(false, false, true, false, false), res := Res(true, false))
  }

  /** Whether event_add_nolock_ asks the event map to watch for `e`. */
  ghost predicate WantsMap(s: State, e: Event)
    requires e in s.st
  {
    e.io && !(s.st[e].flags.inserted || s.st[e].flags.active || s.st[e].flags.later)
  }

  ghost function MapAdded(s: State, e: Event): (r: State)
    requires Ok(s) && e in s.st && !s.st[e].flags.finalizing
    ensures Ok(r) && Only(s, r, e) && r.lists == s.lists && r.heap == s.heap && !r.st[e].flags.finalizing
    ensures r.st[e].timeout == s.st[e].timeout && r.st[e].flags.active == s.st[e].flags.active
  {
    if WantsMap(s, e) then
      InsertInsertedOk(s, e);
      InsertInserted(s, e)
    else s
  }

  /** event_add_nolock_ as a whole: it changes nothing if it fails. */
  ghost function Added(s: State, e: Event, tv: Option<Tv>, mapResult: int): (r: State)
    requires Ok(s) && e in s.st && (e in s.timers && tv.Some? ==> tv.value.common == None)
    ensures Ok(r) && r.st.Keys == s.st.Keys && r.timers == s.timers
  {
    if s.st[e].flags.finalizing || (WantsMap(s, e) && mapResult == -1) then s
    else
      var t := MapAdded(s, e);
      if tv.Some? then TimeoutAdded(t, e, tv.value) else t
  }

  /** What becomes of the event. It enters the map unless it is there or about to run; a timeout given
      replaces the old one, and an event that is active because of that one is active no more. */
  lemma {:induction false} AddedEvent(s: State, e: Event, tv: Option<Tv>, mapResult: int)
    requires Ok(s) && e in s.st && (e in s.timers && tv.Some? ==> tv.value.common == None)
    ensures var r, f := Added(s, e, tv, mapResult), s.st[e].flags;
      var asks := e.io && !f.inserted && !f.active && !f.later;
      if f.finalizing || (asks && mapResult == -1) then r == s
      else
        && r.st[e].flags == Flags(f.timeout || tv.Some?, f.inserted || asks, f.active && !(tv.Some? && s.st[e].res.timeout), f.later, false)
        && r.st[e].timeout == (if tv.Some? then tv.value else s.st[e].timeout)
        && r.st[e].res == s.st[e].res && r.st[e].pri == s.st[e].pri
        && forall x <- s.st :: x != e && x !in s.timers ==> r.st[x] == s.st[x]
  {
    hide Ok;
    LaterFlag(s, e);
    if !s.st[e].flags.finalizing && !(WantsMap(s, e) && mapResult == -1) {
      var t := MapAdded(s, e);
      MapAddedEvent(s, e);
      hide MapAdded;
      if tv.Some? {
        LaterFlag(t, e);
        RetimedEvent(t, e, tv.value);
        TimeoutAddedEvent(t, e, tv.value);
      }
    }
  }

  lemma {:induction false} AddedIs(s: State, e: Event, tv: Option<Tv>, mapResult: int)
    requires Ok(s) && e in s.st && (e in s.timers && tv.Some? ==> tv.value.common == None)
    ensures Added(s, e, tv, mapResult)
      == if s.st[e].flags.finalizing || (WantsMap(s, e) && mapResult == -1) then s
         else if tv.Some? then TimeoutAdded(MapAdded(s, e), e, tv.value) else MapAdded(s, e)
  {
    hide Ok;
  }

  lemma {:induction false} MapAddedEvent(s: State, e: Event)
    requires Ok(s) && e in s.st && !s.st[e].flags.finalizing
    ensures var r, f := MapAdded(s, e), s.st[e].flags;
      r.st[e] == s.st[e].(flags := f.(inserted := f.inserted || (e.io && !f.active && !f.later))) && r.timers == s.timers
  {
    hide Ok;
  }

  lemma {:induction false} RetimedEvent(s: State, e: Event, tv: Tv)
    requires Ok(s) && e in s.st && !s.st[e].flags.finalizing && (e in s.timers ==> tv.common == None)
    ensures var f := s.st[e].flags;
      Retimed(s, e, tv).st[e] == s.st[e].(timeout := tv,
        flags := f.(timeout := true, active := f.active && !s.st[e].res.timeout, later := f.later && !(f.active && s.st[e].res.timeout)))
  {
    hide Ok, InsertTimeout;
    InsertTimeoutOnly(Ready(s, e), e, tv);
    hide Untimed, Unqueued;
  }

  lemma {:induction false} TimeoutAddedEvent(s: State, e: Event, tv: Tv)
    requires Ok(s) && e in s.st && !s.st[e].flags.finalizing && (e in s.timers ==> tv.common == None)
    ensures TimeoutAdded(s, e, tv).st[e] == Retimed(s, e, tv).st[e]
    ensures forall x <- s.st :: x != e && x !in s.timers ==> TimeoutAdded(s, e, tv).st[x] == s.st[x]
  {
    hide Retimed, Scheduled;
    TimersMatch(Retimed(s, e, tv));
    hide Ok;
  }

  lemma {:induction false} MapAddedCovers(s: State, e: Event, inFlight: set<nat>)
    requires Ok(s) && e in s.st && e !in s.timers && AllCovered(s, inFlight) && !s.st[e].flags.finalizing
    ensures AllCovered(MapAdded(s, e), inFlight)
  {
    hide Ok, MapAdded, Covered;
    var t := MapAdded(s, e);
    TimersMatch(s);
    forall i: nat | i < |t.lists| && i !in inFlight
      ensures Covered(t, i)
    {
      assert Covered(s, i) && s.timers[i] in s.timers;
      ShrinkCovers(s, t, e, i);
    }
  }

  lemma {:induction false} AddedCovers(s: State, e: Event, tv: Option<Tv>, mapResult: int, inFlight: set<nat>)
    requires Ok(s) && e in s.st && e !in s.timers && AllCovered(s, inFlight)
    ensures AllCovered(Added(s, e, tv, mapResult), inFlight)
  {
    hide Ok, MapAdded, Covered, AllCovered, TimeoutAdded;
    if !s.st[e].flags.finalizing {
      MapAddedCovers(s, e, inFlight);
      if tv.Some? {
        TimeoutAddedCovers(MapAdded(s, e), e, tv.value, inFlight);
      }
    }
  }

  lemma {:induction false} UntimedFromHeap(s: State, e: Event)
    requires Ok(s) && e in s.heap
    ensures e in s.st && !s.st[e].flags.finalizing && Untimed(s, e).lists == s.lists
  {
  }

  lemma {:induction false} FiredFromHeap(s: State, e: Event)
    requires Ok(s) && e in s.heap
    ensures e in s.st
    ensures var r := MadeActive(Deleted(s, e), e, Res(true, false));
      r.st == s.st[e := Fired(s.st[e])] && r.lists == s.lists && r.heap == s.heap - {e}
  {
    hide Ok, Untimed, Unqueued, Uninserted;
    UntimedFromHeap(s, e);
    var r := MadeActive(Deleted(s, e), e, Res(true, false));
    assert forall x <- s.st :: r.st[x] == s.st[e := Fired(s.st[e])][x];
  }

  lemma {:induction false} FiredFromList(s: State, i: nat)
    requires Ok(s) && i < |s.lists| && s.lists[i] != []
    ensures var e := s.lists[i][0];
      && e in s.st && e !in s.timers
      && (var r := MadeActive(Deleted(s, e), e, Res(true, false));
          r.st == s.st[e := Fired(s.st[e])] && r.lists == s.lists[i := s.lists[i][1..]])
  {
    hide Ok, Untimed, Unqueued, Uninserted;
    var e := s.lists[i][0];
    UntimedFromList(s, i);
    var r := MadeActive(Deleted(s, e), e, Res(true, false));
    assert forall x <- s.st :: r.st[x] == s.st[e := Fired(s.st[e])][x];
  }

  lemma {:induction false} UntimedFromList(s: State, i: nat)
    requires Ok(s) && i < |s.lists| && s.lists[i] != []
    ensures var e := s.lists[i][0];
      e in s.st && e !in s.timers && !s.st[e].flags.finalizing && Untimed(s, e).lists == s.lists[i := s.lists[i][1..]]
  {
    var e := s.lists[i][0];
    assert ListOk(s.st, s.lists[i], i) && e in s.lists[i];
    WithoutAt(s.lists[i], 0);
    assert s.lists[i][..0] + s.lists[i][1..] == s.lists[i][1..];
  }

  lemma {:induction false} ListAmong(s: State, i: nat)
    requires Ok(s) && i < |s.lists|
    ensures |s.timers| == |s.lists| && NoDup(s.lists[i]) && (forall e <- s.lists[i] :: e in s.st) && Sorted(s.st, s.lists[i])
    ensures s.timers[i] in s.timers && forall e <- s.lists[i] :: e !in s.timers
  {
    assert ListOk(s.st, s.lists[i], i);
  }

  lemma {:induction false} CoverLess(s: State, inFlight: set<nat>, more: set<nat>)
    requires Ok(s) && AllCovered(s, inFlight) && inFlight <= more
    ensures AllCovered(s, more)
  {
  }

  lemma {:induction false} EmptyIsCovered(s: State, i: nat, inFlight: set<nat>)
    requires Ok(s) && AllCovered(s, inFlight) && i < |s.lists| && s.lists[i] == []
    ensures AllCovered(s, inFlight - {i})
  {
    forall j: nat | j < |s.lists| && j !in inFlight - {i}
      ensures Covered(s, j)
    {
    }
  }

  /** Of a list the first `k` events have been due, and are active now. */
  ghost predicate DueFired(s0: map<Event, EvState>, s1: map<Event, EvState>, q: seq<Event>, k: int, now: int) {
    && 0 <= k <= |q| && s1.Keys == s0.Keys
    && (forall e <- s1 :: s1[e] == if e in q[..k] then Fired(s0[e]) else s0[e])
    && (forall e <- q[..k] :: e in s0 && s0[e].timeout.us <= now)
  }

  lemma {:induction false} NoneFired(s0: map<Event, EvState>, q: seq<Event>, now: int)
    ensures DueFired(s0, s0, q, 0, now) && q[0..] == q
  {
  }

  lemma {:induction false} FiredNotYet(s0: map<Event, EvState>, s1: map<Event, EvState>, q: seq<Event>, k: int, now: int)
    requires DueFired(s0, s1, q, k, now) && k < |q| && NoDup(q) && q[k] in s0
    ensures s1[q[k]] == s0[q[k]]
  {
  }

  lemma {:induction false} OneMoreFired(s0: map<Event, EvState>, s1: map<Event, EvState>, q: seq<Event>, k: int, now: int)
    requires DueFired(s0, s1, q, k, now) && k < |q| && NoDup(q) && q[k] in s0 && s0[q[k]].timeout.us <= now
    ensures DueFired(s0, s1[q[k] := Fired(s1[q[k]])], q, k + 1, now)
  {
    FiredNotYet(s0, s1, q, k, now);
    assert q[..k + 1] == q[..k] + [q[k]];
  }

  lemma {:induction false} FiredAre(s0: map<Event, EvState>, s1: map<Event, EvState>, q: seq<Event>, k: int, now: int)
    requires DueFired(s0, s1, q, k, now)
    ensures forall e <- s1 :: s1[e] == if e in q[..k] then Fired(s0[e]) else s0[e]
    ensures forall e <- q[..k] :: e in s0 && s0[e].timeout.us <= now
  {
  }

  lemma {:induction false} RestIsLater(st: map<Event, EvState>, q: seq<Event>, k: nat, now: int)
    requires (forall e <- q :: e in st) && Sorted(st, q) && k <= |q| && (k < |q| ==> st[q[k]].timeout.us > now)
    ensures forall e <- q[k..] :: st[e].timeout.us > now
  {
  }

  lemma {:induction false} FirstIsActive(s: State, pri: nat)
    requires Ok(s) && pri < |s.queues| && s.queues[pri] != []
    ensures var e := s.queues[pri][0]; e in s.st && s.st[e].flags.active
  {
    assert s.queues[pri][0] in s.queues[pri];
  }

  lemma {:induction false} RemoveActiveKeeps(s: State, e: Event)
    requires Ok(s) && e in s.st && s.st[e].flags.active
    ensures s.st[e].pri < |s.queues| && e in s.queues[s.st[e].pri] && Ok(RemoveActive(s, e))
        && Only(s, RemoveActive(s, e), e) && ListsShrink(s, RemoveActive(s, e))
    ensures RemoveActive(s, e).st[e].timeout == s.st[e].timeout
  {
    RemoveActiveOk(s, e);
  }

  lemma {:induction false} TakenCovers(s: State, r: State, e: Event, inFlight: set<nat>, taken: set<nat>)
    requires Ok(s) && Ok(r) && e in s.st && AllCovered(s, inFlight) && Only(s, r, e) && ListsShrink(s, r)
    requires r.st[e].timeout == s.st[e].timeout
    requires forall i: nat :: i < |s.timers| && s.timers[i] == e ==> i in taken
    ensures AllCovered(r, inFlight + taken)
  {
    assert |s.timers| == |s.lists|;
    hide Ok, Covered;
    forall i: nat | i < |r.lists| && i !in inFlight + taken
      ensures Covered(r, i)
    {
      assert Covered(s, i);
      ShrinkCovers(s, r, e, i);
    }
  }

  lemma TimersAreUntagged(s: State, e: Event)
    requires Ok(s) && e in s.st
    ensures e in s.timers ==> s.st[e].timeout.common == None
    ensures s.st[e].pri < |s.queues|
  {
  }

  lemma {:induction false} PriorityCovers(s: State, e: Event, t: EvState, inFlight: set<nat>)
    requires Ok(s) && e in s.st && AllCovered(s, inFlight) && t == s.st[e].(pri := t.pri) && Ok(s.(st := s.st[e := t]))
    ensures AllCovered(s.(st := s.st[e := t]), inFlight)
  {
    forall i: nat | i < |s.lists| && i !in inFlight
      ensures Covered(s.(st := s.st[e := t]), i)
    {
      assert Covered(s, i);
    }
  }

  ghost function MovedUp(s: EvState): EvState {
    s.(flags := s.flags.(later := false, active := true))
  }

  ghost function Deferreds(q: seq<Event>): nat {
    if q == [] then 0 else Deferreds(q[..|q| - 1]) + if q[|q| - 1].selfCb then 1 else 0
  }

  lemma {:induction false} TakeStep(st: map<Event, EvState>, q: seq<Event>, k: nat)
    requires k < |q| && (forall e <- q :: e in st) && NoDup(q)
    ensures q[k..][1..] == q[k + 1..] && q[k] !in q[..k]
    ensures forall e :: e in q[..k + 1] <==> e in q[..k] || e == q[k]
    ensures Deferreds(q[..k + 1]) == Deferreds(q[..k]) + if q[k].selfCb then 1 else 0
    ensures forall i :: OfPriority(st, q[..k + 1], i) == OfPriority(st, q[..k], i) + if st[q[k]].pri == i then [q[k]] else []
  {
    assert q[..k + 1] == q[..k] + [q[k]];
    assert q[..k + 1][..k] == q[..k];
  }

  lemma {:induction false} NoneTaken(st: map<Event, EvState>, q: seq<Event>)
    requires forall e <- q :: e in st
    ensures q[0..] == q && q[..0] == [] && Deferreds(q[..0]) == 0 && forall i :: OfPriority(st, q[..0], i) == []
  {
  }

  lemma LaterAmong(s: State)
    requires Ok(s)
    ensures NoDup(s.later) && forall e <- s.later :: e in s.st
  {
  }

  lemma {:induction false} MoveUp(s: State, inFlight: set<nat>)
    requires Ok(s) && AllCovered(s, inFlight) && s.later != []
    ensures var e := s.later[0];
      && e in s.st && s.st[e].pri < |s.queues|
      && (var r := s.(st := s.st[e := MovedUp(s.st[e])], later := s.later[1..],
            queues := s.queues[s.st[e].pri := s.queues[s.st[e].pri] + [e]]);
          Ok(r) && AllCovered(r, inFlight))
  {
    hide Ok, AllCovered, RemoveLater, InsertActive;
    var e := s.later[0];
    FirstIsLater(s);
    RemoveLaterOk(s, e);
    RemoveLaterOnly(s, e);
    PriorityOk(s, e);
    InsertActiveOk(RemoveLater(s, e), e);
    MoveUpIsBoth(s);
    MovedUpCovers(s, InsertActive(RemoveLater(s, e), e), e, inFlight);
  }

  lemma {:induction false} RemoveLaterOnly(s: State, e: Event)
    requires e in s.st && e in s.later
    ensures RemoveLater(s, e).st == s.st[e := s.st[e].(flags := s.st[e].flags.(later := false))]
  {
  }

  lemma {:induction false} MoveUpIsBoth(s: State)
    requires s.later != [] && NoDup(s.later) && s.later[0] in s.st && s.st[s.later[0]].pri < |s.queues|
    ensures var e := s.later[0];
      s.(st := s.st[e := MovedUp(s.st[e])], later := s.later[1..],
         queues := s.queues[s.st[e].pri := s.queues[s.st[e].pri] + [e]])
      == InsertActive(RemoveLater(s, e), e)
  {
    WithoutAt(s.later, 0);
    assert s.later[..0] + s.later[1..] == s.later[1..];
  }

  lemma FirstIsLater(s: State)
    requires Ok(s) && s.later != []
    ensures var e := s.later[0]; e in s.st && s.st[e].flags.later && !s.st[e].flags.active && NoDup(s.later)
  {
  }

  lemma {:induction false} MovedUpCovers(s: State, r: State, e: Event, inFlight: set<nat>)
    requires Ok(s) && AllCovered(s, inFlight) && Ok(r) && e in s.st && Only(s, r, e) && r.lists == s.lists
    requires r.st[e] == MovedUp(s.st[e])
    ensures AllCovered(r, inFlight)
  {
    assert |s.timers| == |s.lists|;
    hide Ok, Covered;
    forall i: nat | i < |r.lists| && i !in inFlight
      ensures Covered(r, i)
    {
      assert Covered(s, i);
      ShrinkCovers(s, r, e, i);
    }
  }

  const MAX_COMMON_TIMEOUTS: nat := 256

  lemma {:induction false} NewEventOk(s: State, e: Event, t: EvState, inFlight: set<nat>)
    requires Ok(s) && AllCovered(s, inFlight) && e !in s.st && t.flags == Flags(false, false, false, false, false) && t.pri < |s.queues|
    ensures Ok(s.(st := s.st[e := t])) && AllCovered(s.(st := s.st[e := t]), inFlight)
  {
    NewEventCounts(s.st, e, t);
    NewEventPlaces(s, e, t);
    var r := s.(st := s.st[e := t]);
    forall i: nat | i < |r.lists| && i !in inFlight
      ensures Covered(r, i)
    {
      assert Covered(s, i) && s.timers[i] in s.timers && ListOk(s.st, s.lists[i], i);
      assert s.lists[i] != [] ==> s.lists[i][0] in s.lists[i];
    }
  }

  lemma {:induction false} NewEventCounts(st: map<Event, EvState>, e: Event, t: EvState)
    requires e !in st && t.flags == Flags(false, false, false, false, false)
    ensures FlagsHeld(st[e := t]) == FlagsHeld(st)
  {
    assert Timing(st[e := t]) == Timing(st) && Inserted(st[e := t]) == Inserted(st);
    assert Active(st[e := t]) == Active(st) && ActiveLater(st[e := t]) == ActiveLater(st);
  }

  lemma {:induction false} NewEventPlaces(s: State, e: Event, t: EvState)
    requires Ok(s) && e !in s.st && t.flags == Flags(false, false, false, false, false) && t.pri < |s.queues|
    ensures QueuesOk(s.st[e := t], s.queues) && LaterOk(s.st[e := t], s.later) && TimeoutsOk(s.st[e := t], s.heap, s.lists)
    ensures TimersOk(s.st[e := t], s.timers) && FlagsOk(s.st[e := t], |s.queues|)
  {
    hide QueuesOk, LaterOk, TimeoutsOk, TimersOk, CountsOk;
    NewEventQueued(s.st, s.queues, s.later, e, t);
    NewEventTimed(s.st, s.heap, s.lists, s.timers, e, t);
  }

  lemma {:induction false} NewEventQueued(st: map<Event, EvState>, queues: seq<seq<Event>>, later: seq<Event>, e: Event, t: EvState)
    requires QueuesOk(st, queues) && LaterOk(st, later) && e !in st && !t.flags.active && !t.flags.later
    ensures QueuesOk(st[e := t], queues) && LaterOk(st[e := t], later)
  {
  }

  lemma {:induction false} NewEventTimed(st: map<Event, EvState>, heap: set<Event>, lists: seq<seq<Event>>, timers: seq<Event>,
                                         e: Event, t: EvState)
    requires TimeoutsOk(st, heap, lists) && TimersOk(st, timers) && e !in st && !t.flags.timeout
    ensures TimeoutsOk(st[e := t], heap, lists) && TimersOk(st[e := t], timers)
  {
    forall i | 0 <= i < |lists|
      ensures ListOk(st[e := t], lists[i], i)
    {
      assert ListOk(st, lists[i], i);
    }
  }

  lemma {:induction false} NewListOk(s: State, timer: Event, inFlight: set<nat>)
    requires Ok(s) && AllCovered(s, inFlight) && timer in s.st && timer !in s.timers && !timer.io
    requires s.st[timer].internal && s.st[timer].flags == Flags(false, false, false, false, false) && s.st[timer].timeout.common == None
    requires forall e <- s.st :: s.st[e].timeout.common.Some? ==> s.st[e].timeout.common.value < |s.lists|
    ensures var r := s.(lists := s.lists + [[]], timers := s.timers + [timer]); Ok(r) && AllCovered(r, inFlight)
  {
    var r := s.(lists := s.lists + [[]], timers := s.timers + [timer]);
    assert QueuesOk(r.st, r.queues) && LaterOk(r.st, r.later);
    forall i | 0 <= i < |r.lists|
      ensures ListOk(r.st, r.lists[i], i)
    {
      assert i < |s.lists| ==> ListOk(s.st, s.lists[i], i);
    }
    assert TimeoutsOk(r.st, r.heap, r.lists) && TimersOk(r.st, r.timers);
    forall i: nat | i < |r.lists| && i !in inFlight
      ensures Covered(r, i)
    {
      assert i < |s.lists| ==> Covered(s, i);
    }
  }

  /** Halfway through timeout_process: the events of the heap `h0` that are no more in the heap `h`
      were due and are active. */
  ghost predicate FiredSoFar(s0: map<Event, EvState>, s1: map<Event, EvState>, h0: set<Event>, h: set<Event>, now: int) {
    && s1.Keys == s0.Keys && h <= h0
    && (forall e <- s1 :: s1[e] == if e in h0 && e !in h then Fired(s0[e]) else s0[e])
    && (forall e <- h0 :: e in s0 && (e !in h ==> s0[e].timeout.us <= now))
  }

  lemma {:induction false} FiredNone(s0: map<Event, EvState>, h0: set<Event>, now: int)
    requires forall e <- h0 :: e in s0
    ensures FiredSoFar(s0, s0, h0, h0, now)
  {
  }

  lemma {:induction false} FiredStep(s0: map<Event, EvState>, s1: map<Event, EvState>, h0: set<Event>, h: set<Event>, now: int, e: Event)
    requires FiredSoFar(s0, s1, h0, h, now) && e in h && e in s1 && s1[e].timeout.us <= now
    ensures FiredSoFar(s0, s1[e := Fired(s1[e])], h0, h - {e}, now)
  {
    assert s1[e := Fired(s1[e])].Keys == s1.Keys;
  }

  lemma {:induction false} ElemsHave(p: seq<Event>, e: Event)
    requires e in p
    ensures e in Elems(p) && Elems(p) - {e} < Elems(p) && |Elems(p) - {e}| < |Elems(p)|
  {
  }

  /** Once nothing in the heap `p` is due, exactly the events of the heap `p0` that were due have gone. */
  lemma {:induction false} AllFired(s0: map<Event, EvState>, s1: map<Event, EvState>, p0: seq<Event>, p: seq<Event>, now: int)
    requires FiredSoFar(s0, s1, Elems(p0), Elems(p), now) && forall e <- p :: e in s1 && s1[e].timeout.us > now
    ensures forall e <- s1 :: s1[e] == if e in p0 && s0[e].timeout.us <= now then Fired(s0[e]) else s0[e]
    ensures Elems(p) == set e | e in p0 && e in s0 && s0[e].timeout.us > now
  {
    assert forall e <- Elems(p0) :: e in s0 && (e in Elems(p) <==> s0[e].timeout.us > now);
  }

  /** An event still in the heap is as it was. */
  lemma {:induction false} StillPending(s0: map<Event, EvState>, s1: map<Event, EvState>, h0: set<Event>, p: seq<Event>, now: int,
      e: Event)
    requires FiredSoFar(s0, s1, h0, Elems(p), now) && e in p && e in s1
    requires forall x <- p :: x in s1 && s1[e].timeout.us <= s1[x].timeout.us
    ensures e in s0 && s1[e] == s0[e] && forall x <- Elems(p) :: x in s0 && s0[e].timeout.us <= s0[x].timeout.us
  {
    forall x | x in Elems(p)
      ensures x in s0 && s0[e].timeout.us <= s0[x].timeout.us
    {
      assert s1[x] == s0[x] && s1[e] == s0[e];
    }
  }

  lemma {:induction false} FiredInTime(s0: map<Event, EvState>, p0: seq<Event>, p: seq<Event>, fired: seq<Event>, now: int)
    requires InTime(s0, Elems(p0), Elems(p), fired)
    requires Elems(p) == set e | e in p0 && e in s0 && s0[e].timeout.us > now
    ensures NoDup(fired) && forall e <- fired :: e in s0 && e in p0 && s0[e].timeout.us <= now
    ensures forall e <- p0 :: e in s0 && (s0[e].timeout.us <= now ==> e in fired)
    ensures Sorted(s0, fired)
  {
    assert forall e <- p0 :: e in Elems(p0);
  }

  class EventBase {
    var eventCount: int
    var eventCountActive: int
    var activequeues: seq<seq<Event>>
    var activeLaterQueue: seq<Event>
    const timeheap: EventHeap
    /** The events of each common_timeout_list, and its internal timeout_event. */
    var commonTimeouts: seq<seq<Event>>
    var timeoutEvents: seq<Event>
    /** The duration of each. */
    var durations: seq<int>
    var nDeferredsQueued: int
    /** A snapshot of every event of the base, and the common timeout lists whose timer has been
        taken off the active queue and whose callback has not run yet. */
    ghost var st: map<Event, EvState>
    ghost var inFlight: set<nat>

    constructor (npriorities: nat)
      ensures Valid() && st == map[] && |activequeues| == npriorities && commonTimeouts == [] && inFlight == {}
      ensures eventCount == eventCountActive == 0 && fresh(timeheap)
    {
      eventCount, eventCountActive, nDeferredsQueued := 0, 0, 0;
      activequeues, activeLaterQueue := seq(npriorities, _ => []), [];
      commonTimeouts, timeoutEvents, durations := [], [], [];
      timeheap := new EventHeap();
      st, inFlight := map[], {};
      new;
      hide Ok, AllCovered;
      StartsOk(activequeues);
      assert Elems(timeheap.p) == {};
    }

    ghost function Abs(): State
      reads `st, `activequeues, `activeLaterQueue, timeheap`p, `commonTimeouts, `timeoutEvents, `eventCount, `eventCountActive
    {
      State(st, activequeues, activeLaterQueue, Elems(timeheap.p), commonTimeouts, timeoutEvents, eventCount, eventCountActive)
    }

    /** The snapshots are true, and the heap is one. */
    ghost predicate Rep()
      reads `st, st.Keys`flags, st.Keys`timeout, st.Keys`res, st.Keys`pri, timeheap`p, timeheap.p`minHeapIdx
    {
      && (forall e <- st.Keys :: e.State() == st[e])
      && timeheap.Valid(TimesOf(st))
    }

    ghost predicate Consistent()
      reads this, st.Keys`flags, st.Keys`timeout, st.Keys`res, st.Keys`pri, timeheap`p, timeheap.p`minHeapIdx
    {
      Rep() && Ok(Abs())
    }

    ghost predicate Valid()
      reads this, st.Keys`flags, st.Keys`timeout, st.Keys`res, st.Keys`pri, timeheap`p, timeheap.p`minHeapIdx
    {
      Consistent() && AllCovered(Abs(), inFlight)
    }

    /** As `Rep`, but the snapshot of `e` may be old. */
    ghost predicate RepBut(e: Event)
      reads `st, st.Keys`flags, st.Keys`timeout, st.Keys`res, st.Keys`pri, timeheap`p, timeheap.p`minHeapIdx
    {
      && (forall x <- st.Keys :: x != e ==> x.State() == st[x])
      && timeheap.Valid(TimesOf(st))
    }

    /** Brings the snapshot of `e` up to date. */
    ghost method Note(e: Event)
      requires RepBut(e) && e in st && (e.timeout.us == st[e].timeout.us || e !in timeheap.p)
      modifies `st
      ensures Rep() && st == old(st)[e := e.State()]
    {
      timeheap.SameTimes(TimesOf(st), TimesOf(st[e := e.State()]));
      hide TimesOf, EventHeap.Valid;
      st := st[e := e.State()];
    }

    // ---------- the queues ----------

    /** Assigning ev_flags, and the snapshot with it. */
    method SetFlags(e: Event, flags: Flags)
      requires Rep() && e in st
      modifies `st, e`flags
      ensures Rep() && st == old(st)[e := old(st)[e].(flags := flags)]
    {
      hide TimesOf, EventHeap.Valid;
      e.flags := flags;
      Note(e);
    }

    /** event_queue_remove_inserted */
    method QueueRemoveInserted(e: Event)
      requires Consistent() && e in st && e.flags.inserted
      modifies `eventCount, `st, e`flags
      ensures Consistent() && Abs() == RemoveInserted(old(Abs()), e)
    {
      hide EventBase.Rep, Ok, TimesOf, EventHeap.Valid;
      Noted(e);
      RemoveInsertedOk(Abs(), e);
      eventCount := eventCount - if e.internal then 0 else 1;
      SetFlags(e, e.flags.(inserted := false));
    }

    /** event_queue_insert_inserted */
    method QueueInsertInserted(e: Event)
      requires Consistent() && e in st && !e.flags.inserted && !e.flags.finalizing && e !in timeoutEvents
      modifies `eventCount, `st, e`flags
      ensures Consistent() && Abs() == InsertInserted(old(Abs()), e)
    {
      hide EventBase.Rep, Ok, TimesOf, EventHeap.Valid;
      Noted(e);
      InsertInsertedOk(Abs(), e);
      eventCount := eventCount + if e.internal then 0 else 1;
      SetFlags(e, e.flags.(inserted := true));
    }

    /** event_queue_remove_active */
    method QueueRemoveActive(e: Event)
      requires Consistent() && e in st && e.flags.active
      modifies `eventCount, `eventCountActive, `activequeues, `st, e`flags
      ensures Consistent() && Abs() == RemoveActive(old(Abs()), e)
    {
      hide EventBase.Rep, Ok, TimesOf, EventHeap.Valid, NoDup, Without;
      Noted(e);
      QueueOf(Abs(), e);
      RemoveActiveOk(Abs(), e);
      var q := Removed(activequeues[e.pri], e);
      eventCount := eventCount - if e.internal then 0 else 1;
      eventCountActive := eventCountActive - 1;
      SetFlags(e, e.flags.(active := false));
      activequeues := activequeues[e.pri := q];
    }

    /** event_queue_insert_active, of an event that is not active yet */
    method QueueInsertActive(e: Event)
      requires Consistent() && e in st && !e.flags.active && !e.flags.later
      modifies `eventCount, `eventCountActive, `activequeues, `st, e`flags
      ensures Consistent() && Abs() == InsertActive(old(Abs()), e)
    {
      hide EventBase.Rep, Ok, TimesOf, EventHeap.Valid;
      Noted(e);
      InsertActiveOk(Abs(), e);
      eventCount := eventCount + if e.internal then 0 else 1;
      eventCountActive := eventCountActive + 1;
      SetFlags(e, e.flags.(active := true));
      activequeues := activequeues[e.pri := activequeues[e.pri] + [e]];
    }

    /** event_queue_remove_active_later */
    method QueueRemoveActiveLater(e: Event)
      requires Consistent() && e in st && e.flags.later
      modifies `eventCount, `eventCountActive, `activeLaterQueue, `st, e`flags
      ensures Consistent() && Abs() == RemoveLater(old(Abs()), e)
    {
      hide EventBase.Rep, Ok, TimesOf, EventHeap.Valid, NoDup, Without;
      Noted(e);
      LaterQueueOf(Abs(), e);
      RemoveLaterOk(Abs(), e);
      var q := Removed(activeLaterQueue, e);
      eventCount := eventCount - if e.internal then 0 else 1;
      eventCountActive := eventCountActive - 1;
      SetFlags(e, e.flags.(later := false));
      activeLaterQueue := q;
    }

    /** event_queue_insert_active_later, of an event that is in neither queue */
    method QueueInsertActiveLater(e: Event)
      requires Consistent() && e in st && !e.flags.active && !e.flags.later && e !in timeoutEvents
      modifies `eventCount, `eventCountActive, `activeLaterQueue, `st, e`flags
      ensures Consistent() && Abs() == InsertLater(old(Abs()), e)
    {
      hide EventBase.Rep, Ok, TimesOf, EventHeap.Valid;
      Noted(e);
      InsertLaterOk(Abs(), e);
      eventCount := eventCount + if e.internal then 0 else 1;
      eventCountActive := eventCountActive + 1;
      SetFlags(e, e.flags.(later := true));
      activeLaterQueue := activeLaterQueue + [e];
    }

    method EraseTimer(e: Event)
      requires Rep() && e in timeheap.p
      modifies timeheap`p, timeheap.p`minHeapIdx
      ensures Rep() && Elems(timeheap.p) == Elems(old(timeheap.p)) - {e}
      ensures forall x <- timeheap.p :: x in old(timeheap.p)
    {
      hide TimesOf, EventHeap.Valid, Times;
      TimesAreTrue();
      timeheap.Erase(e, TimesOf(st));
      HeapShrank(timeheap.p, old(timeheap.p), e);
    }

    /** event_queue_remove_timeout */
    method QueueRemoveTimeout(e: Event)
      requires Consistent() && e in st && e.flags.timeout
      modifies `eventCount, `commonTimeouts, `st, e`flags, timeheap`p, timeheap.p`minHeapIdx
      ensures Consistent() && Abs() == RemoveTimeout(old(Abs()), e)
      ensures forall x <- timeheap.p :: x in old(timeheap.p)
    {
      hide EventBase.Rep, Ok, TimesOf, EventHeap.Valid, NoDup, Without, ListOk, Times;
      Noted(e);
      RemoveTimeoutOk(Abs(), e);
      TimeoutOf(Abs(), e);
      if IsCommon(e.timeout, |commonTimeouts|) {
        var i := e.timeout.common.value;
        var q := Removed(commonTimeouts[i], e);
        commonTimeouts := commonTimeouts[i := q];
      } else {
        EraseTimer(e);
      }
      eventCount := eventCount - if e.internal then 0 else 1;
      SetFlags(e, e.flags.(timeout := false));
    }

    /** Setting ev_timeout of an event that has no timeout pending. */
    method SetTimeout(e: Event, tv: Tv)
      requires Consistent() && e in st && !e.flags.timeout && (e in timeoutEvents ==> tv.common == None)
      modifies `st, e`timeout
      ensures Consistent() && Abs() == TimeoutSet(old(Abs()), e, tv) && e.State() == st[e]
    {
      hide Ok, TimesOf, EventHeap.Valid;
      PriorityOk(Abs(), e);
      SamePlaceOk(Abs(), e, e.State().(timeout := tv));
      NoTimeoutOf(Abs(), e);
      e.timeout := tv;
      Note(e);
    }

    /** Puts `e` in the common timeout list of its timeout, or in the heap. */
    method Place(e: Event)
      requires Rep() && e in st && e !in timeheap.p
      requires IsCommon(e.timeout, |commonTimeouts|) ==> forall x <- commonTimeouts[e.timeout.common.value] :: x in st
      modifies `commonTimeouts, timeheap`p, timeheap.p`minHeapIdx, e`minHeapIdx
      ensures Rep() && |commonTimeouts| == |old(commonTimeouts)|
      ensures if IsCommon(e.timeout, |commonTimeouts|)
        then timeheap.p == old(timeheap.p) && (var i := e.timeout.common.value; var q := old(commonTimeouts)[i];
          commonTimeouts == old(commonTimeouts)[i := InsertedAt(q, InsertPos(st, q, e.timeout.us), e)])
        else commonTimeouts == old(commonTimeouts) && Elems(timeheap.p) == Elems(old(timeheap.p)) + {e}
    {
      hide TimesOf, EventHeap.Valid, InsertPos, InsertedAt, Times;
      if IsCommon(e.timeout, |commonTimeouts|) {
        var i := e.timeout.common.value;
        var q := InsertedInorder(commonTimeouts[i], e, st);
        commonTimeouts := commonTimeouts[i := q];
      } else {
        TimesAreTrue();
        timeheap.Push(e, TimesOf(st));
      }
    }

    /** event_queue_insert_timeout */
    method QueueInsertTimeout(e: Event)
      requires Consistent() && e in st && !e.flags.timeout && !e.flags.finalizing && (e in timeoutEvents ==> e.timeout.common == None)
      modifies `eventCount, `commonTimeouts, `st, e`flags, timeheap`p, timeheap.p`minHeapIdx, e`minHeapIdx
      ensures Consistent() && Abs() == InsertTimeout(old(Abs()), e, e.timeout)
    {
      hide EventBase.Rep, Ok, TimesOf, EventHeap.Valid, InsertPos, InsertedAt, Times;
      Noted(e);
      InsertTimeoutOk(Abs(), e, e.timeout);
      NoTimeoutOf(Abs(), e);
      Place(e);
      eventCount := eventCount + if e.internal then 0 else 1;
      SetFlags(e, e.flags.(timeout := true));
    }

    lemma HeapIsAmong()
      requires Rep()
      ensures forall e <- Elems(timeheap.p) :: e in st
    {
    }

    lemma HeapAmong()
      requires Rep()
      ensures forall i :: 0 <= i < |timeheap.p| ==> timeheap.p[i] in st.Keys
    {
    }

    lemma Noted(e: Event)
      requires Rep() && e in st
      ensures e.State() == st[e]
    {
    }

    lemma {:induction false} TimesAreTrue()
      requires Rep()
      ensures Times(TimesOf(st))
    {
      forall e <- st.Keys
        ensures st[e].timeout.us == e.timeout.us
      {
        assert e.State() == st[e];
      }
    }

    // ---------- deleting and activating ----------

    method Untime(e: Event)
      requires Consistent() && e in st
      modifies `eventCount, `commonTimeouts, `st, e`flags, timeheap`p, timeheap.p`minHeapIdx
      ensures Consistent() && Abs() == Untimed(old(Abs()), e) && e.State() == st[e]
      ensures forall x <- timeheap.p :: x in old(timeheap.p)
    {
      hide Ok, TimesOf, EventHeap.Valid, RemoveTimeout;
      if e.flags.timeout {
        QueueRemoveTimeout(e);
      }
    }

    method Unqueue(e: Event)
      requires Consistent() && e in st
      modifies `eventCount, `eventCountActive, `activequeues, `activeLaterQueue, `st, e`flags
      ensures Consistent() && Abs() == Unqueued(old(Abs()), e) && e.State() == st[e]
    {
      hide Ok, TimesOf, EventHeap.Valid, RemoveActive, RemoveLater;
      if e.flags.active {
        QueueRemoveActive(e);
      } else if e.flags.later {
        QueueRemoveActiveLater(e);
      }
    }

    method Uninsert(e: Event)
      requires Consistent() && e in st
      modifies `eventCount, `st, e`flags
      ensures Consistent() && Abs() == Uninserted(old(Abs()), e) && e.State() == st[e]
    {
      hide Ok, TimesOf, EventHeap.Valid, RemoveInserted;
      if e.flags.inserted {
        QueueRemoveInserted(e);
      }
    }

    /** event_del_nolock_. `mapResult` is what evmap_io_del_ or evmap_signal_del_ says, if it is asked. */
    method EventDel(e: Event, mapResult: int) returns (res: int)
      requires Consistent() && e in st
      modifies `eventCount, `eventCountActive, `activequeues, `activeLaterQueue, `commonTimeouts, `st, e`flags,
        timeheap`p, timeheap.p`minHeapIdx
      ensures Consistent() && Abs() == Deleted(old(Abs()), e) && e.State() == st[e]
      ensures forall x <- timeheap.p :: x in old(timeheap.p)
      ensures res == if !old(e.flags.finalizing) && old(e.flags.inserted) && mapResult == -1 then -1 else 0
    {
      hide Ok, Rep, Untimed, Unqueued, Uninserted;
      Noted(e);
      if e.flags.finalizing {
        return 0;
      }
      res := if e.flags.inserted && mapResult == -1 then -1 else 0;
      Untime(e);
      Unqueue(e);
      Uninsert(e);
    }

    method SetRes(e: Event, res: Res)
      requires Consistent() && e in st
      modifies `st, e`res
      ensures Consistent() && Abs() == WithRes(old(Abs()), e, res) && e.State() == st[e] && st.Keys == old(st).Keys
    {
      hide Ok, TimesOf, EventHeap.Valid;
      ghost var s := WithRes(Abs(), e, res);
      e.res := res;
      Note(e);
    }

    /** event_callback_activate_nolock_ */
    method CallbackActivate(e: Event) returns (r: int)
      requires Consistent() && e in st
      modifies `eventCount, `eventCountActive, `activequeues, `activeLaterQueue, `st, e`flags
      ensures Consistent() && Abs() == Activated(old(Abs()), e) && e.State() == st[e] && st.Keys == old(st).Keys
      ensures r == if old(e.flags.finalizing || e.flags.active || e.flags.later) then 0 else 1
    {
      hide Ok, Rep, Unqueued, InsertActive;
      Noted(e);
      LaterFlag(Abs(), e);
      if e.flags.finalizing {
        return 0;
      }
      if e.flags.active {
        return 0;
      }
      r := 1;
      if e.flags.later {
        r := 0;
      }
      Unqueue(e);
      QueueInsertActive(e);
      assert Abs() == Enqueued(Unqueued(old(Abs()), e), e);
      Noted(e);
    }

    /** event_active_nolock_ */
    method EventActive(e: Event, res: Res)
      requires Consistent() && e in st
      modifies `eventCount, `eventCountActive, `activequeues, `activeLaterQueue, `st, e`flags, e`res
      ensures Consistent() && Abs() == MadeActive(old(Abs()), e, res) && st.Keys == old(st).Keys
    {
      hide Ok, Rep, WithRes, Activated;
      Noted(e);
      LaterFlag(Abs(), e);
      if e.flags.finalizing {
        return;
      }
      if e.flags.active {
        SetRes(e, e.res.Or(res));
        return;
      }
      SetRes(e, if e.flags.later then e.res.Or(res) else res);
      var r := CallbackActivate(e);
    }

    /** event_active_later_nolock_ */
    method EventActiveLater(e: Event, res: Res)
      requires Consistent() && e in st && e !in timeoutEvents
      modifies `eventCount, `eventCountActive, `activeLaterQueue, `st, e`flags, e`res
      ensures Consistent() && Abs() == MadeActiveLater(old(Abs()), e, res) && st.Keys == old(st).Keys
    {
      hide Ok, Rep, WithRes, InsertLater;
      Noted(e);
      if e.flags.active || e.flags.later {
        SetRes(e, e.res.Or(res));
        return;
      }
      SetRes(e, res);
      QueueInsertActiveLater(e);
    }

    // ---------- adding ----------

    /** The timeout that event_add_nolock_ computes. */
    function DueAt(tv: Tv, isAbsolute: bool, now: int): Tv {
      if isAbsolute then tv else Tv(now + tv.us, tv.common)
    }

    /** The timeout part of event_add_nolock_, up to inserting the event. */
    method Retime(e: Event, tv: Tv)
      requires Consistent() && e in st && !e.flags.finalizing && (e in timeoutEvents ==> tv.common == None)
      modifies `eventCount, `eventCountActive, `activequeues, `activeLaterQueue, `commonTimeouts, `st, e`flags, e`timeout,
        timeheap`p, timeheap.p`minHeapIdx, e`minHeapIdx
      ensures Consistent() && Abs() == Retimed(old(Abs()), e, tv) && st.Keys == old(st).Keys
    {
      hide Ok, Rep, Untimed, Unqueued, InsertTimeout;
      Noted(e);
      ghost var s := Abs();
      var activeByTimeout := e.flags.active && e.res.timeout;
      Untime(e);
      if activeByTimeout {
        Unqueue(e);
      }
      assert Abs() == Ready(s, e);
      SetTimeout(e, tv);
      InsertAfterSet(Ready(s, e), e, tv);
      ByIndex(timeheap.p, old(timeheap.p));
      QueueInsertTimeout(e);
    }

    method MapAdd(e: Event)
      requires Consistent() && e in st && !e.flags.finalizing
      modifies `eventCount, `st, e`flags
      ensures Consistent() && Abs() == MapAdded(old(Abs()), e) && st.Keys == old(st).Keys && e.State() == st[e]
    {
      hide Ok, Rep, InsertInserted;
      Noted(e);
      if e.io && !(e.flags.inserted || e.flags.active || e.flags.later) {
        IoIsNoTimer(Abs(), e);
        QueueInsertInserted(e);
        assert Abs() == MapAdded(old(Abs()), e);
      }
      Noted(e);
    }

    /** What adding an event has done to it: in the map unless it was about to run, pending at the given
        time, and not active because of an old timeout. */
    twostate predicate AddedTo(e: Event, tv: Option<Tv>, isAbsolute: bool, now: int, res: int)
      reads this, st.Keys, e
    {
      && (res == -1 ==> st == old(st))
      && (res != -1 ==>
            && (e.flags.inserted <==> old(e.flags.inserted) || (e.io && !old(e.flags.active) && !old(e.flags.later)))
            && e.flags.later == old(e.flags.later) && e.flags.finalizing == old(e.flags.finalizing) && e.res == old(e.res))
      && (res != -1 && tv == None ==>
            e.flags.timeout == old(e.flags.timeout) && e.timeout == old(e.timeout) && e.flags.active == old(e.flags.active))
      && (res != -1 && tv.Some? ==>
            && e.flags.timeout && e.timeout == Tv(if isAbsolute then tv.value.us else now + tv.value.us, tv.value.common)
            && (e.flags.active <==> old(e.flags.active) && !old(e.res.timeout)))
      && (e.ioTimeout == if res != -1 && tv.Some? && e.persist && !isAbsolute then tv.value else old(e.ioTimeout))
      && (forall x <- st :: x in old(st) && x != e && x !in timeoutEvents ==> st[x] == old(st)[x])
      && (forall x <- st :: x in old(st) && x != e ==> x.ioTimeout == old(x.ioTimeout))
    }

    /** event_add_nolock_. `mapResult` is what evmap_io_add_ or evmap_signal_add_ says, if it is asked. */
    method EventAdd(e: Event, tv: Option<Tv>, isAbsolute: bool, now: int, mapResult: int) returns (res: int)
      requires Consistent() && e in st && (e in timeoutEvents && tv.Some? ==> tv.value.common == None)
      modifies `eventCount, `eventCountActive, `activequeues, `activeLaterQueue, `commonTimeouts, `st,
        st.Keys`flags, st.Keys`timeout, st.Keys`ioTimeout, st.Keys`minHeapIdx, timeheap`p
      ensures Consistent() && st.Keys == old(st).Keys
      ensures Abs() == Added(old(Abs()), e, if tv.Some? then Some(DueAt(tv.value, isAbsolute, now)) else None, mapResult)
      ensures AddedTo(e, tv, isAbsolute, now, res)
      ensures res == if old(e.flags.finalizing)
        || (e.io && !old(e.flags.inserted || e.flags.active || e.flags.later) && mapResult == -1) then -1 else 0
      decreases if tv.Some? && tv.value.common.Some? then 1 else 0, 2
    {
      hide Ok, Rep, Retimed, InsertInserted, Added, TimeoutAdded, MapAdded;
      Noted(e);
      ghost var at := if tv.Some? then Some(DueAt(tv.value, isAbsolute, now)) else None;
      AddedEvent(Abs(), e, at, mapResult);
      AddedIs(Abs(), e, at, mapResult);
      if e.flags.finalizing {
        return -1;
      }
      if e.io && !(e.flags.inserted || e.flags.active || e.flags.later) {
        if mapResult == -1 {
          return -1;
        }
      }
      AddNow(e, tv, isAbsolute, now);
      res := 0;
      Noted(e);
    }

    /** event_add_nolock_ once the map has taken the event, or was not asked. */
    method AddNow(e: Event, tv: Option<Tv>, isAbsolute: bool, now: int)
      requires Consistent() && e in st && !e.flags.finalizing && (e in timeoutEvents && tv.Some? ==> tv.value.common == None)
      modifies `eventCount, `eventCountActive, `activequeues, `activeLaterQueue, `commonTimeouts, `st,
        st.Keys`flags, st.Keys`timeout, st.Keys`ioTimeout, st.Keys`minHeapIdx, timeheap`p
      ensures Consistent() && st.Keys == old(st).Keys
      ensures var t := MapAdded(old(Abs()), e);
        Abs() == if tv.Some? then TimeoutAdded(t, e, DueAt(tv.value, isAbsolute, now)) else t
      ensures e.ioTimeout == if tv.Some? && e.persist && !isAbsolute then tv.value else old(e.ioTimeout)
      ensures forall x <- st :: x in old(st) && x != e ==> x.ioTimeout == old(x.ioTimeout)
      decreases if tv.Some? && tv.value.common.Some? then 1 else 0, 1
    {
      hide Ok, Rep, Retimed, InsertInserted, TimeoutAdded, MapAdded;
      Noted(e);
      MapAdd(e);
      if tv.Some? {
        if e.persist && !isAbsolute {
          e.ioTimeout := tv.value;
        }
        AddTimeout(e, DueAt(tv.value, isAbsolute, now), now);
      }
    }

    /** The timeout part of event_add_nolock_. */
    method AddTimeout(e: Event, tv: Tv, now: int)
      requires Consistent() && e in st && !e.flags.finalizing && (e in timeoutEvents ==> tv.common == None)
      modifies `eventCount, `eventCountActive, `activequeues, `activeLaterQueue, `commonTimeouts, `st,
        st.Keys`flags, st.Keys`timeout, st.Keys`ioTimeout, st.Keys`minHeapIdx, timeheap`p
      ensures Consistent() && st.Keys == old(st).Keys && Abs() == TimeoutAdded(old(Abs()), e, tv)
      ensures forall x <- st :: x in old(st) ==> x.ioTimeout == old(x.ioTimeout)
      decreases if tv.common.Some? then 1 else 0, 0
    {
      hide Ok, Rep, Retimed;
      Noted(e);
      HeapAmong();
      ghost var s := Abs();
      Retime(e, tv);
      if IsCommon(tv, |commonTimeouts|) {
        RetimedInList(s, e, tv);
        var ctl := commonTimeouts[tv.common.value];
        if ctl[0] == e {
          Schedule(tv.common.value, now);
        }
      }
    }

    /** common_timeout_schedule */
    method Schedule(i: nat, now: int)
      requires Consistent() && i < |commonTimeouts| && commonTimeouts[i] != []
      modifies `eventCount, `eventCountActive, `activequeues, `activeLaterQueue, `commonTimeouts, `st,
        st.Keys`flags, st.Keys`timeout, st.Keys`ioTimeout, st.Keys`minHeapIdx, timeheap`p
      ensures Consistent() && st.Keys == old(st).Keys && Abs() == Scheduled(old(Abs()), i)
      ensures timeoutEvents[i].flags.timeout && timeoutEvents[i].timeout == Tv(old(commonTimeouts[i][0].timeout.us), None)
      ensures forall x <- st :: x in old(st) ==> x.ioTimeout == old(x.ioTimeout)
      decreases 0, 3
    {
      hide Ok, Rep;
      HeadOf(Abs(), i);
      TimerAlone(Abs(), i);
      Noted(commonTimeouts[i][0]);
      TimerHasNoMap(Abs(), i);
      var r := EventAdd(timeoutEvents[i], Some(Tv(commonTimeouts[i][0].timeout.us, None)), true, now, 0);
      Noted(timeoutEvents[i]);
    }

    // ---------- the interface ----------

    /** event_add, for the user's events */
    method Add(e: Event, tv: Option<Tv>, now: int, mapResult: int) returns (res: int)
      requires Valid() && e in st && e !in timeoutEvents
      modifies `eventCount, `eventCountActive, `activequeues, `activeLaterQueue, `commonTimeouts, `st,
        st.Keys`flags, st.Keys`timeout, st.Keys`ioTimeout, st.Keys`minHeapIdx, timeheap`p
      ensures Valid() && st.Keys == old(st).Keys
      ensures Abs() == Added(old(Abs()), e, if tv.Some? then Some(DueAt(tv.value, false, now)) else None, mapResult)
      ensures AddedTo(e, tv, false, now, res)
    {
      hide Ok, Rep, Added;
      AddedCovers(Abs(), e, if tv.Some? then Some(DueAt(tv.value, false, now)) else None, mapResult, inFlight);
      res := EventAdd(e, tv, false, now, mapResult);
    }

    /** event_del */
    method Del(e: Event, mapResult: int) returns (res: int)
      requires Valid() && e in st && e !in timeoutEvents
      modifies `eventCount, `eventCountActive, `activequeues, `activeLaterQueue, `commonTimeouts, `st, e`flags,
        timeheap`p, timeheap.p`minHeapIdx
      ensures Valid() && st.Keys == old(st).Keys && Abs() == Deleted(old(Abs()), e)
      ensures res == if !old(e.flags.finalizing) && old(e.flags.inserted) && mapResult == -1 then -1 else 0
      ensures !old(e.flags.finalizing) ==> e.flags == Flags(false, false, false, false, false)
      ensures forall x <- st :: x != e ==> st[x] == old(st)[x]
    {
      hide Ok, Rep;
      Noted(e);
      DeletedCovers(Abs(), e, inFlight);
      res := EventDel(e, mapResult);
    }

    /** event_active */
    method MakeActive(e: Event, res: Res)
      requires Valid() && e in st
      modifies `eventCount, `eventCountActive, `activequeues, `activeLaterQueue, `st, e`flags, e`res
      ensures Valid() && st.Keys == old(st).Keys && Abs() == MadeActive(old(Abs()), e, res)
    {
      hide Ok, Rep;
      MadeActiveCovers(Abs(), e, res, inFlight);
      EventActive(e, res);
    }

    /** event_active_later_ */
    method MakeActiveLater(e: Event, res: Res)
      requires Valid() && e in st && e !in timeoutEvents
      modifies `eventCount, `eventCountActive, `activeLaterQueue, `st, e`flags, e`res
      ensures Valid() && st.Keys == old(st).Keys && Abs() == MadeActiveLater(old(Abs()), e, res)
    {
      hide Ok, Rep;
      MadeActiveLaterCovers(Abs(), e, res, inFlight);
      EventActiveLater(e, res);
    }

    // ---------- time ----------

    /** timeout_next: how long the backend may sleep, or `None` for ever. With nothing active and no
        common timeout callback due, that is past no pending timeout. */
    method TimeoutNext(now: int) returns (wait: Option<nat>)
      requires Valid()
      ensures wait == None <==> timeheap.p == []
      ensures wait.Some? ==>
        exists e <- timeheap.p :: e in st && wait.value == if st[e].timeout.us <= now then 0 else st[e].timeout.us - now
      ensures eventCountActive == 0 && inFlight == {} ==> WakesInTime(st, now, wait)
    {
      hide Ok, EventHeap.Valid;
      var top := timeheap.Top(TimesOf(st));
      if top == None {
        wait := None;
      } else {
        Noted(top.value);
        var us := top.value.timeout.us;
        wait := Some(if us <= now then 0 else us - now);
        assert top.value in timeheap.p;
      }
      if eventCountActive == 0 && inFlight == {} {
        forall e | e in st && st[e].flags.timeout
          ensures wait.Some? && now + wait.value <= Max(now, st[e].timeout.us)
        {
          var h := HeapCoversAll(Abs(), e);
          assert h in timeheap.p && TimesOf(st)[h] == st[h].timeout.us;
        }
      }
    }

    /** The earliest event in the heap, if it is due. */
    method NextDue(now: int) returns (due: Option<Event>)
      requires Consistent()
      ensures due.Some? ==> due.value in timeheap.p && due.value in st && st[due.value].timeout.us <= now
      ensures due.Some? ==> forall e <- timeheap.p :: e in st && st[due.value].timeout.us <= st[e].timeout.us
      ensures due == None ==> forall e <- timeheap.p :: e in st && st[e].timeout.us > now
    {
      hide Ok, EventHeap.Valid;
      due := timeheap.Top(TimesOf(st));
      if due.Some? {
        Noted(due.value);
        if due.value.timeout.us > now {
          due := None;
        }
      }
    }

    /** Deletes a timed-out event and makes it active. */
    method Fire(e: Event)
      requires Valid() && e in timeheap.p && e in st
      modifies `eventCount, `eventCountActive, `activequeues, `activeLaterQueue, `commonTimeouts, `st,
        e`flags, e`res, timeheap.p`minHeapIdx, timeheap`p
      ensures Valid() && st == old(st)[e := Fired(old(st)[e])] && commonTimeouts == old(commonTimeouts)
      ensures Elems(timeheap.p) == Elems(old(timeheap.p)) - {e} && forall x <- timeheap.p :: x in old(timeheap.p)
      ensures ToTheEnd(old(st), old(activequeues), activequeues, e) && activeLaterQueue == Rest(old(activeLaterQueue), {e})
    {
      hide Ok, Rep, AllCovered;
      FiredFromHeap(Abs(), e);
      FiredOrder(Abs(), e, Res(true, false));
      FiredCovers(Abs(), e, Res(true, false), inFlight);
      var r := EventDel(e, 0);
      EventActive(e, Res(true, false));
    }

    /** timeout_process: makes active exactly the events in the heap that are due, the earliest first, so
        that in this order they come last in the queues of their priorities. */
    method TimeoutProcess(now: int) returns (ghost fired: seq<Event>)
      requires Valid()
      modifies `eventCount, `eventCountActive, `activequeues, `activeLaterQueue, `commonTimeouts, `st,
        st.Keys`flags, st.Keys`res, st.Keys`minHeapIdx, timeheap`p
      ensures Valid() && st.Keys == old(st).Keys && commonTimeouts == old(commonTimeouts)
      ensures forall e <- st :: st[e] == if e in old(timeheap.p) && old(st)[e].timeout.us <= now then Fired(old(st)[e]) else old(st)[e]
      ensures Elems(timeheap.p) == set e | e in old(timeheap.p) && e in old(st) && old(st)[e].timeout.us > now
      ensures NoDup(fired) && forall e <- fired :: e in old(st) && e in old(timeheap.p) && old(st)[e].timeout.us <= now
      ensures forall e <- old(timeheap.p) :: e in old(st) && (old(st)[e].timeout.us <= now ==> e in fired)
      ensures Sorted(old(st), fired) && QueuedInTurn(old(st), old(activequeues), activequeues, fired)
      ensures activeLaterQueue == Rest(old(activeLaterQueue), Set(fired))
    {
      hide Ok, Rep, AllCovered, Elems, FiredSoFar, InTime, QueuedInTurn, ToTheEnd, Rest, Set;
      ghost var s0, h0 := st, Elems(timeheap.p);
      HeapIsAmong();
      FiredNone(s0, h0, now);
      fired := [];
      NoneInTime(s0, h0);
      NoneInTurn(s0, activequeues);
      NoneAway(activeLaterQueue);
      while true
        invariant Valid() && commonTimeouts == old(commonTimeouts) && st.Keys == s0.Keys
        invariant FiredSoFar(s0, st, h0, Elems(timeheap.p), now) && InTime(s0, h0, Elems(timeheap.p), fired)
        invariant (forall e <- fired :: e in s0) && QueuedInTurn(s0, old(activequeues), activequeues, fired)
        invariant activeLaterQueue == Rest(old(activeLaterQueue), Set(fired))
        decreases |Elems(timeheap.p)|
      {
        var due := NextDue(now);
        if due == None {
          break;
        }
        ghost var e := due.value;
        HeapAmong();
        ElemsHave(timeheap.p, e);
        StillPending(s0, st, h0, timeheap.p, now, e);
        NextInTime(s0, h0, Elems(timeheap.p), fired, e);
        FiredStep(s0, st, h0, Elems(timeheap.p), now, e);
        NextAway(old(activeLaterQueue), fired, e);
        ghost var queues := activequeues;
        ghost var states := st;
        Fire(due.value);
        OneBehind(s0, states, old(activequeues), queues, activequeues, fired, e);
        fired := fired + [e];
      }
      ghost var p := timeheap.p;
      assert forall e <- p :: e in st && st[e].timeout.us > now;
      AllFired(s0, st, old(timeheap.p), p, now);
      FiredInTime(s0, old(timeheap.p), p, fired, now);
    }

    /** Deletes the first event of a common timeout list and makes it active. */
    method FireFirst(i: nat, e: Event)
      requires Valid() && i < |commonTimeouts| && commonTimeouts[i] != [] && e == commonTimeouts[i][0]
      modifies `eventCount, `eventCountActive, `activequeues, `activeLaterQueue, `commonTimeouts, `st,
        st.Keys`flags, st.Keys`res, timeheap.p`minHeapIdx, timeheap`p
      ensures Valid() && e in old(st) && st == old(st)[e := Fired(old(st)[e])]
      ensures commonTimeouts == old(commonTimeouts)[i := old(commonTimeouts)[i][1..]]
      ensures forall x <- timeheap.p :: x in old(timeheap.p)
      ensures ToTheEnd(old(st), old(activequeues), activequeues, e) && activeLaterQueue == Rest(old(activeLaterQueue), {e})
    {
      hide Ok, Rep, AllCovered;
      FiredFromList(Abs(), i);
      FiredOrder(Abs(), e, Res(true, false));
      FiredCovers(Abs(), e, Res(true, false), inFlight);
      var r := EventDel(e, 0);
      EventActive(e, Res(true, false));
    }

    /** common_timeout_callback: makes active exactly the events of the list that are due, in order, and
        sets the internal timer for the first of the rest. */
    method CommonTimeoutCallback(i: nat, now: int) returns (ghost k: nat)
      requires Valid() && i < |commonTimeouts|
      modifies `eventCount, `eventCountActive, `activequeues, `activeLaterQueue, `commonTimeouts, `st, `inFlight,
        st.Keys`flags, st.Keys`res, st.Keys`timeout, st.Keys`ioTimeout, st.Keys`minHeapIdx, timeheap`p
      ensures Valid() && st.Keys == old(st).Keys && inFlight == old(inFlight) - {i}
      ensures k <= |old(commonTimeouts)[i]| && commonTimeouts == old(commonTimeouts)[i := old(commonTimeouts)[i][k..]]
      ensures var q := old(commonTimeouts)[i];
        && (forall e <- st :: e !in timeoutEvents ==> st[e] == if e in q[..k] then Fired(old(st)[e]) else old(st)[e])
        && (forall e <- q[..k] :: e in old(st) && old(st)[e].timeout.us <= now)
        && (forall e <- q[k..] :: e in old(st) && old(st)[e].timeout.us > now)
        && QueuedBut(old(st), old(activequeues), activequeues, q[..k], timeoutEvents[i])
    {
      hide Ok, Rep, AllCovered, Covered, Sorted, NoDup, DueFired, ToTheEnd, QueuedInTurn, QueuedBut, SameBut, Rest;
      ghost var s0, q := st, commonTimeouts[i];
      ListAmong(Abs(), i);
      k := 0;
      inFlight := inFlight + {i};
      CoverLess(Abs(), old(inFlight), inFlight);
      NoneFired(s0, q, now);
      NoneInTurn(s0, activequeues);
      while true
        invariant Valid() && st.Keys == s0.Keys && 0 <= k <= |q| && inFlight == old(inFlight) + {i}
        invariant commonTimeouts == old(commonTimeouts)[i := q[k..]]
        invariant DueFired(s0, st, q, k, now) && QueuedInTurn(s0, old(activequeues), activequeues, q[..k])
        decreases |q| - k
      {
        if |commonTimeouts[i]| == 0 {
          break;
        }
        var ev := commonTimeouts[i][0];
        assert ev == q[k] && ev in q;
        Noted(ev);
        FiredNotYet(s0, st, q, k, now);
        if ev.timeout.us > now {
          break;
        }
        HeapAmong();
        OneMoreFired(s0, st, q, k, now);
        ghost var queues, states := activequeues, st;
        FireFirst(i, ev);
        OneBehind(s0, states, old(activequeues), queues, activequeues, q[..k], ev);
        NextInList(q, k);
        k := k + 1;
      }
      FiredAre(s0, st, q, k, now);
      RestIsLater(s0, q, k, now);
      ghost var queues := activequeues;
      ScheduleRest(i, now);
      TimerAside(s0, old(activequeues), queues, activequeues, q[..k], timeoutEvents[i]);
    }

    /** The end of common_timeout_callback. */
    method ScheduleRest(i: nat, now: int)
      requires Valid() && i < |commonTimeouts| && i in inFlight
      modifies `eventCount, `eventCountActive, `activequeues, `activeLaterQueue, `commonTimeouts, `st, `inFlight,
        st.Keys`flags, st.Keys`timeout, st.Keys`ioTimeout, st.Keys`minHeapIdx, timeheap`p
      ensures Valid() && st.Keys == old(st).Keys && commonTimeouts == old(commonTimeouts) && inFlight == old(inFlight) - {i}
      ensures forall e <- st :: e !in timeoutEvents ==> st[e] == old(st)[e]
      ensures SameBut(old(activequeues), activequeues, timeoutEvents[i])
    {
      hide Ok, Rep, AllCovered, Covered, SameBut;
      ListAmong(Abs(), i);
      if |commonTimeouts[i]| != 0 {
        TimerAlone(Abs(), i);
        CoverLess(Abs(), inFlight, inFlight + {i});
        ScheduledCovers(Abs(), i, inFlight);
        ScheduledOrder(Abs(), i);
        Schedule(i, now);
      } else {
        SameAll(activequeues, timeoutEvents[i]);
        EmptyIsCovered(Abs(), i, inFlight);
      }
      inFlight := inFlight - {i};
    }

    // ---------- running and reordering ----------

    /** The first step of event_process_active_single_queue: takes the next callback off its queue,
        and an event that is not persistent out of everything. If it is the internal timer of a common
        timeout list, its callback is due to run. */
    method TakeNext(pri: nat) returns (evcb: Event)
      requires Valid() && pri < |activequeues| && activequeues[pri] != []
      modifies `eventCount, `eventCountActive, `activequeues, `activeLaterQueue, `commonTimeouts, `st, `inFlight,
        st.Keys`flags, timeheap.p`minHeapIdx, timeheap`p
      ensures Valid() && st.Keys == old(st).Keys && evcb == old(activequeues)[pri][0] && evcb in st
      ensures Abs() == if !evcb.selfCb && !evcb.persist && !old(evcb.flags.finalizing)
        then Deleted(old(Abs()), evcb) else RemoveActive(old(Abs()), evcb)
      ensures forall i: nat :: i in inFlight <==> i in old(inFlight) || (i < |timeoutEvents| && timeoutEvents[i] == evcb)
    {
      hide Ok, Rep, AllCovered, Covered, RemoveActive, Deleted;
      evcb := activequeues[pri][0];
      FirstIsActive(Abs(), pri);
      Noted(evcb);
      ghost var taken := set i: nat | i < |timeoutEvents| && timeoutEvents[i] == evcb;
      if !evcb.selfCb && !evcb.persist && !evcb.flags.finalizing {
        TakenCovers(Abs(), Deleted(Abs(), evcb), evcb, inFlight, taken);
        var r := EventDel(evcb, 0);
      } else {
        RemoveActiveKeeps(Abs(), evcb);
        TakenCovers(Abs(), RemoveActive(Abs(), evcb), evcb, inFlight, taken);
        QueueRemoveActive(evcb);
      }
      inFlight := inFlight + taken;
    }

    /** event_persist_closure, up to the callback: when a persistent event with a timeout runs, it is
        added again for one interval after it was due, or after now if that has passed already or it
        runs for another reason. */
    method PersistClosure(e: Event, now: int, mapResult: int)
      requires Valid() && e in st && e !in timeoutEvents && e.ioTimeout.us >= 0 && e.timeout.common == e.ioTimeout.common
      modifies `eventCount, `eventCountActive, `activequeues, `activeLaterQueue, `commonTimeouts, `st,
        st.Keys`flags, st.Keys`timeout, st.Keys`ioTimeout, st.Keys`minHeapIdx, timeheap`p
      ensures Valid() && st.Keys == old(st).Keys
      ensures var interval, common := old(e.ioTimeout.us), old(e.ioTimeout.common);
        var due := if old(e.res.timeout) then old(e.timeout.us) + interval else now + interval;
        var at := Tv(if due < now then now + interval else due, common);
        && at.us >= now && Abs() == (if interval == 0 && common == None then old(Abs()) else Added(old(Abs()), e, Some(at), mapResult))
        && ((interval != 0 || common.Some?) && !old(e.flags.finalizing) && mapResult != -1 ==> e.flags.timeout && e.timeout == at)
    {
      hide Ok, Rep, Added;
      if e.ioTimeout.us != 0 || e.ioTimeout.common.Some? {
        var delay := e.ioTimeout.us;
        var relativeTo := if e.res.timeout then e.timeout.us else now;
        var runAt := relativeTo + delay;
        if runAt < now {
          runAt := now + delay;
        }
        AddedCovers(Abs(), e, Some(Tv(runAt, e.ioTimeout.common)), mapResult, inFlight);
        var r := EventAdd(e, Some(Tv(runAt, e.ioTimeout.common)), true, now, mapResult);
      }
    }

    /** event_priority_set, and event_deferred_cb_set_priority_ of a callback that is not active */
    method PrioritySet(e: Event, pri: int) returns (r: int)
      requires Valid() && e in st
      modifies `st, e`pri
      ensures Valid()
      ensures r == if e.flags.active || pri < 0 || pri >= |activequeues| then -1 else 0
      ensures st == if r == -1 then old(st) else old(st)[e := old(st)[e].(pri := pri)]
    {
      hide Ok, TimesOf, EventHeap.Valid, AllCovered, Covered;
      if e.flags.active || pri < 0 || pri >= |activequeues| {
        return -1;
      }
      ghost var t := st[e].(pri := pri);
      TimersAreUntagged(Abs(), e);
      SamePlaceOk(Abs(), e, t);
      PriorityCovers(Abs(), e, t, inFlight);
      e.pri := pri;
      Note(e);
      r := 0;
    }

    /** One round of event_queue_make_later_events_active. */
    method MakeFirstActive()
      requires Valid() && activeLaterQueue != []
      modifies `activequeues, `activeLaterQueue, `st, `nDeferredsQueued, st.Keys`flags
      ensures Valid() && st.Keys == old(st).Keys && |activequeues| == |old(activequeues)|
      ensures var e := old(activeLaterQueue)[0];
        && e in old(st) && old(st)[e].pri < |activequeues|
        && st == old(st)[e := MovedUp(old(st)[e])] && activeLaterQueue == old(activeLaterQueue)[1..]
        && activequeues == old(activequeues)[old(st)[e].pri := old(activequeues)[old(st)[e].pri] + [e]]
        && nDeferredsQueued == old(nDeferredsQueued) + if e.selfCb then 1 else 0
    {
      hide EventBase.Rep, Ok, TimesOf, EventHeap.Valid, AllCovered, Covered, RemoveLater, InsertActive;
      var evcb := activeLaterQueue[0];
      MoveUp(Abs(), inFlight);
      Noted(evcb);
      activeLaterQueue := activeLaterQueue[1..];
      SetFlags(evcb, evcb.flags.(later := false, active := true));
      activequeues := activequeues[evcb.pri := activequeues[evcb.pri] + [evcb]];
      nDeferredsQueued := nDeferredsQueued + if evcb.selfCb then 1 else 0;
    }

    /** event_queue_make_later_events_active: the later queue empties into the active queues, in order. */
    method MakeLaterEventsActive()
      requires Valid()
      modifies `activequeues, `activeLaterQueue, `st, `nDeferredsQueued, st.Keys`flags
      ensures Valid() && st.Keys == old(st).Keys && activeLaterQueue == [] && |activequeues| == |old(activequeues)|
      ensures forall e <- st :: st[e] == if e in old(activeLaterQueue) then MovedUp(old(st)[e]) else old(st)[e]
      ensures forall i :: 0 <= i < |activequeues| ==>
        activequeues[i] == old(activequeues)[i] + OfPriority(old(st), old(activeLaterQueue), i)
      ensures nDeferredsQueued == old(nDeferredsQueued) + Deferreds(old(activeLaterQueue))
    {
      hide Ok, Rep, AllCovered, OfPriority, Deferreds, NoDup;
      ghost var s0, q, k := st, activeLaterQueue, 0;
      LaterAmong(Abs());
      NoneTaken(s0, q);
      while |activeLaterQueue| != 0
        invariant Valid() && st.Keys == s0.Keys && 0 <= k <= |q| && activeLaterQueue == q[k..]
        invariant |activequeues| == |old(activequeues)|
        invariant forall e <- st :: st[e] == if e in q[..k] then MovedUp(s0[e]) else s0[e]
        invariant forall i :: 0 <= i < |activequeues| ==>
          activequeues[i] == old(activequeues)[i] + OfPriority(s0, q[..k], i)
        invariant nDeferredsQueued == old(nDeferredsQueued) + Deferreds(q[..k])
        decreases |activeLaterQueue|
      {
        assert activeLaterQueue[0] == q[k];
        MakeFirstActive();
        TakeStep(s0, q, k);
        k := k + 1;
      }
      assert q[..k] == q;
    }

    // ---------- new events and new common timeouts ----------

    lemma {:induction false} NewTimes(e: Event)
      requires timeheap.Valid(TimesOf(st)) && e !in st
      ensures timeheap.Valid(TimesOf(st[e := e.State()]))
    {
      timeheap.SameTimes(TimesOf(st), TimesOf(st[e := e.State()]));
    }

    /** event_assign, of an event that is not known yet */
    ghost method Assign(e: Event)
      requires Valid() && e !in st && e.flags == Flags(false, false, false, false, false) && e.pri < |activequeues|
      modifies `st
      ensures Valid() && st == old(st)[e := e.State()]
    {
      hide TimesOf, EventHeap.Valid, AllCovered, Ok;
      NewTimes(e);
      NewEventOk(Abs(), e, e.State(), inFlight);
      st := st[e := e.State()];
    }

    /** event_base_init_common_timeout: finds the common timeout list for a duration, or makes one. */
    method InitCommonTimeout(duration: int) returns (idx: Option<nat>)
      requires Valid() && |durations| == |commonTimeouts| && |activequeues| > 0
      requires forall e <- st :: st[e].timeout.common.Some? ==> st[e].timeout.common.value < |commonTimeouts|
      modifies this
      ensures Valid() && |durations| == |commonTimeouts| && old(durations) <= durations
      ensures idx == None <==> duration !in old(durations) && |old(durations)| == MAX_COMMON_TIMEOUTS
      ensures idx.Some? ==> idx.value < |durations| && durations[idx.value] == duration
      ensures commonTimeouts == old(commonTimeouts) + if duration in old(durations) || idx == None then [] else [[]]
      ensures forall e <- old(st) :: e in st && st[e] == old(st)[e]
    {
      hide TimesOf, EventHeap.Valid, AllCovered, Ok;
      for i := 0 to |durations|
        invariant duration !in durations[..i]
      {
        if durations[i] == duration {
          return Some(i);
        }
      }
      assert durations[..|durations|] == durations;
      if |durations| == MAX_COMMON_TIMEOUTS {
        return None;
      }
      idx := Some(|durations|);
      durations := durations + [duration];
      NewCommonTimeout();
    }

    /** An empty list and its internal timer, of priority 0 */
    method NewCommonTimeout()
      requires Valid() && |activequeues| > 0
      requires forall e <- st :: st[e].timeout.common.Some? ==> st[e].timeout.common.value < |commonTimeouts|
      modifies `commonTimeouts, `timeoutEvents, `st
      ensures Valid() && commonTimeouts == old(commonTimeouts) + [[]]
      ensures forall e <- old(st) :: e in st && st[e] == old(st)[e]
    {
      hide TimesOf, EventHeap.Valid, AllCovered, Ok, Rep;
      var timer := new Event(true, false, false, false, 0);
      Assign(timer);
      Noted(timer);
      NewListOk(Abs(), timer, inFlight);
      AddList(timer);
    }

    method AddList(timer: Event)
      modifies `commonTimeouts, `timeoutEvents
      ensures commonTimeouts == old(commonTimeouts) + [[]] && timeoutEvents == old(timeoutEvents) + [timer]
    {
      commonTimeouts, timeoutEvents := commonTimeouts + [[]], timeoutEvents + [timer];
    }
  }

  /** Between any two steps, an event's flags say where it is queued, and the counters count the
      events queued and the flags that the user's events hold. */
  lemma {:induction false} Accounting(base: EventBase, e: Event)
    requires base.Valid() && e in base.st
    ensures e.flags.active <==> exists i :: 0 <= i < |base.activequeues| && e in base.activequeues[i]
    ensures forall i :: 0 <= i < |base.activequeues| && e in base.activequeues[i] ==> i == e.pri
    ensures e.flags.later <==> e in base.activeLaterQueue
    ensures !(e.flags.active && e.flags.later)
    ensures e.flags.timeout <==> e in base.timeheap.p || exists i :: 0 <= i < |base.commonTimeouts| && e in base.commonTimeouts[i]
    ensures base.eventCountActive == Total(base.activequeues) + |base.activeLaterQueue|
    ensures base.eventCount == FlagsHeld(base.st)
  {
    base.Noted(e);
    var s := base.Abs();
    assert e in Elems(base.timeheap.p) <==> e in s.heap;
    forall i | 0 <= i < |s.lists| && e in s.lists[i]
      ensures e.flags.timeout
    {
      assert ListOk(s.st, s.lists[i], i);
    }
    if e.flags.timeout {
      assert Pending(s.st, s.heap, s.lists);
    }
  }
}
