/** What adding, deleting, activating and rescheduling events does to the state of an event base,
    and why the common timeout lists stay covered. */
module EventSteps {
  import opened Wrappers
  import opened Events
  import opened EventState

  /** No event but `e` has changed. */
  ghost predicate Only(s: State, r: State, e: Event) {
    && r.st.Keys == s.st.Keys && |r.lists| == |s.lists| && |r.queues| == |s.queues| && r.timers == s.timers
    && (forall x <- s.st :: x != e ==> r.st[x] == s.st[x])
  }

  /** Every list has at most the events it had. */
  ghost predicate ListsShrink(s: State, r: State) {
    && |r.lists| == |s.lists|
    && forall i, x :: 0 <= i < |s.lists| && x in r.lists[i] ==> x in s.lists[i]
  }

  lemma {:induction false} RemoveTimeoutShrinks(s: State, e: Event)
    requires Ok(s) && e in s.st && s.st[e].flags.timeout
    ensures Only(s, RemoveTimeout(s, e), e) && ListsShrink(s, RemoveTimeout(s, e))
  {
    var tv := s.st[e].timeout;
    if IsCommon(tv, |s.lists|) {
      assert ListOk(s.st, s.lists[tv.common.value], tv.common.value);
      WithoutProperties(s.lists[tv.common.value], e);
    }
  }

  // ---------- event_del_nolock_ ----------

  ghost function Untimed(s: State, e: Event): (r: State)
    requires Ok(s) && e in s.st
    ensures Ok(r) && Only(s, r, e) && ListsShrink(s, r)
    ensures r.st[e] == s.st[e].(flags := s.st[e].flags.(timeout := false))
    ensures r.queues == s.queues && r.later == s.later
    ensures r.heap == s.heap - {e}
  {
    if s.st[e].flags.timeout then
      RemoveTimeoutOk(s, e);
      RemoveTimeoutShrinks(s, e);
      RemoveTimeout(s, e)
    else s
  }

  ghost function Unqueued(s: State, e: Event): (r: State)
    requires Ok(s) && e in s.st
    ensures Ok(r) && Only(s, r, e) && r.lists == s.lists && r.heap == s.heap
    ensures r.st[e] == s.st[e].(flags := s.st[e].flags.(active := false, later := false))
  {
    LaterFlag(s, e);
    if s.st[e].flags.active then
      RemoveActiveOk(s, e);
      RemoveActive(s, e)
    else if s.st[e].flags.later then
      RemoveLaterOk(s, e);
      RemoveLater(s, e)
    else s
  }

  ghost function Uninserted(s: State, e: Event): (r: State)
    requires Ok(s) && e in s.st
    ensures Ok(r) && Only(s, r, e) && r.lists == s.lists && r.heap == s.heap
    ensures r.st[e] == s.st[e].(flags := s.st[e].flags.(inserted := false))
    ensures r.queues == s.queues && r.later == s.later
  {
    if s.st[e].flags.inserted then
      RemoveInsertedOk(s, e);
      RemoveInserted(s, e)
    else s
  }

  /** event_del_nolock_: out of the timeouts, the active queues and the event map. */
  ghost function Deleted(s: State, e: Event): (r: State)
    requires Ok(s) && e in s.st
    ensures Ok(r) && Only(s, r, e) && ListsShrink(s, r)
    ensures !s.st[e].flags.finalizing ==>
      && r.st[e] == s.st[e].(flags := Flags(false, false, false, false, false))
      && r.heap == s.heap - {e}
    ensures s.st[e].flags.finalizing ==> r == s
  {
    if s.st[e].flags.finalizing then s else Uninserted(Unqueued(Untimed(s, e), e), e)
  }

  // ---------- event_active_nolock_ ----------

  ghost function WithRes(s: State, e: Event, res: Res): (r: State)
    requires Ok(s) && e in s.st
    ensures Ok(r) && Only(s, r, e) && r.lists == s.lists && r.heap == s.heap
  {
    SamePlaceOk(s, e, s.st[e].(res := res));
    s.(st := s.st[e := s.st[e].(res := res)])
  }

  ghost function Enqueued(s: State, e: Event): (r: State)
    requires Ok(s) && e in s.st && !s.st[e].flags.active && !s.st[e].flags.later
    ensures Ok(r) && Only(s, r, e) && r.lists == s.lists && r.heap == s.heap
    ensures r.st[e] == s.st[e].(flags := s.st[e].flags.(active := true))
  {
    InsertActiveOk(s, e);
    InsertActive(s, e)
  }

  /** event_callback_activate_nolock_ */
  ghost function Activated(s: State, e: Event): (r: State)
    requires Ok(s) && e in s.st
    ensures Ok(r) && Only(s, r, e) && r.lists == s.lists && r.heap == s.heap
    ensures r.st[e] == if s.st[e].flags.finalizing then s.st[e]
      else s.st[e].(flags := s.st[e].flags.(active := true, later := false))
  {
    LaterFlag(s, e);
    if s.st[e].flags.finalizing || s.st[e].flags.active then s
    else Enqueued(Unqueued(s, e), e)
  }

  /** event_active_nolock_: the results of an event that is active already, or is to be, add up. */
  ghost function MadeActive(s: State, e: Event, res: Res): (r: State)
    requires Ok(s) && e in s.st
    ensures Ok(r) && Only(s, r, e) && r.lists == s.lists && r.heap == s.heap
    ensures r.st[e] == if s.st[e].flags.finalizing then s.st[e]
      else s.st[e].(flags := s.st[e].flags.(active := true, later := false),
                    res := if s.st[e].flags.active || s.st[e].flags.later then s.st[e].res.Or(res) else res)
  {
    LaterFlag(s, e);
    var f := s.st[e].flags;
    if f.finalizing then s
    else if f.active then WithRes(s, e, s.st[e].res.Or(res))
    else Activated(WithRes(s, e, if f.later then s.st[e].res.Or(res) else res), e)
  }

  ghost function EnqueuedLater(s: State, e: Event): (r: State)
    requires Ok(s) && e in s.st && !s.st[e].flags.active && !s.st[e].flags.later && e !in s.timers
    ensures Ok(r) && Only(s, r, e) && r.lists == s.lists && r.heap == s.heap
    ensures r.st[e] == s.st[e].(flags := s.st[e].flags.(later := true))
  {
    InsertLaterOk(s, e);
    InsertLater(s, e)
  }

  /** event_active_later_nolock_ */
  ghost function MadeActiveLater(s: State, e: Event, res: Res): (r: State)
    requires Ok(s) && e in s.st && e !in s.timers
    ensures Ok(r) && Only(s, r, e) && r.lists == s.lists && r.heap == s.heap
    ensures var queued := s.st[e].flags.active || s.st[e].flags.later;
      r.st[e] == s.st[e].(flags := s.st[e].flags.(later := !s.st[e].flags.active), res := if queued then s.st[e].res.Or(res) else res)
  {
    LaterFlag(s, e);
    var f := s.st[e].flags;
    if f.active || f.later then WithRes(s, e, s.st[e].res.Or(res))
    else
      EnqueuedLater(WithRes(s, e, res), e)
  }

  // ---------- event_add_nolock_ ----------

  /** `e` without its old timeout. */
  ghost function Ready(s: State, e: Event): (r: State)
    requires Ok(s) && e in s.st
    ensures Ok(r) && Only(s, r, e) && ListsShrink(s, r)
    ensures r.st[e].flags.finalizing == s.st[e].flags.finalizing && r.st[e].flags.inserted == s.st[e].flags.inserted
    ensures !r.st[e].flags.timeout && r.st[e].internal == s.st[e].internal && r.heap == s.heap - {e}
    ensures r.lists == Untimed(s, e).lists
  {
    if s.st[e].flags.active && s.st[e].res.timeout then Unqueued(Untimed(s, e), e) else Untimed(s, e)
  }

  lemma {:induction false} InsertTimeoutOnly(s: State, e: Event, tv: Tv)
    requires Ok(s) && e in s.st
    ensures Only(s, InsertTimeout(s, e, tv), e) && InsertTimeout(s, e, tv).st[e] == WithTimeout(s.st[e], tv)
  {
    hide Ok;
  }

  /** The timeout of `e` replaced by `tv`. An event that is active because of its old timeout is not
      active any more. */
  ghost function Retimed(s: State, e: Event, tv: Tv): (r: State)
    requires Ok(s) && e in s.st && !s.st[e].flags.finalizing && (e in s.timers ==> tv.common == None)
    ensures Ok(r) && Only(s, r, e)
    ensures r.st[e].flags.timeout && r.st[e].timeout == tv && !r.st[e].flags.finalizing
    ensures r.st[e].flags.inserted == s.st[e].flags.inserted && r.st[e].internal == s.st[e].internal
  {
    InsertTimeoutOk(Ready(s, e), e, tv);
    InsertTimeoutOnly(Ready(s, e), e, tv);
    InsertTimeout(Ready(s, e), e, tv)
  }

  /** common_timeout_schedule */
  ghost function Scheduled(s: State, i: nat): (r: State)
    requires Ok(s) && i < |s.lists| && s.lists[i] != []
    ensures Ok(r) && Only(s, r, s.timers[i]) && r.lists == s.lists && Covered(r, i)
    ensures r.st[s.timers[i]].flags.timeout && r.st[s.timers[i]].timeout == Tv(s.st[s.lists[i][0]].timeout.us, None)
  {
    assert s.timers[i] in s.timers;
    assert ListOk(s.st, s.lists[i], i) && s.lists[i][0] in s.lists[i];
    TimerAlone(s, i);
    Retimed(s, s.timers[i], Tv(s.st[s.lists[i][0]].timeout.us, None))
  }

  lemma {:induction false} TimersMatch(s: State)
    requires Ok(s)
    ensures |s.timers| == |s.lists|
  {
  }

  lemma {:induction false} TimerAlone(s: State, i: nat)
    requires Ok(s) && i < |s.timers|
    ensures s.timers[i] in s.st && !s.st[s.timers[i]].flags.finalizing && s.st[s.timers[i]].timeout.common == None
    ensures forall j :: 0 <= j < |s.lists| ==> s.timers[i] !in s.lists[j]
  {
    assert s.timers[i] in s.timers;
    forall j | 0 <= j < |s.lists|
      ensures s.timers[i] !in s.lists[j]
    {
      assert ListOk(s.st, s.lists[j], j);
    }
  }

  /** The timeout part of event_add_nolock_: a new first event of a common timeout list has the list's
      internal timer set. */
  ghost function TimeoutAdded(s: State, e: Event, tv: Tv): (r: State)
    requires Ok(s) && e in s.st && !s.st[e].flags.finalizing && (e in s.timers ==> tv.common == None)
    ensures Ok(r) && r.st.Keys == s.st.Keys && |r.lists| == |s.lists| && r.timers == s.timers
  {
    var t := Retimed(s, e, tv);
    if IsCommon(tv, |t.lists|) then
      RetimedInList(s, e, tv);
      if t.lists[tv.common.value][0] == e then Scheduled(t, tv.common.value) else t
    else t
  }

  lemma {:induction false} RetimedInList(s: State, e: Event, tv: Tv)
    requires Ok(s) && e in s.st && !s.st[e].flags.finalizing && e !in s.timers && IsCommon(tv, |s.lists|)
    ensures e in Retimed(s, e, tv).lists[tv.common.value] && Retimed(s, e, tv).lists[tv.common.value] != []
  {
    var t := Retimed(s, e, tv);
    assert t.st[e].flags.timeout && t.st[e].timeout == tv;
    assert Pending(t.st, t.heap, t.lists);
  }

  // ---------- why the common timeout lists stay covered ----------

  /** Covered lists stay so while they only lose events and their timers stay or become active. */
  lemma {:induction false} ShrinkCovers(s: State, r: State, e: Event, i: nat)
    requires Ok(s) && Ok(r) && Only(s, r, e) && ListsShrink(s, r) && i < |s.lists| && Covered(s, i)
    requires e in s.st && r.st[e].timeout == s.st[e].timeout
    requires s.timers[i] == e ==> r.st[e].flags.active
    ensures Covered(r, i)
  {
    assert ListOk(s.st, s.lists[i], i) && ListOk(r.st, r.lists[i], i);
    assert s.timers[i] in s.timers;
    if r.lists[i] != [] {
      var x := r.lists[i][0];
      assert x in r.lists[i] && x in s.lists[i];
      var j: nat :| j < |s.lists[i]| && s.lists[i][j] == x;
      assert s.lists[i][0] in s.lists[i];
      assert j == 0 || s.st[s.lists[i][0]].timeout.us <= s.st[s.lists[i][j]].timeout.us;
      assert r.st[x].timeout == s.st[x].timeout;
    }
  }

  lemma {:induction false} DeletedCovers(s: State, e: Event, inFlight: set<nat>)
    requires Ok(s) && e in s.st && AllCovered(s, inFlight) && e !in s.timers
    ensures AllCovered(Deleted(s, e), inFlight)
  {
    var r := Deleted(s, e);
    forall i: nat | i < |r.lists| && i !in inFlight
      ensures Covered(r, i)
    {
      assert Covered(s, i) && s.timers[i] in s.timers;
      ShrinkCovers(s, r, e, i);
    }
  }

  lemma {:induction false} MadeActiveCovers(s: State, e: Event, res: Res, inFlight: set<nat>)
    requires Ok(s) && e in s.st && AllCovered(s, inFlight)
    ensures AllCovered(MadeActive(s, e, res), inFlight)
  {
    var r := MadeActive(s, e, res);
    forall i: nat | i < |r.lists| && i !in inFlight
      ensures Covered(r, i)
    {
      assert Covered(s, i);
      TimerAlone(s, i);
      ShrinkCovers(s, r, e, i);
    }
  }

  /** A timed-out internal timer that is deleted and made active again leaves its list covered. */
  lemma {:induction false} FiredCovers(s: State, e: Event, res: Res, inFlight: set<nat>)
    requires Ok(s) && e in s.st && AllCovered(s, inFlight)
    ensures AllCovered(MadeActive(Deleted(s, e), e, res), inFlight)
  {
    var d := Deleted(s, e);
    var r := MadeActive(d, e, res);
    forall i: nat | i < |r.lists| && i !in inFlight
      ensures Covered(r, i)
    {
      assert Covered(s, i);
      TimerAlone(s, i);
      assert ListsShrink(s, r);
      ShrinkCovers(s, r, e, i);
    }
  }

  lemma {:induction false} MadeActiveLaterCovers(s: State, e: Event, res: Res, inFlight: set<nat>)
    requires Ok(s) && e in s.st && AllCovered(s, inFlight) && e !in s.timers
    ensures AllCovered(MadeActiveLater(s, e, res), inFlight)
  {
    var r := MadeActiveLater(s, e, res);
    LaterFlag(s, e);
    assert r.st[e].timeout == s.st[e].timeout;
    forall i: nat | i < |r.lists| && i !in inFlight
      ensures Covered(r, i)
    {
      assert Covered(s, i) && s.timers[i] in s.timers;
      ShrinkCovers(s, r, e, i);
    }
  }

  lemma {:induction false} ScheduledCovers(s: State, i: nat, inFlight: set<nat>)
    requires Ok(s) && i < |s.lists| && s.lists[i] != [] && AllCovered(s, inFlight + {i})
    ensures AllCovered(Scheduled(s, i), inFlight - {i})
  {
    hide Ok, Covered, Scheduled;
    var r := Scheduled(s, i);
    forall j: nat | j < |r.lists| && j !in inFlight - {i}
      ensures Covered(r, j)
    {
      if j != i {
        ScheduledCoversOther(s, i, j);
      }
    }
  }

  lemma {:induction false} ScheduledCoversOther(s: State, i: nat, j: nat)
    requires Ok(s) && i < |s.lists| && s.lists[i] != [] && j < |s.lists| && j != i && Covered(s, j)
    ensures Covered(Scheduled(s, i), j)
  {
    assert NoDup(s.timers) && |s.timers| == |s.lists|;
    hide Ok, Covered, Scheduled;
    TimerAlone(s, i);
    TimerAlone(s, j);
    SameListCovers(s, Scheduled(s, i), s.timers[i], j);
  }

  lemma {:induction false} SameListCovers(s: State, r: State, e: Event, j: nat)
    requires Ok(s) && Ok(r) && Only(s, r, e) && j < |s.lists| && Covered(s, j) && s.timers[j] != e
    requires r.lists[j] == s.lists[j] && e !in s.lists[j]
    ensures Covered(r, j)
  {
    assert s.timers[j] in s.timers;
    if s.lists[j] != [] {
      assert ListOk(s.st, s.lists[j], j);
      assert s.lists[j][0] in s.lists[j];
    }
  }

  /** A list that gets an event elsewhere than at its front stays covered. */
  lemma {:induction false} InsertCovers(s: State, e: Event, tv: Tv, j: nat)
    requires Ok(s) && e in s.st && !s.st[e].flags.timeout && !s.st[e].flags.finalizing && e !in s.timers
    requires j < |s.lists| && Covered(s, j)
    ensures Ok(InsertTimeout(s, e, tv))
    ensures var r := InsertTimeout(s, e, tv); r.lists[j] == [] || r.lists[j][0] != e ==> Covered(r, j)
  {
    InsertTimeoutOk(s, e, tv);
    InsertTimeoutOnly(s, e, tv);
    var r := InsertTimeout(s, e, tv);
    assert s.timers[j] in s.timers;
    assert ListOk(s.st, s.lists[j], j);
    if r.lists[j] != [] && r.lists[j][0] != e {
      HeadKept(s, e, tv, j);
    }
  }

  lemma {:induction false} HeadKept(s: State, e: Event, tv: Tv, j: nat)
    requires Ok(s) && e in s.st && !s.st[e].flags.timeout && j < |s.lists|
    ensures var r := InsertTimeout(s, e, tv);
      |r.lists| == |s.lists|
      && (r.lists[j] != [] && r.lists[j][0] != e ==>
            s.lists[j] != [] && r.lists[j][0] == s.lists[j][0] && s.lists[j][0] in s.st && s.lists[j][0] != e)
  {
    assert ListOk(s.st, s.lists[j], j);
    assert s.lists[j] != [] ==> s.lists[j][0] in s.lists[j];
    hide QueuesOk, LaterOk, TimersOk, CountsOk, FlagsOk, Pending, HeapIn;
  }

  lemma {:induction false} RetimedCovers(s: State, e: Event, tv: Tv, j: nat)
    requires Ok(s) && e in s.st && e !in s.timers && !s.st[e].flags.finalizing && j < |s.lists| && Covered(s, j)
    ensures var t := Retimed(s, e, tv); t.lists[j] == [] || t.lists[j][0] != e ==> Covered(t, j)
  {
    var a := Ready(s, e);
    assert a.st[e].timeout == s.st[e].timeout && s.timers[j] in s.timers;
    hide Ok, Covered, Ready, Untimed, Unqueued;
    ShrinkCovers(s, a, e, j);
    InsertCovers(a, e, tv, j);
  }

  lemma {:induction false} TimeoutAddedCovers(s: State, e: Event, tv: Tv, inFlight: set<nat>)
    requires Ok(s) && e in s.st && AllCovered(s, inFlight) && e !in s.timers && !s.st[e].flags.finalizing
    ensures AllCovered(TimeoutAdded(s, e, tv), inFlight)
  {
    hide Ok, Covered, Retimed, Scheduled;
    var t := Retimed(s, e, tv);
    forall j: nat | j < |t.lists| && j !in inFlight && (t.lists[j] == [] || t.lists[j][0] != e)
      ensures Covered(t, j)
    {
      RetimedCovers(s, e, tv, j);
    }
    if IsCommon(tv, |t.lists|) {
      RetimedInList(s, e, tv);
      var i := tv.common.value;
      HeadIsElsewhere(t, e, i);
      if t.lists[i][0] == e {
        assert AllCovered(t, inFlight + {i});
        ScheduledCovers(t, i, inFlight);
      }
    } else {
      HeadIsElsewhere(t, e, |t.lists|);
    }
  }

  /** An event is at the head of no list but that of its own timeout. */
  lemma {:induction false} HeadIsElsewhere(t: State, e: Event, i: nat)
    requires Ok(t) && e in t.st && (i < |t.lists| ==> t.st[e].timeout.common == Some(i))
    requires i >= |t.lists| ==> !IsCommon(t.st[e].timeout, |t.lists|)
    ensures forall j: nat :: j < |t.lists| && t.lists[j] != [] && t.lists[j][0] == e ==> j == i
  {
    forall j: nat | j < |t.lists| && t.lists[j] != [] && t.lists[j][0] == e
      ensures j == i
    {
      assert ListOk(t.st, t.lists[j], j) && e in t.lists[j];
    }
  }

  // ---------- the result ----------

  /** When nothing is active and no common timeout callback is due to run, some event in the heap is
      no later than any pending timeout. */
  lemma {:induction false} HeapCoversAll(s: State, e: Event) returns (h: Event)
    requires Ok(s) && AllCovered(s, {}) && s.countActive == 0 && e in s.st && s.st[e].flags.timeout
    ensures h in s.heap && h in s.st && s.st[h].timeout.us <= s.st[e].timeout.us
  {
    if IsCommon(s.st[e].timeout, |s.lists|) {
      var i := s.st[e].timeout.common.value;
      assert Covered(s, i) && ListOk(s.st, s.lists[i], i) && e in s.lists[i];
      h := s.timers[i];
      TimerAlone(s, i);
      NothingActive(s, h);
      var j: nat :| j < |s.lists[i]| && s.lists[i][j] == e;
      assert s.lists[i][0] in s.lists[i];
      assert j == 0 || s.st[s.lists[i][0]].timeout.us <= s.st[e].timeout.us;
    } else {
      h := e;
    }
  }

  lemma {:induction false} NothingActive(s: State, e: Event)
    requires Ok(s) && s.countActive == 0 && e in s.st
    ensures !s.st[e].flags.active && !s.st[e].flags.later
  {
    if s.st[e].flags.active {
      InTotal(s.queues, s.st[e].pri);
    }
  }

  lemma {:induction false} InTotal(queues: seq<seq<Event>>, i: nat)
    requires i < |queues|
    ensures |queues[i]| <= Total(queues)
  {
    if i > 0 {
      InTotal(queues[1..], i - 1);
    }
  }
}
