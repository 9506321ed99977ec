/** How the operations on events undo and repeat one another, in every state of an event base. */
module EventLaws {
  import opened Wrappers
  import opened Events
  import opened EventState
  import opened EventSteps
  import opened EventQueues

  const IDLE := Flags(false, false, false, false, false)

  // ---------- what the queue operations undo ----------

  lemma {:induction false} InsertedWithout(q: seq<Event>, k: nat, e: Event)
    requires k <= |q| && NoDup(q) && e !in q
    ensures e in InsertedAt(q, k, e) && NoDup(InsertedAt(q, k, e)) && Without(InsertedAt(q, k, e), e) == q
  {
    var r := InsertedAt(q, k, e);
    assert r[k] == e;
    forall i, j | 0 <= i < j < |r|
      ensures r[i] != r[j]
    {
      assert r[i] == if i == k then e else q[if i < k then i else i - 1];
      assert r[j] == if j == k then e else q[if j < k then j else j - 1];
    }
    WithoutAt(r, k);
    hide Without;
    assert r[..k] + r[k + 1..] == q;
  }

  lemma {:induction false} ActiveUndone(s: State, e: Event)
    requires e in s.st && !s.st[e].flags.active && s.st[e].pri < |s.queues|
    requires NoDup(s.queues[s.st[e].pri]) && e !in s.queues[s.st[e].pri]
    ensures RemoveActive(InsertActive(s, e), e) == s
  {
    var pri := s.st[e].pri;
    var q := s.queues[pri];
    assert q + [e] == InsertedAt(q, |q|, e);
    InsertedWithout(q, |q|, e);
    var t := RemoveActive(InsertActive(s, e), e);
    assert t.st == s.st && t.queues == s.queues;
  }

  lemma {:induction false} InsertedUndone(s: State, e: Event)
    requires e in s.st && !s.st[e].flags.inserted
    ensures RemoveInserted(InsertInserted(s, e), e) == s
  {
    assert RemoveInserted(InsertInserted(s, e), e).st == s.st;
  }

  lemma {:induction false} SetTwice(st: map<Event, EvState>, e: Event, a: EvState, b: EvState)
    ensures st[e := a][e := b] == st[e := b]
  {
  }

  lemma {:induction false} TimeoutUndone(s: State, e: Event, tv: Tv)
    requires Ok(s) && e in s.st && !s.st[e].flags.timeout && Ok(InsertTimeout(s, e, tv))
    ensures RemoveTimeout(InsertTimeout(s, e, tv), e) == WithTv(s, e, tv)
  {
    hide Ok, InsertedAt, Without, InsertPos;
    NoTimeoutOf(s, e);
    var t := InsertTimeout(s, e, tv);
    var r := RemoveTimeout(t, e);
    var x := s.st[e];
    SetTwice(s.st, e, WithTimeout(x, tv), x.(timeout := tv));
    assert t.st == s.st[e := WithTimeout(x, tv)] && t.st[e].timeout == tv;
    assert WithTimeout(x, tv).(flags := WithTimeout(x, tv).flags.(timeout := false)) == x.(timeout := tv);
    assert r.st == t.st[e := x.(timeout := tv)];
    if IsCommon(tv, |s.lists|) {
      var i := tv.common.value;
      ListsAreSets(s, i);
      InsertedWithout(s.lists[i], InsertPos(s.st, s.lists[i], tv.us), e);
      assert r.lists == s.lists;
    } else {
      assert r.heap == s.heap;
    }
  }

  /** `s` with another ev_timeout of an event. */
  ghost function WithTv(s: State, e: Event, tv: Tv): State
    requires e in s.st
  {
    s.(st := s.st[e := s.st[e].(timeout := tv)])
  }

  lemma {:induction false} ListsAreSets(s: State, i: nat)
    requires Ok(s) && i < |s.lists|
    ensures NoDup(s.lists[i]) && forall x <- s.lists[i] :: x in s.st
  {
    assert ListOk(s.st, s.lists[i], i);
  }

  lemma {:induction false} NotQueued(s: State, e: Event)
    requires Ok(s) && e in s.st && !s.st[e].flags.active
    ensures s.st[e].pri < |s.queues| && NoDup(s.queues[s.st[e].pri]) && e !in s.queues[s.st[e].pri]
  {
  }

  // ---------- the operations on events ----------

  /** Deleting twice is deleting once. */
  lemma {:induction false} DeleteTwice(s: State, e: Event)
    requires Ok(s) && e in s.st
    ensures Deleted(Deleted(s, e), e) == Deleted(s, e)
  {
    hide Ok;
  }

  /** Making an event active twice is making it active once, with both results. */
  lemma {:induction false} ActivateTwice(s: State, e: Event, r1: Res, r2: Res)
    requires Ok(s) && e in s.st
    ensures MadeActive(MadeActive(s, e, r1), e, r2) == MadeActive(s, e, r1.Or(r2))
  {
    hide Ok, Activated, WithRes;
    LaterFlag(s, e);
    var f := s.st[e].flags;
    if f.active && !f.finalizing {
      ResTwice(s, e, s.st[e].res.Or(r1), s.st[e].res.Or(r1.Or(r2)));
    } else if !f.finalizing {
      var a := if f.later then s.st[e].res.Or(r1) else r1;
      ResAfterActivation(s, e, a, a.Or(r2));
    }
  }

  lemma {:induction false} ResTwice(s: State, e: Event, a: Res, b: Res)
    requires Ok(s) && e in s.st
    ensures WithRes(WithRes(s, e, a), e, b) == WithRes(s, e, b) && WithRes(s, e, a).st[e] == s.st[e].(res := a)
  {
    hide Ok;
    assert WithRes(WithRes(s, e, a), e, b).st == WithRes(s, e, b).st;
  }

  /** It makes no difference whether the result is set before or after an event gets into its queue. */
  lemma {:induction false} ResAfterActivation(s: State, e: Event, a: Res, b: Res)
    requires Ok(s) && e in s.st && !s.st[e].flags.active && !s.st[e].flags.finalizing
    ensures WithRes(Activated(WithRes(s, e, a), e), e, b) == Activated(WithRes(s, e, b), e)
    ensures WithRes(s, e, a).st[e] == s.st[e].(res := a)
  {
    hide Ok;
    var t, u := WithRes(Activated(WithRes(s, e, a), e), e, b), Activated(WithRes(s, e, b), e);
    assert t.st == u.st;
  }

  /** Deleting an event that was idle and has been made active leaves no trace but the result. */
  lemma {:induction false} ActivateThenDelete(s: State, e: Event, res: Res)
    requires Ok(s) && e in s.st && s.st[e].flags == IDLE
    ensures Deleted(MadeActive(s, e, res), e) == s.(st := s.st[e := s.st[e].(res := res)])
  {
    hide Ok, InsertActive, RemoveActive;
    var t := WithRes(s, e, res);
    NotQueued(t, e);
    ActiveUndone(t, e);
  }

  /** A timeout that does not become the first of a common timeout list, so that no internal timer
      has to be set. */
  ghost predicate NotFirst(s: State, tv: Tv)
    requires Ok(s)
  {
    IsCommon(tv, |s.lists|) ==>
      var q := s.lists[tv.common.value];
      q != [] && q[0] in s.st && s.st[q[0]].timeout.us <= tv.us
  }

  /** Deleting an event that was idle and has been added leaves no trace but its last timeout, unless
      it was the first of a common timeout list. */
  lemma {:induction false} AddThenDelete(s: State, e: Event, tv: Option<Tv>, mapResult: int)
    requires Ok(s) && e in s.st && s.st[e].flags == IDLE && (tv.Some? ==> NotFirst(s, tv.value))
    requires e in s.timers && tv.Some? ==> tv.value.common == None
    ensures var added := mapResult != -1 || !WantsMap(s, e);
      Deleted(Added(s, e, tv, mapResult), e) == if added && tv.Some? then WithTv(s, e, tv.value) else s
  {
    hide Ok, InsertTimeout, RemoveTimeout, InsertInserted, RemoveInserted, WithTv, NotFirst, Scheduled;
    InsertedUndone(s, e);
    MapAddedIdle(s, e);
    if tv.Some? {
      var t := MapAdded(s, e);
      assert Ready(t, e) == t;
      InsertTimeoutOk(t, e, tv.value);
      TimeoutUndone(t, e, tv.value);
      InsertTimeoutOnly(t, e, tv.value);
      WithTvKeeps(t, e, tv.value);
      WithTvKeeps(s, e, tv.value);
      InsertedUndone(WithTv(s, e, tv.value), e);
      TimeoutAndMap(s, e, tv.value);
      if IsCommon(tv.value, |s.lists|) {
        NotFirstStays(s, t, e, tv.value);
      }
    }
  }

  lemma {:induction false} NotFirstStays(s: State, t: State, e: Event, tv: Tv)
    requires Ok(s) && NotFirst(s, tv) && Ok(t) && Only(s, t, e) && t.lists == s.lists && e in s.st && !s.st[e].flags.timeout
    requires IsCommon(tv, |s.lists|)
    ensures var q := InsertTimeout(t, e, tv).lists[tv.common.value]; q != [] && q[0] != e
  {
    NoTimeoutOf(s, e);
    var q := s.lists[tv.common.value];
    ListsAreSets(t, tv.common.value);
    assert q[0] in q;
    hide Ok;
    assert InsertPos(t.st, q, tv.us) > 0;
  }

  /** With any common timeout, nothing but the list's internal timer may have changed. */
  lemma {:induction false} AddCommonThenDelete(s: State, e: Event, tv: Tv, mapResult: int)
    requires Ok(s) && e in s.st && s.st[e].flags == IDLE && e !in s.timers && IsCommon(tv, |s.lists|)
    ensures var r := Deleted(Added(s, e, Some(tv), mapResult), e);
      && r.lists == s.lists && r.st.Keys == s.st.Keys && r.st[e].flags == IDLE
      && forall x <- s.st :: x != e && x != s.timers[tv.common.value] ==> r.st[x] == s.st[x]
  {
    hide Ok, InsertTimeout, RemoveTimeout, InsertInserted, RemoveInserted, Scheduled;
    MapAddedIdle(s, e);
    var t := MapAdded(s, e);
    assert Ready(t, e) == t;
    InsertTimeoutOk(t, e, tv);
    InsertTimeoutOnly(t, e, tv);
    TimersMatch(s);
    assert TimeoutAdded(t, e, tv).lists == InsertTimeout(t, e, tv).lists;
    ListRestored(t, e, tv, TimeoutAdded(t, e, tv));
  }

  lemma {:induction false} ListRestored(t: State, e: Event, tv: Tv, u: State)
    requires Ok(t) && e in t.st && !t.st[e].flags.timeout && IsCommon(tv, |t.lists|) && Ok(u) && e in u.st
    requires u.lists == InsertTimeout(t, e, tv).lists && u.st[e].flags.timeout && u.st[e].timeout == tv
    ensures RemoveTimeout(u, e).lists == t.lists
  {
    hide Ok, InsertedAt, Without, InsertPos;
    NoTimeoutOf(t, e);
    var i := tv.common.value;
    ListsAreSets(t, i);
    InsertedWithout(t.lists[i], InsertPos(t.st, t.lists[i], tv.us), e);
    assert RemoveTimeout(u, e).lists == t.lists;
  }

  lemma {:induction false} MapAddedIdle(s: State, e: Event)
    requires Ok(s) && e in s.st && s.st[e].flags == IDLE
    ensures var t := MapAdded(s, e);
      !t.st[e].flags.timeout && !t.st[e].flags.active && !t.st[e].flags.later && t.st[e].flags.inserted == WantsMap(s, e)
  {
    hide Ok;
  }

  lemma {:induction false} WithTvKeeps(s: State, e: Event, tv: Tv)
    requires e in s.st
    ensures WithTv(s, e, tv).st.Keys == s.st.Keys && WithTv(s, e, tv).st[e].flags == s.st[e].flags
    ensures WithTv(s, e, tv).lists == s.lists && WithTv(s, e, tv).timers == s.timers
  {
  }

  /** Setting the timeout and entering the map commute. */
  lemma {:induction false} TimeoutAndMap(s: State, e: Event, tv: Tv)
    requires e in s.st
    ensures e in WithTv(s, e, tv).st
    ensures WithTv(InsertInserted(s, e), e, tv) == InsertInserted(WithTv(s, e, tv), e)
  {
    assert WithTv(InsertInserted(s, e), e, tv).st == InsertInserted(WithTv(s, e, tv), e).st;
  }
}
