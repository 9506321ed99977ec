/** The queues, timers and counters of an event base as values, and what each queue operation
    does to them. */
module EventState {
  import opened Wrappers
  import opened Events

  /** `lists` are the common timeout lists, `timers` the internal event of each. */
  datatype State = State(
    st: map<Event, EvState>,
    queues: seq<seq<Event>>,
    later: seq<Event>,
    heap: set<Event>,
    lists: seq<seq<Event>>,
    timers: seq<Event>,
    count: int,
    countActive: int)

  // ---------- the invariant ----------

  ghost predicate NoDup(q: seq<Event>) {
    forall i, j :: 0 <= i < j < |q| ==> q[i] != q[j]
  }

  /** An event is in the active queue of its priority, and only there, iff it is ACTIVE. */
  ghost predicate QueuesOk(st: map<Event, EvState>, queues: seq<seq<Event>>) {
    && (forall i :: 0 <= i < |queues| ==> NoDup(queues[i]))
    && (forall i, e :: 0 <= i < |queues| && e in queues[i] ==> e in st && st[e].flags.active && st[e].pri == i)
    && (forall e <- st :: st[e].flags.active ==> st[e].pri < |queues| && e in queues[st[e].pri])
  }

  /** An event is in the later queue iff it is ACTIVE_LATER, and then it is not ACTIVE. */
  ghost predicate LaterOk(st: map<Event, EvState>, later: seq<Event>) {
    && NoDup(later)
    && (forall e <- later :: e in st && st[e].flags.later)
    && (forall e <- st :: st[e].flags.later ==> e in later && !st[e].flags.active)
  }

  predicate IsCommon(tv: Tv, n: nat) {
    tv.common.Some? && tv.common.value < n
  }

  ghost predicate Sorted(st: map<Event, EvState>, q: seq<Event>)
    requires forall e <- q :: e in st
  {
    forall i, j :: 0 <= i < j < |q| ==> st[q[i]].timeout.us <= st[q[j]].timeout.us
  }

  ghost predicate HeapIn(st: map<Event, EvState>, heap: set<Event>, n: nat) {
    forall e <- heap :: e in st && st[e].flags.timeout && !IsCommon(st[e].timeout, n)
  }

  /** A common timeout list: events with that timeout, in order of time. */
  ghost predicate ListOk(st: map<Event, EvState>, q: seq<Event>, i: nat) {
    && (forall e <- q :: e in st && st[e].flags.timeout && st[e].timeout.common == Some(i))
    && NoDup(q) && Sorted(st, q)
  }

  /** Where an event with a pending timeout is. */
  ghost predicate Pending(st: map<Event, EvState>, heap: set<Event>, lists: seq<seq<Event>>) {
    forall e <- st :: st[e].flags.timeout ==>
      if IsCommon(st[e].timeout, |lists|) then e in lists[st[e].timeout.common.value] else e in heap
  }

  /** An event is in the heap or in the common timeout list of its timeout iff it has one pending;
      each list is in order of time. */
  ghost predicate TimeoutsOk(st: map<Event, EvState>, heap: set<Event>, lists: seq<seq<Event>>) {
    && HeapIn(st, heap, |lists|)
    && (forall i :: 0 <= i < |lists| ==> ListOk(st, lists[i], i))
    && Pending(st, heap, lists)
  }

  /** The internal timers of the common timeout lists. */
  ghost predicate TimersOk(st: map<Event, EvState>, timers: seq<Event>) {
    && NoDup(timers)
    && (forall e <- timers :: e in st && st[e].internal && st[e].timeout.common == None)
    && (forall e <- timers :: !st[e].flags.inserted && !st[e].flags.later && !st[e].flags.finalizing && !e.io)
  }

  ghost predicate FlagsOk(st: map<Event, EvState>, n: nat) {
    forall e <- st :: (st[e].flags.finalizing ==> !st[e].flags.timeout && !st[e].flags.inserted) && st[e].pri < n
  }

  // ---------- counting ----------

  ghost function Total(queues: seq<seq<Event>>): nat {
    if queues == [] then 0 else |queues[0]| + Total(queues[1..])
  }

  /** The events that the user is counted for, in each of the four places. */
  ghost function Timing(st: map<Event, EvState>): set<Event> {
    set e | e in st && !st[e].internal && st[e].flags.timeout
  }

  ghost function Inserted(st: map<Event, EvState>): set<Event> {
    set e | e in st && !st[e].internal && st[e].flags.inserted
  }

  ghost function Active(st: map<Event, EvState>): set<Event> {
    set e | e in st && !st[e].internal && st[e].flags.active
  }

  ghost function ActiveLater(st: map<Event, EvState>): set<Event> {
    set e | e in st && !st[e].internal && st[e].flags.later
  }

  /** The number of flags that non-internal events hold. */
  ghost function FlagsHeld(st: map<Event, EvState>): nat {
    |Timing(st)| + |Inserted(st)| + |Active(st)| + |ActiveLater(st)|
  }

  function Bit(b: bool): nat {
    if b then 1 else 0
  }

  /** How many of the flags one event is counted for. */
  function Weight(s: EvState): nat {
    if s.internal then 0
    else Bit(s.flags.timeout) + Bit(s.flags.inserted) + Bit(s.flags.active) + Bit(s.flags.later)
  }

  lemma {:induction false} UpdateSet(a: set<Event>, b: set<Event>, e: Event)
    requires forall x :: x != e ==> (x in a <==> x in b)
    ensures |b| - |a| == Bit(e in b) - Bit(e in a)
  {
    if e in a && e !in b {
      assert a == b + {e};
    } else if e !in a && e in b {
      assert b == a + {e};
    } else {
      assert a == b;
    }
  }

  lemma {:induction false} FlagsHeldUpdate(st: map<Event, EvState>, e: Event, s: EvState)
    requires e in st && s.internal == st[e].internal
    ensures FlagsHeld(st[e := s]) == FlagsHeld(st) - Weight(st[e]) + Weight(s)
  {
    UpdateSet(Timing(st), Timing(st[e := s]), e);
    UpdateSet(Inserted(st), Inserted(st[e := s]), e);
    UpdateSet(Active(st), Active(st[e := s]), e);
    UpdateSet(ActiveLater(st), ActiveLater(st[e := s]), e);
  }

  lemma {:induction false} TotalUpdate(queues: seq<seq<Event>>, i: nat, q: seq<Event>)
    requires i < |queues|
    ensures Total(queues[i := q]) == Total(queues) - |queues[i]| + |q|
  {
    if i == 0 {
      assert queues[0 := q][1..] == queues[1..];
    } else {
      TotalUpdate(queues[1..], i - 1, q);
      assert queues[i := q][1..] == queues[1..][i - 1 := q];
    }
  }

  ghost predicate CountsOk(s: State) {
    && s.count == FlagsHeld(s.st)
    && s.countActive == Total(s.queues) + |s.later|
  }

  ghost predicate Ok(s: State) {
    && QueuesOk(s.st, s.queues) && LaterOk(s.st, s.later) && TimeoutsOk(s.st, s.heap, s.lists)
    && |s.timers| == |s.lists| && TimersOk(s.st, s.timers) && FlagsOk(s.st, |s.queues|) && CountsOk(s)
  }

  /** The internal timer of list `i` will see to its events in time: it is active already, or it is
      in the heap for no later than the first of them. */
  ghost predicate Covered(s: State, i: nat)
    requires Ok(s) && i < |s.lists|
  {
    var timer := s.st[s.timers[i]];
    || s.lists[i] == []
    || timer.flags.active
    || (timer.flags.timeout && timer.timeout.us <= s.st[s.lists[i][0]].timeout.us)
  }

  ghost predicate AllCovered(s: State, inFlight: set<nat>)
    requires Ok(s)
  {
    forall i: nat :: i < |s.lists| && i !in inFlight ==> Covered(s, i)
  }

  // ---------- the queue operations ----------

  /** `q` without its element `e`. */
  ghost function Without(q: seq<Event>, e: Event): seq<Event>
    requires e in q
  {
    var i: nat :| i < |q| && q[i] == e;
    q[..i] + q[i + 1..]
  }

  lemma {:induction false} WithoutAt(q: seq<Event>, i: nat)
    requires i < |q| && NoDup(q)
    ensures q[i] in q && Without(q, q[i]) == q[..i] + q[i + 1..]
  {
  }

  lemma {:induction false} WithoutProperties(q: seq<Event>, e: Event)
    requires e in q && NoDup(q)
    ensures NoDup(Without(q, e)) && |Without(q, e)| == |q| - 1
    ensures forall x :: x in Without(q, e) <==> x in q && x != e
  {
    hide Without;
    var i: nat :| i < |q| && q[i] == e;
    WithoutAt(q, i);
    var r := q[..i] + q[i + 1..];
    assert forall j :: 0 <= j < |r| ==> r[j] == q[if j < i then j else j + 1];
    forall x | x in q && x != e
      ensures x in r
    {
      var j: nat :| j < |q| && q[j] == x;
      assert r[if j < i then j else j - 1] == x;
    }
    forall x | x in r
      ensures x in q && x != e
    {
      var j: nat :| j < |r| && r[j] == x;
      assert x == q[if j < i then j else j + 1];
    }
  }

  lemma {:induction false} WithoutSorted(st: map<Event, EvState>, q: seq<Event>, e: Event)
    requires e in q && (forall x <- q :: x in st) && Sorted(st, q) && NoDup(q)
    ensures (forall x <- Without(q, e) :: x in st) && Sorted(st, Without(q, e))
  {
    hide Without, Sorted;
    WithoutProperties(q, e);
    var i: nat :| i < |q| && q[i] == e;
    WithoutAt(q, i);
    var r := q[..i] + q[i + 1..];
    forall j, l | 0 <= j < l < |r|
      ensures st[r[j]].timeout.us <= st[r[l]].timeout.us
    {
      var a, b := if j < i then j else j + 1, if l < i then l else l + 1;
      assert r[j] == q[a] && r[l] == q[b];
      SortedPair(st, q, a, b);
    }
    SortedFromPairs(st, r);
  }

  lemma {:induction false} SortedFromPairs(st: map<Event, EvState>, q: seq<Event>)
    requires forall x <- q :: x in st
    requires forall i, j :: 0 <= i < j < |q| ==> st[q[i]].timeout.us <= st[q[j]].timeout.us
    ensures Sorted(st, q)
  {
  }

  lemma {:induction false} SortedPair(st: map<Event, EvState>, q: seq<Event>, a: nat, b: nat)
    requires (forall x <- q :: x in st) && Sorted(st, q) && a < b < |q|
    ensures st[q[a]].timeout.us <= st[q[b]].timeout.us
  {
  }

  function Cost(s: EvState): int {
    if s.internal then 0 else 1
  }

  ghost function SetFlags(s: State, e: Event, f: Flags): map<Event, EvState>
    requires e in s.st
  {
    s.st[e := s.st[e].(flags := f)]
  }

  /** event_queue_remove_inserted */
  ghost function RemoveInserted(s: State, e: Event): State
    requires e in s.st
  {
    s.(st := SetFlags(s, e, s.st[e].flags.(inserted := false)), count := s.count - Cost(s.st[e]))
  }

  /** event_queue_insert_inserted */
  ghost function InsertInserted(s: State, e: Event): State
    requires e in s.st
  {
    s.(st := SetFlags(s, e, s.st[e].flags.(inserted := true)), count := s.count + Cost(s.st[e]))
  }

  /** event_queue_remove_active */
  ghost function RemoveActive(s: State, e: Event): State
    requires e in s.st && s.st[e].pri < |s.queues| && e in s.queues[s.st[e].pri]
  {
    var pri := s.st[e].pri;
    s.(st := SetFlags(s, e, s.st[e].flags.(active := false)), queues := s.queues[pri := Without(s.queues[pri], e)],
       count := s.count - Cost(s.st[e]), countActive := s.countActive - 1)
  }

  /** event_queue_insert_active, of an event that is not active */
  ghost function InsertActive(s: State, e: Event): State
    requires e in s.st && s.st[e].pri < |s.queues|
  {
    var pri := s.st[e].pri;
    s.(st := SetFlags(s, e, s.st[e].flags.(active := true)), queues := s.queues[pri := s.queues[pri] + [e]],
       count := s.count + Cost(s.st[e]), countActive := s.countActive + 1)
  }

  /** event_queue_remove_active_later */
  ghost function RemoveLater(s: State, e: Event): State
    requires e in s.st && e in s.later
  {
    s.(st := SetFlags(s, e, s.st[e].flags.(later := false)), later := Without(s.later, e),
       count := s.count - Cost(s.st[e]), countActive := s.countActive - 1)
  }

  /** event_queue_insert_active_later, of an event that is in neither queue */
  ghost function InsertLater(s: State, e: Event): State
    requires e in s.st
  {
    s.(st := SetFlags(s, e, s.st[e].flags.(later := true)), later := s.later + [e],
       count := s.count + Cost(s.st[e]), countActive := s.countActive + 1)
  }

  /** event_queue_remove_timeout */
  ghost function RemoveTimeout(s: State, e: Event): State
    requires Ok(s) && e in s.st && s.st[e].flags.timeout
  {
    var tv := s.st[e].timeout;
    var t := s.(st := SetFlags(s, e, s.st[e].flags.(timeout := false)), count := s.count - Cost(s.st[e]));
    if IsCommon(tv, |s.lists|)
    then t.(lists := s.lists[tv.common.value := Without(s.lists[tv.common.value], e)])
    else t.(heap := s.heap - {e})
  }

  /** Where insert_common_timeout_inorder puts a time: behind the last that is not after it. */
  ghost function InsertPos(st: map<Event, EvState>, q: seq<Event>, us: int): (k: nat)
    requires forall e <- q :: e in st
    ensures k <= |q| && (k > 0 ==> st[q[k - 1]].timeout.us <= us)
    ensures forall j :: k <= j < |q| ==> us < st[q[j]].timeout.us
  {
    if q == [] then 0
    else if st[q[|q| - 1]].timeout.us <= us then |q|
    else InsertPos(st, q[..|q| - 1], us)
  }

  ghost function InsertedAt(q: seq<Event>, k: nat, e: Event): seq<Event>
    requires k <= |q|
  {
    q[..k] + [e] + q[k..]
  }

  ghost function WithTimeout(s: EvState, tv: Tv): EvState {
    s.(flags := s.flags.(timeout := true), timeout := tv)
  }

  /** event_queue_insert_timeout, with the timeout `tv` */
  ghost function InsertTimeout(s: State, e: Event, tv: Tv): State
    requires Ok(s) && e in s.st
  {
    var t := s.(st := s.st[e := WithTimeout(s.st[e], tv)], count := s.count + Cost(s.st[e]));
    if IsCommon(tv, |s.lists|)
    then
      var q := s.lists[tv.common.value];
      t.(lists := s.lists[tv.common.value := InsertedAt(q, InsertPos(s.st, q, tv.us), e)])
    else t.(heap := s.heap + {e})
  }

  // ---------- which keep the invariant ----------

  /** Parts of the invariant do not mind changes to fields that they do not look at. */
  lemma {:induction false} QueuesSame(st: map<Event, EvState>, queues: seq<seq<Event>>, e: Event, s: EvState)
    requires QueuesOk(st, queues) && e in st && s.flags.active == st[e].flags.active && s.pri == st[e].pri
    ensures QueuesOk(st[e := s], queues)
  {
  }

  lemma {:induction false} LaterSame(st: map<Event, EvState>, later: seq<Event>, e: Event, s: EvState)
    requires LaterOk(st, later) && e in st && s.flags.later == st[e].flags.later && !(s.flags.active && s.flags.later)
    ensures LaterOk(st[e := s], later)
  {
  }

  lemma {:induction false} TimeoutsSame(st: map<Event, EvState>, heap: set<Event>, lists: seq<seq<Event>>, e: Event, s: EvState)
    requires TimeoutsOk(st, heap, lists) && e in st && s.flags.timeout == st[e].flags.timeout && s.timeout == st[e].timeout
    ensures TimeoutsOk(st[e := s], heap, lists)
  {
  }

  lemma {:induction false} TimersSame(st: map<Event, EvState>, timers: seq<Event>, e: Event, s: EvState)
    requires TimersOk(st, timers) && e in st && s.internal == st[e].internal
    requires e in timers ==> s.timeout.common == None && !s.flags.inserted && !s.flags.later && !s.flags.finalizing
    ensures TimersOk(st[e := s], timers)
  {
  }

  lemma {:induction false} FlagsSame(st: map<Event, EvState>, n: nat, e: Event, s: EvState)
    requires FlagsOk(st, n) && e in st && s.pri < n
    requires s.flags.finalizing ==> !s.flags.timeout && !s.flags.inserted
    ensures FlagsOk(st[e := s], n)
  {
  }

  /** An event's snapshot may change in fields that say nothing about queues and counters. */
  ghost predicate SamePlace(a: EvState, b: EvState) {
    && a.flags == b.flags && a.internal == b.internal
    && (a.flags.active ==> a.pri == b.pri)
    && (a.flags.timeout ==> a.timeout == b.timeout)
  }

  lemma {:induction false} QueuesSamePlace(st: map<Event, EvState>, queues: seq<seq<Event>>, e: Event, t: EvState)
    requires QueuesOk(st, queues) && e in st && t.flags.active == st[e].flags.active && (t.flags.active ==> t.pri == st[e].pri)
    ensures QueuesOk(st[e := t], queues)
  {
  }

  lemma {:induction false} TimeoutsSamePlace(st: map<Event, EvState>, heap: set<Event>, lists: seq<seq<Event>>, e: Event, t: EvState)
    requires TimeoutsOk(st, heap, lists) && e in st && t.flags.timeout == st[e].flags.timeout
    requires t.flags.timeout ==> t.timeout == st[e].timeout
    ensures TimeoutsOk(st[e := t], heap, lists)
  {
    forall i | 0 <= i < |lists|
      ensures ListOk(st[e := t], lists[i], i)
    {
      assert ListOk(st, lists[i], i);
    }
  }

  lemma {:induction false} SamePlaceOk(s: State, e: Event, t: EvState)
    requires Ok(s) && e in s.st && SamePlace(s.st[e], t) && t.pri < |s.queues|
    requires e in s.timers ==> t.timeout.common == None
    ensures Ok(s.(st := s.st[e := t]))
  {
    FlagsHeldUpdate(s.st, e, t);
    LaterFlag(s, e);
    hide TimeoutsOk, QueuesOk, LaterOk, FlagsHeld;
    QueuesSamePlace(s.st, s.queues, e, t);
    TimeoutsSamePlace(s.st, s.heap, s.lists, e, t);
    LaterSame(s.st, s.later, e, t);
    TimersSame(s.st, s.timers, e, t);
    FlagsSame(s.st, |s.queues|, e, t);
  }

  lemma {:induction false} RemoveInsertedOk(s: State, e: Event)
    requires Ok(s) && e in s.st && s.st[e].flags.inserted
    ensures Ok(RemoveInserted(s, e))
  {
    hide QueuesOk, LaterOk, TimeoutsOk, FlagsHeld;
    var t := s.st[e].(flags := s.st[e].flags.(inserted := false));
    FlagsHeldUpdate(s.st, e, t);
    LaterFlag(s, e);
    QueuesSame(s.st, s.queues, e, t);
    LaterSame(s.st, s.later, e, t);
    TimeoutsSame(s.st, s.heap, s.lists, e, t);
    TimersSame(s.st, s.timers, e, t);
    FlagsSame(s.st, |s.queues|, e, t);
  }

  lemma LaterFlag(s: State, e: Event)
    requires Ok(s) && e in s.st
    ensures !(s.st[e].flags.active && s.st[e].flags.later)
  {
  }

  lemma {:induction false} InsertInsertedOk(s: State, e: Event)
    requires Ok(s) && e in s.st && !s.st[e].flags.inserted && !s.st[e].flags.finalizing && e !in s.timers
    ensures Ok(InsertInserted(s, e))
  {
    hide QueuesOk, LaterOk, TimeoutsOk, FlagsHeld;
    var t := s.st[e].(flags := s.st[e].flags.(inserted := true));
    FlagsHeldUpdate(s.st, e, t);
    LaterFlag(s, e);
    QueuesSame(s.st, s.queues, e, t);
    LaterSame(s.st, s.later, e, t);
    TimeoutsSame(s.st, s.heap, s.lists, e, t);
    TimersSame(s.st, s.timers, e, t);
    FlagsSame(s.st, |s.queues|, e, t);
  }

  lemma {:induction false} QueuesWithout(st: map<Event, EvState>, queues: seq<seq<Event>>, e: Event)
    requires QueuesOk(st, queues) && e in st && st[e].flags.active
    ensures QueuesOk(st[e := st[e].(flags := st[e].flags.(active := false))],
      queues[st[e].pri := Without(queues[st[e].pri], e)])
  {
    WithoutProperties(queues[st[e].pri], e);
  }

  lemma {:induction false} RemoveActiveOk(s: State, e: Event)
    requires Ok(s) && e in s.st && s.st[e].flags.active
    ensures s.st[e].pri < |s.queues| && e in s.queues[s.st[e].pri] && Ok(RemoveActive(s, e))
  {
    assert s.st[e].pri < |s.queues| && e in s.queues[s.st[e].pri] && NoDup(s.queues[s.st[e].pri]);
    hide QueuesOk, LaterOk, TimeoutsOk, FlagsHeld, Total;
    var t := s.st[e].(flags := s.st[e].flags.(active := false));
    FlagsHeldUpdate(s.st, e, t);
    var pri := s.st[e].pri;
    WithoutProperties(s.queues[pri], e);
    TotalUpdate(s.queues, pri, Without(s.queues[pri], e));
    QueuesWithout(s.st, s.queues, e);
    LaterSame(s.st, s.later, e, t);
    TimeoutsSame(s.st, s.heap, s.lists, e, t);
    TimersSame(s.st, s.timers, e, t);
    FlagsSame(s.st, |s.queues|, e, t);
  }

  lemma {:induction false} QueuesWith(st: map<Event, EvState>, queues: seq<seq<Event>>, e: Event)
    requires QueuesOk(st, queues) && e in st && !st[e].flags.active && st[e].pri < |queues|
    ensures QueuesOk(st[e := st[e].(flags := st[e].flags.(active := true))],
      queues[st[e].pri := queues[st[e].pri] + [e]])
  {
  }

  lemma {:induction false} InsertActiveOk(s: State, e: Event)
    requires Ok(s) && e in s.st && !s.st[e].flags.active && !s.st[e].flags.later
    ensures s.st[e].pri < |s.queues| && Ok(InsertActive(s, e))
  {
    hide QueuesOk, LaterOk, TimeoutsOk, FlagsHeld, Total;
    var t := s.st[e].(flags := s.st[e].flags.(active := true));
    FlagsHeldUpdate(s.st, e, t);
    var pri := s.st[e].pri;
    TotalUpdate(s.queues, pri, s.queues[pri] + [e]);
    QueuesWith(s.st, s.queues, e);
    LaterSame(s.st, s.later, e, t);
    TimeoutsSame(s.st, s.heap, s.lists, e, t);
    TimersSame(s.st, s.timers, e, t);
    FlagsSame(s.st, |s.queues|, e, t);
  }

  lemma {:induction false} LaterWithout(st: map<Event, EvState>, later: seq<Event>, e: Event)
    requires LaterOk(st, later) && e in st && st[e].flags.later
    ensures LaterOk(st[e := st[e].(flags := st[e].flags.(later := false))], Without(later, e))
  {
    WithoutProperties(later, e);
  }

  lemma {:induction false} RemoveLaterOk(s: State, e: Event)
    requires Ok(s) && e in s.st && s.st[e].flags.later
    ensures e in s.later && Ok(RemoveLater(s, e))
  {
    assert e in s.later && NoDup(s.later);
    hide QueuesOk, LaterOk, TimeoutsOk, FlagsHeld, Total;
    var t := s.st[e].(flags := s.st[e].flags.(later := false));
    FlagsHeldUpdate(s.st, e, t);
    WithoutProperties(s.later, e);
    LaterWithout(s.st, s.later, e);
    QueuesSame(s.st, s.queues, e, t);
    TimeoutsSame(s.st, s.heap, s.lists, e, t);
    TimersSame(s.st, s.timers, e, t);
    FlagsSame(s.st, |s.queues|, e, t);
  }

  lemma {:induction false} LaterWith(st: map<Event, EvState>, later: seq<Event>, e: Event)
    requires LaterOk(st, later) && e in st && !st[e].flags.later && !st[e].flags.active
    ensures LaterOk(st[e := st[e].(flags := st[e].flags.(later := true))], later + [e])
  {
  }

  lemma {:induction false} InsertLaterOk(s: State, e: Event)
    requires Ok(s) && e in s.st && !s.st[e].flags.active && !s.st[e].flags.later && e !in s.timers
    ensures Ok(InsertLater(s, e))
  {
    hide QueuesOk, LaterOk, TimeoutsOk, FlagsHeld, Total;
    var t := s.st[e].(flags := s.st[e].flags.(later := true));
    FlagsHeldUpdate(s.st, e, t);
    LaterWith(s.st, s.later, e);
    QueuesSame(s.st, s.queues, e, t);
    TimeoutsSame(s.st, s.heap, s.lists, e, t);
    TimersSame(s.st, s.timers, e, t);
    FlagsSame(s.st, |s.queues|, e, t);
  }

  /** Removing `e` from the list it is in, if it is in this one. */
  lemma {:induction false} ListWithout(st: map<Event, EvState>, q: seq<Event>, i: nat, e: Event)
    requires ListOk(st, q, i) && e in st
    ensures ListOk(st[e := st[e].(flags := st[e].flags.(timeout := false))], if e in q then Without(q, e) else q, i)
  {
    if e in q {
      WithoutProperties(q, e);
      WithoutSorted(st, q, e);
    }
  }

  lemma {:induction false} PendingWithout(st: map<Event, EvState>, heap: set<Event>, lists: seq<seq<Event>>, e: Event)
    requires TimeoutsOk(st, heap, lists) && e in st && st[e].flags.timeout
    ensures var tv, t := st[e].timeout, st[e := st[e].(flags := st[e].flags.(timeout := false))];
      if IsCommon(tv, |lists|)
      then HeapIn(t, heap, |lists|) && Pending(t, heap, lists[tv.common.value := Without(lists[tv.common.value], e)])
      else HeapIn(t, heap - {e}, |lists|) && Pending(t, heap - {e}, lists)
  {
    var tv := st[e].timeout;
    if IsCommon(tv, |lists|) {
      assert ListOk(st, lists[tv.common.value], tv.common.value);
      WithoutProperties(lists[tv.common.value], e);
    }
  }

  lemma {:induction false} TimeoutsWithout(st: map<Event, EvState>, heap: set<Event>, lists: seq<seq<Event>>, e: Event)
    requires TimeoutsOk(st, heap, lists) && e in st && st[e].flags.timeout
    ensures var tv, t := st[e].timeout, st[e := st[e].(flags := st[e].flags.(timeout := false))];
      if IsCommon(tv, |lists|)
      then e in lists[tv.common.value] && TimeoutsOk(t, heap, lists[tv.common.value := Without(lists[tv.common.value], e)])
      else TimeoutsOk(t, heap - {e}, lists)
  {
    PendingWithout(st, heap, lists, e);
    var tv, t := st[e].timeout, st[e := st[e].(flags := st[e].flags.(timeout := false))];
    var after := if IsCommon(tv, |lists|) then lists[tv.common.value := Without(lists[tv.common.value], e)] else lists;
    forall i | 0 <= i < |lists|
      ensures ListOk(t, after[i], i)
    {
      assert ListOk(st, lists[i], i);
      ListWithout(st, lists[i], i, e);
    }
  }

  lemma {:induction false} RemoveTimeoutOk(s: State, e: Event)
    requires Ok(s) && e in s.st && s.st[e].flags.timeout
    ensures Ok(RemoveTimeout(s, e))
  {
    hide QueuesOk, LaterOk, TimeoutsOk, FlagsHeld, Total;
    TimeoutsWithout(s.st, s.heap, s.lists, e);
    LaterFlag(s, e);
    var t := s.st[e].(flags := s.st[e].flags.(timeout := false));
    FlagsHeldUpdate(s.st, e, t);
    QueuesSame(s.st, s.queues, e, t);
    LaterSame(s.st, s.later, e, t);
    TimersSame(s.st, s.timers, e, t);
    FlagsSame(s.st, |s.queues|, e, t);
  }

  lemma {:induction false} InsertedAtProperties(q: seq<Event>, k: nat, e: Event)
    requires k <= |q| && NoDup(q) && e !in q
    ensures NoDup(InsertedAt(q, k, e)) && forall x :: x in InsertedAt(q, k, e) <==> x == e || x in q
  {
    var r := InsertedAt(q, k, e);
    assert r[k] == e;
    forall x | x in q
      ensures x in r
    {
      var j: nat :| j < |q| && q[j] == x;
      assert r[if j < k then j else j + 1] == x;
    }
  }

  lemma {:induction false} InsertedSorted(st: map<Event, EvState>, q: seq<Event>, e: Event, s: EvState)
    requires (forall x <- q :: x in st) && Sorted(st, q) && e !in q
    ensures var r := InsertedAt(q, InsertPos(st, q, s.timeout.us), e);
      (forall x <- r :: x in st[e := s]) && Sorted(st[e := s], r)
  {
    hide InsertPos, InsertedAt, Sorted;
    var us, k := s.timeout.us, InsertPos(st, q, s.timeout.us);
    var r, u := InsertedAt(q, k, e), st[e := s];
    InsertedAtIndex(q, k, e);
    forall i | 0 <= i < |r|
      ensures r[i] in u && u[r[i]].timeout.us == KeyAt(st, q, k, us, i)
    {
      InsertedKey(st, q, e, s, k, i);
    }
    hide KeyAt;
    forall i, j | 0 <= i < j < |r|
      ensures u[r[i]].timeout.us <= u[r[j]].timeout.us
    {
      KeysSorted(st, q, k, us, i, j);
    }
    SortedFromPairs(u, r);
  }

  /** The timeout at place `i` once one of `us` has been inserted at `k`. */
  ghost function KeyAt(st: map<Event, EvState>, q: seq<Event>, k: nat, us: int, i: nat): int
    requires (forall x <- q :: x in st) && k <= |q| && i <= |q|
  {
    if i == k then us else st[q[if i < k then i else i - 1]].timeout.us
  }

  lemma {:induction false} InsertedKey(st: map<Event, EvState>, q: seq<Event>, e: Event, s: EvState, k: nat, i: nat)
    requires (forall x <- q :: x in st) && e !in q && k <= |q| && i <= |q|
    ensures var r, u := InsertedAt(q, k, e), st[e := s];
      |r| == |q| + 1 && r[i] in u && u[r[i]].timeout.us == KeyAt(st, q, k, s.timeout.us, i)
  {
    hide InsertedAt;
    InsertedAtIndex(q, k, e);
    if i < k {
      assert q[i] in q;
    } else if i > k {
      assert q[i - 1] in q;
    }
  }

  lemma {:induction false} KeysSorted(st: map<Event, EvState>, q: seq<Event>, k: nat, us: int, i: nat, j: nat)
    requires (forall x <- q :: x in st) && Sorted(st, q) && k <= |q| && i < j <= |q|
    requires k > 0 ==> st[q[k - 1]].timeout.us <= us
    requires forall j :: k <= j < |q| ==> us < st[q[j]].timeout.us
    ensures KeyAt(st, q, k, us, i) <= KeyAt(st, q, k, us, j)
  {
    assert j == k && i < k - 1 ==> st[q[i]].timeout.us <= st[q[k - 1]].timeout.us;
  }

  lemma {:induction false} InsertedAtIndex(q: seq<Event>, k: nat, e: Event)
    requires k <= |q|
    ensures var r := InsertedAt(q, k, e);
      |r| == |q| + 1 && forall i :: 0 <= i < |r| ==> r[i] == if i < k then q[i] else if i == k then e else q[i - 1]
  {
  }

  lemma {:induction false} ListSame(st: map<Event, EvState>, q: seq<Event>, i: nat, e: Event, t: EvState)
    requires ListOk(st, q, i) && e in st && !st[e].flags.timeout
    ensures e !in q && ListOk(st[e := t], q, i)
  {
  }

  lemma {:induction false} ListWith(st: map<Event, EvState>, q: seq<Event>, i: nat, e: Event, tv: Tv)
    requires ListOk(st, q, i) && e in st && !st[e].flags.timeout && tv.common == Some(i)
    ensures ListOk(st[e := WithTimeout(st[e], tv)], InsertedAt(q, InsertPos(st, q, tv.us), e), i)
  {
    InsertedSorted(st, q, e, WithTimeout(st[e], tv));
    hide InsertedAt, InsertPos, Sorted;
    InsertedAtProperties(q, InsertPos(st, q, tv.us), e);
  }

  lemma {:induction false} PendingWith(st: map<Event, EvState>, heap: set<Event>, lists: seq<seq<Event>>, e: Event, tv: Tv)
    requires TimeoutsOk(st, heap, lists) && e in st && !st[e].flags.timeout
    ensures var t := st[e := WithTimeout(st[e], tv)];
      if IsCommon(tv, |lists|)
      then var q := lists[tv.common.value];
        (forall x <- q :: x in st) && HeapIn(t, heap, |lists|)
        && Pending(t, heap, lists[tv.common.value := InsertedAt(q, InsertPos(st, q, tv.us), e)])
      else HeapIn(t, heap + {e}, |lists|) && Pending(t, heap + {e}, lists)
  {
    if IsCommon(tv, |lists|) {
      var q := lists[tv.common.value];
      assert ListOk(st, q, tv.common.value);
      InsertedAtProperties(q, InsertPos(st, q, tv.us), e);
    }
  }

  lemma {:induction false} TimeoutsWith(st: map<Event, EvState>, heap: set<Event>, lists: seq<seq<Event>>, e: Event, tv: Tv)
    requires TimeoutsOk(st, heap, lists) && e in st && !st[e].flags.timeout
    ensures var t := st[e := WithTimeout(st[e], tv)];
      if IsCommon(tv, |lists|)
      then var q := lists[tv.common.value];
        (forall x <- q :: x in st) && TimeoutsOk(t, heap, lists[tv.common.value := InsertedAt(q, InsertPos(st, q, tv.us), e)])
      else TimeoutsOk(t, heap + {e}, lists)
  {
    PendingWith(st, heap, lists, e, tv);
    var t := st[e := WithTimeout(st[e], tv)];
    forall i | 0 <= i < |lists|
      ensures ListOk(t, lists[i], i)
      ensures IsCommon(tv, |lists|) && tv.common.value == i ==>
        (forall x <- lists[i] :: x in st) && ListOk(t, InsertedAt(lists[i], InsertPos(st, lists[i], tv.us), e), i)
    {
      assert ListOk(st, lists[i], i);
      ListSame(st, lists[i], i, e, WithTimeout(st[e], tv));
      if tv.common == Some(i) {
        ListWith(st, lists[i], i, e, tv);
      }
    }
  }

  lemma {:induction false} InsertTimeoutOk(s: State, e: Event, tv: Tv)
    requires Ok(s) && e in s.st && !s.st[e].flags.timeout && !s.st[e].flags.finalizing
    requires e in s.timers ==> tv.common == None
    ensures Ok(InsertTimeout(s, e, tv))
  {
    hide QueuesOk, LaterOk, TimeoutsOk, FlagsHeld, Total, InsertPos, InsertedAt;
    TimeoutsWith(s.st, s.heap, s.lists, e, tv);
    LaterFlag(s, e);
    var t := WithTimeout(s.st[e], tv);
    FlagsHeldUpdate(s.st, e, t);
    QueuesSame(s.st, s.queues, e, t);
    LaterSame(s.st, s.later, e, t);
    TimersSame(s.st, s.timers, e, t);
    FlagsSame(s.st, |s.queues|, e, t);
  }
}
