/** What event bases do to one fd is a run of its steps, so that the results about runs are about them. */
module BatchingRuns {
  import opened EpollTable
  import opened Epoll
  import opened EvMap
  import opened FdSteps
  import opened EventBaseIo
  import opened Batching

  /** What a program does: adds an event, deletes one, dispatches, or closes an fd without events and
      gets its number again. */
  datatype Op = AddEvent(ev: Event) | DelEvent(ev: Event) | DispatchAll | Reopen(fd: int)

  function First(events: seq<Event>, ev: Event): (i: nat)
    requires ev in events
    ensures i < |events| && events[i] == ev
  {
    if events[0] == ev then 0 else 1 + First(events[1..], ev)
  }

  function WithoutEvent(events: seq<Event>, ev: Event): seq<Event> {
    if ev in events then events[..First(events, ev)] + events[First(events, ev) + 1..] else events
  }

  /** The event map takes an event of `fd` that it does not have, if its counters and modes allow. */
  ghost predicate Takes(fd: int, debugMode: bool, events: seq<Event>, ev: Event) {
    && ev.fd == fd && 0 <= fd < LARGEST_MAP && ev !in events && !ev.events.IsEmpty()
    && (forall k :: Wants(ev, k) ==> Count(events, k) < 0xffff)
    && !(debugMode && events != [] && events[0].et != ev.et)
  }

  /** The events of `fd` after an operation. */
  ghost function EventsAfter(fd: int, debugMode: bool, events: seq<Event>, op: Op): seq<Event> {
    match op
    case AddEvent(ev) => if Takes(fd, debugMode, events, ev) then [ev] + events else events
    case DelEvent(ev) => if ev.fd == fd then WithoutEvent(events, ev) else events
    case _ => events
  }

  /** And the step that it is: kinds become wanted or cease to be as the union of all events grows or
      shrinks, in the mode of the event that is added or deleted. */
  ghost function StepFor(fd: int, debugMode: bool, events: seq<Event>, op: Op): Step {
    var before, after := Union(events), Union(EventsAfter(fd, debugMode, events, op));
    match op
    case AddEvent(ev) => Want(after.Minus(before), ev.et)
    case DelEvent(ev) => Unwant(before.Minus(after), ev.et)
    case DispatchAll => Dispatch
    case Reopen(g) => if g == fd && events == [] then Forget else Want(NO_EVENTS, false)
  }

  ghost function EventsOfRun(fd: int, debugMode: bool, ops: seq<Op>): seq<Event> {
    if ops == [] then []
    else EventsAfter(fd, debugMode, EventsOfRun(fd, debugMode, ops[..|ops| - 1]), ops[|ops| - 1])
  }

  ghost function StepsOf(fd: int, debugMode: bool, ops: seq<Op>): seq<Step> {
    if ops == [] then []
    else
      var init := ops[..|ops| - 1];
      StepsOf(fd, debugMode, init) + [StepFor(fd, debugMode, EventsOfRun(fd, debugMode, init), ops[|ops| - 1])]
  }

  ghost predicate NoneTwice(events: seq<Event>) {
    forall i, j :: 0 <= i < j < |events| ==> events[i] != events[j]
  }

  lemma {:induction false} OnceOnly(events: seq<Event>, ev: Event, i: nat)
    requires NoneTwice(events) && i < |events| && events[i] == ev
    ensures First(events, ev) == i && NoneTwice(WithoutEvent(events, ev))
  {
  }

  /** What the counters of a slot say, said of its events. */
  lemma {:induction false} SlotCounts(io: seq<Slot>, fd: int, ev: Event)
    requires MapOk(io) && 0 <= fd && ev.fd == fd && !ev.events.IsEmpty()
    ensures var s, events := SlotAt(io, fd), EventsOf(io, fd);
      && s.events == events && s.Wanted() == Union(events)
      && (CountsFit(s, ev) <==> forall k :: Wants(ev, k) ==> Count(events, k) < 0xffff)
      && NewKinds(s, ev) == Union([ev] + events).Minus(Union(events))
  {
    var s, events := SlotAt(io, fd), EventsOf(io, fd);
    if fd < |io| {
      SlotIsOk(io, fd);
    }
    assert SlotOk(fd, s);
    WantedIsUnion(fd, s);
    assert Wants(ev, Read) == ev.events.read && Wants(ev, Write) == ev.events.write && Wants(ev, Close) == ev.events.close;
    UnionMore(ev, events);
  }

  lemma {:induction false} UnionMore(ev: Event, events: seq<Event>)
    ensures Union([ev] + events) == Union(events).Or(ev.events)
  {
    var all := [ev] + events;
    assert forall e :: e in all <==> e == ev || e in events;
    assert ev in all;
  }

  /** Adding an event that the map takes. */
  method DoAdd(base: EventBase, fd: nat, ev: Event)
    requires base.Valid() && fd !in base.kernel.refused && NoneTwice(EventsOf(base.io, fd))
    modifies base`io, base`changes, base`changesSize, base.kernel`interest
    ensures base.Valid() && NoneTwice(EventsOf(base.io, fd))
    ensures var events := EventsOf(old(base.io), fd);
      && EventsOf(base.io, fd) == EventsAfter(fd, base.debugMode, events, AddEvent(ev))
      && base.FdView(fd)
        == StepOf(base.useChangelist, old(base.FdView(fd)), StepFor(fd, base.debugMode, events, AddEvent(ev)))
  {
    hide EventBase.Valid, StepOf, Union, MapOk, SlotAt, EventsOf, NoneTwice, Count;
    ghost var events, view := EventsOf(base.io, fd), base.FdView(fd);
    NoStep(base.useChangelist, view, ev.et);
    MapIsOk(base);
    if ev.fd > INT_MAX || ev.events.IsEmpty() || ev in EventsOf(base.io, ev.fd) {
      return;
    }
    if ev.fd == fd {
      SlotCounts(base.io, fd, ev);
    }
    var r := base.IoAdd(ev);
    assert [] + events == events;
    if ev.fd == fd && r != -1 {
      NoneTwiceMore(events, ev);
    }
  }

  lemma {:induction false} NoneTwiceMore(events: seq<Event>, ev: Event)
    requires NoneTwice(events) && ev !in events
    ensures NoneTwice([ev] + events)
  {
  }

  lemma {:induction false} MapIsOk(base: EventBase)
    requires base.Valid()
    ensures MapOk(base.io)
  {
  }

  /** Deleting an event that the map has. */
  method DoDel(base: EventBase, fd: nat, ev: Event)
    requires base.Valid() && fd !in base.kernel.refused && NoneTwice(EventsOf(base.io, fd))
    modifies base`io, base`changes, base`changesSize, base`disturbed, base.kernel`interest
    ensures base.Valid() && NoneTwice(EventsOf(base.io, fd))
    ensures var events := EventsOf(old(base.io), fd);
      && EventsOf(base.io, fd) == EventsAfter(fd, base.debugMode, events, DelEvent(ev))
      && base.FdView(fd)
        == StepOf(base.useChangelist, old(base.FdView(fd)), StepFor(fd, base.debugMode, events, DelEvent(ev)))
  {
    hide EventBase.Valid, StepOf, Union, MapOk, EventsOf, NoneTwice, LostKinds, First;
    ghost var events, view := EventsOf(base.io, fd), base.FdView(fd);
    NoStep(base.useChangelist, view, ev.et);
    NothingLost(Union(events));
    if ev !in EventsOf(base.io, ev.fd) {
      return;
    }
    KnownFd(base.io, ev);
    MapIsOk(base);
    ghost var io0 := base.io;
    var r, i := base.IoDel(ev);
    if ev.fd == fd {
      OnceOnly(events, ev, i);
      MapIsOk(base);
      LostIsDifference(io0, base.io, ev, i);
    }
  }

  lemma {:induction false} NothingLost(m: Mask)
    ensures m.Minus(m) == NO_EVENTS
  {
  }

  lemma {:induction false} KnownFd(io: seq<Slot>, ev: Event)
    requires ev in EventsOf(io, ev.fd)
    ensures 0 <= ev.fd < |io| && EventsOf(io, ev.fd) == io[ev.fd].events
  {
  }

  lemma {:induction false} LostIsDifference(io0: seq<Slot>, io: seq<Slot>, ev: Event, i: nat)
    requires MapOk(io0) && MapOk(io) && 0 <= ev.fd < |io0| && io0[ev.fd].Io? && i < |io0[ev.fd].events|
    requires io0[ev.fd].events[i] == ev
    requires EventsOf(io, ev.fd) == io0[ev.fd].events[..i] + io0[ev.fd].events[i + 1..]
    ensures LostKinds(io0[ev.fd], i) == Union(EventsOf(io0, ev.fd)).Minus(Union(EventsOf(io, ev.fd)))
  {
    var s := io0[ev.fd];
    SlotIsOk(io0, ev.fd);
    WantedIsUnion(ev.fd, s);
    CountsArePositive(ev.fd, s, i);
    var t := s.(events := EventsOf(io, ev.fd), nread := Less(s.nread, ev.events.read),
      nwrite := Less(s.nwrite, ev.events.write), nclose := Less(s.nclose, ev.events.close));
    RemovedOk(ev.fd, s, i, t);
    WantedIsUnion(ev.fd, t);
  }

  /** One operation, on whatever fd it is. */
  method Do(base: EventBase, fd: nat, op: Op)
    requires base.Valid() && fd !in base.kernel.refused && NoneTwice(EventsOf(base.io, fd))
    modifies base, base.kernel
    ensures base.Valid() && fd !in base.kernel.refused && NoneTwice(EventsOf(base.io, fd))
    ensures var events := EventsOf(old(base.io), fd);
      && EventsOf(base.io, fd) == EventsAfter(fd, base.debugMode, events, op)
      && base.FdView(fd) == StepOf(base.useChangelist, old(base.FdView(fd)), StepFor(fd, base.debugMode, events, op))
  {
    hide EventBase.Valid, StepOf, Union, EventsOf, NoneTwice;
    match op {
      case AddEvent(ev) =>
        DoAdd(base, fd, ev);
      case DelEvent(ev) =>
        DoDel(base, fd, ev);
      case DispatchAll =>
        DispatchedStep(base, fd);
        var r := base.ApplyQueuedChanges();
      case Reopen(g) =>
        NoStep(base.useChangelist, base.FdView(fd), false);
        NoEventsNoneWanted(base, g);
        NoEventsNoneWanted(base, fd);
        if EventsOf(base.io, g) == [] {
          base.CloseFd(g);
          base.OpenFd(g);
        }
    }
  }

  /** A base without a changelist has nothing to dispatch. */
  lemma {:induction false} DispatchedStep(base: EventBase, fd: int)
    requires base.Valid()
    ensures StepOf(base.useChangelist, base.FdView(fd), Dispatch) == BatchedStep(base.FdView(fd), Dispatch)
  {
  }

  lemma {:induction false} NoEventsNoneWanted(base: EventBase, fd: int)
    requires base.Valid()
    ensures EventsOf(base.io, fd) == [] ==> WantedOf(base.io, fd).IsEmpty()
  {
    WantedIsUnionOfEvents(base.io, fd);
  }

  /** Any number of operations on a new event base: every fd that the kernel does not refuse has gone
      through a run of its steps, that only the operations decide. */
  method Run(base: EventBase, fd: nat, ops: seq<Op>)
    requires base.Valid() && fd !in base.kernel.refused && EventsOf(base.io, fd) == [] && base.FdView(fd) == Start(fd)
    modifies base, base.kernel
    ensures base.Valid() && fd !in base.kernel.refused && EventsOf(base.io, fd) == EventsOfRun(fd, base.debugMode, ops)
    ensures base.FdView(fd)
      == if base.useChangelist then BatchedRun(fd, StepsOf(fd, base.debugMode, ops))
         else ImmediateRun(fd, StepsOf(fd, base.debugMode, ops))
  {
    hide EventBase.Valid, BatchedStep, ImmediateStep, StepFor, EventsAfter, EventsOf;
    for i := 0 to |ops|
      invariant base.Valid() && fd !in base.kernel.refused && NoneTwice(EventsOf(base.io, fd))
      invariant EventsOf(base.io, fd) == EventsOfRun(fd, base.debugMode, ops[..i])
      invariant base.FdView(fd)
        == if base.useChangelist then BatchedRun(fd, StepsOf(fd, base.debugMode, ops[..i]))
           else ImmediateRun(fd, StepsOf(fd, base.debugMode, ops[..i]))
    {
      assert ops[..i + 1][..i] == ops[..i];
      RunMore(fd, StepsOf(fd, base.debugMode, ops[..i]), StepFor(fd, base.debugMode, EventsOfRun(fd, base.debugMode, ops[..i]), ops[i]));
      Do(base, fd, ops[i]);
    }
    assert ops[..|ops|] == ops;
  }

  lemma {:induction false} RunMore(fd: int, steps: seq<Step>, step: Step)
    ensures BatchedRun(fd, steps + [step]) == BatchedStep(BatchedRun(fd, steps), step)
    ensures ImmediateRun(fd, steps + [step]) == ImmediateStep(ImmediateRun(fd, steps), step)
  {
    assert (steps + [step])[..|steps|] == steps;
  }

  /** So for two new event bases, one with a changelist and one without, on which the same is done: after
      one more dispatch the registrations of `fd` are the same, edge flag included, exactly when batching
      does not show in the run. */
  method RunBoth(a: EventBase, b: EventBase, fd: nat, ops: seq<Op>)
    requires a.Valid() && fd !in a.kernel.refused && EventsOf(a.io, fd) == [] && a.FdView(fd) == Start(fd)
    requires b.Valid() && fd !in b.kernel.refused && EventsOf(b.io, fd) == [] && b.FdView(fd) == Start(fd)
    requires a != b && a.kernel != b.kernel && a.useChangelist && !b.useChangelist && a.debugMode == b.debugMode
    modifies a, a.kernel, b, b.kernel
    ensures a.Valid() && b.Valid() && EventsOf(a.io, fd) == EventsOf(b.io, fd)
    ensures var steps := StepsOf(fd, a.debugMode, ops);
      At(a.kernel.interest, fd) == At(b.kernel.interest, fd) <==>
        WantedAfter(steps).IsEmpty() || (BatchedEdge(steps) <==> ImmediateEdge(steps))
  {
    hide EventBase.Valid, BatchedEdge, ImmediateEdge, WantedAfter, BatchedStep, ImmediateStep, BatchedRun, ImmediateRun, StepsOf,
      EventsOfRun, EventsOf;
    Run(a, fd, ops);
    Run(b, fd, ops);
    var r := a.ApplyQueuedChanges();
    BatchingShowsExactly(fd, StepsOf(fd, a.debugMode, ops));
  }
}
