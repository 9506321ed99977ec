/** Queueing changes until the next dispatch is invisible: the kernel ends up with the registrations
    that making each change at once gives it. */
module Batching {
  import opened Wrappers
  import opened EpollTable
  import opened Epoll
  import opened EvMap
  import opened FdSteps
  import opened EventBaseIo

  // ---------- runs of one fd ----------

  lemma {:induction false} RunsInStep(fd: int, steps: seq<Step>)
    ensures var b, i := BatchedRun(fd, steps), ImmediateRun(fd, steps);
      && b.wanted == i.wanted
      && Aimed(b.queued, b.wanted) && Sync(b.queued, b.wanted, b.k)
      && i.queued == None && Holds(i.k, i.wanted)
  {
    if steps != [] {
      var init, step := steps[..|steps| - 1], steps[|steps| - 1];
      RunsInStep(fd, init);
      var b := BatchedRun(fd, init);
      if Possible(b.wanted, step) {
        match step {
          case Want(events, et) => QueueAdd(Queue(b), b.wanted, b.k, events, et);
          case Unwant(events, et) => QueueDel(Queue(b), b.wanted, b.k, events, et);
          case Forget => ForgetUnwanted(b.queued, b.wanted, b.k);
          case Dispatch =>
        }
      }
    }
  }

  /** After any run, one dispatch brings the batched registration to the wanted events, and that is
      where the immediate one has been all along. */
  lemma {:induction false} DispatchCatchesUp(fd: int, steps: seq<Step>)
    ensures var b, i := BatchedStep(BatchedRun(fd, steps), Dispatch), ImmediateRun(fd, steps);
      && Holds(b.k, i.wanted) && Holds(i.k, i.wanted)
      && b.k.Some? == i.k.Some? && (b.k.Some? ==> b.k.value.events == i.k.value.events)
  {
    RunsInStep(fd, steps);
  }

  // ---------- whole event bases ----------

  /** Two event bases with the same events, one that queues and has just dispatched and one that does
      not queue: the kernel has the same interest in every fd, namely the union of the kinds of its
      pending events. */
  lemma {:induction false} BatchingIsInvisible(a: EventBase, b: EventBase, fd: int)
    requires a.Valid() && b.Valid() && a.changes == [] && !b.useChangelist
    requires EventsOf(a.io, fd) == EventsOf(b.io, fd) && fd !in a.disturbed && fd !in b.disturbed
    ensures var m := Union(EventsOf(a.io, fd));
      && Holds(At(a.kernel.interest, fd), m) && Holds(At(b.kernel.interest, fd), m)
      && (fd in a.kernel.interest <==> fd in b.kernel.interest)
      && (fd in a.kernel.interest ==> a.kernel.interest[fd].events == b.kernel.interest[fd].events == m)
  {
    assert FdOk(a.io, a.changes, a.kernel.interest, a.disturbed, fd);
    assert FdOk(b.io, b.changes, b.kernel.interest, b.disturbed, fd);
    WantedIsUnionOfEvents(a.io, fd);
    WantedIsUnionOfEvents(b.io, fd);
  }

  lemma {:induction false} WantedIsUnionOfEvents(io: seq<Slot>, fd: int)
    requires MapOk(io)
    ensures WantedOf(io, fd) == Union(EventsOf(io, fd))
  {
    if 0 <= fd < |io| && io[fd].Io? {
      WantedIsUnion(fd, io[fd]);
    }
  }

  // ---------- edge triggering ----------

  /** The wanted kinds after a run. */
  function WantedAfter(steps: seq<Step>): Mask {
    if steps == [] then NO_EVENTS
    else
      var w, step := WantedAfter(steps[..|steps| - 1]), steps[|steps| - 1];
      if Possible(w, step) then After(w, step) else w
  }

  /** The kinds that the last step of a run changes. */
  function Changed(steps: seq<Step>): Mask {
    if steps == [] then NO_EVENTS
    else
      var step := steps[|steps| - 1];
      if !Possible(WantedAfter(steps[..|steps| - 1]), step) then NO_EVENTS
      else match step
        case Want(events, _) => events
        case Unwant(events, _) => events
        case _ => NO_EVENTS
  }

  predicate IsEdge(step: Step) {
    match step
    case Want(_, et) => et
    case Unwant(_, et) => et
    case _ => false
  }

  predicate Includes(m: Mask, k: Kind) {
    match k case Read => m.read case Write => m.write case Close => m.close
  }

  /** The kinds wanted at the last dispatch of a run. */
  function AtDispatch(steps: seq<Step>): Mask {
    if steps == [] then NO_EVENTS
    else if steps[|steps| - 1].Dispatch? then WantedAfter(steps)
    else AtDispatch(steps[..|steps| - 1])
  }

  /** The triggering mode of the last step since then that changes kind `k`, if there is one. */
  function LastMode(steps: seq<Step>, k: Kind): Option<bool> {
    if steps == [] || steps[|steps| - 1].Dispatch? then None
    else if Includes(Changed(steps), k) then Some(IsEdge(steps[|steps| - 1]))
    else LastMode(steps[..|steps| - 1], k)
  }

  /** The same for a kind that is of interest to the kernel: wanted now or at the last dispatch. */
  function Pending(steps: seq<Step>, k: Kind): Option<bool> {
    if Includes(AtDispatch(steps), k) || Includes(WantedAfter(steps), k) then LastMode(steps, k) else None
  }

  /** The edge flag that dispatching after the run leaves: EV_READ and EV_WRITE decide, if anything is
      pending at all, and otherwise the flag stays. */
  predicate BatchedEdge(steps: seq<Step>)
    decreases |steps|, 1
  {
    if Pending(steps, Read) == Pending(steps, Write) == Pending(steps, Close) == None then EdgeBefore(steps)
    else Pending(steps, Read) == Some(true) || Pending(steps, Write) == Some(true)
  }

  /** The flag of the last dispatch. */
  predicate EdgeBefore(steps: seq<Step>)
    decreases |steps|, 0
  {
    steps != [] &&
    var init := steps[..|steps| - 1];
    if steps[|steps| - 1].Dispatch? then BatchedEdge(init) else EdgeBefore(init)
  }

  /** The flag that making every change at once leaves: that of the last change, if it is one of EV_READ
      or EV_WRITE. */
  predicate ImmediateEdge(steps: seq<Step>) {
    steps != [] &&
    var changed := Changed(steps);
    if changed.IsEmpty() then ImmediateEdge(steps[..|steps| - 1])
    else IsEdge(steps[|steps| - 1]) && (changed.read || changed.write)
  }

  predicate IsPending(c: Chg, mode: Option<bool>) {
    if c.Keep? then mode == None else mode == Some(c.et)
  }

  lemma {:induction false} PendingStep(steps: seq<Step>, k: Kind)
    requires steps != []
    ensures var init, step := steps[..|steps| - 1], steps[|steps| - 1];
      Pending(steps, k) ==
        if step.Dispatch? then None
        else if !Includes(Changed(steps), k) then Pending(init, k)
        else if Includes(AtDispatch(init), k) || Includes(WantedAfter(steps), k) then Some(IsEdge(step))
        else None
  {
  }

  /** The parts of a change that stand for what is pending. */
  ghost predicate Stands(b: FdState, steps: seq<Step>) {
    var c := Queue(b);
    && b.wanted == WantedAfter(steps) && c.oldEvents == AtDispatch(steps)
    && IsPending(c.read, Pending(steps, Read)) && IsPending(c.write, Pending(steps, Write))
    && IsPending(c.close, Pending(steps, Close))
  }

  lemma {:induction false} StandsStep(b: FdState, steps: seq<Step>)
    requires steps != [] && Stands(b, steps[..|steps| - 1])
    ensures Stands(BatchedStep(b, steps[|steps| - 1]), steps)
  {
    hide Pending;
    PendingStep(steps, Read);
    PendingStep(steps, Write);
    PendingStep(steps, Close);
  }

  lemma {:induction false} QueueIsPending(fd: int, steps: seq<Step>)
    ensures Stands(BatchedRun(fd, steps), steps)
  {
    if steps != [] {
      hide Stands, BatchedStep;
      QueueIsPending(fd, steps[..|steps| - 1]);
      StandsStep(BatchedRun(fd, steps[..|steps| - 1]), steps);
    }
  }

  predicate Shows(k: Option<Epev>, et: bool) {
    k.Some? ==> k.value.et == et
  }

  lemma {:induction false} DispatchShows(b: FdState, steps: seq<Step>)
    requires Stands(b, steps) && Shows(b.k, EdgeBefore(steps))
    ensures Shows(Outcome(b.k, Queue(b)), BatchedEdge(steps))
  {
    hide Pending, EdgeBefore, AtDispatch, WantedAfter;
  }

  lemma {:induction false} BatchedShows(fd: int, steps: seq<Step>)
    ensures Shows(BatchedRun(fd, steps).k, EdgeBefore(steps))
  {
    if steps != [] {
      hide Stands, BatchedEdge, Outcome;
      var init := steps[..|steps| - 1];
      BatchedShows(fd, init);
      QueueIsPending(fd, init);
      DispatchShows(BatchedRun(fd, init), init);
    }
  }

  lemma {:induction false} ImmediateShows(fd: int, steps: seq<Step>)
    ensures Shows(ImmediateRun(fd, steps).k, ImmediateEdge(steps)) && ImmediateRun(fd, steps).wanted == WantedAfter(steps)
  {
    if steps != [] {
      ImmediateShows(fd, steps[..|steps| - 1]);
    }
  }

  /** After any run and one dispatch, the registrations agree in their edge flag too iff nothing is
      wanted or the two flags, that only the run decides, are the same. */
  lemma {:induction false} BatchingShowsExactly(fd: int, steps: seq<Step>)
    ensures BatchedStep(BatchedRun(fd, steps), Dispatch).k == ImmediateRun(fd, steps).k <==>
      WantedAfter(steps).IsEmpty() || (BatchedEdge(steps) <==> ImmediateEdge(steps))
  {
    DispatchCatchesUp(fd, steps);
    QueueIsPending(fd, steps);
    BatchedShows(fd, steps);
    DispatchShows(BatchedRun(fd, steps), steps);
    ImmediateShows(fd, steps);
    hide Pending, EdgeBefore, ImmediateEdge, BatchedEdge;
  }
  predicate OneMode(steps: seq<Step>, et: bool) {
    forall step <- steps :: step.Want? || step.Unwant? ==> step.et == et
  }

  predicate WithoutClosed(steps: seq<Step>) {
    forall step <- steps :: step.Want? || step.Unwant? ==> !step.events.close
  }

  lemma {:induction false} Untouched(steps: seq<Step>, k: Kind)
    ensures LastMode(steps, k) == None ==> Includes(AtDispatch(steps), k) == Includes(WantedAfter(steps), k)
  {
    if steps != [] {
      Untouched(steps[..|steps| - 1], k);
    }
  }

  lemma {:induction false} ModeOfRun(steps: seq<Step>, k: Kind, et: bool)
    requires OneMode(steps, et)
    ensures LastMode(steps, k) == None || LastMode(steps, k) == Some(et)
    ensures WithoutClosed(steps) ==> LastMode(steps, Close) == None && !WantedAfter(steps).close
  {
    if steps != [] {
      assert steps[|steps| - 1] in steps;
      ModeOfRun(steps[..|steps| - 1], k, et);
    }
  }

  lemma {:induction false} ImmediateOneMode(steps: seq<Step>, et: bool)
    requires OneMode(steps, et) && (et ==> WithoutClosed(steps)) && !WantedAfter(steps).IsEmpty()
    ensures ImmediateEdge(steps) <==> et
  {
    if steps != [] {
      assert steps[|steps| - 1] in steps;
      if Changed(steps).IsEmpty() {
        ImmediateOneMode(steps[..|steps| - 1], et);
      }
    }
  }

  lemma {:induction false} BatchedOneMode(steps: seq<Step>, et: bool)
    requires OneMode(steps, et) && (et ==> WithoutClosed(steps))
    ensures !WantedAfter(steps).IsEmpty() ==> (BatchedEdge(steps) <==> et)
    ensures !AtDispatch(steps).IsEmpty() ==> (EdgeBefore(steps) <==> et)
  {
    if steps != [] {
      BatchedOneMode(steps[..|steps| - 1], et);
    }
    ModeOfRun(steps, Read, et);
    ModeOfRun(steps, Write, et);
    ModeOfRun(steps, Close, et);
    Untouched(steps, Read);
    Untouched(steps, Write);
    Untouched(steps, Close);
    hide OneMode, WithoutClosed, LastMode;
  }

  /** So in a run of one mode, level-triggered or without EV_CLOSED, batching cannot be seen. */
  lemma {:induction false} OneModeIsInvisible(fd: int, steps: seq<Step>, et: bool)
    requires OneMode(steps, et) && (!et || WithoutClosed(steps))
    ensures BatchedStep(BatchedRun(fd, steps), Dispatch).k == ImmediateRun(fd, steps).k
  {
    hide OneMode, WithoutClosed, BatchedEdge, ImmediateEdge;
    BatchingShowsExactly(fd, steps);
    if !WantedAfter(steps).IsEmpty() {
      ImmediateOneMode(steps, et);
      BatchedOneMode(steps, et);
    }
  }

  lemma {:induction false} TwoSteps(fd: int, a: Step, b: Step)
    ensures var steps := [a, b];
      && BatchedRun(fd, steps) == BatchedStep(BatchedStep(Start(fd), a), b)
      && ImmediateRun(fd, steps) == ImmediateStep(ImmediateStep(Start(fd), a), b)
  {
    var one, two := [a], [a, b];
    assert one[..0] == [] && two[..1] == one;
    assert BatchedRun(fd, []) == Start(fd) && ImmediateRun(fd, []) == Start(fd);
    assert BatchedRun(fd, one) == BatchedStep(Start(fd), a) && ImmediateRun(fd, one) == ImmediateStep(Start(fd), a);
  }

  /** Otherwise it can. EV_READ and then EV_CLOSED made at once leave a level-triggered registration,
      and queued together an edge-triggered one. */
  lemma {:induction false} ClosedShowsBatching(fd: int)
    ensures var steps := [Want(Mask(true, false, false), true), Want(Mask(false, false, true), true)];
      && OneMode(steps, true)
      && BatchedStep(BatchedRun(fd, steps), Dispatch).k == Some(Epev(Mask(true, false, true), true))
      && ImmediateRun(fd, steps).k == Some(Epev(Mask(true, false, true), false))
  {
    TwoSteps(fd, Want(Mask(true, false, false), true), Want(Mask(false, false, true), true));
  }

  /** No step needs to be of EV_CLOSED alone: here the deletion of EV_READ is forgotten, and then it is
      the batched registration that is level-triggered. */
  lemma {:induction false} JoinedClosedShowsBatching(fd: int)
    ensures var steps := [Want(Mask(true, false, true), true), Unwant(Mask(true, false, false), true)];
      && OneMode(steps, true)
      && BatchedStep(BatchedRun(fd, steps), Dispatch).k == Some(Epev(Mask(false, false, true), false))
      && ImmediateRun(fd, steps).k == Some(Epev(Mask(false, false, true), true))
  {
    TwoSteps(fd, Want(Mask(true, false, true), true), Unwant(Mask(true, false, false), true));
  }

  /** And nothing needs to be of EV_CLOSED: when the last edge-triggered event goes and a
      level-triggered one of another kind comes before the next dispatch, the deletion that is still
      queued makes the new registration edge-triggered. */
  lemma {:induction false} ModeChangeShowsBatching(fd: int)
    ensures var steps := [Want(Mask(true, false, false), true), Dispatch,
                          Unwant(Mask(true, false, false), true), Want(Mask(false, true, false), false)];
      && WithoutClosed(steps) && WantedAfter(steps[..3]).IsEmpty()
      && BatchedStep(BatchedRun(fd, steps), Dispatch).k == Some(Epev(Mask(false, true, false), true))
      && ImmediateRun(fd, steps).k == Some(Epev(Mask(false, true, false), false))
  {
    var steps := [Want(Mask(true, false, false), true), Dispatch,
                  Unwant(Mask(true, false, false), true), Want(Mask(false, true, false), false)];
    TwoSteps(fd, steps[0], steps[1]);
    assert steps[..4] == steps && steps[..3][..2] == [steps[0], steps[1]] && steps[..2][..1] == [steps[0]] && steps[..1][..0] == [];
    assert BatchedRun(fd, steps[..3]) == BatchedStep(BatchedRun(fd, [steps[0], steps[1]]), steps[2]);
    assert ImmediateRun(fd, steps[..3]) == ImmediateStep(ImmediateRun(fd, [steps[0], steps[1]]), steps[2]);
    QueueIsPending(fd, steps[..3]);
  }
}
