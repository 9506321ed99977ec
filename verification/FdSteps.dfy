/** What happens to the registration of one fd, with and without a changelist. */
module FdSteps {
  import opened Wrappers
  import opened EpollTable
  import opened Epoll
  import opened EvMap

  /** What can happen to one fd: kinds of events come to be wanted, cease to be wanted, the kernel
      forgets the fd while nothing is wanted of it, and dispatch makes the queued changes. */
  datatype Step = Want(events: Mask, et: bool) | Unwant(events: Mask, et: bool) | Forget | Dispatch

  datatype FdState = FdState(fd: int, wanted: Mask, queued: Option<Change>, k: Option<Epev>)

  function Start(fd: int): FdState {
    FdState(fd, NO_EVENTS, None, None)
  }

  /** What an accepted change makes of a registration. */
  function Outcome(k: Option<Epev>, c: Change): Option<Epev> {
    if c.IsNop() then k else if c.Target().IsEmpty() then None else Some(Epev(c.Target(), ChangeEt(c)))
  }

  lemma {:induction false} OutcomeIsApplied(interest: map<int, Epev>, refused: map<int, Errno>, c: Change)
    requires c.fd !in refused
    ensures At(Applied(interest, refused, c), c.fd) == Outcome(At(interest, c.fd), c)
  {
  }

  /** Only kinds that are not wanted can come to be wanted, and only wanted ones can cease to be. */
  predicate Possible(wanted: Mask, step: Step) {
    match step
    case Want(events, _) => !events.IsEmpty() && events.Disjoint(wanted)
    case Unwant(events, _) => !events.IsEmpty() && events.Within(wanted)
    case Forget => wanted.IsEmpty()
    case Dispatch => true
  }

  function After(wanted: Mask, step: Step): Mask {
    match step
    case Want(events, _) => wanted.Or(events)
    case Unwant(events, _) => wanted.Minus(events)
    case _ => wanted
  }

  function Queue(s: FdState): Change {
    if s.queued.Some? then s.queued.value else Fresh(s.fd, s.wanted)
  }

  function BatchedStep(s: FdState, step: Step): FdState {
    if !Possible(s.wanted, step) then s
    else
      var w := After(s.wanted, step);
      match step
      case Want(events, et) => FdState(s.fd, w, Some(AddTo(Queue(s), events, et)), s.k)
      case Unwant(events, et) => FdState(s.fd, w, Some(DelFrom(Queue(s), events, et)), s.k)
      case Forget => FdState(s.fd, w, s.queued, None)
      case Dispatch => FdState(s.fd, w, None, Outcome(s.k, Queue(s)))
  }

  function ImmediateStep(s: FdState, step: Step): FdState {
    if !Possible(s.wanted, step) then s
    else
      var w := After(s.wanted, step);
      match step
      case Want(events, et) => FdState(s.fd, w, None, Outcome(s.k, AddChange(s.fd, s.wanted, events, et)))
      case Unwant(events, et) => FdState(s.fd, w, None, Outcome(s.k, DelChange(s.fd, s.wanted, events, et)))
      case Forget => FdState(s.fd, w, None, None)
      case Dispatch => s
  }

  function StepOf(useChangelist: bool, s: FdState, step: Step): FdState {
    if useChangelist then BatchedStep(s, step) else ImmediateStep(s, step)
  }

  lemma {:induction false} NoStep(useChangelist: bool, s: FdState, et: bool)
    ensures StepOf(useChangelist, s, Want(NO_EVENTS, et)) == s == StepOf(useChangelist, s, Unwant(NO_EVENTS, et))
  {
  }

  lemma {:induction false} StepQueued(s: FdState, events: Mask, et: bool)
    requires !events.IsEmpty()
    ensures events.Disjoint(s.wanted) ==>
      StepOf(true, s, Want(events, et)) == FdState(s.fd, s.wanted.Or(events), Some(AddTo(Queue(s), events, et)), s.k)
    ensures events.Within(s.wanted) ==>
      StepOf(true, s, Unwant(events, et)) == FdState(s.fd, s.wanted.Minus(events), Some(DelFrom(Queue(s), events, et)), s.k)
  {
  }

  lemma {:induction false} StepMade(s: FdState, events: Mask, et: bool)
    requires !events.IsEmpty()
    ensures events.Disjoint(s.wanted) ==>
      StepOf(false, s, Want(events, et))
        == FdState(s.fd, s.wanted.Or(events), None, Outcome(s.k, AddChange(s.fd, s.wanted, events, et)))
    ensures events.Within(s.wanted) ==>
      StepOf(false, s, Unwant(events, et))
        == FdState(s.fd, s.wanted.Minus(events), None, Outcome(s.k, DelChange(s.fd, s.wanted, events, et)))
  {
  }

  /** The parts of a change for some kinds. */
  predicate Asks(c: Change, kinds: Mask, chg: Chg) {
    && (kinds.read ==> c.read == chg) && (kinds.write ==> c.write == chg) && (kinds.close ==> c.close == chg)
  }

  /** Events of mode `et` have been asked for: in the queue for all their kinds, and in the registration
      if EV_READ or EV_WRITE is among them. */
  predicate AskedFor(useChangelist: bool, s: FdState, events: Mask, et: bool) {
    if useChangelist then s.queued.Some? && Asks(s.queued.value, events, Add(et))
    else s.queued == None && s.k == Some(Epev(s.wanted, et && (events.read || events.write)))
  }

  /** So it is for a deletion, which is forgotten for kinds that the kernel does not know of. */
  predicate GivenUp(useChangelist: bool, s: FdState, events: Mask, et: bool) {
    if useChangelist
    then
      && s.queued.Some? && Asks(s.queued.value, events.And(s.queued.value.oldEvents), Del(et))
      && Asks(s.queued.value, events.Minus(s.queued.value.oldEvents), Keep)
    else
      s.queued == None && s.k == if s.wanted.IsEmpty() then None else Some(Epev(s.wanted, et && (events.read || events.write)))
  }

  lemma {:induction false} WantShows(useChangelist: bool, s: FdState, events: Mask, et: bool)
    requires !events.IsEmpty() && events.Disjoint(s.wanted)
    ensures AskedFor(useChangelist, StepOf(useChangelist, s, Want(events, et)), events, et)
  {
  }

  lemma {:induction false} UnwantShows(useChangelist: bool, s: FdState, events: Mask, et: bool)
    requires !events.IsEmpty() && events.Within(s.wanted)
    ensures GivenUp(useChangelist, StepOf(useChangelist, s, Unwant(events, et)), events, et)
  {
  }

  function BatchedRun(fd: int, steps: seq<Step>): FdState {
    if steps == [] then Start(fd) else BatchedStep(BatchedRun(fd, steps[..|steps| - 1]), steps[|steps| - 1])
  }

  function ImmediateRun(fd: int, steps: seq<Step>): FdState {
    if steps == [] then Start(fd) else ImmediateStep(ImmediateRun(fd, steps[..|steps| - 1]), steps[|steps| - 1])
  }
}
