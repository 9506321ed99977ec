/** The per-fd event map and the changelist that queues its changes for the backend. */
module EvMap {
  import opened Wrappers
  import opened EpollTable
  import opened Epoll

  const INT_MAX: nat := 0x7FFF_FFFF
  /** sizeof(struct evmap_io *) */
  const POINTER_SIZE: nat := 8

  /** An event as the map sees it. */
  datatype Event = Event(id: int, fd: int, events: Mask, et: bool)

  /** struct evmap_io with its fdinfo, or an fd that never had events. */
  datatype Slot = Vacant | Io(events: seq<Event>, nread: nat, nwrite: nat, nclose: nat, idxplus1: nat) {
    /** The events that the counters say are wanted. */
    function Wanted(): Mask {
      if Vacant? then NO_EVENTS else Mask(nread > 0, nwrite > 0, nclose > 0)
    }
  }

  const NEW_SLOT := Io([], 0, 0, 0, 0)

  datatype Kind = Read | Write | Close

  function Wants(ev: Event, k: Kind): bool {
    match k case Read => ev.events.read case Write => ev.events.write case Close => ev.events.close
  }

  ghost function Count(events: seq<Event>, k: Kind): nat {
    if events == [] then 0 else (if Wants(events[0], k) then 1 else 0) + Count(events[1..], k)
  }

  /** The union of the kinds of the pending events. */
  ghost function Union(events: seq<Event>): Mask {
    Mask(exists ev <- events :: ev.events.read, exists ev <- events :: ev.events.write, exists ev <- events :: ev.events.close)
  }

  lemma {:induction false} CountRemove(events: seq<Event>, i: nat, k: Kind)
    requires i < |events|
    ensures Count(events, k) == Count(events[..i] + events[i + 1..], k) + if Wants(events[i], k) then 1 else 0
  {
    if i == 0 {
      assert events[..0] + events[1..] == events[1..];
    } else {
      CountRemove(events[1..], i - 1, k);
      assert (events[..i] + events[i + 1..])[1..] == events[1..][..i - 1] + events[1..][i..];
    }
  }

  lemma {:induction false} CountPush(events: seq<Event>, ev: Event, k: Kind)
    ensures Count([ev] + events, k) == Count(events, k) + if Wants(ev, k) then 1 else 0
  {
    assert ([ev] + events)[1..] == events;
  }

  lemma {:induction false} CountIsPositive(events: seq<Event>, k: Kind)
    ensures Count(events, k) > 0 <==> exists ev <- events :: Wants(ev, k)
  {
    if events != [] {
      CountIsPositive(events[1..], k);
      assert forall ev :: ev in events <==> ev == events[0] || ev in events[1..];
    }
  }

  /** What evmap_check_integrity_ checks of one fd: the counters are those of the listed events. */
  ghost predicate SlotOk(fd: int, s: Slot) {
    s.Io? ==>
      && s.nread == Count(s.events, Read) && s.nwrite == Count(s.events, Write) && s.nclose == Count(s.events, Close)
      && s.nread <= 0xffff && s.nwrite <= 0xffff && s.nclose <= 0xffff
      && (forall ev <- s.events :: ev.fd == fd && !ev.events.IsEmpty())
  }

  /** So the counters stand for the union of the pending events. */
  lemma {:induction false} WantedIsUnion(fd: int, s: Slot)
    requires SlotOk(fd, s) && s.Io?
    ensures s.Wanted() == Union(s.events)
  {
    CountIsPositive(s.events, Read);
    CountIsPositive(s.events, Write);
    CountIsPositive(s.events, Close);
    assert forall ev :: Wants(ev, Read) == ev.events.read && Wants(ev, Write) == ev.events.write && Wants(ev, Close) == ev.events.close;
  }

  // ---------- pending changes ----------

  /** What event_changelist_add_ does to the change of an fd. */
  function AddTo(ch: Change, events: Mask, et: bool): Change {
    ch.(read := if events.read then Add(et) else ch.read,
        write := if events.write then Add(et) else ch.write,
        close := if events.close then Add(et) else ch.close)
  }

  /** What event_changelist_del_ does: forgets an addition that the kernel has not heard of. */
  function DelFrom(ch: Change, events: Mask, et: bool): Change {
    ch.(read := if !events.read then ch.read else if ch.oldEvents.read then Del(et) else Keep,
        write := if !events.write then ch.write else if ch.oldEvents.write then Del(et) else Keep,
        close := if !events.close then ch.close else if ch.oldEvents.close then Del(et) else Keep)
  }

  function Fresh(fd: int, before: Mask): Change {
    Change(fd, before, Keep, Keep, Keep)
  }

  /** The kernel has `fd` registered for exactly the events `m`. */
  predicate Holds(k: Option<Epev>, m: Mask) {
    if m.IsEmpty() then k == None else k.Some? && k.value.events == m
  }

  /** How the kernel's registration of an fd, its queued change and its wanted events hang together.
      The registration may have vanished once all events it was for had been deleted. */
  ghost predicate Sync(change: Option<Change>, wanted: Mask, k: Option<Epev>) {
    match change
    case None => Holds(k, wanted)
    case Some(c) => Holds(k, c.oldEvents) || (k == None && c.oldEvents.Within(c.Adds().Or(c.Dels())))
  }

  /** A queued change always leads to the wanted events. */
  ghost predicate Aimed(change: Option<Change>, wanted: Mask) {
    change.Some? ==> change.value.Target() == wanted
  }

  lemma {:induction false} QueueAdd(c: Change, wanted: Mask, k: Option<Epev>, events: Mask, et: bool)
    requires Aimed(Some(c), wanted) && events.Disjoint(wanted)
    ensures Aimed(Some(AddTo(c, events, et)), wanted.Or(events))
    ensures Sync(Some(c), wanted, k) ==> Sync(Some(AddTo(c, events, et)), wanted.Or(events), k)
  {
  }

  lemma {:induction false} QueueDel(c: Change, wanted: Mask, k: Option<Epev>, events: Mask, et: bool)
    requires Aimed(Some(c), wanted) && events.Within(wanted)
    ensures Aimed(Some(DelFrom(c, events, et)), wanted.Minus(events))
    ensures Sync(Some(c), wanted, k) ==> Sync(Some(DelFrom(c, events, et)), wanted.Minus(events), k)
  {
  }

  /** Once nothing is wanted of an fd, the kernel may forget it, queued change or not. */
  lemma {:induction false} ForgetUnwanted(change: Option<Change>, wanted: Mask, k: Option<Epev>)
    requires Aimed(change, wanted) && Sync(change, wanted, k) && wanted.IsEmpty()
    ensures Sync(change, wanted, None)
  {
  }

  /** Carrying out the queued change makes the registration the wanted one: if it was in sync, or
      if there is anything to carry out at all. */
  lemma {:induction false} ApplyQueued(c: Change, wanted: Mask, interest: map<int, Epev>, refused: map<int, Errno>)
    requires Aimed(Some(c), wanted)
    requires Sync(Some(c), wanted, At(interest, c.fd)) || !c.IsNop()
    ensures c.fd !in refused || c.IsNop() ==> Holds(At(Applied(interest, refused, c), c.fd), wanted)
  {
  }
}
