/** The I/O side of an event base: adding and deleting events, and dispatching what was queued. */
module EventBaseIo {
  import opened Wrappers
  import opened EpollTable
  import opened Epoll
  import opened EvMap
  import opened FdSteps

  // ---------- the state as values ----------

  /** The queued change of `fd`. */
  function EntryOf(io: seq<Slot>, changes: seq<Change>, fd: int): Option<Change> {
    if 0 <= fd < |io| && io[fd].Io? && 0 < io[fd].idxplus1 <= |changes| then Some(changes[io[fd].idxplus1 - 1]) else None
  }

  function EventsOf(io: seq<Slot>, fd: int): seq<Event> {
    if 0 <= fd < |io| && io[fd].Io? then io[fd].events else []
  }

  function WantedOf(io: seq<Slot>, fd: int): Mask {
    if 0 <= fd < |io| then io[fd].Wanted() else NO_EVENTS
  }

  /** What is wanted of an fd, queued for it and registered. */
  ghost function ViewOf(io: seq<Slot>, changes: seq<Change>, interest: map<int, Epev>, fd: int): FdState {
    FdState(fd, WantedOf(io, fd), EntryOf(io, changes, fd), At(interest, fd))
  }

  /** The sizes that doubling leads to. */
  ghost function MapSize(k: nat): (n: nat)
    ensures n >= 32
  {
    if k == 0 then 32 else 2 * MapSize(k - 1)
  }

  const LARGEST_MAP: nat := 0x800_0000

  ghost predicate MapOk(io: seq<Slot>) {
    && (|io| == 0 || exists k: nat :: |io| == MapSize(k))
    && |io| <= LARGEST_MAP
    && (forall fd :: 0 <= fd < |io| ==> SlotOk(fd, io[fd]))
  }

  /** event_changelist_assert_ok: slots and queued changes name each other. */
  ghost predicate ListOk(io: seq<Slot>, changes: seq<Change>) {
    && (forall i {:trigger changes[i]} :: 0 <= i < |changes| ==>
          0 <= changes[i].fd < |io| && io[changes[i].fd].Io? && io[changes[i].fd].idxplus1 == i + 1)
    && (forall fd {:trigger io[fd]} :: 0 <= fd < |io| && io[fd].Io? ==>
          io[fd].idxplus1 <= |changes| && (io[fd].idxplus1 > 0 ==> changes[io[fd].idxplus1 - 1].fd == fd))
  }

  ghost predicate FdOk(io: seq<Slot>, changes: seq<Change>, interest: map<int, Epev>, disturbed: set<int>, fd: int) {
    && Aimed(EntryOf(io, changes, fd), WantedOf(io, fd))
    && (fd in disturbed || Sync(EntryOf(io, changes, fd), WantedOf(io, fd), At(interest, fd)))
  }

  ghost predicate AllSynced(io: seq<Slot>, changes: seq<Change>, interest: map<int, Epev>, disturbed: set<int>) {
    forall fd: int :: FdOk(io, changes, interest, disturbed, fd)
  }

  lemma {:induction false} Renumbered(io: seq<Slot>, fd: nat)
    requires MapOk(io) && fd < |io| && io[fd].Io?
    ensures forall n :: MapOk(io[fd := io[fd].(idxplus1 := n)])
  {
  }

  lemma {:induction false} FdIsOk(io: seq<Slot>, changes: seq<Change>, interest: map<int, Epev>, disturbed: set<int>, fd: int)
    requires AllSynced(io, changes, interest, disturbed)
    ensures FdOk(io, changes, interest, disturbed, fd)
  {
  }

  lemma {:induction false} OneChangePerFd(io: seq<Slot>, changes: seq<Change>)
    requires ListOk(io, changes)
    ensures forall i, j :: 0 <= i < j < |changes| ==> changes[i].fd != changes[j].fd
  {
  }

  /** How many more events of kind `k` a slot gets with `ev`. */
  function Plus(n: nat, wants: bool): nat {
    if wants then n + 1 else n
  }

  /** The kinds of `ev` that no other event of the slot wants. */
  function NewKinds(s: Slot, ev: Event): Mask {
    ev.events.Minus(s.Wanted())
  }

  predicate CountsFit(s: Slot, ev: Event)
    requires s.Io?
  {
    && Plus(s.nread, ev.events.read) <= 0xffff
    && Plus(s.nwrite, ev.events.write) <= 0xffff
    && Plus(s.nclose, ev.events.close) <= 0xffff
  }

  /** The slot with `ev` added to its list and counters. */
  function Added(s: Slot, ev: Event): Slot
    requires s.Io?
  {
    s.(events := [ev] + s.events, nread := Plus(s.nread, ev.events.read),
       nwrite := Plus(s.nwrite, ev.events.write), nclose := Plus(s.nclose, ev.events.close))
  }

  lemma {:induction false} AddedOk(fd: int, s: Slot, ev: Event)
    requires SlotOk(fd, s) && s.Io? && CountsFit(s, ev) && ev.fd == fd && !ev.events.IsEmpty()
    ensures SlotOk(fd, Added(s, ev)) && Added(s, ev).Wanted() == s.Wanted().Or(NewKinds(s, ev))
    ensures NewKinds(s, ev).Disjoint(s.Wanted())
  {
    CountPush(s.events, ev, Read);
    CountPush(s.events, ev, Write);
    CountPush(s.events, ev, Close);
  }

  /** The kinds that nobody wants any more without event `i`. */
  ghost function LostKinds(s: Slot, i: nat): Mask
    requires s.Io? && i < |s.events|
  {
    Mask(s.nread == 1 && s.events[i].events.read, s.nwrite == 1 && s.events[i].events.write,
      s.nclose == 1 && s.events[i].events.close)
  }

  ghost function Less(n: nat, wants: bool): int {
    if wants then n - 1 else n
  }

  lemma {:induction false} RemovedOk(fd: int, s: Slot, i: nat, t: Slot)
    requires SlotOk(fd, s) && s.Io? && i < |s.events| && t.Io? && t.events == s.events[..i] + s.events[i + 1..]
    requires t.nread == Less(s.nread, s.events[i].events.read) && t.nwrite == Less(s.nwrite, s.events[i].events.write)
    requires t.nclose == Less(s.nclose, s.events[i].events.close)
    ensures SlotOk(fd, t) && t.Wanted() == s.Wanted().Minus(LostKinds(s, i)) && LostKinds(s, i).Within(s.Wanted())
  {
    CountRemove(s.events, i, Read);
    CountRemove(s.events, i, Write);
    CountRemove(s.events, i, Close);
  }

  lemma {:induction false} CountsArePositive(fd: int, s: Slot, i: nat)
    requires SlotOk(fd, s) && s.Io? && i < |s.events|
    ensures s.events[i].events.read ==> s.nread > 0
    ensures s.events[i].events.write ==> s.nwrite > 0
    ensures s.events[i].events.close ==> s.nclose > 0
  {
    CountRemove(s.events, i, Read);
    CountRemove(s.events, i, Write);
    CountRemove(s.events, i, Close);
  }

  // ---------- growing the map ----------

  lemma {:induction false} MapSizeGrows(j: nat, k: nat)
    requires j <= k
    ensures MapSize(j) <= MapSize(k) && (j < k ==> 2 * MapSize(j) <= MapSize(k))
  {
    if j < k {
      MapSizeGrows(j, k - 1);
    }
  }

  lemma {:induction false} LargestMapIsASize()
    ensures MapSize(22) == LARGEST_MAP
  {
    assert MapSize(4) == 512;
    assert MapSize(8) == 8192;
    assert MapSize(12) == 131072;
    assert MapSize(16) == 2097152;
    assert MapSize(20) == 33554432;
  }

  lemma {:induction false} SizeAboveLargest(k: nat)
    ensures MapSize(k) <= LARGEST_MAP || MapSize(k) >= 2 * LARGEST_MAP
  {
    LargestMapIsASize();
    if k <= 22 {
      MapSizeGrows(k, 22);
    } else {
      MapSizeGrows(22, k);
    }
  }

  lemma {:induction false} EntriesElsewhere(io0: seq<Slot>, changes0: seq<Change>, io: seq<Slot>, changes: seq<Change>,
      fd: nat, i: nat, before: Mask)
    requires fd < |io0| && io0[fd].Io? && io == io0[fd := io0[fd].(idxplus1 := i + 1)]
    requires changes == if i < |changes0| then changes0 else changes0 + [Fresh(fd, before)]
    requires ListOk(io0, changes0)
    ensures forall g :: g != fd ==> EntryOf(io, changes, g) == EntryOf(io0, changes0, g)
  {
  }

  lemma {:induction false} ReplaceChange(io: seq<Slot>, changes: seq<Change>, i: nat, c: Change)
    requires ListOk(io, changes) && i < |changes| && c.fd == changes[i].fd
    ensures ListOk(io, changes[i := c]) && EntryOf(io, changes[i := c], c.fd) == Some(c)
    ensures forall g :: g != c.fd ==> EntryOf(io, changes[i := c], g) == EntryOf(io, changes, g)
  {
  }

  /** The slot of `fd`, as the constructor would leave it if it is not there yet. */
  function SlotAt(io: seq<Slot>, fd: int): (s: Slot)
    ensures s.Io?
  {
    if 0 <= fd < |io| && io[fd].Io? then io[fd] else NEW_SLOT
  }

  lemma SlotIsOk(io: seq<Slot>, fd: nat)
    requires MapOk(io) && fd < |io|
    ensures SlotOk(fd, io[fd])
  {
  }

  lemma {:induction false} GrownSynced(io0: seq<Slot>, io: seq<Slot>, changes: seq<Change>, interest: map<int, Epev>, disturbed: set<int>)
    requires io0 <= io && forall fd :: |io0| <= fd < |io| ==> io[fd] == Vacant
    requires ListOk(io0, changes) && AllSynced(io0, changes, interest, disturbed)
    ensures ListOk(io, changes) && AllSynced(io, changes, interest, disturbed)
  {
    forall fd: int
      ensures FdOk(io, changes, interest, disturbed, fd)
    {
      assert FdOk(io0, changes, interest, disturbed, fd);
    }
  }

  lemma {:induction false} ConstructedSynced(io: seq<Slot>, changes: seq<Change>, interest: map<int, Epev>, disturbed: set<int>, fd: nat)
    requires MapOk(io) && ListOk(io, changes) && AllSynced(io, changes, interest, disturbed) && fd < |io| && io[fd].Vacant?
    ensures MapOk(io[fd := NEW_SLOT]) && ListOk(io[fd := NEW_SLOT], changes)
    ensures AllSynced(io[fd := NEW_SLOT], changes, interest, disturbed)
  {
    var io1 := io[fd := NEW_SLOT];
    forall g: int
      ensures FdOk(io1, changes, interest, disturbed, g)
    {
      assert FdOk(io, changes, interest, disturbed, g);
    }
  }

  /** Putting `s` in the slot of `fd`, once the queued change and the registration suit it. */
  lemma {:induction false} SlotReplaced(io0: seq<Slot>, changes0: seq<Change>, interest0: map<int, Epev>,
      io: seq<Slot>, changes: seq<Change>, interest: map<int, Epev>, disturbed: set<int>, fd: nat, s: Slot)
    requires AllSynced(io0, changes0, interest0, disturbed) && MapOk(io) && ListOk(io, changes)
    requires fd < |io| && io[fd].Io? && s.Io? && s.idxplus1 == io[fd].idxplus1 && SlotOk(fd, s)
    requires |io0| == |io| && forall g :: 0 <= g < |io| && g != fd ==> io[g] == io0[g]
    requires forall g :: g != fd ==> EntryOf(io, changes, g) == EntryOf(io0, changes0, g) && At(interest, g) == At(interest0, g)
    requires Aimed(EntryOf(io, changes, fd), s.Wanted())
    requires fd in disturbed || Sync(EntryOf(io, changes, fd), s.Wanted(), At(interest, fd))
    ensures MapOk(io[fd := s]) && ListOk(io[fd := s], changes) && AllSynced(io[fd := s], changes, interest, disturbed)
  {
    hide MapOk, ListOk, SlotOk, Aimed, Sync;
    var io1 := io[fd := s];
    SlotFits(io, changes, fd, s);
    hide EntryOf;
    forall g: int
      ensures FdOk(io1, changes, interest, disturbed, g)
    {
      assert FdOk(io0, changes0, interest0, disturbed, g);
    }
  }

  lemma {:induction false} SlotFits(io: seq<Slot>, changes: seq<Change>, fd: nat, s: Slot)
    requires MapOk(io) && ListOk(io, changes) && fd < |io| && io[fd].Io? && s.Io? && s.idxplus1 == io[fd].idxplus1 && SlotOk(fd, s)
    ensures MapOk(io[fd := s]) && ListOk(io[fd := s], changes)
    ensures forall g :: EntryOf(io[fd := s], changes, g) == EntryOf(io, changes, g)
  {
  }

  /** And what becomes of the views. */
  lemma {:induction false} SlotViews(io0: seq<Slot>, changes0: seq<Change>, interest0: map<int, Epev>,
      io: seq<Slot>, changes: seq<Change>, interest: map<int, Epev>, fd: nat, s: Slot)
    requires fd < |io| && io[fd].Io? && s.Io? && s.idxplus1 == io[fd].idxplus1
    requires |io0| == |io| && forall g :: 0 <= g < |io| && g != fd ==> io[g] == io0[g]
    requires forall g :: g != fd ==> EntryOf(io, changes, g) == EntryOf(io0, changes0, g) && At(interest, g) == At(interest0, g)
    ensures ViewOf(io[fd := s], changes, interest, fd) == FdState(fd, s.Wanted(), EntryOf(io, changes, fd), At(interest, fd))
    ensures forall g :: g != fd ==> ViewOf(io[fd := s], changes, interest, g) == ViewOf(io0, changes0, interest0, g)
  {
  }

  /** All fds but `fd` have the same events as before. */
  ghost predicate SameEvents(io0: seq<Slot>, io: seq<Slot>, fd: int) {
    forall g :: g != fd ==> EventsOf(io, g) == EventsOf(io0, g)
  }

  lemma {:induction false} DisturbedMore(io: seq<Slot>, changes: seq<Change>, interest: map<int, Epev>, disturbed: set<int>, fd: int)
    requires AllSynced(io, changes, interest, disturbed)
    ensures AllSynced(io, changes, interest, disturbed + {fd})
  {
    forall g: int
      ensures FdOk(io, changes, interest, disturbed + {fd}, g)
    {
      assert FdOk(io, changes, interest, disturbed, g);
    }
  }

  /** The registration of `fd` alone has changed. */
  lemma {:induction false} Unchanged(io: seq<Slot>, changes: seq<Change>, interest0: map<int, Epev>, interest: map<int, Epev>,
      disturbed0: set<int>, disturbed: set<int>, fd: int)
    requires AllSynced(io, changes, interest0, disturbed0) && disturbed0 <= disturbed
    requires forall g :: g != fd ==> At(interest, g) == At(interest0, g)
    requires FdOk(io, changes, interest, disturbed, fd)
    ensures AllSynced(io, changes, interest, disturbed)
  {
    forall g: int
      ensures FdOk(io, changes, interest, disturbed, g)
    {
      assert FdOk(io, changes, interest0, disturbed0, g);
    }
  }

  /** Which fds may be registered wrongly after the changes: the ones that were and that no change
      has set right, and the ones whose change was refused. */
  ghost function Undisturbed(disturbed: set<int>, changes: seq<Change>, refused: map<int, Errno>): set<int> {
    (disturbed - set c <- changes | !c.IsNop() :: c.fd) + set c <- changes | !c.IsNop() && c.fd in refused :: c.fd
  }

  /** After all changes were carried out, the registrations are the wanted ones. */
  lemma {:induction false} AllApplied(io: seq<Slot>, changes: seq<Change>, interest0: map<int, Epev>, interest: map<int, Epev>,
      refused: map<int, Errno>, disturbed: set<int>)
    requires ListOk(io, changes) && AllSynced(io, changes, interest0, disturbed)
    requires interest == AppliedAll(interest0, refused, changes)
    ensures forall fd: int :: fd !in Undisturbed(disturbed, changes, refused) ==> Holds(At(interest, fd), WantedOf(io, fd))
  {
    hide *;
    forall fd: int | fd !in Undisturbed(disturbed, changes, refused)
      ensures Holds(At(interest, fd), WantedOf(io, fd))
    {
      AppliedAtFd(io, changes, interest0, interest, refused, disturbed, fd);
    }
  }

  lemma {:induction false} AppliedAtFd(io: seq<Slot>, changes: seq<Change>, interest0: map<int, Epev>, interest: map<int, Epev>,
      refused: map<int, Errno>, disturbed: set<int>, fd: int)
    requires ListOk(io, changes) && AllSynced(io, changes, interest0, disturbed)
    requires interest == AppliedAll(interest0, refused, changes) && fd !in Undisturbed(disturbed, changes, refused)
    ensures Holds(At(interest, fd), WantedOf(io, fd))
  {
    hide AllSynced, AppliedAll, WantedOf, At;
    OneChangePerFd(io, changes);
    FdIsOk(io, changes, interest0, disturbed, fd);
    match EntryOf(io, changes, fd) {
      case None =>
        AppliedAllElsewhere(interest0, refused, changes, fd);
      case Some(c) =>
        AppliedAllAt(interest0, refused, changes, io[fd].idxplus1 - 1);
        ApplyQueued(c, WantedOf(io, fd), interest0, refused);
    }
  }

  /** Every fd has taken the step of dispatching, unless the kernel refuses it. */
  lemma {:induction false} DispatchedAtFd(io0: seq<Slot>, changes: seq<Change>, interest0: map<int, Epev>,
      io: seq<Slot>, interest: map<int, Epev>, refused: map<int, Errno>, fd: int)
    requires ListOk(io0, changes) && interest == AppliedAll(interest0, refused, changes)
    requires WantedOf(io, fd) == WantedOf(io0, fd)
    ensures var before := ViewOf(io0, changes, interest0, fd);
      ViewOf(io, [], interest, fd)
        == if fd in refused then before.(queued := None) else BatchedStep(before, Dispatch)
  {
    hide AppliedAll, WantedOf, At;
    OneChangePerFd(io0, changes);
    match EntryOf(io0, changes, fd) {
      case None =>
        AppliedAllElsewhere(interest0, refused, changes, fd);
      case Some(c) =>
        AppliedAllAt(interest0, refused, changes, io0[fd].idxplus1 - 1);
        if fd !in refused {
          OutcomeIsApplied(interest0, refused, c);
        }
    }
  }

  lemma {:induction false} NothingQueued(io: seq<Slot>, interest: map<int, Epev>, disturbed: set<int>)
    requires forall fd: int :: fd !in disturbed ==> Holds(At(interest, fd), WantedOf(io, fd))
    ensures AllSynced(io, [], interest, disturbed)
  {
    forall fd: int
      ensures FdOk(io, [], interest, disturbed, fd)
    {
    }
  }

  lemma {:induction false} ClearedSame(io0: seq<Slot>, io: seq<Slot>)
    requires |io| == |io0|
    requires forall fd :: 0 <= fd < |io| ==> io[fd] == if io0[fd].Io? then io0[fd].(idxplus1 := 0) else Vacant
    ensures SameAsBefore(io0, io)
  {
  }

  function FirstEt(events: seq<Event>): bool {
    events != [] && events[0].et
  }

  /** What holds halfway through evmap_reinit_: the fds before `i` are done. */
  ghost predicate DoneBefore(io: seq<Slot>, changes: seq<Change>, interest: map<int, Epev>, disturbed: set<int>, i: nat) {
    forall g: int :: if g < i then FdOk(io, changes, interest, disturbed, g)
      else EntryOf(io, changes, g) == None && At(interest, g) == None
  }

  lemma {:induction false} NoneDone(io: seq<Slot>)
    requires forall fd :: 0 <= fd < |io| && io[fd].Io? ==> io[fd].idxplus1 == 0
    ensures DoneBefore(io, [], map[], {}, 0)
  {
  }

  lemma {:induction false} VacantOk(io: seq<Slot>, changes: seq<Change>, interest: map<int, Epev>, disturbed: set<int>, fd: nat)
    requires fd < |io| && io[fd].Vacant? && At(interest, fd) == None
    ensures FdOk(io, changes, interest, disturbed, fd)
  {
  }

  /** The same events are wanted of all fds. */
  ghost predicate SameAsBefore(io0: seq<Slot>, io: seq<Slot>) {
    forall fd :: EventsOf(io, fd) == EventsOf(io0, fd) && WantedOf(io, fd) == WantedOf(io0, fd)
  }

  lemma {:induction false} OneMoreDone(io0: seq<Slot>, changes0: seq<Change>, interest0: map<int, Epev>, disturbed0: set<int>,
      io: seq<Slot>, changes: seq<Change>, interest: map<int, Epev>, disturbed: set<int>, i: nat)
    requires DoneBefore(io0, changes0, interest0, disturbed0, i) && disturbed0 <= disturbed
    requires forall g :: g != i ==> EntryOf(io, changes, g) == EntryOf(io0, changes0, g) && At(interest, g) == At(interest0, g)
    requires forall g :: g != i ==> WantedOf(io, g) == WantedOf(io0, g)
    requires FdOk(io, changes, interest, disturbed, i)
    ensures DoneBefore(io, changes, interest, disturbed, i + 1)
  {
    forall g: int
      ensures if g < i + 1 then FdOk(io, changes, interest, disturbed, g)
        else EntryOf(io, changes, g) == None && At(interest, g) == None
    {
      assert g < i ==> FdOk(io0, changes0, interest0, disturbed0, g);
    }
  }

  lemma {:induction false} AllDone(io: seq<Slot>, changes: seq<Change>, interest: map<int, Epev>, disturbed: set<int>)
    requires DoneBefore(io, changes, interest, disturbed, |io|)
    ensures AllSynced(io, changes, interest, disturbed)
  {
    forall g: int
      ensures FdOk(io, changes, interest, disturbed, g)
    {
      assert g >= |io| ==> EntryOf(io, changes, g) == None && At(interest, g) == None;
    }
  }

  class EventBase {
    const kernel: Kernel
    /** Whether the backend queues changes (event_changelist_add_) or makes them at once. */
    const useChangelist: bool
    const debugMode: bool
    var io: seq<Slot>
    var changes: seq<Change>
    var changesSize: nat
    /** The fds whose registration somebody else has meddled with, or the kernel has refused. */
    ghost var disturbed: set<int>

    constructor (useChangelist: bool, debugMode: bool)
      ensures Valid() && fresh(kernel) && io == [] && disturbed == {}
      ensures this.useChangelist == useChangelist && this.debugMode == debugMode
    {
      this.useChangelist, this.debugMode := useChangelist, debugMode;
      kernel := new Kernel();
      io, changes, changesSize, disturbed := [], [], 0, {};
    }

    ghost predicate Consistent()
      reads `io, `changes, `changesSize, kernel
    {
      && MapOk(io) && ListOk(io, changes) && |changes| <= changesSize
      && (!useChangelist ==> changes == [])
      && (forall fd <- kernel.refused :: kernel.refused[fd] != ENOENT && kernel.refused[fd] != EEXIST)
    }

    ghost predicate Valid()
      reads this, kernel
    {
      Consistent() && AllSynced(io, changes, kernel.interest, disturbed)
    }

    ghost function FdView(fd: int): FdState
      reads `io, `changes, kernel`interest
    {
      ViewOf(io, changes, kernel.interest, fd)
    }

    /** Nothing about the other fds has changed. */
    twostate predicate OtherViewsSame(fd: int)
      reads this, kernel
    {
      forall g :: g != fd ==> FdView(g) == old(FdView(g))
    }

    /** evmap_make_space */
    method MakeSpace(slot: nat) returns (r: int)
      requires MapOk(io) && slot <= INT_MAX
      modifies `io
      ensures MapOk(io)
      ensures r == if slot < LARGEST_MAP then 0 else -1
      ensures r == 0 ==> slot < |io| && old(io) <= io && forall fd :: |old(io)| <= fd < |io| ==> io[fd] == Vacant
      ensures r == -1 ==> io == old(io)
    {
      r := 0;
      if |io| <= slot {
        var nentries := if |io| != 0 then |io| else 32;
        if slot > INT_MAX / 2 {
          return -1;
        }
        ghost var k: nat := if |io| == 0 then 0 else var k: nat :| |io| == MapSize(k); k;
        while nentries <= slot
          invariant nentries == MapSize(k) >= 32 && |io| <= nentries
          invariant nentries <= 32 || nentries <= 2 * slot
          decreases slot - nentries
        {
          nentries := nentries * 2;
          k := k + 1;
        }
        SizeAboveLargest(k);
        if nentries > INT_MAX / POINTER_SIZE {
          return -1;
        }
        io := io + seq(nentries - |io|, _ => Vacant);
      }
    }

    /** The queued change of `fd`, or a new one. */
    ghost function EntryOrFresh(fd: int, before: Mask): Change
      reads `io, `changes
    {
      match EntryOf(io, changes, fd) case Some(c) => c case None => Fresh(fd, before)
    }

    /** event_changelist_get_or_construct, with event_changelist_grow */
    method GetOrConstruct(fd: nat, before: Mask) returns (idx: nat)
      requires Consistent() && fd < |io| && io[fd].Io?
      modifies `io, `changes, `changesSize
      ensures |changes| <= changesSize && ListOk(io, changes)
      ensures idx < |changes| && changes[idx].fd == fd && io == old(io)[fd := old(io)[fd].(idxplus1 := idx + 1)]
      ensures changes == (if idx < |old(changes)| then old(changes) else old(changes) + [Fresh(fd, before)])
      ensures changes[idx] == old(EntryOrFresh(fd, before))
    {
      hide MapOk, AllSynced;
      if io[fd].idxplus1 == 0 {
        if |changes| == changesSize {
          changesSize := if changesSize < 64 then 64 else changesSize * 2;
        }
        idx := |changes|;
        changes := changes + [Fresh(fd, before)];
        io := io[fd := io[fd].(idxplus1 := idx + 1)];
      } else {
        idx := io[fd].idxplus1 - 1;
      }
    }

    /** event_changelist_add_ */
    method ChangelistAdd(fd: nat, before: Mask, events: Mask, et: bool)
      requires Consistent() && fd < |io| && io[fd].Io?
      modifies `io, `changes, `changesSize
      ensures |changes| <= changesSize && ListOk(io, changes)
      ensures exists n :: io == old(io)[fd := old(io)[fd].(idxplus1 := n)]
      ensures EntryOf(io, changes, fd) == Some(AddTo(old(EntryOrFresh(fd, before)), events, et))
      ensures forall g :: g != fd ==> EntryOf(io, changes, g) == EntryOf(old(io), old(changes), g)
    {
      var i := GetOrConstruct(fd, before);
      var change := changes[i];
      if events.read {
        change := change.(read := Add(et));
      }
      if events.write {
        change := change.(write := Add(et));
      }
      if events.close {
        change := change.(close := Add(et));
      }
      EntriesElsewhere(old(io), old(changes), io, changes, fd, i, before);
      ReplaceChange(io, changes, i, change);
      changes := changes[i := change];
    }

    /** event_changelist_del_ */
    method ChangelistDel(fd: nat, before: Mask, events: Mask, et: bool)
      requires Consistent() && fd < |io| && io[fd].Io?
      modifies `io, `changes, `changesSize
      ensures |changes| <= changesSize && ListOk(io, changes)
      ensures exists n :: io == old(io)[fd := old(io)[fd].(idxplus1 := n)]
      ensures EntryOf(io, changes, fd) == Some(DelFrom(old(EntryOrFresh(fd, before)), events, et))
      ensures forall g :: g != fd ==> EntryOf(io, changes, g) == EntryOf(old(io), old(changes), g)
    {
      var i := GetOrConstruct(fd, before);
      var change := changes[i];
      if events.read {
        change := change.(read := if change.oldEvents.read then Del(et) else Keep);
      }
      if events.write {
        change := change.(write := if change.oldEvents.write then Del(et) else Keep);
      }
      if events.close {
        change := change.(close := if change.oldEvents.close then Del(et) else Keep);
      }
      EntriesElsewhere(old(io), old(changes), io, changes, fd, i, before);
      ReplaceChange(io, changes, i, change);
      changes := changes[i := change];
    }

    /** evsel->add for new events of an fd: queued, or made at once (epoll_nochangelist_add). */
    method BackendAdd(fd: nat, before: Mask, events: Mask, et: bool) returns (r: int)
      requires Valid() && fd < |io| && io[fd].Io? && before == io[fd].Wanted() && !events.IsEmpty() && events.Disjoint(before)
      modifies `io, `changes, `changesSize, kernel`interest
      ensures Consistent() && exists n :: io == old(io)[fd := old(io)[fd].(idxplus1 := n)]
      ensures r == if !useChangelist && fd in kernel.refused then -1 else 0
      ensures r == -1 ==> io == old(io) && changes == old(changes) && kernel.interest == old(kernel.interest)
      ensures OthersSame(old(io), old(changes), old(kernel.interest), fd)
      ensures r == 0 ==> Aimed(EntryOf(io, changes, fd), before.Or(events))
      ensures r == 0 && fd !in disturbed ==> Sync(EntryOf(io, changes, fd), before.Or(events), At(kernel.interest, fd))
      ensures r == 0 ==>
        FdState(fd, before.Or(events), EntryOf(io, changes, fd), At(kernel.interest, fd))
          == StepOf(useChangelist, old(FdView(fd)), Want(events, et))
    {
      hide MapOk, AllSynced, MapSize, SlotOk, StepOf;
      FdIsOk(io, changes, kernel.interest, disturbed, fd);
      if useChangelist {
        StepQueued(FdView(fd), events, et);
        QueueAdd(EntryOrFresh(fd, before), before, At(kernel.interest, fd), events, et);
        Renumbered(io, fd);
        ChangelistAdd(fd, before, events, et);
        r := 0;
      } else {
        assert io[fd := io[fd].(idxplus1 := io[fd].idxplus1)] == io;
        StepMade(FdView(fd), events, et);
        r := ApplyOneChange(kernel, AddChange(fd, before, events, et));
      }
    }

    /** evsel->del for events that nobody wants any more. */
    method BackendDel(fd: nat, before: Mask, events: Mask, et: bool) returns (r: int)
      requires Valid() && fd < |io| && io[fd].Io? && before == io[fd].Wanted() && !events.IsEmpty() && events.Within(before)
      modifies `io, `changes, `changesSize, kernel`interest
      ensures Consistent() && exists n :: io == old(io)[fd := old(io)[fd].(idxplus1 := n)]
      ensures r == if !useChangelist && Fails(kernel.refused, DelChange(fd, before, events, et)) then -1 else 0
      ensures OthersSame(old(io), old(changes), old(kernel.interest), fd)
      ensures Aimed(EntryOf(io, changes, fd), before.Minus(events))
      ensures fd !in disturbed && (useChangelist || fd !in kernel.refused) ==>
        Sync(EntryOf(io, changes, fd), before.Minus(events), At(kernel.interest, fd))
      ensures FdState(fd, before.Minus(events), EntryOf(io, changes, fd), At(kernel.interest, fd))
        == if useChangelist || fd !in kernel.refused then StepOf(useChangelist, old(FdView(fd)), Unwant(events, et))
           else old(FdView(fd)).(wanted := before.Minus(events))
    {
      hide MapOk, AllSynced, MapSize, SlotOk, StepOf;
      FdIsOk(io, changes, kernel.interest, disturbed, fd);
      if useChangelist {
        StepQueued(FdView(fd), events, et);
        QueueDel(EntryOrFresh(fd, before), before, At(kernel.interest, fd), events, et);
        Renumbered(io, fd);
        ChangelistDel(fd, before, events, et);
        r := 0;
      } else {
        assert io[fd := io[fd].(idxplus1 := io[fd].idxplus1)] == io;
        StepMade(FdView(fd), events, et);
        r := ApplyOneChange(kernel, DelChange(fd, before, events, et));
      }
    }

    /** Only `fd` has its queued change or its registration changed. */
    ghost predicate OthersSame(io0: seq<Slot>, changes0: seq<Change>, interest0: map<int, Epev>, fd: int)
      reads `io, `changes, kernel
    {
      forall g :: g != fd ==> EntryOf(io, changes, g) == EntryOf(io0, changes0, g) && At(kernel.interest, g) == At(interest0, g)
    }

    /** Why an event cannot be added: no room in the map, a counter that would overflow, triggering
        modes mixed (in debug mode), or a backend that refuses the change at once. */
    ghost predicate CannotAdd(ev: Event)
      reads `io, kernel
    {
      var s := SlotAt(io, ev.fd);
      || ev.fd >= LARGEST_MAP
      || !CountsFit(s, ev)
      || (debugMode && s.events != [] && s.events[0].et != ev.et)
      || (!NewKinds(s, ev).IsEmpty() && !useChangelist && ev.fd in kernel.refused)
    }

    /** GET_IO_SLOT_AND_CTOR, after evmap_make_space */
    method GetSlot(fd: nat) returns (r: int)
      requires Valid() && fd <= INT_MAX
      modifies `io
      ensures Valid() && r == if fd < LARGEST_MAP then 0 else -1
      ensures SameEvents(old(io), io, fd) && EventsOf(io, fd) == EventsOf(old(io), fd)
      ensures r == 0 ==> fd < |io| && io[fd].Io? && io[fd].Wanted() == SlotAt(old(io), fd).Wanted()
      ensures r == 0 ==> io[fd] == SlotAt(old(io), fd)
      ensures forall g :: FdView(g) == old(FdView(g))
    {
      hide MapOk, ListOk, AllSynced, MapSize, EventsOf, SlotAt, SameEvents;
      r := 0;
      SlotsGrow(io, io, fd);
      MapBound(io);
      if fd >= |io| {
        r := MakeSpace(fd);
        if r == -1 {
          return;
        }
      }
      SlotsGrow(old(io), io, fd);
      GrownSynced(old(io), io, changes, kernel.interest, disturbed);
      if io[fd].Vacant? {
        ConstructedSynced(io, changes, kernel.interest, disturbed, fd);
        io := io[fd := NEW_SLOT];
      }
    }

    static lemma {:induction false} MapBound(io: seq<Slot>)
      requires MapOk(io)
      ensures |io| <= LARGEST_MAP
    {
    }

    /** Growing the map, and constructing the slot of `fd`, keep all events. */
    static lemma {:induction false} SlotsGrow(io0: seq<Slot>, io: seq<Slot>, fd: nat)
      requires io0 <= io && forall g :: |io0| <= g < |io| ==> io[g] == Vacant
      ensures SameEvents(io0, io, fd) && EventsOf(io, fd) == EventsOf(io0, fd)
      ensures fd < |io| && io[fd].Io? ==> io[fd] == SlotAt(io0, fd)
      ensures fd < |io| && io[fd].Vacant? ==> SlotAt(io0, fd) == NEW_SLOT
      ensures fd < |io| && io[fd].Vacant? ==> SameEvents(io0, io[fd := NEW_SLOT], fd)
      ensures fd < |io| && io[fd].Vacant? ==> EventsOf(io[fd := NEW_SLOT], fd) == EventsOf(io0, fd)
    {
    }

    /** The counters with `ev`, and the kinds of events that are new. */
    method CountUp(ctx: Slot, ev: Event) returns (nread: nat, nwrite: nat, nclose: nat, res: Mask)
      requires ctx.Io?
      ensures nread == Plus(ctx.nread, ev.events.read) && nwrite == Plus(ctx.nwrite, ev.events.write)
      ensures nclose == Plus(ctx.nclose, ev.events.close) && res == NewKinds(ctx, ev)
    {
      nread, nwrite, nclose, res := ctx.nread, ctx.nwrite, ctx.nclose, NO_EVENTS;
      if ev.events.read {
        nread := nread + 1;
        res := res.(read := nread == 1);
      }
      if ev.events.write {
        nwrite := nwrite + 1;
        res := res.(write := nwrite == 1);
      }
      if ev.events.close {
        nclose := nclose + 1;
        res := res.(close := nclose == 1);
      }
    }

    /** evmap_io_add_ */
    method IoAdd(ev: Event) returns (r: int)
      requires Valid() && ev.fd <= INT_MAX && !ev.events.IsEmpty() && ev !in EventsOf(io, ev.fd)
      modifies `io, `changes, `changesSize, kernel`interest
      ensures Valid()
      ensures r == if ev.fd < 0 then 0 else if old(CannotAdd(ev)) then -1
        else if NewKinds(SlotAt(old(io), ev.fd), ev).IsEmpty() then 0 else 1
      ensures SameEvents(old(io), io, ev.fd)
      ensures EventsOf(io, ev.fd) == (if ev.fd >= 0 && r != -1 then [ev] else []) + EventsOf(old(io), ev.fd)
      ensures OtherViewsSame(ev.fd)
      ensures ev.fd >= 0 ==>
        FdView(ev.fd) == if r == -1 then old(FdView(ev.fd))
          else StepOf(useChangelist, old(FdView(ev.fd)), Want(NewKinds(SlotAt(old(io), ev.fd), ev), ev.et))
      ensures r == 1 ==> AskedFor(useChangelist, FdView(ev.fd), NewKinds(SlotAt(old(io), ev.fd), ev), ev.et)
    {
      hide AllSynced, MapOk, ListOk, StepOf, AskedFor;
      var fd := ev.fd;
      if fd < 0 {
        return 0;
      }
      r := GetSlot(fd);
      if r == -1 {
        return;
      }
      r := AddInSlot(fd, ev);
      if r == 1 {
        WantShows(useChangelist, old(FdView(fd)), NewKinds(SlotAt(old(io), fd), ev), ev.et);
      }
    }

    /** evmap_io_add_ once there is a slot. */
    method AddInSlot(fd: nat, ev: Event) returns (r: int)
      requires Valid() && fd < LARGEST_MAP && fd < |io| && io[fd].Io? && fd == ev.fd && !ev.events.IsEmpty()
      modifies `io, `changes, `changesSize, kernel`interest
      ensures Valid()
      ensures r == if old(CannotAdd(ev)) then -1 else if NewKinds(old(io)[fd], ev).IsEmpty() then 0 else 1
      ensures SameEvents(old(io), io, fd)
      ensures EventsOf(io, fd) == (if r != -1 then [ev] else []) + EventsOf(old(io), fd)
      ensures OtherViewsSame(fd)
      ensures FdView(fd) == if r == -1 then old(FdView(fd))
        else StepOf(useChangelist, old(FdView(fd)), Want(NewKinds(old(io)[fd], ev), ev.et))
    {
      hide AllSynced, MapOk, ListOk, StepOf;
      SlotIsOk(io, fd);
      var ctx := io[fd];
      var nread, nwrite, nclose, res := CountUp(ctx, ev);
      if nread > 0xffff || nwrite > 0xffff || nclose > 0xffff {
        return -1;
      }
      if debugMode && ctx.events != [] && ctx.events[0].et != ev.et {
        return -1;
      }
      AddedOk(fd, ctx, ev);
      assert Added(ctx, ev) == ctx.(nread := nread, nwrite := nwrite, nclose := nclose, events := [ev] + ctx.events);
      var s := ctx.(nread := nread, nwrite := nwrite, nclose := nclose, events := [ev] + ctx.events);
      r := Enlist(fd, ctx.Wanted(), res, ev, s);
    }

    /** The last part of evmap_io_add_: tells the backend, if there is something new, and only then
        puts `s` in the slot of `fd`. */
    method Enlist(fd: nat, before: Mask, res: Mask, ev: Event, s: Slot) returns (r: int)
      requires Valid() && fd < |io| && io[fd].Io? && s.Io? && s.idxplus1 == io[fd].idxplus1 && SlotOk(fd, s)
      requires before == io[fd].Wanted() && s.Wanted() == before.Or(res) && res.Disjoint(before)
      modifies `io, `changes, `changesSize, kernel`interest
      ensures Valid()
      ensures r == if res.IsEmpty() then 0 else if !useChangelist && fd in kernel.refused then -1 else 1
      ensures r == -1 ==> io == old(io)
      ensures r != -1 ==> exists n :: io == old(io)[fd := s.(idxplus1 := n)]
      ensures OtherViewsSame(fd)
      ensures FdView(fd) == if r == -1 then old(FdView(fd)) else StepOf(useChangelist, old(FdView(fd)), Want(res, ev.et))
    {
      hide MapOk, ListOk, AllSynced, EntryOf, Sync, Aimed, MapSize, At, StepOf;
      NoStep(useChangelist, FdView(fd), ev.et);
      FdIsOk(io, changes, kernel.interest, disturbed, fd);
      assert before.Or(NO_EVENTS) == before;
      r := 0;
      if !res.IsEmpty() {
        r := BackendAdd(fd, before, res, ev.et);
        if r == -1 {
          return;
        }
        r := 1;
      }
      var t := s.(idxplus1 := io[fd].idxplus1);
      SlotReplaced(old(io), old(changes), old(kernel.interest), io, changes, kernel.interest, disturbed, fd, t);
      SlotViews(old(io), old(changes), old(kernel.interest), io, changes, kernel.interest, fd, t);
      io := io[fd := t];
    }

    /** The counters without `ev`, and the kinds of events that nobody wants any more. */
    method CountDown(ctx: Slot, ev: Event, ghost i: nat) returns (nread: nat, nwrite: nat, nclose: nat, res: Mask)
      requires SlotOk(ev.fd, ctx) && ctx.Io? && i < |ctx.events| && ctx.events[i] == ev
      ensures nread == Less(ctx.nread, ev.events.read) && nwrite == Less(ctx.nwrite, ev.events.write)
      ensures nclose == Less(ctx.nclose, ev.events.close) && res == LostKinds(ctx, i)
    {
      CountsArePositive(ev.fd, ctx, i);
      nread, nwrite, nclose, res := ctx.nread, ctx.nwrite, ctx.nclose, NO_EVENTS;
      if ev.events.read {
        nread := nread - 1;
        res := res.(read := nread == 0);
      }
      if ev.events.write {
        nwrite := nwrite - 1;
        res := res.(write := nwrite == 0);
      }
      if ev.events.close {
        nclose := nclose - 1;
        res := res.(close := nclose == 0);
      }
    }

    /** evmap_io_del_. The event is gone from the map even if the backend fails. */
    method IoDel(ev: Event) returns (r: int, ghost i: nat)
      requires Valid() && (0 <= ev.fd < |io| ==> ev in EventsOf(io, ev.fd))
      modifies `io, `changes, `changesSize, `disturbed, kernel`interest
      ensures Valid() && SameEvents(old(io), io, ev.fd)
      ensures ev.fd < 0 || ev.fd >= |old(io)| ==> r == (if ev.fd < 0 then 0 else -1) && io == old(io)
      ensures 0 <= ev.fd < |old(io)| ==>
        var s := old(io)[ev.fd];
        && s.Io? && i < |s.events| && s.events[i] == ev
        && EventsOf(io, ev.fd) == s.events[..i] + s.events[i + 1..]
        && r == (if LostKinds(s, i).IsEmpty() then 0
                 else if !useChangelist && Fails(kernel.refused, DelChange(ev.fd, s.Wanted(), LostKinds(s, i), ev.et)) then -1
                 else 1)
      ensures disturbed == old(disturbed)
        || (disturbed == old(disturbed) + {ev.fd} && !useChangelist && ev.fd in kernel.refused)
      ensures OtherViewsSame(ev.fd)
      ensures 0 <= ev.fd < |old(io)| ==>
        var s := old(io)[ev.fd];
        FdView(ev.fd) == if useChangelist || ev.fd !in kernel.refused
          then StepOf(useChangelist, old(FdView(ev.fd)), Unwant(LostKinds(s, i), ev.et))
          else old(FdView(ev.fd)).(wanted := s.Wanted().Minus(LostKinds(s, i)))
      ensures r == 1 && (useChangelist || ev.fd !in kernel.refused) ==>
        GivenUp(useChangelist, FdView(ev.fd), LostKinds(old(io)[ev.fd], i), ev.et)
    {
      hide AllSynced, MapOk, ListOk, StepOf, GivenUp;
      var fd := ev.fd;
      i := 0;
      if fd < 0 {
        return 0, 0;
      }
      if fd >= |io| {
        return -1, 0;
      }
      SlotIsOk(io, fd);
      var ctx := io[fd];
      var at: nat :| at < |ctx.events| && ctx.events[at] == ev;
      i := at;
      var nread, nwrite, nclose, res := CountDown(ctx, ev, i);
      var s := ctx.(nread := nread, nwrite := nwrite, nclose := nclose, events := ctx.events[..at] + ctx.events[at + 1..]);
      RemovedOk(fd, ctx, i, s);
      r := Delist(fd, ctx.Wanted(), res, ev, s);
      if r == 1 {
        UnwantShows(useChangelist, old(FdView(fd)), res, ev.et);
      }
    }

    /** The last part of evmap_io_del_: tells the backend, and puts `s` in the slot of `fd`. */
    method Delist(fd: nat, before: Mask, res: Mask, ev: Event, s: Slot) returns (r: int)
      requires Valid() && fd < |io| && io[fd].Io? && s.Io? && s.idxplus1 == io[fd].idxplus1 && SlotOk(fd, s)
      requires before == io[fd].Wanted() && s.Wanted() == before.Minus(res) && res.Within(before)
      modifies `io, `changes, `changesSize, `disturbed, kernel`interest
      ensures Valid()
      ensures r == if res.IsEmpty() then 0
        else if !useChangelist && Fails(kernel.refused, DelChange(fd, before, res, ev.et)) then -1 else 1
      ensures exists n :: io == old(io)[fd := s.(idxplus1 := n)]
      ensures disturbed == old(disturbed) || (disturbed == old(disturbed) + {fd} && !useChangelist && fd in kernel.refused)
      ensures OtherViewsSame(fd)
      ensures FdView(fd) == if useChangelist || fd !in kernel.refused
        then StepOf(useChangelist, old(FdView(fd)), Unwant(res, ev.et)) else old(FdView(fd)).(wanted := s.Wanted())
    {
      hide MapOk, ListOk, AllSynced, EntryOf, Sync, Aimed, MapSize, At, Fails, DelChange, StepOf;
      r := TellDel(fd, before, res, ev.et);
      var t := s.(idxplus1 := io[fd].idxplus1);
      SlotReplaced(old(io), old(changes), old(kernel.interest), io, changes, kernel.interest, disturbed, fd, t);
      SlotViews(old(io), old(changes), old(kernel.interest), io, changes, kernel.interest, fd, t);
      io := io[fd := t];
    }

    /** Tells the backend that some kinds are not wanted any more, if there are any. */
    method TellDel(fd: nat, before: Mask, res: Mask, et: bool) returns (r: int)
      requires Valid() && fd < |io| && io[fd].Io? && before == io[fd].Wanted() && res.Within(before)
      modifies `io, `changes, `changesSize, `disturbed, kernel`interest
      ensures Consistent() && exists n :: io == old(io)[fd := old(io)[fd].(idxplus1 := n)]
      ensures r == if res.IsEmpty() then 0
        else if !useChangelist && Fails(kernel.refused, DelChange(fd, before, res, et)) then -1 else 1
      ensures OthersSame(old(io), old(changes), old(kernel.interest), fd)
      ensures AllSynced(old(io), old(changes), old(kernel.interest), disturbed)
      ensures Aimed(EntryOf(io, changes, fd), before.Minus(res))
      ensures fd in disturbed || Sync(EntryOf(io, changes, fd), before.Minus(res), At(kernel.interest, fd))
      ensures disturbed == old(disturbed) || (disturbed == old(disturbed) + {fd} && !useChangelist && fd in kernel.refused)
      ensures FdState(fd, before.Minus(res), EntryOf(io, changes, fd), At(kernel.interest, fd))
        == if useChangelist || fd !in kernel.refused then StepOf(useChangelist, old(FdView(fd)), Unwant(res, et))
           else old(FdView(fd)).(wanted := before.Minus(res))
    {
      hide MapOk, ListOk, AllSynced, EntryOf, Sync, Aimed, MapSize, At, Fails, DelChange, StepOf;
      NoStep(useChangelist, FdView(fd), et);
      FdIsOk(io, changes, kernel.interest, disturbed, fd);
      assert before.Minus(NO_EVENTS) == before;
      r := 0;
      if res.IsEmpty() {
        assert io[fd := io[fd].(idxplus1 := io[fd].idxplus1)] == io;
        return;
      }
      r := BackendDel(fd, before, res, et);
      r := if r == -1 then -1 else 1;
      if !useChangelist && fd in kernel.refused {
        DisturbedMore(old(io), old(changes), old(kernel.interest), disturbed, fd);
        disturbed := disturbed + {fd};
      }
    }

    // ---------- dispatching ----------

    /** event_changelist_remove_all_ */
    method RemoveAll()
      requires MapOk(io) && ListOk(io, changes)
      modifies `io, `changes
      ensures MapOk(io) && ListOk(io, changes) && changes == []
      ensures |io| == |old(io)|
      ensures forall fd :: 0 <= fd < |io| ==> io[fd] == if old(io)[fd].Io? then old(io)[fd].(idxplus1 := 0) else Vacant
    {
      hide MapOk, SlotOk, MapSize;
      OneChangePerFd(io, changes);
      for i := 0 to |changes|
        invariant |io| == |old(io)| && changes == old(changes)
        invariant forall fd {:trigger io[fd]} :: 0 <= fd < |io| ==>
          io[fd] == if old(io)[fd].Io? && 0 < old(io)[fd].idxplus1 <= i then old(io)[fd].(idxplus1 := 0) else old(io)[fd]
      {
        var fd := changes[i].fd;
        assert old(io)[fd].idxplus1 == i + 1;
        io := io[fd := io[fd].(idxplus1 := 0)];
      }
      ClearedOk(old(io), io, old(changes));
      changes := [];
    }

    static lemma {:induction false} ClearedOk(io0: seq<Slot>, io: seq<Slot>, changes: seq<Change>)
      requires MapOk(io0) && ListOk(io0, changes) && |io| == |io0|
      requires forall fd :: 0 <= fd < |io| ==>
        io[fd] == if io0[fd].Io? && 0 < io0[fd].idxplus1 <= |changes| then io0[fd].(idxplus1 := 0) else io0[fd]
      ensures MapOk(io) && ListOk(io, [])
      ensures forall fd :: 0 <= fd < |io| ==> io[fd] == if io0[fd].Io? then io0[fd].(idxplus1 := 0) else Vacant
    {
    }

    /** The first part of epoll_dispatch: makes the queued changes and forgets them. Afterwards every
        fd is registered for exactly the events that are wanted of it, unless somebody meddled with
        the registration and no change was due that would have set it right. */
    method ApplyQueuedChanges() returns (r: int)
      requires Valid()
      modifies `io, `changes, `disturbed, kernel`interest
      ensures Valid() && changes == []
      ensures r == if exists i :: 0 <= i < |old(changes)| && Fails(kernel.refused, old(changes)[i]) then -1 else 0
      ensures SameAsBefore(old(io), io)
      ensures disturbed == Undisturbed(old(disturbed), old(changes), kernel.refused)
      ensures forall fd: int :: fd !in disturbed ==> Holds(At(kernel.interest, fd), WantedOf(io, fd))
      ensures forall fd: int ::
        FdView(fd) == if fd in kernel.refused then old(FdView(fd)).(queued := None) else BatchedStep(old(FdView(fd)), Dispatch)
    {
      hide FdOk, Sync, Aimed, Holds, Applied, EntryOf, MapOk, EventsOf, WantedOf, Fails, AllSynced, ListOk, BatchedStep, ViewOf;
      OneChangePerFd(io, changes);
      r := ApplyChanges(kernel, changes);
      AllApplied(io, changes, old(kernel.interest), kernel.interest, kernel.refused, disturbed);
      disturbed := Undisturbed(disturbed, changes, kernel.refused);
      RemoveAll();
      ClearedSame(old(io), io);
      NothingQueued(io, kernel.interest, disturbed);
      forall fd: int
        ensures FdView(fd)
          == if fd in kernel.refused then old(FdView(fd)).(queued := None) else BatchedStep(old(FdView(fd)), Dispatch)
      {
        DispatchedAtFd(old(io), old(changes), old(kernel.interest), io, kernel.interest, kernel.refused, fd);
      }
    }

    // ---------- what happens outside ----------

    /** Somebody closes an fd that has no events any more; the kernel forgets it. */
    method CloseFd(fd: int)
      requires Valid() && WantedOf(io, fd).IsEmpty()
      modifies kernel
      ensures Valid() && fd !in kernel.interest && kernel.refused == old(kernel.refused)[fd := EBADF]
      ensures OtherViewsSame(fd) && FdView(fd) == StepOf(useChangelist, old(FdView(fd)), Forget)
    {
      assert FdOk(io, changes, kernel.interest, disturbed, fd);
      kernel.interest := kernel.interest - {fd};
      kernel.refused := kernel.refused[fd := EBADF];
      Unchanged(io, changes, old(kernel.interest), kernel.interest, disturbed, disturbed, fd);
    }

    /** The number is given to a new file. */
    method OpenFd(fd: int)
      requires Valid()
      modifies kernel`refused
      ensures Valid() && kernel.refused == old(kernel.refused) - {fd}
    {
      kernel.refused := kernel.refused - {fd};
    }

    /** Anything else may happen to the registration of an fd: it is disturbed then. */
    method Meddle(fd: int, ev: Option<Epev>)
      requires Valid()
      modifies kernel`interest, `disturbed
      ensures Valid() && At(kernel.interest, fd) == ev && disturbed == old(disturbed) + {fd}
    {
      kernel.interest := if ev.Some? then kernel.interest[fd := ev.value] else kernel.interest - {fd};
      disturbed := disturbed + {fd};
      assert FdOk(io, changes, old(kernel.interest), old(disturbed), fd);
      Unchanged(io, changes, old(kernel.interest), kernel.interest, old(disturbed), disturbed, fd);
    }

    // ---------- starting over ----------

    /** An fd that something is wanted of has taken the step of asking for all of it at once, in the
        mode of the first event in its list. */
    ghost predicate AskedAgain(fd: int)
      reads `io, `changes, kernel
    {
      !WantedOf(io, fd).IsEmpty() && (useChangelist || fd !in kernel.refused) ==>
        FdView(fd) == StepOf(useChangelist, Start(fd), Want(WantedOf(io, fd), FirstEt(EventsOf(io, fd))))
    }

    /** One step of evmap_reinit_: tells the backend of all that is wanted of one fd. */
    method ReinitFd(fd: nat) returns (r: int)
      requires Consistent() && fd < |io| && io[fd].Io? && EntryOf(io, changes, fd) == None && fd !in kernel.interest
      modifies `io, `changes, `changesSize, kernel`interest
      ensures Consistent() && exists n :: io == old(io)[fd := old(io)[fd].(idxplus1 := n)]
      ensures OthersSame(old(io), old(changes), old(kernel.interest), fd)
      ensures Aimed(EntryOf(io, changes, fd), io[fd].Wanted())
      ensures r == 0 ==> Sync(EntryOf(io, changes, fd), io[fd].Wanted(), At(kernel.interest, fd))
      ensures r == if !useChangelist && fd in kernel.refused && !io[fd].Wanted().IsEmpty() then -1 else 0
      ensures AskedAgain(fd)
    {
      hide MapOk, ListOk, EntryOf, At, StepOf, Sync, Aimed, Outcome, Fresh;
      var events := io[fd].Wanted();
      var et := !events.IsEmpty() && io[fd].events != [] && io[fd].events[0].et;
      r := AskAgain(fd, events, et);
      AskedAgainOk(useChangelist, fd, events, et);
    }

    /** Its call of evsel->add. */
    method AskAgain(fd: nat, events: Mask, et: bool) returns (r: int)
      requires Consistent() && fd < |io| && io[fd].Io? && EntryOf(io, changes, fd) == None && fd !in kernel.interest
      modifies `io, `changes, `changesSize, kernel`interest
      ensures Consistent() && exists n :: io == old(io)[fd := old(io)[fd].(idxplus1 := n)]
      ensures OthersSame(old(io), old(changes), old(kernel.interest), fd)
      ensures EntryOf(io, changes, fd) == if useChangelist then Some(AddTo(Fresh(fd, NO_EVENTS), events, et)) else None
      ensures At(kernel.interest, fd)
        == if useChangelist || fd in kernel.refused then None else Outcome(None, AddChange(fd, NO_EVENTS, events, et))
      ensures r == if !useChangelist && fd in kernel.refused && !events.IsEmpty() then -1 else 0
    {
      hide MapSize, SlotOk;
      if useChangelist {
        Renumbered(io, fd);
        hide MapOk;
        ChangelistAdd(fd, NO_EVENTS, events, et);
        r := 0;
      } else {
        assert io[fd := io[fd].(idxplus1 := io[fd].idxplus1)] == io;
        hide MapOk, ListOk;
        r := ApplyOneChange(kernel, AddChange(fd, NO_EVENTS, events, et));
      }
    }

    static lemma {:induction false} AskedAgainOk(useChangelist: bool, fd: int, events: Mask, et: bool)
      ensures var entry := if useChangelist then Some(AddTo(Fresh(fd, NO_EVENTS), events, et)) else None;
        var k := if useChangelist then None else Outcome(None, AddChange(fd, NO_EVENTS, events, et));
        && Aimed(entry, events) && Sync(entry, events, k) && (events.IsEmpty() ==> k == None)
        && (!events.IsEmpty() ==> FdState(fd, events, entry, k) == StepOf(useChangelist, Start(fd), Want(events, et)))
    {
      assert NO_EVENTS.Or(events) == events;
    }

    /** Forgets where the queued changes of all fds were. */
    method ClearFdinfo()
      requires MapOk(io) && changes == []
      modifies `io
      ensures MapOk(io) && ListOk(io, changes) && |io| == |old(io)|
      ensures forall fd :: 0 <= fd < |io| ==> io[fd] == if old(io)[fd].Io? then old(io)[fd].(idxplus1 := 0) else Vacant
    {
      for i := 0 to |io|
        invariant |io| == |old(io)|
        invariant forall fd {:trigger io[fd]} :: 0 <= fd < |io| ==>
          io[fd] == if fd < i && old(io)[fd].Io? then old(io)[fd].(idxplus1 := 0) else old(io)[fd]
      {
        if io[i].Io? {
          io := io[i := io[i].(idxplus1 := 0)];
        }
      }
    }

    /** evmap_reinit_ with a new epoll descriptor, after event_reinit emptied the changelist: asks for
        all that is wanted again. The original clears the fdinfo of a slot just before it uses it;
        no slot's fdinfo is read for another, so here they are all cleared first. */
    method Reinit() returns (r: int)
      requires MapOk(io) && changes == [] && kernel.interest == map[]
      requires forall fd <- kernel.refused :: kernel.refused[fd] != ENOENT && kernel.refused[fd] != EEXIST
      modifies `io, `changes, `changesSize, `disturbed, kernel`interest
      ensures Valid() && SameAsBefore(old(io), io)
      ensures r == if disturbed == {} then 0 else -1
      ensures forall fd :: fd in disturbed <==> !useChangelist && fd in kernel.refused && !WantedOf(io, fd).IsEmpty()
      ensures forall fd :: 0 <= fd < |io| ==> AskedAgain(fd)
    {
      hide Sync, Aimed, MapOk, ListOk, DoneBefore, AskedAgain;
      r, changesSize, disturbed := 0, 0, {};
      ClearFdinfo();
      ClearedSame(old(io), io);
      NoneDone(io);
      for i := 0 to |io|
        invariant |io| == |old(io)| && Consistent() && DoneBefore(io, changes, kernel.interest, disturbed, i)
        invariant SameAsBefore(old(io), io)
        invariant r == if disturbed == {} then 0 else -1
        invariant forall fd :: fd in disturbed <==>
          fd < i && !useChangelist && fd in kernel.refused && !WantedOf(io, fd).IsEmpty()
        invariant forall fd :: 0 <= fd < i ==> AskedAgain(fd)
      {
        var one := ReinitStep(i);
        if one == -1 {
          r := -1;
        }
      }
      AllDone(io, changes, kernel.interest, disturbed);
    }

    /** One round of evmap_io_foreach_fd with evmap_io_reinit_iter_fn. */
    method ReinitStep(i: nat) returns (r: int)
      requires i < |io| && Consistent() && DoneBefore(io, changes, kernel.interest, disturbed, i)
      modifies `io, `changes, `changesSize, `disturbed, kernel`interest
      ensures |io| == |old(io)| && Consistent() && DoneBefore(io, changes, kernel.interest, disturbed, i + 1)
      ensures SameAsBefore(old(io), io)
      ensures r == if !useChangelist && i in kernel.refused && !WantedOf(io, i).IsEmpty() then -1 else 0
      ensures disturbed == if r == -1 then old(disturbed) + {i} else old(disturbed)
      ensures AskedAgain(i) && forall fd :: 0 <= fd < i && old(AskedAgain(fd)) ==> AskedAgain(fd)
    {
      hide Sync, Aimed, MapOk, ListOk, StepOf;
      r := 0;
      assert EntryOf(io, changes, i) == None && At(kernel.interest, i) == None;
      if io[i].Io? {
        r := ReinitFd(i);
        if r == -1 {
          disturbed := disturbed + {i};
        }
      } else {
        VacantOk(io, changes, kernel.interest, disturbed, i);
      }
      OneMoreDone(old(io), old(changes), old(kernel.interest), old(disturbed), io, changes, kernel.interest, disturbed, i);
    }
  }
}
