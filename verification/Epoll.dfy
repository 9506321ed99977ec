/** The epoll backend: applying pending changes to the kernel's interest list. */
module Epoll {
  import opened Wrappers
  import opened EpollTable

  datatype Errno = ENOENT | EEXIST | EBADF | EPERM | OtherErrno

  datatype CtlResult = Ok | Err(errno: Errno)

  /** What an fd is registered for: the events, and EPOLLET. */
  datatype Epev = Epev(events: Mask, et: bool)

  function At(interest: map<int, Epev>, fd: int): Option<Epev> {
    if fd in interest then Some(interest[fd]) else None
  }

  /** The kernel side of one epoll descriptor. It refuses every operation on some fds: closed ones
      (EBADF), ones that cannot be polled (EPERM), or for want of resources. */
  class Kernel {
    var interest: map<int, Epev>
    var refused: map<int, Errno>

    constructor ()
      ensures interest == map[] && refused == map[]
    {
      interest, refused := map[], map[];
    }

    /** epoll_ctl */
    method Ctl(op: CtlOp, fd: int, ev: Epev) returns (r: CtlResult)
      requires op.CtlAdd? || op.CtlMod? || op.CtlDel?
      modifies `interest
      ensures r == if fd in refused then Err(refused[fd])
        else if op.CtlAdd? && fd in old(interest) then Err(EEXIST)
        else if !op.CtlAdd? && fd !in old(interest) then Err(ENOENT)
        else Ok
      ensures interest == if r != Ok then old(interest)
        else if op.CtlDel? then old(interest) - {fd}
        else old(interest)[fd := ev]
    {
      if fd in refused {
        return Err(refused[fd]);
      }
      match op {
        case CtlAdd =>
          if fd in interest {
            return Err(EEXIST);
          }
          interest := interest[fd := ev];
        case CtlMod =>
          if fd !in interest {
            return Err(ENOENT);
          }
          interest := interest[fd := ev];
        case CtlDel =>
          if fd !in interest {
            return Err(ENOENT);
          }
          interest := interest - {fd};
      }
      r := Ok;
    }
  }

  /** Whether a change asks for EPOLLET: the change to EV_CLOSED has no say in it. */
  predicate ChangeEt(ch: Change) {
    ch.read.HasEt() || ch.write.HasEt()
  }

  /** A refused operation is reported, except a delete on a closed or unpollable fd. */
  predicate Fails(refused: map<int, Errno>, ch: Change) {
    && !ch.IsNop() && ch.fd in refused
    && (!DelOnly(ch) || refused[ch.fd] !in {ENOENT, EBADF, EPERM})
  }

  /** The change deletes all that was registered. */
  predicate DelOnly(ch: Change) {
    ch.Target().IsEmpty()
  }

  /** The interest list with `ch` carried out: `fd` is registered for exactly the wanted events,
      whatever was registered for it before. */
  function Applied(interest: map<int, Epev>, refused: map<int, Errno>, ch: Change): map<int, Epev> {
    if ch.IsNop() || ch.fd in refused then interest
    else if ch.Target().IsEmpty() then interest - {ch.fd}
    else interest[ch.fd := Epev(ch.Target(), ChangeEt(ch))]
  }

  /** epoll_apply_one_change. The guesses ADD and MOD are made good when the kernel disagrees, so
      a change that is accepted has its effect from any state of the interest list. */
  method ApplyOneChange(kernel: Kernel, ch: Change) returns (r: int)
    requires forall fd <- kernel.refused :: kernel.refused[fd] != ENOENT && kernel.refused[fd] != EEXIST
    modifies kernel`interest
    ensures kernel.interest == Applied(old(kernel.interest), kernel.refused, ch)
    ensures r == if Fails(kernel.refused, ch) then -1 else 0
  {
    hide TableEntry;
    TableMeansTarget(ch);
    var entry := TableEntry(ch.Index());
    var op, events := entry.op, entry.events;
    if events.IsEmpty() {
      assert op == NoOp;
      return 0;
    }
    var epev := Epev(events, ChangeEt(ch));
    var result := kernel.Ctl(op, ch.fd, epev);
    if result.Ok? {
      return 0;
    }
    match op {
      case CtlMod =>
        if result.errno == ENOENT {
          var again := kernel.Ctl(CtlAdd, ch.fd, epev);
          return if again.Ok? then 0 else -1;
        }
      case CtlAdd =>
        if result.errno == EEXIST {
          var again := kernel.Ctl(CtlMod, ch.fd, epev);
          return if again.Ok? then 0 else -1;
        }
      case CtlDel =>
        if result.errno == ENOENT || result.errno == EBADF || result.errno == EPERM {
          return 0;
        }
    }
    r := -1;
  }

  ghost function AppliedAll(interest: map<int, Epev>, refused: map<int, Errno>, changes: seq<Change>): map<int, Epev> {
    if changes == [] then interest
    else Applied(AppliedAll(interest, refused, changes[..|changes| - 1]), refused, changes[|changes| - 1])
  }

  /** epoll_apply_changes: carries out all changes, even if some fail. */
  method ApplyChanges(kernel: Kernel, changes: seq<Change>) returns (r: int)
    requires forall fd <- kernel.refused :: kernel.refused[fd] != ENOENT && kernel.refused[fd] != EEXIST
    modifies kernel`interest
    ensures kernel.interest == AppliedAll(old(kernel.interest), kernel.refused, changes)
    ensures r == if exists i :: 0 <= i < |changes| && Fails(kernel.refused, changes[i]) then -1 else 0
  {
    r := 0;
    for i := 0 to |changes|
      invariant kernel.interest == AppliedAll(old(kernel.interest), kernel.refused, changes[..i])
      invariant r == if exists j :: 0 <= j < i && Fails(kernel.refused, changes[j]) then -1 else 0
    {
      assert changes[..i + 1][..i] == changes[..i];
      var one := ApplyOneChange(kernel, changes[i]);
      if one < 0 {
        r := -1;
      }
    }
    assert changes[..|changes|] == changes;
  }

  /** With one change for each fd, every fd gets its own. */
  lemma {:induction false} AppliedAllAt(interest: map<int, Epev>, refused: map<int, Errno>, changes: seq<Change>, i: nat)
    requires i < |changes| && forall j, k :: 0 <= j < k < |changes| ==> changes[j].fd != changes[k].fd
    ensures var fd := changes[i].fd;
      At(AppliedAll(interest, refused, changes), fd) == At(Applied(interest, refused, changes[i]), fd)
  {
    var init, last := changes[..|changes| - 1], changes[|changes| - 1];
    if i < |changes| - 1 {
      AppliedAllAt(interest, refused, init, i);
      assert last.fd != changes[i].fd;
    } else {
      AppliedAllElsewhere(interest, refused, init, last.fd);
    }
  }

  lemma {:induction false} AppliedAllElsewhere(interest: map<int, Epev>, refused: map<int, Errno>, changes: seq<Change>, fd: int)
    requires forall j :: 0 <= j < |changes| ==> changes[j].fd != fd
    ensures At(AppliedAll(interest, refused, changes), fd) == At(interest, fd)
  {
    if changes != [] {
      AppliedAllElsewhere(interest, refused, changes[..|changes| - 1], fd);
    }
  }

  /** One set of events as the change that epoll_nochangelist_add and _del make up. */
  function AddChange(fd: int, before: Mask, events: Mask, et: bool): Change {
    Change(fd, before, if events.read then Add(et) else Keep, if events.write then Add(et) else Keep,
      if events.close then Add(et) else Keep)
  }

  function DelChange(fd: int, before: Mask, events: Mask, et: bool): Change {
    Change(fd, before, if events.read then Del(et) else Keep, if events.write then Del(et) else Keep,
      if events.close then Del(et) else Keep)
  }
}
