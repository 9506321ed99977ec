/** Events and their flags. */
module Events {
  import opened Wrappers

  /** A timeval as a number of microseconds, with the index of a common timeout if its tv_usec
      carries the magic bits of one. */
  datatype Tv = Tv(us: int, common: Option<nat>)

  /** The EVLIST_* flags that say where an event is queued, and EVLIST_FINALIZING. */
  datatype Flags = Flags(timeout: bool, inserted: bool, active: bool, later: bool, finalizing: bool)

  /** ev_res: EV_TIMEOUT, and whatever else. */
  datatype Res = Res(timeout: bool, other: bool) {
    function Or(r: Res): Res {
      Res(timeout || r.timeout, other || r.other)
    }
  }

  /** A snapshot of the fields of an event, apart from its place in the heap. */
  datatype EvState = EvState(flags: Flags, timeout: Tv, res: Res, pri: nat, internal: bool)

  class Event {
    /** EVLIST_INTERNAL */
    const internal: bool
    /** Whether the event waits for a file descriptor or a signal. */
    const io: bool
    /** EV_CLOSURE_CB_SELF, a deferred callback */
    const selfCb: bool
    /** EV_CLOSURE_EVENT_PERSIST */
    const persist: bool
    var flags: Flags
    var timeout: Tv
    var ioTimeout: Tv
    var res: Res
    var pri: nat
    var minHeapIdx: int

    constructor (internal: bool, io: bool, selfCb: bool, persist: bool, pri: nat)
      ensures this.internal == internal && this.io == io && this.selfCb == selfCb && this.persist == persist
      ensures this.pri == pri && timeout == Tv(0, None) && flags == Flags(false, false, false, false, false)
    {
      this.internal, this.io, this.selfCb, this.persist, this.pri := internal, io, selfCb, persist, pri;
      flags, timeout, ioTimeout := Flags(false, false, false, false, false), Tv(0, None), Tv(0, None);
      res, minHeapIdx := Res(false, false), -1;
    }

    ghost function State(): EvState
      reads `flags, `timeout, `res, `pri
    {
      EvState(flags, timeout, res, pri, internal)
    }
  }
}
