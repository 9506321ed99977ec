/** Enabling, suspending and rate limiting of a bufferevent (a single one, in no group). */
module BufferEvent {
  import opened Wrappers
  import opened TokenBucket

  /** Reasons for being suspended: BEV_SUSPEND_WM, BW and LOOKUP, and whatever filters add. */
  datatype Reason = Watermark | Bandwidth | Lookup | Filter

  /** A set of the events EV_READ and EV_WRITE. */
  datatype Events = Events(read: bool, write: bool)

  /** What the system says to an attempt to connect: EINPROGRESS, success at once, or ECONNREFUSED. */
  datatype ConnectResult = InProgress | AtOnce | Refused

  class Bufferevent {
    var enabled: Events
    var readSuspended: set<Reason>
    var writeSuspended: set<Reason>
    var connecting: bool
    /** Whether the implementation waits to read, or to write as soon as there is output. */
    var readArmed: bool
    var writeArmed: bool
    var maxSingleRead: nat
    var maxSingleWrite: nat
    /** The rate_limiting structure: its configuration, its bucket and the refill event. */
    var cfg: Option<Cfg>
    const limit: Bucket
    var refillPending: bool

    /** bufferevent_init_common_: writing is enabled, so that output is sent as soon as there is any. */
    constructor ()
      ensures Valid() && fresh(limit) && cfg == None && enabled == Events(false, true)
      ensures readSuspended == {} && writeSuspended == {} && !connecting
    {
      enabled, readSuspended, writeSuspended, connecting := Events(false, true), {}, {}, false;
      readArmed, writeArmed, cfg, refillPending := false, true, None, false;
      limit := new Bucket();
    }

    /** The read side waits iff it is enabled and nothing suspends it. */
    predicate ReadOk()
      reads this
    {
      readArmed <==> enabled.read && readSuspended == {}
    }

    /** So does the write side; but what waits for the end of a connection attempt stays armed. */
    predicate WriteOk()
      reads this
    {
      if connecting then enabled.write && writeSuspended == {} ==> writeArmed
      else writeArmed <==> enabled.write && writeSuspended == {}
    }

    /** An empty bucket suspends its side, and what is suspended for want of bandwidth will be looked
        at again, as the refill event is pending. */
    predicate NoLostWakeup()
      reads this, limit
    {
      match cfg
      case None => Bandwidth !in readSuspended && Bandwidth !in writeSuspended && !refillPending
      case Some(c) =>
        && c.Ok() && limit.Within(c)
        && (limit.readLimit <= 0 ==> Bandwidth in readSuspended)
        && (limit.writeLimit <= 0 ==> Bandwidth in writeSuspended)
        && (Bandwidth in readSuspended || Bandwidth in writeSuspended ==> refillPending)
    }

    predicate Valid()
      reads this, limit
    {
      ReadOk() && WriteOk() && NoLostWakeup()
    }

    // ---------- the implementation: be_socket_enable and be_socket_disable ----------

    method Enable(event: Events)
      modifies `readArmed, `writeArmed
      ensures readArmed == (old(readArmed) || event.read) && writeArmed == (old(writeArmed) || event.write)
    {
      if event.read {
        readArmed := true;
      }
      if event.write {
        writeArmed := true;
      }
    }

    method Disable(event: Events)
      modifies `readArmed, `writeArmed
      ensures readArmed == (old(readArmed) && !event.read)
      ensures writeArmed == (old(writeArmed) && !(event.write && !connecting))
    {
      if event.read {
        readArmed := false;
      }
      if event.write && !connecting {
        writeArmed := false;
      }
    }

    // ---------- suspending and enabling ----------

    /** bufferevent_suspend_read_ */
    method SuspendRead(what: Reason)
      requires ReadOk() && WriteOk()
      modifies `readArmed, `writeArmed, `readSuspended
      ensures ReadOk() && WriteOk() && readSuspended == old(readSuspended) + {what} && writeArmed == old(writeArmed)
    {
      if readSuspended == {} {
        Disable(Events(true, false));
      }
      readSuspended := readSuspended + {what};
    }

    /** bufferevent_unsuspend_read_ */
    method UnsuspendRead(what: Reason)
      requires ReadOk() && WriteOk()
      modifies `readArmed, `writeArmed, `readSuspended
      ensures ReadOk() && WriteOk() && readSuspended == old(readSuspended) - {what} && writeArmed == old(writeArmed)
    {
      readSuspended := readSuspended - {what};
      if readSuspended == {} && enabled.read {
        Enable(Events(true, false));
      }
    }

    /** bufferevent_suspend_write_ */
    method SuspendWrite(what: Reason)
      requires ReadOk() && WriteOk()
      modifies `readArmed, `writeArmed, `writeSuspended
      ensures ReadOk() && WriteOk() && writeSuspended == old(writeSuspended) + {what} && readArmed == old(readArmed)
    {
      if writeSuspended == {} {
        Disable(Events(false, true));
      }
      writeSuspended := writeSuspended + {what};
    }

    /** bufferevent_unsuspend_write_ */
    method UnsuspendWrite(what: Reason)
      requires ReadOk() && WriteOk()
      modifies `readArmed, `writeArmed, `writeSuspended
      ensures ReadOk() && WriteOk() && writeSuspended == old(writeSuspended) - {what} && readArmed == old(readArmed)
    {
      writeSuspended := writeSuspended - {what};
      if writeSuspended == {} && enabled.write {
        Enable(Events(false, true));
      }
    }

    /** bufferevent_enable */
    method BuffereventEnable(event: Events)
      requires Valid()
      modifies `readArmed, `writeArmed, `enabled
      ensures Valid() && enabled == Events(old(enabled).read || event.read, old(enabled).write || event.write)
    {
      var impl := Events(event.read && readSuspended == {}, event.write && writeSuspended == {});
      enabled := Events(enabled.read || event.read, enabled.write || event.write);
      if impl != Events(false, false) {
        Enable(impl);
      }
    }

    /** bufferevent_disable */
    method BuffereventDisable(event: Events)
      requires Valid()
      modifies `readArmed, `writeArmed, `enabled
      ensures Valid() && enabled == Events(old(enabled).read && !event.read, old(enabled).write && !event.write)
    {
      enabled := Events(enabled.read && !event.read, enabled.write && !event.write);
      Disable(event);
    }

    // ---------- connecting ----------

    /** bufferevent_socket_connect once the system has been asked to connect. */
    method SocketConnect(r: ConnectResult)
      requires Valid()
      modifies `readArmed, `writeArmed, `enabled, `connecting
      ensures Valid()
      ensures r.InProgress? ==> connecting && writeArmed && readArmed == old(readArmed) && enabled == old(enabled)
      ensures r.AtOnce? ==> connecting && writeArmed == old(writeArmed) && readArmed == old(readArmed) && enabled == old(enabled)
      ensures r.Refused? ==> connecting == old(connecting) && enabled == Events(false, false)
    {
      match r {
        case InProgress =>
          Enable(Events(false, true));
          connecting := true;
        case AtOnce =>
          connecting := true;
        case Refused =>
          BuffereventDisable(Events(true, true));
      }
    }

    /** bufferevent_writecb while connecting, which runs when the socket is writable: `c` tells whether
        the attempt has come to an end, and how. After a failure nothing is armed, whatever is enabled. */
    method FinishConnecting(c: int)
      requires Valid() && connecting && writeArmed
      modifies `readArmed, `writeArmed, `connecting
      ensures c == 0 ==> unchanged(this)
      ensures c > 0 ==> Valid() && !connecting && readArmed == old(readArmed)
      ensures c < 0 ==> NoLostWakeup() && !connecting && !readArmed && !writeArmed
      ensures c < 0 ==> (Valid() <==> (enabled.read ==> readSuspended != {}) && (enabled.write ==> writeSuspended != {}))
    {
      if c == 0 {
        return;
      }
      connecting := false;
      if c < 0 {
        writeArmed, readArmed := false, false;
        return;
      }
      if !enabled.write || writeSuspended != {} {
        writeArmed := false;
      }
    }

    /** bufferevent_disable_hard_: gives up a connection attempt, too. The write side is left waiting
        though it should not exactly if it is not disabled as well, and only the attempt kept it armed. */
    method DisableHard(event: Events)
      requires Valid()
      modifies `readArmed, `writeArmed, `enabled, `connecting
      ensures enabled == Events(old(enabled).read && !event.read, old(enabled).write && !event.write)
      ensures ReadOk() && NoLostWakeup() && !connecting
      ensures Valid() <==>
        event.write || !old(connecting) || !old(writeArmed) || (old(enabled).write && old(writeSuspended) == {})
      ensures !Valid() ==> writeArmed
    {
      enabled := Events(enabled.read && !event.read, enabled.write && !event.write);
      connecting := false;
      Disable(event);
    }

    /** Which happens, with the calls of the interface and then a call for EV_READ alone. */
    static method DisableHardLeavesArmed() returns (bev: Bufferevent)
      ensures fresh(bev) && bev.ReadOk() && !bev.connecting && !bev.enabled.write && bev.writeArmed && !bev.Valid()
    {
      bev := new Bufferevent();
      bev.BuffereventDisable(Events(false, true));
      bev.SocketConnect(InProgress);
      bev.DisableHard(Events(true, false));
    }

    // ---------- rate limiting ----------

    /** bufferevent_get_rlim_max_: how much may be read or written now. */
    method GetRlimMax(isWrite: bool, tick: nat) returns (r: int)
      requires Valid() && tick < U32
      modifies limit
      ensures Valid()
      ensures cfg == None ==> unchanged(limit) && r == if isWrite then maxSingleWrite else maxSingleRead
      ensures cfg.Some? ==> r == Max0(if isWrite then limit.writeLimit else limit.readLimit)
      ensures cfg.Some? ==>
        Level(limit.readLimit, limit.writeLimit, limit.lastUpdated)
          == Updated(old(Level(limit.readLimit, limit.writeLimit, limit.lastUpdated)), cfg.value, tick)
    {
      hide Refilled;
      r := if isWrite then maxSingleWrite else maxSingleRead;
      if cfg == None {
        return;
      }
      RefillGrows(limit.readLimit, cfg.value.readMaximum, cfg.value.readRate, TicksBetween(limit.lastUpdated, tick));
      RefillGrows(limit.writeLimit, cfg.value.writeMaximum, cfg.value.writeRate, TicksBetween(limit.lastUpdated, tick));
      if tick != limit.lastUpdated {
        var updated := limit.Update(cfg.value, tick);
      }
      r := if isWrite then limit.writeLimit else limit.readLimit;
      if r < 0 {
        r := 0;
      }
    }

    /** bufferevent_decrement_read_buckets_ */
    method DecrementReadBuckets(bytes: nat) returns (r: int)
      requires Valid() && limit.readLimit - bytes >= SSIZE_MIN
      modifies `readArmed, `writeArmed, `readSuspended, `refillPending, limit`readLimit
      ensures Valid() && r == 0 && writeArmed == old(writeArmed)
      ensures cfg == None ==> unchanged(this, limit)
      ensures cfg.Some? ==>
        && limit.readLimit == old(limit.readLimit) - bytes
        && readSuspended == if limit.readLimit <= 0 then old(readSuspended) + {Bandwidth} else old(readSuspended) - {Bandwidth}
    {
      r := 0;
      if cfg == None {
        return;
      }
      limit.readLimit := limit.readLimit - bytes;
      if limit.readLimit <= 0 {
        SuspendRead(Bandwidth);
        refillPending := true;
      } else if Bandwidth in readSuspended {
        if Bandwidth !in writeSuspended {
          refillPending := false;
        }
        UnsuspendRead(Bandwidth);
      }
    }

    /** bufferevent_decrement_write_buckets_ */
    method DecrementWriteBuckets(bytes: nat) returns (r: int)
      requires Valid() && limit.writeLimit - bytes >= SSIZE_MIN
      modifies `readArmed, `writeArmed, `writeSuspended, `refillPending, limit`writeLimit
      ensures Valid() && r == 0 && readArmed == old(readArmed)
      ensures cfg == None ==> unchanged(this, limit)
      ensures cfg.Some? ==>
        && limit.writeLimit == old(limit.writeLimit) - bytes
        && writeSuspended == if limit.writeLimit <= 0 then old(writeSuspended) + {Bandwidth} else old(writeSuspended) - {Bandwidth}
    {
      r := 0;
      if cfg == None {
        return;
      }
      limit.writeLimit := limit.writeLimit - bytes;
      if limit.writeLimit <= 0 {
        SuspendWrite(Bandwidth);
        refillPending := true;
      } else if Bandwidth in writeSuspended {
        if Bandwidth !in readSuspended {
          refillPending := false;
        }
        UnsuspendWrite(Bandwidth);
      }
    }

    /** bev_refill_callback_, which runs when the refill event has fired: afterwards each side is
        suspended for want of bandwidth iff it was and its bucket is still empty. */
    method RefillCallback(tick: nat)
      requires Valid() && tick < U32 && refillPending
      modifies `readArmed, `writeArmed, `readSuspended, `writeSuspended, `refillPending, limit
      ensures Valid()
      ensures Bandwidth in readSuspended <==> limit.readLimit <= 0
      ensures Bandwidth in writeSuspended <==> limit.writeLimit <= 0
      ensures readSuspended - {Bandwidth} == old(readSuspended) - {Bandwidth}
      ensures writeSuspended - {Bandwidth} == old(writeSuspended) - {Bandwidth}
      ensures refillPending <==> Bandwidth in readSuspended || Bandwidth in writeSuspended
      ensures Level(limit.readLimit, limit.writeLimit, limit.lastUpdated)
        == Updated(old(Level(limit.readLimit, limit.writeLimit, limit.lastUpdated)), cfg.value, tick)
    {
      hide Refilled, TicksBetween;
      refillPending := false;
      RefillGrows(limit.readLimit, cfg.value.readMaximum, cfg.value.readRate, TicksBetween(limit.lastUpdated, tick));
      RefillGrows(limit.writeLimit, cfg.value.writeMaximum, cfg.value.writeRate, TicksBetween(limit.lastUpdated, tick));
      var updated := limit.Update(cfg.value, tick);
      var again := false;
      if Bandwidth in readSuspended {
        if limit.readLimit > 0 {
          UnsuspendRead(Bandwidth);
        } else {
          again := true;
        }
      }
      if Bandwidth in writeSuspended {
        if limit.writeLimit > 0 {
          UnsuspendWrite(Bandwidth);
        } else {
          again := true;
        }
      }
      if again {
        refillPending := true;
      }
    }

    /** bufferevent_set_rate_limit. A changed configuration only takes away from the bucket. */
    method SetRateLimit(newCfg: Option<Cfg>, tick: nat)
      requires Valid() && tick < U32 && (newCfg.Some? ==> newCfg.value.Ok())
      requires newCfg.Some? && cfg.Some? && newCfg.value.id == cfg.value.id ==> newCfg == cfg
      modifies `readArmed, `writeArmed, `readSuspended, `writeSuspended, `refillPending, `cfg, limit
      ensures Valid() && cfg == newCfg
      ensures readSuspended - {Bandwidth} == old(readSuspended) - {Bandwidth}
      ensures writeSuspended - {Bandwidth} == old(writeSuspended) - {Bandwidth}
      ensures newCfg.Some? && (old(cfg) == None || old(cfg).value.id != newCfg.value.id) ==>
        && (Bandwidth in readSuspended <==> limit.readLimit <= 0) && (Bandwidth in writeSuspended <==> limit.writeLimit <= 0)
        && (old(cfg).Some? ==>
              && limit.readLimit == AtMost(old(limit.readLimit), newCfg.value.readMaximum)
              && limit.writeLimit == AtMost(old(limit.writeLimit), newCfg.value.writeMaximum))
        && (old(cfg) == None ==> limit.readLimit == newCfg.value.readRate && limit.writeLimit == newCfg.value.writeRate)
      ensures newCfg.Some? && old(cfg).Some? && old(cfg).value.id == newCfg.value.id ==> unchanged(this, limit)
      ensures newCfg == None ==> unchanged(limit) && Bandwidth !in readSuspended && Bandwidth !in writeSuspended && !refillPending
    {
      if newCfg == None {
        cfg := None;
        UnsuspendRead(Bandwidth);
        UnsuspendWrite(Bandwidth);
        refillPending := false;
        return;
      }
      if cfg.Some? && cfg.value.id == newCfg.value.id {
        return;
      }
      var reinit := cfg.Some?;
      cfg := newCfg;
      limit.Init(cfg.value, tick, reinit);
      refillPending := false;
      var suspended := SettleRead();
      suspended := SettleWrite(suspended);
      if suspended {
        refillPending := true;
      }
    }

    /** The part of it that suspends or resumes reading. */
    method SettleRead() returns (suspended: bool)
      requires ReadOk() && WriteOk()
      modifies `readArmed, `writeArmed, `readSuspended
      ensures ReadOk() && WriteOk() && suspended == (limit.readLimit <= 0)
      ensures readSuspended == if suspended then old(readSuspended) + {Bandwidth} else old(readSuspended) - {Bandwidth}
    {
      suspended := limit.readLimit <= 0;
      if limit.readLimit > 0 {
        UnsuspendRead(Bandwidth);
      } else {
        SuspendRead(Bandwidth);
      }
    }

    /** And the part for writing. */
    method SettleWrite(before: bool) returns (suspended: bool)
      requires ReadOk() && WriteOk()
      modifies `readArmed, `writeArmed, `writeSuspended
      ensures ReadOk() && WriteOk() && suspended == (before || limit.writeLimit <= 0)
      ensures writeSuspended == if limit.writeLimit <= 0 then old(writeSuspended) + {Bandwidth} else old(writeSuspended) - {Bandwidth}
    {
      suspended := before;
      if limit.writeLimit > 0 {
        UnsuspendWrite(Bandwidth);
      } else {
        SuspendWrite(Bandwidth);
        suspended := true;
      }
    }
  }

  function AtMost(x: int, maximum: nat): int {
    if x > maximum then maximum else x
  }

  function Max0(x: int): int {
    if x < 0 then 0 else x
  }
}
