/** How much a rate-limited bufferevent lets through: the bound of the token bucket, for runs of the
    methods that grant, count and refill. */
module Bandwidth {
  import opened Wrappers
  import opened TokenBucket
  import opened BufferEvent

  /** After some ticks, the socket has some bytes to read or takes some, or the refill event may fire. */
  datatype Step = Read(ticks: nat, bytes: nat) | Write(ticks: nat, bytes: nat) | Refill(ticks: nat)

  ghost function Duration(steps: seq<Step>): nat {
    if steps == [] then 0 else Duration(steps[..|steps| - 1]) + steps[|steps| - 1].ticks
  }

  /** What one side of a bucket has been used for since it held `start`. */
  ghost predicate UsedAs(limit: int, start: int, maximum: nat, rate: nat, uses: seq<Use>, bytes: nat, ticks: nat) {
    && Granted(start, maximum, rate, uses) && limit == LimitAfter(start, maximum, rate, uses)
    && bytes == Bytes(uses) && Ticks(uses) <= ticks
  }

  lemma {:induction false} UsedMore(limit: int, start: int, maximum: nat, rate: nat, uses: seq<Use>, bytes: nat, ticks: nat,
      u: Use, more: nat)
    requires UsedAs(limit, start, maximum, rate, uses, bytes, ticks) && ticks + u.ticks <= more
    requires u.bytes <= Max0(Refilled(limit, maximum, rate, u.ticks))
    ensures UsedAs(Refilled(limit, maximum, rate, u.ticks) - u.bytes, start, maximum, rate, uses + [u], bytes + u.bytes, more)
  {
    GrantedPush(start, maximum, rate, uses, u);
  }

  /** One step: the ticks that it puts into the bucket, and what passes. */
  method Transfer(bev: Bufferevent, step: Step, tick: nat) returns (read: nat, written: nat, ghost ticks: nat)
    requires bev.Valid() && bev.cfg.Some? && tick < U32
    modifies bev, bev.limit
    ensures bev.Valid() && bev.cfg == old(bev.cfg)
    ensures
      || (ticks == 0 && bev.limit.lastUpdated == old(bev.limit.lastUpdated))
      || (ticks == TicksBetween(old(bev.limit.lastUpdated), tick) && bev.limit.lastUpdated == tick)
    ensures var c := bev.cfg.value;
      var r := Refilled(old(bev.limit.readLimit), c.readMaximum, c.readRate, ticks);
      var w := Refilled(old(bev.limit.writeLimit), c.writeMaximum, c.writeRate, ticks);
      && read <= Max0(r) && bev.limit.readLimit == r - read
      && written <= Max0(w) && bev.limit.writeLimit == w - written
  {
    hide Refilled, TicksBetween;
    NoTicks(bev.limit.readLimit, bev.cfg.value.readMaximum, bev.cfg.value.readRate);
    NoTicks(bev.limit.writeLimit, bev.cfg.value.writeMaximum, bev.cfg.value.writeRate);
    read, written := 0, 0;
    ghost var n := TicksBetween(bev.limit.lastUpdated, tick);
    ticks := if n <= INT_MAX then n else 0;
    SameTick(bev.limit.lastUpdated, tick);
    match step {
      case Read(_, bytes) =>
        var grant := bev.GetRlimMax(false, tick);
        read := if bytes < grant then bytes else grant;
        var r := bev.DecrementReadBuckets(read);
      case Write(_, bytes) =>
        var grant := bev.GetRlimMax(true, tick);
        written := if bytes < grant then bytes else grant;
        var r := bev.DecrementWriteBuckets(written);
      case Refill(_) =>
        if bev.refillPending {
          bev.RefillCallback(tick);
        } else {
          ticks := 0;
        }
    }
  }

  lemma {:induction false} NoTicks(limit: int, maximum: nat, rate: nat)
    requires limit <= maximum
    ensures Refilled(limit, maximum, rate, 0) == limit
  {
  }

  lemma {:induction false} SameTick(last: nat, tick: nat)
    requires last < U32 && tick < U32
    ensures TicksBetween(last, tick) == 0 <==> last == tick
  {
  }

  /** The ticks of the clock, which has 32 bits, are never more than the time that passed. */
  lemma {:induction false} TicksWithin(earlier: nat, now: nat)
    requires earlier <= now
    ensures TicksBetween(earlier % U32, now % U32) <= now - earlier
  {
    var d := now - earlier;
    var k := now / U32 - earlier / U32;
    assert now % U32 - earlier % U32 == d - k * U32;
    SameRemainder(d, k);
  }

  lemma {:induction false} SameRemainder(d: nat, k: int)
    ensures (d - k * U32) % U32 <= d
  {
    assert d - k * U32 == (d / U32 - k) * U32 + d % U32;
    RemainderOf(d / U32 - k, d % U32);
  }

  lemma {:induction false} RemainderOf(q: int, r: nat)
    requires r < U32
    ensures (q * U32 + r) % U32 == r
  {
  }

  /** Any run of reading, writing and refilling: each side lets through no more than its bucket held at
      first and its rate puts in over the time of the run, as long as the configuration stays. */
  method Run(bev: Bufferevent, steps: seq<Step>) returns (read: nat, written: nat)
    requires bev.Valid() && bev.cfg.Some?
    modifies bev, bev.limit
    ensures bev.Valid() && bev.cfg == old(bev.cfg)
    ensures read <= Max0(old(bev.limit.readLimit)) + Duration(steps) * bev.cfg.value.readRate
    ensures written <= Max0(old(bev.limit.writeLimit)) + Duration(steps) * bev.cfg.value.writeRate
    ensures old(bev.limit.readLimit) >= 0 ==> bev.limit.readLimit >= 0
    ensures old(bev.limit.writeLimit) >= 0 ==> bev.limit.writeLimit >= 0
  {
    hide Refilled, TicksBetween, UsedAs;
    ghost var c, r0, w0, start := bev.cfg.value, bev.limit.readLimit, bev.limit.writeLimit, bev.limit.lastUpdated;
    ghost var inUses: seq<Use>, outUses: seq<Use>, updated := [], [], start;
    var now := bev.limit.lastUpdated;
    read, written := 0, 0;
    NotUsed(r0, c.readMaximum, c.readRate);
    NotUsed(w0, c.writeMaximum, c.writeRate);
    for i := 0 to |steps|
      invariant bev.Valid() && bev.cfg == Some(c)
      invariant start <= updated <= now == start + Duration(steps[..i]) && bev.limit.lastUpdated == updated % U32
      invariant UsedAs(bev.limit.readLimit, r0, c.readMaximum, c.readRate, inUses, read, updated - start)
      invariant UsedAs(bev.limit.writeLimit, w0, c.writeMaximum, c.writeRate, outUses, written, updated - start)
    {
      assert steps[..i + 1][..i] == steps[..i];
      now := now + steps[i].ticks;
      ghost var r, w := bev.limit.readLimit, bev.limit.writeLimit;
      TicksWithin(updated, now);
      var gotIn, gotOut;
      ghost var ticks;
      gotIn, gotOut, ticks := Transfer(bev, steps[i], now % U32);
      ghost var next := if ticks == 0 && bev.limit.lastUpdated == updated % U32 then updated else now;
      UsedMore(r, r0, c.readMaximum, c.readRate, inUses, read, updated - start, Use(ticks, gotIn), next - start);
      UsedMore(w, w0, c.writeMaximum, c.writeRate, outUses, written, updated - start, Use(ticks, gotOut), next - start);
      inUses, outUses, updated := inUses + [Use(ticks, gotIn)], outUses + [Use(ticks, gotOut)], next;
      read, written := read + gotIn, written + gotOut;
    }
    assert steps[..|steps|] == steps;
    UsedWithin(bev.limit.readLimit, r0, c.readMaximum, c.readRate, inUses, read, updated - start, Duration(steps));
    UsedWithin(bev.limit.writeLimit, w0, c.writeMaximum, c.writeRate, outUses, written, updated - start, Duration(steps));
  }

  lemma {:induction false} NotUsed(limit: int, maximum: nat, rate: nat)
    ensures UsedAs(limit, limit, maximum, rate, [], 0, 0)
  {
  }

  lemma {:induction false} UsedWithin(limit: int, start: int, maximum: nat, rate: nat, uses: seq<Use>, bytes: nat, ticks: nat, time: nat)
    requires UsedAs(limit, start, maximum, rate, uses, bytes, ticks) && start <= maximum && ticks <= time
    ensures bytes <= Max0(start) + time * rate && (start >= 0 ==> limit >= 0)
  {
    BandwidthIsBounded(start, maximum, rate, uses);
    Distribute(Ticks(uses), time - Ticks(uses), rate);
  }
}
