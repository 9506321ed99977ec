/** Token buckets: how many bytes may pass, refilled by a fixed rate at every tick. */
module TokenBucket {
  import Division

  const INT_MAX: nat := 0x7FFF_FFFF
  const U32: nat := 0x1_0000_0000
  const SIZE: nat := 0x1_0000_0000_0000_0000
  const RATE_LIMIT_MAX: nat := 0x7FFF_FFFF_FFFF_FFFF
  const SSIZE_MIN: int := -0x8000_0000_0000_0000

  /** struct ev_token_bucket_cfg, without the length of a tick; `id` stands for its address. */
  datatype Cfg = Cfg(id: int, readRate: nat, readMaximum: nat, writeRate: nat, writeMaximum: nat) {
    /** What ev_token_bucket_cfg_new accepts. */
    predicate Ok() {
      && 1 <= readRate <= readMaximum <= RATE_LIMIT_MAX
      && 1 <= writeRate <= writeMaximum <= RATE_LIMIT_MAX
    }
  }

  /** The obvious refill: `n` ticks at `rate`, up to `maximum`. */
  function Refilled(limit: int, maximum: nat, rate: nat, n: nat): int {
    if limit + n * rate > maximum then maximum else limit + n * rate
  }

  /** A bucket is full iff at least what it lacked has come in, and otherwise holds exactly what has
      come in. */
  lemma {:induction false} FullExactly(limit: int, maximum: nat, rate: nat, n: nat)
    requires limit <= maximum
    ensures Refilled(limit, maximum, rate, n) == maximum <==> n * rate >= maximum - limit
    ensures Refilled(limit, maximum, rate, n) < maximum <==> n * rate < maximum - limit
    ensures Refilled(limit, maximum, rate, n) < maximum ==> Refilled(limit, maximum, rate, n) - limit == n * rate
  {
    assert n * rate >= 0;
  }

  /** The refill of the original, which divides so as not to overflow. Its difference is one of
      unsigned 64-bit numbers. */
  function SafeRefill(limit: int, maximum: nat, rate: nat, n: nat): int
    requires n > 0
  {
    if (maximum - limit) % SIZE / n < rate then maximum else limit + n * rate
  }

  /** They agree: nothing overflows that should not. */
  lemma {:induction false} SafeRefillIsRefilled(limit: int, maximum: nat, rate: nat, n: nat)
    requires 0 < n <= INT_MAX && limit <= maximum <= RATE_LIMIT_MAX && limit >= SSIZE_MIN
    ensures SafeRefill(limit, maximum, rate, n) == Refilled(limit, maximum, rate, n)
    ensures SafeRefill(limit, maximum, rate, n) != maximum ==> n * rate <= maximum - limit < SIZE
  {
    var d := maximum - limit;
    assert d % SIZE == d;
    Division.QuotientBelow(d, n, rate);
  }

  /** Unsigned 32-bit difference of two tick counts. */
  function TicksBetween(last: nat, current: nat): (n: nat)
    ensures n < U32
  {
    (current - last) % U32
  }

  class Bucket {
    var readLimit: int
    var writeLimit: int
    var lastUpdated: nat

    constructor ()
      ensures lastUpdated == 0
    {
      readLimit, writeLimit, lastUpdated := 0, 0, 0;
    }

    /** A bucket never holds more than its maximum. */
    predicate Within(cfg: Cfg)
      reads this
    {
      && SSIZE_MIN <= readLimit <= cfg.readMaximum
      && SSIZE_MIN <= writeLimit <= cfg.writeMaximum
      && lastUpdated < U32
    }

    /** ev_token_bucket_init_ */
    method Init(cfg: Cfg, currentTick: nat, reinitialize: bool)
      requires cfg.Ok() && currentTick < U32
      requires reinitialize ==> lastUpdated < U32 && readLimit >= SSIZE_MIN && writeLimit >= SSIZE_MIN
      modifies this
      ensures Within(cfg)
      ensures !reinitialize ==> readLimit == cfg.readRate && writeLimit == cfg.writeRate && lastUpdated == currentTick
      ensures reinitialize ==>
        && lastUpdated == old(lastUpdated)
        && readLimit == Refilled(old(readLimit), cfg.readMaximum, cfg.readRate, 0)
        && writeLimit == Refilled(old(writeLimit), cfg.writeMaximum, cfg.writeRate, 0)
    {
      if reinitialize {
        if readLimit > cfg.readMaximum {
          readLimit := cfg.readMaximum;
        }
        if writeLimit > cfg.writeMaximum {
          writeLimit := cfg.writeMaximum;
        }
      } else {
        readLimit, writeLimit, lastUpdated := cfg.readRate, cfg.writeRate, currentTick;
      }
    }

    /** ev_token_bucket_update_: nothing happens if no tick has passed or time seems to go back. */
    method Update(cfg: Cfg, currentTick: nat) returns (r: int)
      requires cfg.Ok() && Within(cfg) && currentTick < U32
      modifies this
      ensures Within(cfg)
      ensures var n := TicksBetween(old(lastUpdated), currentTick);
        if 0 < n <= INT_MAX then
          && r == 1 && lastUpdated == currentTick
          && readLimit == Refilled(old(readLimit), cfg.readMaximum, cfg.readRate, n)
          && writeLimit == Refilled(old(writeLimit), cfg.writeMaximum, cfg.writeRate, n)
        else r == 0 && unchanged(this)
    {
      var n := TicksBetween(lastUpdated, currentTick);
      if n == 0 || n > INT_MAX {
        return 0;
      }
      SafeRefillIsRefilled(readLimit, cfg.readMaximum, cfg.readRate, n);
      SafeRefillIsRefilled(writeLimit, cfg.writeMaximum, cfg.writeRate, n);
      RefillGrows(readLimit, cfg.readMaximum, cfg.readRate, n);
      RefillGrows(writeLimit, cfg.writeMaximum, cfg.writeRate, n);
      if (cfg.readMaximum - readLimit) % SIZE / n < cfg.readRate {
        readLimit := cfg.readMaximum;
      } else {
        readLimit := readLimit + n * cfg.readRate;
      }
      if (cfg.writeMaximum - writeLimit) % SIZE / n < cfg.writeRate {
        writeLimit := cfg.writeMaximum;
      } else {
        writeLimit := writeLimit + n * cfg.writeRate;
      }
      lastUpdated := currentTick;
      r := 1;
    }
  }

  lemma {:induction false} RefillGrows(limit: int, maximum: nat, rate: nat, n: nat)
    requires limit <= maximum
    ensures limit <= Refilled(limit, maximum, rate, n) <= maximum
    ensures Refilled(limit, maximum, rate, n) <= limit + n * rate
  {
    assert n * rate >= 0;
  }

  // ---------- what a bucket guarantees ----------

  /** A bucket as a value. */
  datatype Level = Level(read: int, write: int, last: nat)

  function Updated(b: Level, cfg: Cfg, tick: nat): Level {
    var n := TicksBetween(b.last, tick);
    if 0 < n <= INT_MAX then
      Level(Refilled(b.read, cfg.readMaximum, cfg.readRate, n), Refilled(b.write, cfg.writeMaximum, cfg.writeRate, n), tick)
    else b
  }

  /** Refilling at a tick in between makes no difference, iff the ticks in all still count as time
      going forward. */
  lemma {:induction false} UpdateInSteps(b: Level, cfg: Cfg, m: nat, n: nat)
    requires b.last < U32 && b.read <= cfg.readMaximum && b.write <= cfg.writeMaximum && 0 < m <= INT_MAX && 0 < n <= INT_MAX
    ensures var mid, end := (b.last + m) % U32, (b.last + m + n) % U32;
      Updated(Updated(b, cfg, mid), cfg, end) == Updated(b, cfg, end) <==> m + n <= INT_MAX
  {
    hide Refilled, TicksBetween;
    var mid, end := (b.last + m) % U32, (b.last + m + n) % U32;
    TicksAfter(b.last, m);
    TicksAfter(b.last, m + n);
    TicksAfter(mid, n);
    assert end == (mid + n) % U32;
    RefillGrows(b.read, cfg.readMaximum, cfg.readRate, m);
    RefillGrows(b.write, cfg.writeMaximum, cfg.writeRate, m);
    RefillInSteps(b.read, cfg.readMaximum, cfg.readRate, m, n);
    RefillInSteps(b.write, cfg.writeMaximum, cfg.writeRate, m, n);
  }

  /** After `m` ticks, `m` ticks have passed. */
  lemma {:induction false} TicksAfter(last: nat, m: nat)
    requires last < U32 && m < U32
    ensures TicksBetween(last, (last + m) % U32) == m && (m > 0 ==> (last + m) % U32 != last)
  {
  }

  lemma {:induction false} RefillInSteps(limit: int, maximum: nat, rate: nat, m: nat, n: nat)
    requires limit <= maximum
    ensures Refilled(Refilled(limit, maximum, rate, m), maximum, rate, n) == Refilled(limit, maximum, rate, m + n)
  {
    assert (m + n) * rate == m * rate + n * rate && n * rate >= 0;
  }

  /** One round of use: some ticks pass, and then some bytes. */
  datatype Use = Use(ticks: nat, bytes: nat)

  /** Every round takes at most what bufferevent_get_rlim_max_ grants. */
  ghost predicate Granted(limit: int, maximum: nat, rate: nat, uses: seq<Use>)
    decreases uses
  {
    uses == [] ||
    (var now := Refilled(limit, maximum, rate, uses[0].ticks);
     uses[0].bytes <= (if now < 0 then 0 else now) && Granted(now - uses[0].bytes, maximum, rate, uses[1..]))
  }

  ghost function LimitAfter(limit: int, maximum: nat, rate: nat, uses: seq<Use>): int
    decreases uses
  {
    if uses == [] then limit
    else LimitAfter(Refilled(limit, maximum, rate, uses[0].ticks) - uses[0].bytes, maximum, rate, uses[1..])
  }

  ghost function Ticks(uses: seq<Use>): nat {
    if uses == [] then 0 else uses[0].ticks + Ticks(uses[1..])
  }

  ghost function Bytes(uses: seq<Use>): nat {
    if uses == [] then 0 else uses[0].bytes + Bytes(uses[1..])
  }

  /** Over any run no more passes than the bucket held at first and what the ticks put in, and the
      bucket does not go into debt, or not deeper. */
  lemma {:induction false} BandwidthIsBounded(limit: int, maximum: nat, rate: nat, uses: seq<Use>)
    requires limit <= maximum && Granted(limit, maximum, rate, uses)
    ensures (if limit < 0 then limit else 0) <= LimitAfter(limit, maximum, rate, uses) <= maximum
    ensures Bytes(uses) + LimitAfter(limit, maximum, rate, uses) <= limit + Ticks(uses) * rate
    decreases uses
  {
    if uses != [] {
      hide Refilled;
      var u := uses[0];
      RefillGrows(limit, maximum, rate, u.ticks);
      var next := Refilled(limit, maximum, rate, u.ticks) - u.bytes;
      BandwidthIsBounded(next, maximum, rate, uses[1..]);
      Distribute(u.ticks, Ticks(uses[1..]), rate);
    }
  }

  /** One more round. */
  lemma {:induction false} GrantedPush(limit: int, maximum: nat, rate: nat, uses: seq<Use>, u: Use)
    requires Granted(limit, maximum, rate, uses)
    ensures var now := Refilled(LimitAfter(limit, maximum, rate, uses), maximum, rate, u.ticks);
      && (u.bytes <= (if now < 0 then 0 else now) ==> Granted(limit, maximum, rate, uses + [u]))
      && LimitAfter(limit, maximum, rate, uses + [u]) == now - u.bytes
    ensures Ticks(uses + [u]) == Ticks(uses) + u.ticks && Bytes(uses + [u]) == Bytes(uses) + u.bytes
    decreases uses
  {
    if uses == [] {
      assert uses + [u] == [u] && [u][1..] == [];
    } else {
      hide Refilled;
      assert (uses + [u])[0] == uses[0] && (uses + [u])[1..] == uses[1..] + [u];
      GrantedPush(Refilled(limit, maximum, rate, uses[0].ticks) - uses[0].bytes, maximum, rate, uses[1..], u);
    }
  }

  lemma {:induction false} Distribute(a: nat, b: nat, rate: nat)
    ensures (a + b) * rate == a * rate + b * rate
  {
  }

  /** A bucket in debt is back above zero once the ticks have paid for it, and no sooner. */
  lemma {:induction false} DebtIsPaid(limit: int, maximum: nat, rate: nat, n: nat)
    requires limit <= 0 && 1 <= rate <= maximum
    ensures Refilled(limit, maximum, rate, n) > 0 <==> n > -limit / rate
  {
    Division.QuotientBelow(-limit, rate, n);
    assert n * rate == rate * n;
  }
}
