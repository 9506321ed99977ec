/** Space at the end of an evbuffer in several pieces: evbuffer_expand_fast_,
    evbuffer_reserve_space and evbuffer_commit_space. */
module EvBufferReserve {
  import opened Bytes
  import opened EvBufferCore
  import opened EvBufferMove
  import opened EvBufferExpand

  /** Free bytes behind the data of the `m` chunks from `f` on. */
  ghost function SpaceSum(cells: seq<Cell>, f: nat, m: nat): int
    requires f + m <= |cells|
  {
    if m == 0 then 0 else SpaceSum(cells, f, m - 1) + Space(cells[f + m - 1])
  }

  lemma {:induction false} SpaceSumSame(a: seq<Cell>, b: seq<Cell>, f: nat, m: nat)
    requires f + m <= |a| && f + m <= |b| && forall i :: f <= i < f + m ==> a[i] == b[i]
    ensures SpaceSum(a, f, m) == SpaceSum(b, f, m)
  {
    if m != 0 {
      SpaceSumSame(a, b, f, m - 1);
    }
  }

  /** No data in the chunk: its free space is moved to its end. */
  lemma {:induction false} FlatRewind(cells: seq<Cell>, i: nat)
    requires AllOk(cells) && i < |cells| && cells[i].off == 0
    ensures AllOk(cells[i := cells[i].(misalign := 0)]) && Flat(cells[i := cells[i].(misalign := 0)]) == Flat(cells)
  {
    var c := cells[i].(misalign := 0);
    FlatAround(cells, i);
    FlatAround(cells[i := c], i);
    assert cells[i := c][..i] == cells[..i] && cells[i := c][i + 1..] == cells[i + 1..];
  }

  method RewindEmpty(buf: EvBuffer, chain: Chain, ghost i: nat)
    requires buf.Linked() && buf.Sized() && i < |buf.chains| && chain == buf.chains[i] && chain.off == 0
    modifies buf`cells, chain`misalign
    ensures buf.Linked() && buf.Sized() && chain.misalign == 0 && buf.Contents() == old(buf.Contents())
    ensures buf.cells == old(buf.cells)[i := old(buf.cells)[i].(misalign := 0)]
  {
    hide Flat;
    FlatRewind(buf.cells, i);
    chain.misalign := 0;
    buf.cells := buf.cells[i := buf.cells[i].(misalign := 0)];
  }

  /** The chunks after the last one with data has been rewound, which only happens if it is empty. */
  ghost function RewoundLast(cells: seq<Cell>, i: nat): (r: seq<Cell>)
    requires i < |cells|
    ensures |r| == |cells|
  {
    if cells[i].off == 0 then cells[i := cells[i].(misalign := 0)] else cells
  }

  /** What the loop of evbuffer_expand_fast_ knows before looking at chunk `i`. */
  ghost predicate Counted(cells: seq<Cell>, lwd: nat, i: nat, avail: int, used: int)
    requires IsLastData(cells, lwd)
  {
    && lwd <= i <= |cells|
    && (i == lwd ==> avail == 0 && used == 0)
    && (i > lwd ==> used == i - FirstWithSpace(cells, lwd) && avail == SpaceSum(cells, FirstWithSpace(cells, lwd), used))
  }

  lemma {:induction false} CountStep(cells: seq<Cell>, after: seq<Cell>, lwd: nat, i: nat, avail: int, used: int)
    requires AllOk(cells) && AllOk(after) && IsLastData(cells, lwd) && Counted(cells, lwd, i, avail, used) && i < |cells|
    requires IsLastData(after, lwd) && |after| == |cells| && forall j :: 0 <= j < i ==> after[j] == cells[j]
    requires after[i].off == 0 ==> Space(after[i]) > 0
    ensures Counted(after, lwd, i + 1, avail + Space(after[i]), if Space(after[i]) == 0 then used else used + 1)
  {
    if i > lwd {
      SpaceSumSame(cells, after, FirstWithSpace(cells, lwd), used);
    }
  }

  /** One round of the loop of evbuffer_expand_fast_. */
  method CountChain(buf: EvBuffer, chain: Chain, avail0: nat, used0: nat, ghost i: nat) returns (avail: nat, used: nat)
    requires buf.Valid() && i < |buf.chains| && chain == buf.chains[i]
    requires Counted(buf.cells, buf.lwd, i, avail0, used0)
    modifies buf`cells, chain`misalign
    ensures buf.Valid() && buf.Contents() == old(buf.Contents())
    ensures Counted(buf.cells, buf.lwd, i + 1, avail, used) && used <= used0 + 1
    ensures buf.cells == RewoundLast(old(buf.cells), i)
  {
    hide Flat;
    avail, used := avail0, used0;
    ghost var cells := buf.cells;
    if chain.off == 0 {
      RewindEmpty(buf, chain, i);
    }
    var space := chain.SpaceLen();
    assert chain.ToCell() == buf.cells[i] && buf.cells[i].Ok();
    CountStep(cells, buf.cells, buf.lwd, i, avail, used);
    if space != 0 {
      avail, used := avail + space, used + 1;
    }
  }

  /** The loop of evbuffer_expand_fast_: adds up the space in the chunks from the last data on,
      until there is enough or `n` chunks are used. */
  method TrailingSpace(buf: EvBuffer, datlen: nat, n: nat) returns (chain: Chain?, avail: nat, used: nat, ghost i: nat)
    requires buf.Valid() && buf.chains != [] && 2 <= n
    modifies buf`cells, buf.chains
    ensures buf.Valid() && buf.Contents() == old(buf.Contents())
    ensures Counted(buf.cells, buf.lwd, i, avail, used) && buf.lwd < i && used <= n
    ensures avail < datlen ==> used == n || (chain == null && i == |buf.chains|)
    ensures datlen == 0 ==> buf.cells == RewoundLast(old(buf.cells), buf.lwd)
  {
    hide Flat, SpaceSum, FirstWithSpace, RewoundLast, AllOk;
    avail, used, i := 0, 0, buf.lwd;
    DerefAt(buf, i);
    chain := Deref(buf.last_with_datap);
    while chain != null
      invariant buf.Valid() && buf.Contents() == old(buf.Contents()) && used < n
      invariant Counted(buf.cells, buf.lwd, i, avail, used) && (i == buf.lwd || avail < datlen)
      invariant i == buf.lwd ==> buf.cells == old(buf.cells)
      invariant chain == if i < |buf.chains| then buf.chains[i] else null
      decreases |buf.chains| - i
    {
      avail, used := CountChain(buf, chain, avail, used, i);
      i := i + 1;
      if avail >= datlen || used == n {
        break;
      }
      chain := chain.next;
    }
  }

  lemma {:induction false} AppendEmptyCell(cells: seq<Cell>, lwd: nat, c: Cell)
    requires AllOk(cells) && IsLastData(cells, lwd) && c.Ok() && c.off == 0
    ensures AllOk(cells + [c]) && IsLastData(cells + [c], lwd) && Flat(cells + [c]) == Flat(cells)
  {
    FlatOne(c);
    FlatConcat(cells, [c]);
  }

  /** Puts the empty chunk `tmp` at the link `chp` that ends the list. */
  method AppendEmpty(buf: EvBuffer, chp: NextPtr, tmp: Chain)
    requires buf.Valid() && chp == buf.PtrAt(|buf.chains|)
    requires tmp !in buf.chains && tmp.next == null && tmp.ToCell().Ok() && tmp.off == 0
    modifies buf`first, buf`last, buf`chains, buf`cells, buf.chains
    ensures buf.Valid() && buf.Contents() == old(buf.Contents())
    ensures buf.chains == old(buf.chains) + [tmp] && buf.cells == old(buf.cells) + [old(tmp.ToCell())]
  {
    hide Flat;
    AppendEmptyCell(buf.cells, buf.lwd, tmp.ToCell());
    LinkAtEnd(buf, chp, tmp);
    buf.last := tmp;
  }

  /** Drops all empty chunks at the end, and all chunks if none has data. */
  method DropEmpties(buf: EvBuffer) returns (chp: NextPtr, ghost k: nat)
    requires buf.Valid() && buf.chains != []
    modifies buf`first, buf`last, buf`chains, buf`cells, buf.chains
    ensures buf.Valid() && buf.Contents() == old(buf.Contents())
    ensures k == TrimmedLength(old(buf.cells), buf.lwd) && chp == buf.PtrAt(k)
    ensures buf.chains == old(buf.chains)[..k] && buf.cells == old(buf.cells)[..k]
  {
    hide Flat;
    DerefAt(buf, buf.lwd);
    var lastWithData := Deref(buf.last_with_datap);
    if lastWithData.off == 0 {
      lastWithData := null;
    }
    chp, k := FreeTrailingEmptyChains(buf);
    buf.last := lastWithData;
  }

  lemma {:induction false} SpaceOne(cells: seq<Cell>, f: nat)
    requires f < |cells|
    ensures SpaceSum(cells, f, 1) == Space(cells[f])
    ensures f + 1 < |cells| ==> SpaceSum(cells, f, 2) == Space(cells[f]) + Space(cells[f + 1])
  {
    assert SpaceSum(cells, f, 0) == 0;
    assert SpaceSum(cells, f, 1) == Space(cells[f]);
  }

  /** The first `m` chunks with space at the end of the buffer have `datlen` free bytes. */
  ghost predicate HasSpace(cells: seq<Cell>, lwd: nat, m: nat, datlen: nat)
    requires IsLastData(cells, lwd)
  {
    var f := FirstWithSpace(cells, lwd);
    f + m <= |cells| && SpaceSum(cells, f, m) >= datlen
  }

  lemma {:induction false} OneMoreChunk(cells: seq<Cell>, lwd: nat, avail: nat, used: nat, datlen: nat, c: Cell)
    requires AllOk(cells) && IsLastData(cells, lwd) && Counted(cells, lwd, |cells|, avail, used) && lwd < |cells|
    requires c.off == 0 && c.misalign == 0 && avail + |c.buffer| >= datlen
    ensures IsLastData(cells + [c], lwd) && HasSpace(cells + [c], lwd, used + 1, datlen)
  {
    SpaceSumSame(cells, cells + [c], FirstWithSpace(cells, lwd), used);
  }

  /** After replacing the empty chunks behind chunk `lwd` by `c`, two chunks have the space. */
  lemma {:induction false} ReplacedHasSpace(cells: seq<Cell>, lwd: nat, datlen: nat, avail: nat, c: Cell)
    requires AllOk(cells) && IsLastData(cells, lwd) && cells != [] && c.Ok() && c.off == 0 && c.misalign == 0
    requires avail == (if cells[lwd].off == 0 then 0 else Space(cells[lwd])) && avail + |c.buffer| >= datlen
    ensures var after := Inserted(cells, lwd, c);
      IsLastData(after, lwd) && (HasSpace(after, lwd, 1, datlen) || HasSpace(after, lwd, 2, datlen))
  {
    var after := Inserted(cells, lwd, c);
    SpaceOne(after, FirstWithSpace(after, lwd));
  }

  lemma {:induction false} FirstSpaceWithin(cells: seq<Cell>, f: nat, m: nat)
    requires AllOk(cells) && f + m <= |cells| && 0 < m
    ensures SpaceSum(cells, f, m) >= Space(cells[f])
  {
    if m == 1 {
      SpaceOne(cells, f);
    } else {
      FirstSpaceWithin(cells, f, m - 1);
    }
  }

  /** Free bytes behind the last data; an empty buffer counts as having none. */
  ghost function LastSpace(cells: seq<Cell>, lwd: nat): int
    requires lwd < |cells|
  {
    if cells[lwd].off == 0 then 0 else Space(cells[lwd])
  }

  lemma {:induction false} LastSpaceWithin(cells: seq<Cell>, lwd: nat, i: nat, avail: nat, used: nat)
    requires AllOk(cells) && IsLastData(cells, lwd) && Counted(cells, lwd, i, avail, used) && lwd < i && 0 < used
    ensures 0 <= LastSpace(cells, lwd) <= avail
  {
    FirstSpaceWithin(cells, FirstWithSpace(cells, lwd), used);
  }

  /** evbuffer_expand_fast_: never moves data. `m` chunks will do for `datlen` bytes. */
  method ExpandFast(buf: EvBuffer, datlen: nat, n: nat) returns (result: int, ghost m: nat)
    requires buf.Valid() && 2 <= n
    modifies buf, buf.chains
    ensures buf.Valid() && OnlyFreshChains(buf) && SameSettings(buf) && SameCounters(buf)
    ensures buf.Contents() == old(buf.Contents())
    ensures result == 0 || result == -1
    ensures datlen <= CHAIN_MAX - CHAIN_SIZE ==> result == 0
    ensures result == 0 ==> m <= n && HasSpace(buf.cells, buf.lwd, m, datlen)
    ensures datlen == 0 && old(buf.chains) != [] ==> buf.cells == RewoundLast(old(buf.cells), old(buf.lwd)) && buf.lwd == old(buf.lwd)
    ensures old(buf.chains) == [] && result == 0 ==> FirstWithSpace(buf.cells, buf.lwd) < |buf.cells|
  {
    hide Flat, EvBuffer.Linked, IsLastData, Counted, HasSpace, RewoundLast, SpaceSum, FirstWithSpace;
    if buf.last == null {
      result := FirstChunk(buf, datlen);
      return result, 1;
    }
    var chain, avail, used, i := TrailingSpace(buf, datlen, n);
    Shape(buf);
    if avail >= datlen {
      EnoughCounted(buf.cells, buf.lwd, i, avail, used, datlen);
      return 0, used;
    }
    if used < n {
      result := AddTail(buf, datlen - avail, avail, used);
      m := used + 1;
    } else {
      LastSpaceWithin(buf.cells, buf.lwd, i, avail, used);
      result, m := ReplaceTail(buf, datlen);
    }
  }

  lemma {:induction false} EnoughCounted(cells: seq<Cell>, lwd: nat, i: nat, avail: nat, used: nat, datlen: nat)
    requires IsLastData(cells, lwd) && Counted(cells, lwd, i, avail, used) && lwd < i && avail >= datlen
    ensures HasSpace(cells, lwd, used, datlen)
  {
  }

  /** evbuffer_expand_fast_ of a buffer without chunks. */
  method FirstChunk(buf: EvBuffer, datlen: nat) returns (result: int)
    requires buf.Valid() && buf.chains == []
    modifies buf, buf.chains
    ensures buf.Valid() && OnlyFreshChains(buf) && SameSettings(buf) && SameCounters(buf)
    ensures buf.Contents() == old(buf.Contents())
    ensures result == if datlen <= CHAIN_MAX - CHAIN_SIZE then 0 else -1
    ensures result == 0 ==> HasSpace(buf.cells, buf.lwd, 1, datlen) && FirstWithSpace(buf.cells, buf.lwd) < |buf.cells|
  {
    hide Flat;
    var chain := ChainInsertNew(buf, datlen);
    if chain == null {
      return -1;
    }
    assert buf.cells == [chain.ToCell()];
    SpaceOne(buf.cells, 0);
    result := 0;
  }

  /** evbuffer_expand_fast_ when there are too few chunks with space: adds one. */
  method AddTail(buf: EvBuffer, size: nat, ghost avail: nat, ghost used: nat) returns (result: int)
    requires buf.Valid() && buf.chains != [] && Counted(buf.cells, buf.lwd, |buf.cells|, avail, used)
    modifies buf, buf.chains
    ensures buf.Valid() && OnlyFreshChains(buf) && SameSettings(buf) && SameCounters(buf)
    ensures buf.Contents() == old(buf.Contents())
    ensures result == if size > CHAIN_MAX - CHAIN_SIZE then -1 else 0
    ensures result == 0 ==> HasSpace(buf.cells, buf.lwd, used + 1, avail + size)
  {
    hide Flat;
    var tmp := ChainNew(size);
    if tmp == null {
      return -1;
    }
    OneMoreChunk(buf.cells, buf.lwd, avail, used, avail + size, tmp.ToCell());
    AppendEmpty(buf, NextOf(buf.last), tmp);
    result := 0;
  }

  /** evbuffer_expand_fast_ when `n` chunks have too little space: replaces the empty ones. */
  method ReplaceTail(buf: EvBuffer, datlen: nat) returns (result: int, ghost m: nat)
    requires buf.Valid() && buf.chains != [] && 0 <= LastSpace(buf.cells, buf.lwd) <= datlen
    modifies buf, buf.chains
    ensures buf.Valid() && OnlyFreshChains(buf) && SameSettings(buf) && SameCounters(buf)
    ensures buf.Contents() == old(buf.Contents())
    ensures result == 0 || result == -1
    ensures datlen <= CHAIN_MAX - CHAIN_SIZE ==> result == 0
    ensures result == 0 ==> m <= 2 && HasSpace(buf.cells, buf.lwd, m, datlen)
  {
    hide Flat, EvBuffer.Linked, IsLastData;
    m := 0;
    Shape(buf);
    DerefAt(buf, buf.lwd);
    var chain := Deref(buf.last_with_datap);
    var avail := if chain.off == 0 then 0 else chain.SpaceLen();
    assert avail == LastSpace(buf.cells, buf.lwd);
    var chp, k := DropEmpties(buf);
    var tmp := ChainNew(datlen - avail);
    if tmp == null {
      return -1, 0;
    }
    ReplacedHasSpace(old(buf.cells), buf.lwd, datlen, avail, tmp.ToCell());
    AppendEmpty(buf, chp, tmp);
    m := if HasSpace(buf.cells, buf.lwd, 1, datlen) then 1 else 2;
    result := 0;
  }

  // ---------- reserving and committing ----------

  /** A piece of free memory: `len` bytes of a chunk's buffer from offset `base`. */
  datatype IoVec = IoVec(chain: Chain, base: nat, len: nat)

  /** `v` is the start of the free space of chunk `i`. */
  ghost predicate VecAt(buf: EvBuffer, v: IoVec, i: nat)
    reads buf
  {
    && i < |buf.chains| == |buf.cells|
    && v.chain == buf.chains[i]
    && v.base == buf.cells[i].misalign + buf.cells[i].off
    && v.len <= Space(buf.cells[i])
  }

  ghost function TotalLen(vecs: seq<IoVec>): nat {
    if vecs == [] then 0 else TotalLen(vecs[..|vecs| - 1]) + vecs[|vecs| - 1].len
  }

  /** The pieces are at the free space of the chunks from `f` on; all of it, if `full`. */
  ghost predicate VecsFrom(buf: EvBuffer, vecs: seq<IoVec>, f: nat, full: bool)
    reads buf
  {
    && f + |vecs| <= |buf.chains| == |buf.cells|
    && (forall j :: 0 <= j < |vecs| ==> VecAt(buf, vecs[j], f + j))
    && (full ==> forall j :: 0 <= j < |vecs| ==> vecs[j].len == Space(buf.cells[f + j]))
  }

  lemma {:induction false} VecsFromPush(buf: EvBuffer, vecs: seq<IoVec>, f: nat, full: bool, v: IoVec)
    requires VecsFrom(buf, vecs, f, full) && VecAt(buf, v, f + |vecs|)
    ensures TotalLen(vecs + [v]) == TotalLen(vecs) + v.len
    ensures VecsFrom(buf, vecs + [v], f, full && v.len == Space(buf.cells[f + |vecs|]))
  {
    assert (vecs + [v])[..|vecs|] == vecs;
  }

  lemma {:induction false} SpaceSumMonotone(cells: seq<Cell>, f: nat, m: nat, n: nat)
    requires AllOk(cells) && m <= n && f + n <= |cells|
    ensures SpaceSum(cells, f, m) <= SpaceSum(cells, f, n)
  {
    if m < n {
      SpaceSumMonotone(cells, f, m, n - 1);
    }
  }

  lemma {:induction false} NoVecs(buf: EvBuffer, cells: seq<Cell>, f: nat)
    requires f <= |buf.chains| == |buf.cells| && cells == buf.cells
    ensures VecsFrom(buf, [], f, true) && TotalLen([]) == 0 && SpaceSum(cells, f, 0) == 0
  {
  }

  /** evbuffer_read_setup_vecs_, for a buffer with some space. With `exact` the pieces have
      `howmuch` bytes in all, without it they are all the space of the chunks used. */
  method ReadSetupVecs(buf: EvBuffer, howmuch: nat, nVecs: nat, exact: bool, ghost m: nat) returns (vecs: seq<IoVec>)
    requires buf.Consistent() && FirstWithSpace(buf.cells, buf.lwd) < |buf.cells|
    requires m <= nVecs && HasSpace(buf.cells, buf.lwd, m, howmuch)
    ensures |vecs| <= nVecs && VecsFrom(buf, vecs, FirstWithSpace(buf.cells, buf.lwd), !exact)
    ensures TotalLen(vecs) >= howmuch && (exact ==> TotalLen(vecs) == howmuch)
  {
    hide Flat, EvBuffer.Linked, IsLastData, TotalLen, VecAt;
    Shape(buf);
    NoVecs(buf, buf.cells, FirstWithSpace(buf.cells, buf.lwd));
    var chainp, chain, f := FindSpace(buf);
    vecs := [];
    var soFar := 0;
    while |vecs| < nVecs && soFar < howmuch
      invariant |vecs| <= nVecs && soFar == TotalLen(vecs) && (exact ==> soFar <= howmuch)
      invariant VecsFrom(buf, vecs, f, !exact || soFar < howmuch)
      invariant !exact || soFar < howmuch ==> soFar == SpaceSum(buf.cells, f, |vecs|)
      invariant chain == if f + |vecs| < |buf.chains| then buf.chains[f + |vecs|] else null
      decreases nVecs - |vecs|
    {
      if |vecs| >= m {
        SpaceSumMonotone(buf.cells, f, m, |vecs|);
      }
      var v := SetupVec(buf, chain, howmuch - soFar, exact, f + |vecs|);
      VecsFromPush(buf, vecs, f, true, v);
      vecs := vecs + [v];
      soFar := soFar + v.len;
      chain := chain.next;
    }
    if soFar < howmuch {
      SpaceSumMonotone(buf.cells, f, m, nVecs);
    }
  }

  /** One round of evbuffer_read_setup_vecs_. */
  method SetupVec(buf: EvBuffer, chain: Chain, wanted: nat, exact: bool, ghost i: nat) returns (v: IoVec)
    requires buf.Consistent() && i < |buf.chains| && chain == buf.chains[i]
    ensures VecAt(buf, v, i) && v.len == if exact && Space(buf.cells[i]) > wanted then wanted else Space(buf.cells[i])
    ensures chain.next == if i + 1 < |buf.chains| then buf.chains[i + 1] else null
  {
    hide Flat;
    assert chain.ToCell() == buf.cells[i] && buf.cells[i].Ok();
    var avail := chain.SpaceLen();
    if avail > wanted && exact {
      avail := wanted;
    }
    v := IoVec(chain, chain.misalign + chain.off, avail);
  }

  /** evbuffer_reserve_space ends with memory pieces, with -1, or in a failing EVUTIL_ASSERT. */
  datatype Reserved = Vecs(vecs: seq<IoVec>) | Failed | AssertionFailed

  /** The last chunk has data and no space behind it. */
  ghost predicate LastIsFull(buf: EvBuffer)
    requires buf.Consistent()
    reads buf, buf.chains
  {
    buf.lwd + 1 == |buf.cells| && buf.cells[buf.lwd].off > 0 && Space(buf.cells[buf.lwd]) == 0
  }

  lemma {:induction false} RewoundSpace(cells: seq<Cell>, lwd: nat)
    requires AllOk(cells) && IsLastData(cells, lwd) && lwd < |cells|
    ensures IsLastData(RewoundLast(cells, lwd), lwd)
    ensures FirstWithSpace(RewoundLast(cells, lwd), lwd) == |cells| <==>
            lwd + 1 == |cells| && cells[lwd].off > 0 && Space(cells[lwd]) == 0
  {
  }

  /** SpaceSum over no chunk is no space. */
  lemma {:induction false} SomeSpaceNeedsChunk(cells: seq<Cell>, lwd: nat, m: nat, size: nat)
    requires IsLastData(cells, lwd) && HasSpace(cells, lwd, m, size) && 0 < size
    ensures FirstWithSpace(cells, lwd) < |cells|
  {
  }

  /** Expanding for evbuffer_reserve_space, and when it leaves no space at all. */
  method ExpandMany(buf: EvBuffer, size: int, nVecs: nat) returns (result: int, ghost m: nat)
    requires buf.Valid() && 2 <= nVecs && SSIZE_MIN <= size
    modifies buf, buf.chains
    ensures buf.Valid() && OnlyFreshChains(buf) && SameSettings(buf) && SameCounters(buf)
    ensures buf.Contents() == old(buf.Contents()) && |buf.cells| == |buf.chains|
    ensures 0 <= size <= CHAIN_MAX - CHAIN_SIZE ==> result >= 0
    ensures result >= 0 && 0 <= size ==>
      && m <= nVecs && HasSpace(buf.cells, buf.lwd, m, size)
      && (FirstWithSpace(buf.cells, buf.lwd) == |buf.cells| <==> size == 0 && old(LastIsFull(buf)))
  {
    hide Flat;
    result, m := ExpandFast(buf, ToSize(size), nVecs);
    if result >= 0 && size >= 0 {
      if size > 0 {
        SomeSpaceNeedsChunk(buf.cells, buf.lwd, m, size);
      } else if old(buf.chains) != [] {
        RewoundSpace(old(buf.cells), old(buf.lwd));
      }
    }
  }

  /** evbuffer_reserve_space with two or more pieces. */
  method ReserveMany(buf: EvBuffer, size: int, nVecs: nat) returns (r: Reserved)
    requires buf.Valid() && 2 <= nVecs && SSIZE_MIN <= size
    modifies buf, buf.chains
    ensures buf.Valid() && OnlyFreshChains(buf) && SameSettings(buf) && SameCounters(buf)
    ensures buf.Contents() == old(buf.Contents())
    ensures r.AssertionFailed? <==> size == 0 && old(LastIsFull(buf))
    ensures 0 <= size <= CHAIN_MAX - CHAIN_SIZE ==> !r.Failed?
    ensures r.Vecs? ==> 0 <= size <= TotalLen(r.vecs) && |r.vecs| <= nVecs
    ensures r.Vecs? ==> VecsFrom(buf, r.vecs, FirstWithSpace(buf.cells, buf.lwd), true)
  {
    hide Flat, EvBuffer.Linked, HasSpace, LastIsFull, FirstWithSpace;
    var result, m := ExpandMany(buf, size, nVecs);
    if result < 0 || size < 0 {
      return Failed;
    }
    var chainp, chain, f := FindSpace(buf);
    if chain == null {
      return AssertionFailed;
    }
    var vecs := ReadSetupVecs(buf, size, nVecs, false, m);
    r := Vecs(vecs);
  }

  /** Conversion of a signed size to size_t. */
  function ToSize(size: int): (n: nat)
    requires SSIZE_MIN <= size
    ensures if 0 <= size then n == size else n > CHAIN_MAX
  {
    if size >= 0 then size else size + SIZE_MAX + 1
  }

  /** evbuffer_reserve_space. `at` is the chunk of a single piece. */
  method ReserveSpace(buf: EvBuffer, size: int, nVecs: int) returns (r: Reserved, ghost at: nat)
    requires buf.Valid() && SSIZE_MIN <= size
    modifies buf, buf.chains
    ensures buf.Valid() && OnlyFreshChains(buf) && SameSettings(buf) && SameCounters(buf)
    ensures buf.Contents() == old(buf.Contents())
    ensures buf.freeze_end || nVecs < 1 ==> r.Failed? && unchanged(buf) && unchanged(old(buf.chains))
    ensures r.AssertionFailed? <==> !buf.freeze_end && 2 <= nVecs && size == 0 && old(LastIsFull(buf))
    ensures !buf.freeze_end && 1 <= nVecs && 0 <= size <= CHAIN_MAX - CHAIN_SIZE - MAX_TO_COPY_IN_EXPAND ==> !r.Failed?
    ensures r.Vecs? ==> 0 <= size <= TotalLen(r.vecs) && |r.vecs| <= nVecs
    ensures r.Vecs? && 2 <= nVecs ==> VecsFrom(buf, r.vecs, FirstWithSpace(buf.cells, buf.lwd), true)
    ensures r.Vecs? && nVecs == 1 ==> |r.vecs| == 1 && VecsFrom(buf, r.vecs, at, true)
    ensures r.Vecs? && nVecs == 1 ==> AtChoice(buf, at, Chosen(old(buf.cells), old(buf.lwd), size), |old(buf.chains)|)
    ensures r.Vecs? && nVecs == 1 ==>
      forall used: seq<IoVec> :: used != [] && UsedOf(used, r.vecs) ==>
        (Committable(buf, used) <==> !SkipsSpace(old(buf.cells), old(buf.lwd), size))
  {
    hide Flat, EvBuffer.Linked, IsLastData, Committable, UsedOf, SkipsSpace;
    if buf.freeze_end || nVecs < 1 {
      return Failed, 0;
    }
    if nVecs == 1 {
      r, at := ReserveOne(buf, size);
    } else {
      r := ReserveMany(buf, size, nVecs);
      at := 0;
    }
  }

  /** evbuffer_reserve_space with one piece. A part of it can be committed, unless the chunk lies
      behind the first one with space and is not the last one either. */
  method ReserveOne(buf: EvBuffer, size: int) returns (r: Reserved, ghost at: nat)
    requires buf.Valid() && SSIZE_MIN <= size
    modifies buf, buf.chains
    ensures buf.Valid() && OnlyFreshChains(buf) && SameSettings(buf) && SameCounters(buf)
    ensures buf.Contents() == old(buf.Contents()) && !r.AssertionFailed?
    ensures 0 <= size <= CHAIN_MAX - CHAIN_SIZE - MAX_TO_COPY_IN_EXPAND ==> !r.Failed?
    ensures r.Vecs? ==> 0 <= size <= TotalLen(r.vecs) && |r.vecs| == 1 && VecsFrom(buf, r.vecs, at, true)
    ensures r.Vecs? ==> AtChoice(buf, at, Chosen(old(buf.cells), old(buf.lwd), size), |old(buf.chains)|)
    ensures r.Vecs? ==>
      forall used: seq<IoVec> :: used != [] && UsedOf(used, r.vecs) ==>
        (Committable(buf, used) <==> !SkipsSpace(old(buf.cells), old(buf.lwd), size))
  {
    hide Flat, EvBuffer.Linked, IsLastData, Committable, UsedOf, SkipsSpace, AtStart, FirstWithSpace, Chosen;
    var chain;
    chain, at := ExpandSinglechain(buf, ToSize(size));
    if chain == null {
      return Failed, at;
    }
    CellOf(buf, at);
    var v := SetupVec(buf, chain, size, false, at);
    TotalLenOne(v);
    r := Vecs([v]);
    forall used: seq<IoVec> | used != [] && UsedOf(used, r.vecs)
      ensures Committable(buf, used) <==> !SkipsSpace(old(buf.cells), old(buf.lwd), size)
    {
      SingleReservationCommits(buf, v, at, used);
    }
  }

  lemma {:induction false} TotalLenOne(v: IoVec)
    ensures TotalLen([v]) == v.len
  {
    assert [v][..0] == [];
  }

  /** The pieces of memory that a reservation hands out are free: they lie behind the data of
      their chunk and inside its buffer, and no two are in the same chunk. */
  lemma {:induction false} ReservedMemoryIsFree(buf: EvBuffer, vecs: seq<IoVec>, f: nat)
    requires buf.Consistent() && VecsFrom(buf, vecs, f, true)
    ensures forall i :: 0 <= i < |vecs| ==>
      vecs[i].chain.misalign + vecs[i].chain.off <= vecs[i].base && vecs[i].base + vecs[i].len == |vecs[i].chain.buffer|
    ensures forall i, j :: 0 <= i < j < |vecs| ==> vecs[i].chain != vecs[j].chain
  {
    forall i | 0 <= i < |vecs|
      ensures vecs[i].chain.misalign + vecs[i].chain.off <= vecs[i].base && vecs[i].base + vecs[i].len == |vecs[i].chain.buffer|
    {
      assert VecAt(buf, vecs[i], f + i);
      assert buf.chains[f + i].misalign == buf.cells[f + i].misalign;
    }
    forall i, j | 0 <= i < j < |vecs|
      ensures vecs[i].chain != vecs[j].chain
    {
      assert VecAt(buf, vecs[i], f + i) && VecAt(buf, vecs[j], f + j);
    }
  }

  // ---------- committing ----------

  /** The first `n` bytes of memory behind a chunk's data. */
  ghost function Behind(c: Cell, n: nat): seq<Byte>
    requires c.Ok() && n <= Space(c)
  {
    c.buffer[c.misalign + c.off..c.misalign + c.off + n]
  }

  ghost function Grown(c: Cell, n: nat): (r: Cell)
    requires c.Ok() && n <= Space(c)
    ensures r.Ok() && r.Data() == c.Data() + Behind(c, n) && r.off == c.off + n
  {
    c.(off := c.off + n)
  }

  /** The pieces fit the chunks from `f` on. */
  ghost predicate Fits(cells: seq<Cell>, f: nat, vecs: seq<IoVec>) {
    f + |vecs| <= |cells| && forall j :: 0 <= j < |vecs| ==> vecs[j].len <= Space(cells[f + j])
  }

  /** The memory that the pieces stand for, in order. */
  ghost function Committed(cells: seq<Cell>, f: nat, vecs: seq<IoVec>): seq<Byte>
    requires AllOk(cells) && Fits(cells, f, vecs)
    decreases |vecs|
  {
    if vecs == [] then []
    else Committed(cells, f, vecs[..|vecs| - 1]) + Behind(cells[f + |vecs| - 1], vecs[|vecs| - 1].len)
  }

  /** Appends `n` bytes of memory to chunk `k`, which only empty chunks follow. */
  method GrowChunk(buf: EvBuffer, chain: Chain, n: nat, ghost k: nat)
    requires buf.Linked() && AllOk(buf.cells) && k < |buf.chains| && chain == buf.chains[k] && n <= Space(buf.cells[k])
    requires forall i :: k < i < |buf.cells| ==> buf.cells[i].off == 0
    modifies buf`cells, chain`off
    ensures buf.Linked() && AllOk(buf.cells) && buf.cells == old(buf.cells)[k := Grown(old(buf.cells)[k], n)]
    ensures Flat(buf.cells) == Flat(old(buf.cells)) + Behind(old(buf.cells)[k], n)
  {
    hide Flat;
    ghost var c := Grown(buf.cells[k], n);
    FlatGrowLast(buf.cells, k, c, Behind(buf.cells[k], n));
    chain.off := chain.off + n;
    buf.cells := buf.cells[k := c];
  }

  /** The first pass of evbuffer_commit_space. */
  method CheckVecs(buf: EvBuffer, start: Chain?, vecs: seq<IoVec>, ghost f: nat) returns (ok: bool)
    requires buf.Consistent() && f <= |buf.chains| && start == if f < |buf.chains| then buf.chains[f] else null
    ensures ok <==> VecsFrom(buf, vecs, f, false)
  {
    hide Flat;
    var chain, i := start, 0;
    while i < |vecs|
      invariant 0 <= i <= |vecs| && f + i <= |buf.chains|
      invariant chain == if f + i < |buf.chains| then buf.chains[f + i] else null
      invariant forall j :: 0 <= j < i ==> VecAt(buf, vecs[j], f + j)
    {
      if chain == null {
        return false;
      }
      assert chain.ToCell() == buf.cells[f + i] && buf.cells[f + i].Ok();
      if vecs[i].chain != chain || vecs[i].base != chain.misalign + chain.off || vecs[i].len > chain.SpaceLen() {
        assert !VecAt(buf, vecs[i], f + i);
        return false;
      }
      chain := chain.next;
      i := i + 1;
    }
    ok := true;
  }

  /** A consistent buffer, but for `last` and the total length. */
  ghost predicate Growing(buf: EvBuffer)
    reads buf, buf.chains
  {
    && buf.Linked() && AllOk(buf.cells) && IsLastData(buf.cells, buf.lwd) && buf.last_with_datap == buf.PtrAt(buf.lwd)
  }

  /** One round of the second pass of evbuffer_commit_space. */
  method CommitOne(buf: EvBuffer, chainp: NextPtr, n: nat, ghost k: nat) returns (next: NextPtr)
    requires Growing(buf) && buf.lwd <= k < |buf.chains| && chainp == buf.PtrAt(k)
    requires k < |buf.cells| && buf.cells[k].Ok() && n <= Space(buf.cells[k])
    modifies buf`cells, buf`lwd, buf`last_with_datap, buf.chains
    ensures Growing(buf) && AllOk(buf.cells) && buf.lwd <= k && next == buf.PtrAt(k + 1)
    ensures buf.cells == old(buf.cells)[k := Grown(old(buf.cells)[k], n)]
    ensures AllOk(old(buf.cells)) && Flat(buf.cells) == Flat(old(buf.cells)) + Behind(old(buf.cells)[k], n)
  {
    hide Flat;
    DerefAt(buf, k);
    GrowChunk(buf, Deref(chainp), n, k);
    if n != 0 {
      buf.last_with_datap := chainp;
      buf.lwd := k;
    }
    DerefAt(buf, k);
    next := NextOf(Deref(chainp));
  }

  lemma {:induction false} CommittedPush(cells: seq<Cell>, f: nat, vecs: seq<IoVec>, i: nat)
    requires AllOk(cells) && Fits(cells, f, vecs) && i < |vecs|
    ensures Fits(cells, f, vecs[..i]) && Fits(cells, f, vecs[..i + 1])
    ensures Committed(cells, f, vecs[..i + 1]) == Committed(cells, f, vecs[..i]) + Behind(cells[f + i], vecs[i].len)
  {
    assert vecs[..i + 1][..i] == vecs[..i];
  }

  lemma {:induction false} CommittedNone(cells: seq<Cell>, f: nat, vecs: seq<IoVec>)
    requires AllOk(cells) && Fits(cells, f, vecs)
    ensures vecs[..0] == [] && Committed(cells, f, vecs[..0]) == [] && vecs[..|vecs|] == vecs
  {
  }

  /** The second pass of evbuffer_commit_space. */
  method CommitVecs(buf: EvBuffer, start: NextPtr, vecs: seq<IoVec>, ghost f: nat) returns (added: nat)
    requires Growing(buf) && |buf.chains| == |buf.cells| && AllOk(buf.cells)
    requires buf.lwd <= f <= |buf.chains| && start == buf.PtrAt(f) && Fits(buf.cells, f, vecs)
    modifies buf`cells, buf`lwd, buf`last_with_datap, buf.chains
    ensures Growing(buf) && AllOk(buf.cells)
    ensures Flat(buf.cells) == Flat(old(buf.cells)) + Committed(old(buf.cells), f, vecs)
    ensures added == |Committed(old(buf.cells), f, vecs)|
  {
    hide Flat, Growing, Committed;
    ghost var cells := buf.cells;
    var chainp, i := start, 0;
    added := 0;
    CommittedNone(cells, f, vecs);
    assert Flat(cells) + [] == Flat(cells);
    while i < |vecs|
      invariant 0 <= i <= |vecs| && |buf.cells| == |cells| == |buf.chains| && buf.lwd <= f + i <= |cells|
      invariant Growing(buf) && AllOk(buf.cells) && chainp == buf.PtrAt(f + i)
      invariant forall j :: f + i <= j < |cells| ==> buf.cells[j] == cells[j]
      invariant Fits(cells, f, vecs[..i]) && Flat(buf.cells) == Flat(cells) + Committed(cells, f, vecs[..i])
      invariant added == |Committed(cells, f, vecs[..i])|
    {
      CommittedPush(cells, f, vecs, i);
      Assoc(Flat(cells), Committed(cells, f, vecs[..i]), Behind(cells[f + i], vecs[i].len));
      chainp := CommitOne(buf, chainp, vecs[i].len, f + i);
      added := added + vecs[i].len;
      i := i + 1;
    }
  }

  /** The single piece of a call is at the free space of the last chunk. */
  ghost predicate AtLast(buf: EvBuffer, vecs: seq<IoVec>)
    reads buf
  {
    && |vecs| == 1 && 0 < |buf.chains| == |buf.cells|
    && vecs[0].chain == buf.chains[|buf.chains| - 1]
    && vecs[0].base == buf.cells[|buf.cells| - 1].misalign + buf.cells[|buf.cells| - 1].off
  }

  /** The index of the first chunk that the pieces of a call have to match. */
  ghost function CommitStart(buf: EvBuffer, vecs: seq<IoVec>): (f: nat)
    requires buf.Consistent()
    reads buf, buf.chains
  {
    if AtLast(buf, vecs) then |buf.chains| - 1 else FirstWithSpace(buf.cells, buf.lwd)
  }

  /** The pieces are, in order, free space of consecutive chunks. */
  ghost predicate Committable(buf: EvBuffer, vecs: seq<IoVec>)
    requires buf.Consistent()
    reads buf, buf.chains
  {
    vecs == [] || (buf.chains != [] && VecsFrom(buf, vecs, CommitStart(buf, vecs), false))
  }

  /** Appends memory to the last chunk, and finds the last data again. */
  method GrowLast(buf: EvBuffer, n: nat)
    requires buf.Consistent() && buf.chains != [] && n <= Space(buf.cells[|buf.cells| - 1])
    modifies buf`cells, buf`lwd, buf`last_with_datap, buf.last`off
    ensures Growing(buf) && AllOk(buf.cells)
    ensures Flat(buf.cells) == old(buf.Contents()) + Behind(old(buf.cells)[|buf.chains| - 1], n)
  {
    hide Flat;
    GrowChunk(buf, buf.last, n, |buf.chains| - 1);
    if n != 0 {
      var moved := AdvanceLastWithData(buf);
    }
  }

  /** Accounting at the end of evbuffer_commit_space. */
  method FinishCommit(buf: EvBuffer, added: nat)
    requires Growing(buf) && AllOk(buf.cells) && buf.total_len + added == |Flat(buf.cells)|
    requires buf.last == if |buf.chains| == 0 then null else buf.chains[|buf.chains| - 1]
    requires buf.total_len + buf.n_del_for_cb == buf.reported + buf.n_add_for_cb
    modifies buf`total_len, buf`n_add_for_cb
    ensures buf.Valid() && buf.n_add_for_cb == old(buf.n_add_for_cb) + added
  {
    hide Flat, EvBuffer.Linked;
    buf.total_len := buf.total_len + added;
    buf.n_add_for_cb := buf.n_add_for_cb + added;
  }

  method CommitPieces(buf: EvBuffer, start: NextPtr, vecs: seq<IoVec>, ghost f: nat)
    requires buf.Valid() && buf.lwd <= f <= |buf.chains| && start == buf.PtrAt(f) && Fits(buf.cells, f, vecs)
    modifies buf`cells, buf`lwd, buf`last_with_datap, buf`total_len, buf`n_add_for_cb, buf.chains
    ensures buf.Valid() && buf.Contents() == old(buf.Contents()) + Committed(old(buf.cells), f, vecs)
    ensures buf.n_add_for_cb - old(buf.n_add_for_cb) == |buf.Contents()| - |old(buf.Contents())|
  {
    hide Flat, Committed;
    LastOf(buf);
    hide EvBuffer.Linked, IsLastData;
    var added := CommitVecs(buf, start, vecs, f);
    FinishCommit(buf, added);
  }

  method CommitTail(buf: EvBuffer, n: nat)
    requires buf.Valid() && buf.chains != [] && n <= Space(buf.cells[|buf.cells| - 1])
    modifies buf`cells, buf`lwd, buf`last_with_datap, buf`total_len, buf`n_add_for_cb, buf.last`off
    ensures buf.Valid() && buf.Contents() == old(buf.Contents()) + Behind(old(buf.cells)[|buf.chains| - 1], n)
    ensures buf.n_add_for_cb - old(buf.n_add_for_cb) == |buf.Contents()| - |old(buf.Contents())|
  {
    hide Flat;
    LastOf(buf);
    hide EvBuffer.Linked, IsLastData;
    GrowLast(buf, n);
    FinishCommit(buf, n);
  }

  lemma {:induction false} LastOf(buf: EvBuffer)
    requires buf.Consistent()
    ensures |buf.cells| == |buf.chains| && (buf.last == null <==> buf.chains == [])
    ensures buf.last != null ==> buf.last.ToCell() == buf.cells[|buf.cells| - 1] && buf.last.ToCell().Ok()
    ensures buf.last != null ==> buf.last == buf.chains[|buf.chains| - 1]
  {
  }

  lemma {:induction false} CommittedOne(cells: seq<Cell>, f: nat, vecs: seq<IoVec>)
    requires AllOk(cells) && Fits(cells, f, vecs) && |vecs| == 1
    ensures Committed(cells, f, vecs) == Behind(cells[f], vecs[0].len)
  {
    CommittedPush(cells, f, vecs, 0);
    CommittedNone(cells, f, vecs);
  }

  /** evbuffer_commit_space: appends the memory that the pieces stand for, or changes nothing if
      they are not the free space of consecutive chunks in order. */
  method CommitSpace(buf: EvBuffer, vecs: seq<IoVec>) returns (result: int)
    requires buf.Valid()
    modifies buf, buf.chains
    ensures buf.Valid() && SameSettings(buf) && buf.n_del_for_cb == old(buf.n_del_for_cb) && buf.chains == old(buf.chains)
    ensures result == if !buf.freeze_end && old(Committable(buf, vecs)) then 0 else -1
    ensures result == -1 || vecs == [] ==> unchanged(buf) && unchanged(old(buf.chains))
    ensures result == 0 && vecs != [] ==>
      && Fits(old(buf.cells), old(CommitStart(buf, vecs)), vecs)
      && buf.Contents() == old(buf.Contents()) + Committed(old(buf.cells), old(CommitStart(buf, vecs)), vecs)
      && buf.n_add_for_cb - old(buf.n_add_for_cb) == |buf.Contents()| - |old(buf.Contents())|
  {
    hide Flat, EvBuffer.Linked, IsLastData, Committed, Fits, FirstWithSpace;
    if buf.freeze_end {
      return -1;
    }
    if vecs == [] {
      return 0;
    }
    LastOf(buf);
    if |vecs| == 1 && buf.last != null && vecs[0].chain == buf.last && vecs[0].base == buf.last.misalign + buf.last.off {
      result := CommitLast(buf, vecs);
    } else {
      result := CommitGeneral(buf, vecs);
    }
  }

  /** evbuffer_commit_space for one piece at the end of the last chunk. */
  method CommitLast(buf: EvBuffer, vecs: seq<IoVec>) returns (result: int)
    requires buf.Valid() && AtLast(buf, vecs)
    modifies buf, buf.chains
    ensures buf.Valid() && SameSettings(buf) && buf.n_del_for_cb == old(buf.n_del_for_cb) && buf.chains == old(buf.chains)
    ensures result == if vecs[0].len <= Space(old(buf.cells)[|buf.chains| - 1]) then 0 else -1
    ensures result == -1 ==> unchanged(buf) && unchanged(old(buf.chains))
    ensures result == 0 ==>
      && Fits(old(buf.cells), |buf.chains| - 1, vecs)
      && buf.Contents() == old(buf.Contents()) + Committed(old(buf.cells), |buf.chains| - 1, vecs)
      && buf.n_add_for_cb - old(buf.n_add_for_cb) == |buf.Contents()| - |old(buf.Contents())|
  {
    hide Flat, Committed;
    LastOf(buf);
    if vecs[0].len > buf.last.SpaceLen() {
      return -1;
    }
    CommittedOne(buf.cells, |buf.cells| - 1, vecs);
    CommitTail(buf, vecs[0].len);
    result := 0;
  }

  /** evbuffer_commit_space in the general case. */
  method CommitGeneral(buf: EvBuffer, vecs: seq<IoVec>) returns (result: int)
    requires buf.Valid() && vecs != []
    modifies buf, buf.chains
    ensures buf.Valid() && SameSettings(buf) && buf.n_del_for_cb == old(buf.n_del_for_cb) && buf.chains == old(buf.chains)
    ensures result == if old(buf.chains != [] && VecsFrom(buf, vecs, FirstWithSpace(buf.cells, buf.lwd), false)) then 0 else -1
    ensures result == -1 ==> unchanged(buf) && unchanged(old(buf.chains))
    ensures result == 0 ==>
      var f := FirstWithSpace(old(buf.cells), old(buf.lwd));
      && Fits(old(buf.cells), f, vecs)
      && buf.Contents() == old(buf.Contents()) + Committed(old(buf.cells), f, vecs)
      && buf.n_add_for_cb - old(buf.n_add_for_cb) == |buf.Contents()| - |old(buf.Contents())|
  {
    hide Flat, Committed;
    LastOf(buf);
    DerefAt(buf, buf.lwd);
    if Deref(buf.last_with_datap) == null {
      return -1;
    }
    var firstchainp, chain, f := FindSpace(buf);
    var ok := CheckVecs(buf, chain, vecs, f);
    if !ok {
      return -1;
    }
    assert Fits(buf.cells, f, vecs);
    CommitPieces(buf, firstchainp, vecs, f);
    result := 0;
  }

  // ---------- from reserving to committing ----------

  /** What a caller may hand back: some of the pieces, each with part of its length. */
  ghost predicate UsedOf(used: seq<IoVec>, vecs: seq<IoVec>) {
    && |used| <= |vecs|
    && forall j :: 0 <= j < |used| ==> used[j].chain == vecs[j].chain && used[j].base == vecs[j].base && used[j].len <= vecs[j].len
  }

  /** Whatever part of a reservation in several pieces is used, it can be committed. */
  lemma {:induction false} ReservedIsCommittable(buf: EvBuffer, vecs: seq<IoVec>, used: seq<IoVec>)
    requires buf.Consistent() && VecsFrom(buf, vecs, FirstWithSpace(buf.cells, buf.lwd), true) && UsedOf(used, vecs)
    ensures Committable(buf, used)
    ensures used != [] ==> CommitStart(buf, used) == FirstWithSpace(buf.cells, buf.lwd)
  {
    var f := FirstWithSpace(buf.cells, buf.lwd);
    forall j | 0 <= j < |used|
      ensures VecAt(buf, used[j], f + j)
    {
      assert VecAt(buf, vecs[j], f + j);
    }
    if AtLast(buf, used) {
      assert VecAt(buf, used[0], f);
      assert f == |buf.chains| - 1;
    }
  }

  /** A part of a piece in chunk `at` can be committed iff that is where committing can start. */
  lemma {:induction false} SingleReservationCommits(buf: EvBuffer, v: IoVec, at: nat, used: seq<IoVec>)
    requires buf.Consistent() && VecAt(buf, v, at) && used != [] && UsedOf(used, [v])
    ensures Committable(buf, used) <==> AtStart(buf, at)
    ensures Committable(buf, used) ==> CommitStart(buf, used) == at
  {
    hide Flat, IsLastData, FirstWithSpace;
    var f := CommitStart(buf, used);
    assert used == [used[0]] && used[0].chain == v.chain && used[0].base == v.base && VecAt(buf, used[0], at);
    assert AtLast(buf, used) <==> at == |buf.chains| - 1;
    assert VecsFrom(buf, used, f, false) <==> VecAt(buf, used[0], f + 0);
    assert VecAt(buf, used[0], f) <==> at == f;
  }
}
