/** The use that evbuffer_reserve_space is made for: reserve memory, write to it, commit it. */
module EvBufferFill {
  import opened Bytes
  import opened EvBufferCore
  import opened EvBufferAdd
  import opened EvBufferExpand
  import opened EvBufferReserve

  /** Only bytes of free memory differ, if any. */
  ghost predicate SameSpace(a: seq<Cell>, b: seq<Cell>) {
    && |a| == |b|
    && forall i :: 0 <= i < |a| ==> a[i].off == b[i].off && a[i].misalign == b[i].misalign && |a[i].buffer| == |b[i].buffer|
  }

  /** Writing into a reserved piece changes nothing but the memory that a commit will add. */
  method WriteReserved(buf: EvBuffer, v: IoVec, data: seq<Byte>, ghost i: nat)
    requires buf.Valid() && VecAt(buf, v, i) && |data| <= v.len
    modifies buf`cells, v.chain`buffer
    ensures buf.Valid() && buf.Contents() == old(buf.Contents())
    ensures SameSpace(old(buf.cells), buf.cells) && VecAt(buf, v, i)
    ensures forall j :: 0 <= j < |buf.cells| && j != i ==> buf.cells[j] == old(buf.cells)[j]
    ensures buf.cells[i].Ok() && Behind(buf.cells[i], |data|) == data
  {
    hide Flat, EvBuffer.Linked, WrittenBehind;
    CellOf(buf, i);
    FlatSameData(buf.cells, i, WrittenBehind(buf.cells[i], data));
    FillBehind(buf, v, data, i);
  }

  method FillBehind(buf: EvBuffer, v: IoVec, data: seq<Byte>, ghost i: nat)
    requires buf.Linked() && VecAt(buf, v, i) && buf.cells[i].Ok() && |data| <= Space(buf.cells[i])
    modifies buf`cells, v.chain`buffer
    ensures buf.Linked() && buf.cells == old(buf.cells)[i := WrittenBehind(old(buf.cells)[i], data)]
  {
    hide Written;
    CellOf(buf, i);
    ghost var c := WrittenBehind(buf.cells[i], data);
    v.chain.buffer := Written(v.chain.buffer, v.base, data);
    buf.cells := buf.cells[i := c];
  }

  ghost function WrittenBehind(c: Cell, data: seq<Byte>): (r: Cell)
    requires c.Ok() && |data| <= Space(c)
    ensures r.Ok() && r.Data() == c.Data() && r.misalign == c.misalign && r.off == c.off && |r.buffer| == |c.buffer|
    ensures Behind(r, |data|) == data
  {
    var r := c.(buffer := Written(c.buffer, c.misalign + c.off, data));
    assert r.buffer[..c.misalign + c.off] == c.buffer[..c.misalign + c.off];
    assert r.Data() == r.buffer[..c.misalign + c.off][c.misalign..];
    assert c.Data() == c.buffer[..c.misalign + c.off][c.misalign..];
    r
  }

  lemma {:induction false} FlatSameData(cells: seq<Cell>, i: nat, c: Cell)
    requires AllOk(cells) && i < |cells| && c.Ok() && c.Data() == cells[i].Data()
    ensures AllOk(cells[i := c]) && Flat(cells[i := c]) == Flat(cells)
  {
    FlatAround(cells, i);
    FlatAround(cells[i := c], i);
    assert cells[i := c][..i] == cells[..i] && cells[i := c][i + 1..] == cells[i + 1..];
  }

  lemma {:induction false} CommittedSame(a: seq<Cell>, b: seq<Cell>, f: nat, vecs: seq<IoVec>)
    requires AllOk(a) && AllOk(b) && Fits(a, f, vecs) && |a| == |b| && forall j :: f <= j < f + |vecs| ==> a[j] == b[j]
    ensures Fits(b, f, vecs) && Committed(a, f, vecs) == Committed(b, f, vecs)
    decreases |vecs|
  {
    if vecs != [] {
      CommittedSame(a, b, f, vecs[..|vecs| - 1]);
    }
  }

  lemma {:induction false} TotalLenStep(vecs: seq<IoVec>, i: nat)
    requires i < |vecs|
    ensures TotalLen(vecs[..i + 1]) == TotalLen(vecs[..i]) + vecs[i].len
    ensures vecs[..|vecs|] == vecs && TotalLen(vecs[..0]) == 0
  {
    assert vecs[..i + 1][..i] == vecs[..i];
  }

  lemma {:induction false} UsedPush(used: seq<IoVec>, vecs: seq<IoVec>, n: nat)
    requires UsedOf(used, vecs) && |used| < |vecs| && n <= vecs[|used|].len
    ensures UsedOf(used + [vecs[|used|].(len := n)], vecs)
  {
  }

  lemma {:induction false} CommittedMore(before: seq<Cell>, cells: seq<Cell>, f: nat, used: seq<IoVec>, v: IoVec, part: seq<Byte>)
    requires AllOk(before) && AllOk(cells) && Fits(before, f, used) && Fits(cells, f, used + [v]) && |before| == |cells|
    requires forall j :: 0 <= j < |cells| && j != f + |used| ==> cells[j] == before[j]
    requires cells[f + |used|].Ok() && v.len == |part| <= Space(cells[f + |used|]) && Behind(cells[f + |used|], |part|) == part
    ensures Committed(cells, f, used + [v]) == Committed(before, f, used) + part
  {
    CommittedSame(before, cells, f, used);
    assert (used + [v])[..|used|] == used;
  }

  lemma {:induction false} PiecesStay(buf: EvBuffer, cells: seq<Cell>, vecs: seq<IoVec>, f: nat, used: seq<IoVec>)
    requires f + |vecs| <= |buf.chains| == |buf.cells| && SameSpace(cells, buf.cells) && AllOk(cells) && AllOk(buf.cells)
    requires forall j :: 0 <= j < |vecs| ==>
      vecs[j].chain == buf.chains[f + j] && vecs[j].base == cells[f + j].misalign + cells[f + j].off && vecs[j].len == Space(cells[f + j])
    requires UsedOf(used, vecs)
    ensures VecsFrom(buf, vecs, f, true) && Fits(buf.cells, f, used) && Fits(cells, f, used)
  {
  }

  lemma {:induction false} PiecesAre(buf: EvBuffer, vecs: seq<IoVec>, f: nat)
    requires VecsFrom(buf, vecs, f, true)
    ensures f + |vecs| <= |buf.chains| == |buf.cells|
    ensures forall j :: 0 <= j < |vecs| ==>
      && vecs[j].chain == buf.chains[f + j] && vecs[j].base == buf.cells[f + j].misalign + buf.cells[f + j].off
      && vecs[j].len == Space(buf.cells[f + j])
  {
    assert forall j :: 0 <= j < |vecs| ==> VecAt(buf, vecs[j], f + j);
  }

  /** Writes `part` into the next piece. */
  method WriteNext(buf: EvBuffer, vecs: seq<IoVec>, used: seq<IoVec>, part: seq<Byte>, ghost f: nat) returns (more: seq<IoVec>)
    requires buf.Valid() && VecsFrom(buf, vecs, f, true) && UsedOf(used, vecs) && |used| < |vecs| && |part| <= vecs[|used|].len
    requires Fits(buf.cells, f, used)
    modifies buf`cells, buf.chains
    ensures buf.Valid() && buf.Contents() == old(buf.Contents()) && SameSpace(old(buf.cells), buf.cells)
    ensures VecsFrom(buf, vecs, f, true) && UsedOf(more, vecs) && |more| == |used| + 1
    ensures Fits(buf.cells, f, more) && Committed(buf.cells, f, more) == Committed(old(buf.cells), f, used) + part
  {
    hide Flat, EvBuffer.Linked, IsLastData, Committed, Behind, VecsFrom, UsedOf, Fits;
    var v := vecs[|used|].(len := |part|);
    more := used + [v];
    ghost var cells := buf.cells;
    PiecesAre(buf, vecs, f);
    UsedPush(used, vecs, |part|);
    WriteReserved(buf, vecs[|used|], part, f + |used|);
    PiecesStay(buf, cells, vecs, f, more);
    CommittedMore(cells, buf.cells, f, used, v, part);
  }

  lemma SameSpaceTwice(a: seq<Cell>, b: seq<Cell>, c: seq<Cell>)
    requires SameSpace(a, b) && SameSpace(b, c)
    ensures SameSpace(a, c)
  {
  }

  lemma {:induction false} NoneUsed(cells: seq<Cell>, f: nat, vecs: seq<IoVec>, data: seq<Byte>)
    requires AllOk(cells) && f <= |cells|
    ensures SameSpace(cells, cells) && UsedOf([], vecs) && Fits(cells, f, []) && Committed(cells, f, []) == data[..0]
    ensures TotalLen(vecs[..0]) == 0
  {
  }

  /** Writes `data` into the pieces, as much into each as there is room, and says how much that was. */
  method WritePieces(buf: EvBuffer, vecs: seq<IoVec>, data: seq<Byte>, ghost f: nat) returns (used: seq<IoVec>)
    requires buf.Valid() && VecsFrom(buf, vecs, f, true) && |data| <= TotalLen(vecs)
    modifies buf`cells, buf.chains
    ensures buf.Valid() && buf.Contents() == old(buf.Contents()) && SameSpace(old(buf.cells), buf.cells)
    ensures VecsFrom(buf, vecs, f, true) && UsedOf(used, vecs) && (used == [] <==> data == [])
    ensures Fits(buf.cells, f, used) && Committed(buf.cells, f, used) == data
  {
    hide Flat, EvBuffer.Linked, IsLastData, Committed, TotalLen, VecsFrom, UsedOf, Fits, SameSpace;
    PiecesAre(buf, vecs, f);
    NoneUsed(buf.cells, f, vecs, data);
    var written := 0;
    used := [];
    while |used| < |vecs| && written < |data|
      invariant buf.Valid() && buf.Contents() == old(buf.Contents()) && SameSpace(old(buf.cells), buf.cells)
      invariant VecsFrom(buf, vecs, f, true) && UsedOf(used, vecs) && written <= |data| && |used| <= |vecs|
      invariant (used == [] ==> written == 0) && (data == [] ==> used == [])
      invariant written < |data| ==> written == TotalLen(vecs[..|used|])
      invariant Fits(buf.cells, f, used) && Committed(buf.cells, f, used) == data[..written]
      decreases |vecs| - |used|
    {
      ghost var before := buf.cells;
      var len := vecs[|used|].len;
      var n := if len < |data| - written then len else |data| - written;
      TotalLenStep(vecs, |used|);
      used := WriteNext(buf, vecs, used, data[written..written + n], f);
      SameSpaceTwice(old(buf.cells), before, buf.cells);
      assert data[..written] + data[written..written + n] == data[..written + n];
      written := written + n;
    }
    assert vecs[..|vecs|] == vecs && data[..|data|] == data;
  }

  lemma {:induction false} StartStays(buf: EvBuffer, cells: seq<Cell>, lwd: nat, at: nat)
    requires buf.Consistent() && (cells == buf.cells || SameSpace(cells, buf.cells)) && IsLastData(cells, lwd) && lwd == buf.lwd
    ensures AtStart(buf, at) <==> at == |buf.chains| - 1 || at == FirstWithSpace(cells, lwd)
    ensures FirstWithSpace(buf.cells, buf.lwd) == FirstWithSpace(cells, lwd)
  {
  }

  /** Reserving memory for `size` bytes, writing `data` to it and committing what was written. Once
      there are pieces, this appends the data, except for a single piece in a chunk that lies behind
      the first one with space and is not the last one either: then it changes nothing. */
  method Fill(buf: EvBuffer, size: int, nVecs: int, data: seq<Byte>) returns (reserved: Reserved, result: int)
    requires buf.Valid() && |data| <= size
    modifies buf, buf.chains
    ensures buf.Valid() && SameSettings(buf) && buf.n_del_for_cb == old(buf.n_del_for_cb)
    ensures reserved.AssertionFailed? <==> !buf.freeze_end && 2 <= nVecs && size == 0 && old(LastIsFull(buf))
    ensures buf.freeze_end || nVecs < 1 ==> reserved.Failed?
    ensures !buf.freeze_end && 1 <= nVecs && size <= CHAIN_MAX - CHAIN_SIZE - MAX_TO_COPY_IN_EXPAND ==> !reserved.Failed?
    ensures result == 0 || result == -1
    ensures result == 0 <==>
      reserved.Vecs? && (data == [] || nVecs != 1 || !SkipsSpace(old(buf.cells), old(buf.lwd), size))
    ensures buf.Contents() == old(buf.Contents()) + (if result == 0 then data else [])
    ensures buf.n_add_for_cb == old(buf.n_add_for_cb) + if result == 0 then |data| else 0
  {
    hide Flat, EvBuffer.Linked, IsLastData, Committed, TotalLen, VecsFrom, UsedOf, Fits, SameSpace, Committable, SkipsSpace, FirstWithSpace,
      CommitStart, LastIsFull, AtStart, AtChoice;
    ghost var at;
    reserved, at := ReserveSpace(buf, size, nVecs);
    if !reserved.Vecs? {
      return reserved, -1;
    }
    ghost var f := if nVecs == 1 then at else FirstWithSpace(buf.cells, buf.lwd);
    ghost var cells := buf.cells;
    if nVecs == 1 {
      WholePiece(buf, reserved.vecs, at);
      StartStays(buf, cells, buf.lwd, at);
    }
    assert forall i :: 0 <= i < |buf.chains| ==> buf.chains[i] in buf.chains;
    var used := WritePieces(buf, reserved.vecs, data, f);
    StartStays(buf, cells, buf.lwd, at);
    UsedStart(buf, reserved.vecs, used, f, nVecs == 1);
    result := CommitSpace(buf, used);
  }

  /** All of a single piece can be committed iff a part can. */
  lemma {:induction false} WholePiece(buf: EvBuffer, vecs: seq<IoVec>, at: nat)
    requires buf.Consistent() && VecsFrom(buf, vecs, at, true) && |vecs| == 1
    ensures vecs != [] && UsedOf(vecs, vecs) && (Committable(buf, vecs) <==> AtStart(buf, at))
  {
    hide Committable, AtStart;
    assert VecAt(buf, vecs[0], at + 0) && vecs == [vecs[0]];
    SingleReservationCommits(buf, vecs[0], at, vecs);
  }

  lemma {:induction false} UsedStart(buf: EvBuffer, vecs: seq<IoVec>, used: seq<IoVec>, f: nat, single: bool)
    requires buf.Consistent() && VecsFrom(buf, vecs, f, true) && UsedOf(used, vecs)
    requires if single then |vecs| == 1 else f == FirstWithSpace(buf.cells, buf.lwd)
    ensures Committable(buf, used) <==> used == [] || !single || AtStart(buf, f)
    ensures Committable(buf, used) && used != [] ==> CommitStart(buf, used) == f
  {
    hide AtStart, CommitStart;
    if used == [] {
    } else if single {
      assert VecAt(buf, vecs[0], f + 0) && vecs == [vecs[0]];
      SingleReservationCommits(buf, vecs[0], f, used);
    } else {
      ReservedIsCommittable(buf, vecs, used);
    }
  }

  // ---------- buffers for which it fails ----------

  /** A chunk of memory of the smallest size, with `n` bytes of data. */
  ghost predicate Holding(c: Cell, n: nat) {
    c.misalign == 0 && c.off == n <= SMALLEST == |c.buffer|
  }

  /** A chunk with a little space, that is too small a part of it to be worth keeping, and two empty
      ones behind it: with 100 bytes asked for, the second chunk is chosen. */
  lemma {:induction false} SkippedChunks(cells: seq<Cell>)
    requires |cells| == 3 && Holding(cells[0], 900) && Holding(cells[1], 0) && Holding(cells[2], 0)
    ensures AllOk(cells) && IsLastData(cells, 0) && SkipsSpace(cells, 0, 100) && |Flat(cells)| == 900
  {
    FlatEmpty(cells[1..]);
  }

  method NewChunk(n: nat) returns (chain: Chain)
    requires n <= SMALLEST
    ensures fresh(chain) && chain.next == null && Holding(chain.ToCell(), n)
  {
    chain := new Chain(SMALLEST);
    chain.off := n;
  }

  method NewBuffer(chain: Chain, n: nat) returns (buf: EvBuffer)
    requires Holding(chain.ToCell(), n) && 0 < n && chain.next == null
    ensures fresh(buf) && buf.Valid() && !buf.freeze_end && buf.chains == [chain]
    ensures buf.lwd == 0 && buf.cells == [chain.ToCell()]
  {
    hide Flat;
    buf := new EvBuffer();
    ChainInsert(buf, chain);
    buf.n_add_for_cb := n;
  }

  method SkippingBuffer() returns (buf: EvBuffer)
    ensures fresh(buf) && buf.Valid() && !buf.freeze_end && (forall i :: 0 <= i < |buf.chains| ==> fresh(buf.chains[i]))
    ensures buf.lwd == 0 && SkipsSpace(buf.cells, buf.lwd, 100)
  {
    hide Flat, EvBuffer.Linked, SkipsSpace, IsLastData;
    var a := NewChunk(900);
    buf := NewBuffer(a, 900);
    var b := NewChunk(0);
    AppendEmpty(buf, NextOf(buf.last), b);
    var c := NewChunk(0);
    AppendEmpty(buf, NextOf(buf.last), c);
    SkippedChunks(buf.cells);
  }

  /** So the original reserves a piece in that chunk, of which it then refuses to commit any part. */
  method SingleReservationIsRefused(n: nat) returns (buf: EvBuffer, reserved: Reserved, result: int)
    requires 0 < n <= 100
    ensures buf.Valid() && reserved.Vecs? && |reserved.vecs| == 1 && n <= reserved.vecs[0].len
    ensures !Committable(buf, [reserved.vecs[0].(len := n)]) && result == -1
  {
    hide Flat, EvBuffer.Linked, Committable, AtChoice, Chosen, SkipsSpace;
    buf := SkippingBuffer();
    ghost var at;
    reserved, at := ReserveSpace(buf, 100, 1);
    TotalLenOne(reserved.vecs[0]);
    assert reserved.vecs == [reserved.vecs[0]];
    var used := [reserved.vecs[0].(len := n)];
    assert UsedOf(used, reserved.vecs);
    assert forall i :: 0 <= i < |buf.chains| ==> buf.chains[i] in buf.chains;
    result := CommitSpace(buf, used);
  }

  method FullBuffer() returns (buf: EvBuffer)
    ensures fresh(buf) && buf.Valid() && !buf.freeze_end && (forall i :: 0 <= i < |buf.chains| ==> fresh(buf.chains[i]))
    ensures LastIsFull(buf)
  {
    hide Flat, EvBuffer.Linked;
    var a := NewChunk(SMALLEST);
    buf := NewBuffer(a, SMALLEST);
  }

  /** And with one chunk that is full, an assertion of the original fails when no bytes are reserved. */
  method FullBufferFailsAssertion(nVecs: nat) returns (buf: EvBuffer, reserved: Reserved)
    requires 2 <= nVecs
    ensures buf.Valid() && reserved.AssertionFailed?
  {
    hide Flat, EvBuffer.Linked, LastIsFull;
    buf := FullBuffer();
    ghost var at;
    reserved, at := ReserveSpace(buf, 0, nVecs);
  }
}
