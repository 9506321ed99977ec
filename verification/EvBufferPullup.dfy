/** evbuffer_pullup: making the first bytes of an evbuffer contiguous. */
module EvBufferPullup {
  import opened Bytes
  import opened EvBufferCore
  import opened EvBufferAdd
  import opened EvBufferDrain
  import opened EvBufferPrepend

  /** The chunks after the first `n`, without the first `k` bytes of the first of them. */
  ghost function RestAfter(cells: seq<Cell>, n: nat, k: nat): (r: seq<Cell>)
    requires AllOk(cells) && n <= |cells| && (n < |cells| ==> k <= cells[n].off)
    ensures AllOk(r) && |r| == |cells| - n
  {
    if n == |cells| then [] else [DroppedFront(cells[n], k)] + cells[n + 1..]
  }

  /** The bytes of chunks `m..n` and the first `k` bytes of chunk `n`. */
  ghost function BytesUpTo(cells: seq<Cell>, m: nat, n: nat, k: nat): seq<Byte>
    requires AllOk(cells) && m <= n <= |cells| && (n < |cells| ==> k <= cells[n].off)
  {
    Flat(cells[m..n]) + if n < |cells| then cells[n].Data()[..k] else []
  }

  lemma {:induction false} FlatMiddleStep(cells: seq<Cell>, m: nat, n: nat)
    requires AllOk(cells) && m <= n < |cells|
    ensures AllOk(cells[m..n]) && Flat(cells[m..n + 1]) == Flat(cells[m..n]) + cells[n].Data()
  {
    assert cells[m..n + 1] == cells[m..n] + [cells[n]];
    FlatOne(cells[n]);
    FlatConcat(cells[m..n], [cells[n]]);
  }

  /** The copying loop: walks over the chunks that `size` more bytes use up, from chunk `at` on,
      and notices when it passes the last chunk with data or the one before it. */
  method Gather(buf: EvBuffer, start: Chain?, size: nat, ghost at: nat)
    returns (data: seq<Byte>, chain: Chain?, rest: nat, removedLwd: bool, removedLwdp: bool, ghost n: nat)
    requires buf.Consistent() && at <= |buf.chains| && start == (if at < |buf.chains| then buf.chains[at] else null)
    requires size <= |Flat(buf.cells[at..])|
    ensures at <= n <= |buf.chains| && chain == (if n < |buf.chains| then buf.chains[n] else null)
    ensures n < |buf.chains| ==> rest < buf.cells[n].off
    ensures data == BytesUpTo(buf.cells, at, n, rest) && |data| == size
    ensures removedLwd <==> at <= buf.lwd < n
    ensures removedLwdp <==> at < buf.lwd <= n
  {
    hide Flat, IsLastData, EvBuffer.Linked;
    Shape(buf);
    ghost var cells := buf.cells;
    data, chain, rest, removedLwd, removedLwdp, n := [], start, size, false, false, at;
    assert cells[at..at] == [];
    FlatEmpty(cells[at..at]);
    DerefAt(buf, buf.lwd);
    var lastWithData := Deref(buf.last_with_datap);
    while chain != null && rest >= chain.off
      invariant at <= n <= |buf.chains| && chain == (if n < |buf.chains| then buf.chains[n] else null)
      invariant data == Flat(cells[at..n]) && |data| + rest == size
      invariant removedLwd <==> at <= buf.lwd < n
      invariant removedLwdp <==> at < buf.lwd <= n
      decreases |buf.chains| - n
    {
      FlatMiddleStep(cells, at, n);
      ChunkAt(buf, n);
      data := data + Piece(chain, 0, chain.off);
      rest := rest - chain.off;
      removedLwd, removedLwdp := NoteRemoved(buf, chain, lastWithData, removedLwd, removedLwdp, n);
      chain := chain.next;
      n := n + 1;
    }
    if chain != null {
      ChunkAt(buf, n);
      data := data + Piece(chain, 0, rest);
    } else {
      assert cells[at..n] == cells[at..];
    }
  }

  lemma {:induction false} ChunkAt(buf: EvBuffer, n: nat)
    requires buf.Linked() && AllOk(buf.cells) && n < |buf.chains|
    ensures |buf.cells| == |buf.chains| && buf.chains[n].ToCell() == buf.cells[n] && buf.cells[n].Ok()
    ensures buf.chains[n].next == if n + 1 < |buf.chains| then buf.chains[n + 1] else null
  {
  }

  /** What the loop notes about the chunk that it passes. */
  method NoteRemoved(buf: EvBuffer, chain: Chain, lastWithData: Chain?, lwd: bool, lwdp: bool, ghost n: nat)
      returns (removedLwd: bool, removedLwdp: bool)
    requires buf.Linked() && n < |buf.chains| && chain == buf.chains[n] && buf.lwd < |buf.chains|
    requires lastWithData == buf.chains[buf.lwd] && buf.last_with_datap == buf.PtrAt(buf.lwd)
    ensures removedLwd <==> lwd || n == buf.lwd
    ensures removedLwdp <==> lwdp || n + 1 == buf.lwd
  {
    removedLwd, removedLwdp := lwd, lwdp;
    if chain == lastWithData {
      removedLwd := true;
    }
    if NextOf(chain) == buf.last_with_datap {
      removedLwdp := true;
    }
  }

  /** The chunk list after `c` took over the bytes before byte `k` of chunk `n`. */
  ghost function Pulled(cells: seq<Cell>, n: nat, k: nat, c: Cell): (r: seq<Cell>)
    requires AllOk(cells) && n <= |cells| && (n < |cells| ==> k <= cells[n].off)
  {
    [c] + RestAfter(cells, n, k)
  }

  lemma {:induction false} PulledFlat(cells: seq<Cell>, at: nat, n: nat, k: nat, c: Cell)
    requires AllOk(cells) && at <= n <= |cells| && (n < |cells| ==> k < cells[n].off)
    requires c.Ok() && c.Data() == Flat(cells[..at]) + BytesUpTo(cells, at, n, k)
    ensures AllOk(Pulled(cells, n, k, c)) && Flat(Pulled(cells, n, k, c)) == Flat(cells)
  {
    hide Flat, BytesUpTo;
    FlatUpTo(cells, at, n);
    if n < |cells| {
      PulledCut(cells, n, k, c);
      FlatAround(cells, n);
      BytesCut(cells, at, n, k);
      JoinCut(Flat(cells[..at]), Flat(cells[at..n]), cells[n].Data(), Flat(cells[n + 1..]), k);
    } else {
      BytesAll(cells, at);
      PulledAll(cells, c);
      assert cells[..n] == cells;
    }
  }

  lemma {:induction false} FlatUpTo(cells: seq<Cell>, at: nat, n: nat)
    requires AllOk(cells) && at <= n <= |cells|
    ensures AllOk(cells[..at]) && AllOk(cells[at..n]) && AllOk(cells[..n])
    ensures Flat(cells[..n]) == Flat(cells[..at]) + Flat(cells[at..n])
  {
    hide Flat;
    assert cells[..n] == cells[..at] + cells[at..n];
    FlatConcat(cells[..at], cells[at..n]);
  }

  lemma {:induction false} BytesCut(cells: seq<Cell>, at: nat, n: nat, k: nat)
    requires AllOk(cells) && at <= n < |cells| && k <= cells[n].off
    ensures BytesUpTo(cells, at, n, k) == Flat(cells[at..n]) + cells[n].Data()[..k]
  {
    hide Flat;
  }

  lemma {:induction false} BytesAll(cells: seq<Cell>, at: nat)
    requires AllOk(cells) && at <= |cells|
    ensures BytesUpTo(cells, at, |cells|, 0) == Flat(cells[at..|cells|])
    ensures forall k: nat :: BytesUpTo(cells, at, |cells|, k) == Flat(cells[at..|cells|])
  {
    hide Flat;
  }

  lemma {:induction false} PulledCut(cells: seq<Cell>, n: nat, k: nat, c: Cell)
    requires AllOk(cells) && n < |cells| && k <= cells[n].off && c.Ok()
    ensures AllOk(Pulled(cells, n, k, c)) && AllOk(cells[n + 1..])
    ensures Flat(Pulled(cells, n, k, c)) == c.Data() + (cells[n].Data()[k..] + Flat(cells[n + 1..]))
  {
    hide Flat;
    FlatCons(c, RestAfter(cells, n, k));
    FlatCons(DroppedFront(cells[n], k), cells[n + 1..]);
  }

  lemma {:induction false} PulledAll(cells: seq<Cell>, c: Cell)
    requires AllOk(cells) && c.Ok()
    ensures forall k: nat :: AllOk(Pulled(cells, |cells|, k, c)) && Flat(Pulled(cells, |cells|, k, c)) == c.Data()
  {
    FlatOne(c);
  }

  lemma JoinCut(a: seq<Byte>, b: seq<Byte>, c: seq<Byte>, d: seq<Byte>, k: nat)
    requires k <= |c|
    ensures (a + (b + c[..k])) + (c[k..] + d) == (a + b) + (c + d)
  {
    assert c == c[..k] + c[k..];
  }

  lemma {:induction false} PulledLastData(cells: seq<Cell>, lwd: nat, n: nat, k: nat, c: Cell)
    requires AllOk(cells) && IsLastData(cells, lwd) && 0 < n <= |cells| && (n < |cells| ==> k < cells[n].off)
    ensures lwd < n ==> n == |cells|
    ensures IsLastData(Pulled(cells, n, k, c), if lwd < n then 0 else lwd - n + 1)
  {
    var p := Pulled(cells, n, k, c);
    if n < |cells| {
      assert p[1].off == cells[n].off - k > 0;
      forall i | 2 <= i < |p|
        ensures p[i] == cells[n + i - 1]
      {
        assert p[i] == RestAfter(cells, n, k)[i - 1] == cells[n + 1..][i - 2];
      }
    } else {
      assert p == [c];
    }
  }

  /** Takes `k` bytes off the front of chunk `n`. */
  method TrimChunk(buf: EvBuffer, chain: Chain, k: nat, ghost n: nat)
    requires buf.Linked() && n < |buf.chains| == |buf.cells| && chain == buf.chains[n] && buf.cells[n].Ok() && k <= buf.cells[n].off
    modifies buf`cells, chain`misalign, chain`off
    ensures buf.Linked() && buf.cells == old(buf.cells)[n := DroppedFront(old(buf.cells)[n], k)]
  {
    CellOf(buf, n);
    ghost var c := DroppedFront(buf.cells[n], k);
    chain.misalign := chain.misalign + k;
    chain.off := chain.off - k;
    buf.cells := buf.cells[n := c];
  }

  /** Links the first chunk to chunk `n`, or to nothing. */
  method LinkOver(buf: EvBuffer, tmp: Chain, chain: Chain?, ghost n: nat)
    requires buf.Linked() && 0 < n <= |buf.chains| == |buf.cells| && tmp == buf.chains[0]
    requires chain == if n < |buf.chains| then buf.chains[n] else null
    modifies buf`chains, buf`cells, tmp`next
    ensures buf.Linked()
    ensures buf.chains == [tmp] + old(buf.chains)[n..] && buf.cells == [old(buf.cells)[0]] + old(buf.cells)[n..]
  {
    tmp.next := chain;
    buf.chains, buf.cells := [tmp] + buf.chains[n..], [buf.cells[0]] + buf.cells[n..];
  }

  /** The end of evbuffer_pullup: `tmp` is followed by what is left of chunk `n`, or is the last. */
  method DropAfterFirst(buf: EvBuffer, tmp: Chain, chain: Chain?, k: nat, ghost n: nat)
    requires buf.Linked() && AllOk(buf.cells) && 0 < n <= |buf.chains| && tmp == buf.chains[0]
    requires chain == (if n < |buf.chains| then buf.chains[n] else null) && (chain != null ==> k <= chain.off)
    requires buf.last == buf.chains[|buf.chains| - 1]
    modifies buf`chains, buf`cells, buf`last, buf.chains
    ensures buf.Linked()
    ensures buf.chains == [tmp] + old(buf.chains)[n..] && buf.last == buf.chains[|buf.chains| - 1]
    ensures buf.cells == Pulled(old(buf.cells), n, k, old(buf.cells)[0])
  {
    hide Flat, EvBuffer.Linked, DroppedFront, Pulled;
    CellOf(buf, 0);
    if chain != null {
      CellOf(buf, n);
    }
    LinkedOverPulls(buf.cells, n, k);
    if chain != null {
      TrimChunk(buf, chain, k, n);
    } else {
      buf.last := tmp;
    }
    LinkOver(buf, tmp, chain, n);
  }

  lemma {:induction false} LinkedOverPulls(cells: seq<Cell>, n: nat, k: nat)
    requires AllOk(cells) && 0 < n <= |cells| && (n < |cells| ==> k <= cells[n].off)
    ensures var trimmed := if n < |cells| then cells[n := DroppedFront(cells[n], k)] else cells;
      [trimmed[0]] + trimmed[n..] == Pulled(cells, n, k, cells[0])
  {
    if n < |cells| {
      var trimmed := cells[n := DroppedFront(cells[n], k)];
      assert trimmed[n..] == [trimmed[n]] + cells[n + 1..];
    }
  }

  /** Dropping chunks behind a first chunk `c` that took over the bytes of the first `at` chunks. */
  lemma {:induction false} SameRest(before: seq<Cell>, at: nat, n: nat, k: nat, c: Cell)
    requires AllOk(before) && c.Ok() && at <= n <= |before| && (n < |before| ==> k <= before[n].off)
    ensures var mid := [c] + before[at..];
      AllOk(mid) && n - at + 1 <= |mid| && (n < |before| ==> mid[n - at + 1] == before[n])
      && Pulled(mid, n - at + 1, k, c) == Pulled(before, n, k, c)
  {
    var mid := [c] + before[at..];
    if n < |before| {
      assert mid[n - at + 2..] == before[n + 1..];
    }
  }

  /** The index of the last chunk with data once the chunks before byte `k` of chunk `n` are one. */
  ghost function PulledLwd(lwd: nat, n: nat): nat {
    if lwd < n then 0 else lwd - n + 1
  }

  /** The values after pulling up: same bytes, and where the last data is. */
  lemma {:induction false} PulledValues(before: seq<Cell>, lwd: nat, at: nat, n: nat, k: nat, c: Cell)
    requires AllOk(before) && IsLastData(before, lwd) && at <= n <= |before| && 0 < n && (n < |before| ==> k < before[n].off)
    requires c.Ok() && c.Data() == Flat(before[..at]) + BytesUpTo(before, at, n, k)
    ensures var p := Pulled(before, n, k, c);
      AllOk(p) && p[0] == c && Flat(p) == Flat(before) && IsLastData(p, PulledLwd(lwd, n))
  {
    hide Flat;
    PulledFlat(before, at, n, k, c);
    PulledLastData(before, lwd, n, k, c);
  }

  lemma {:induction false} DropBehindHead<T>(x: T, s: seq<T>, at: nat, n: nat)
    requires at <= n <= |s|
    ensures ([x] + s[at..])[n - at + 1..] == s[n..]
    ensures n < |s| ==> ([x] + s[at..])[n - at + 1] == s[n]
  {
  }

  /** Cuts the chunks whose bytes `tmp`, now the first chunk, has taken over. */
  method CutPulled(buf: EvBuffer, tmp: Chain, chain: Chain?, rest: nat,
                   ghost at: nat, ghost n: nat, ghost before: seq<Cell>, ghost beforeChains: seq<Chain>)
    requires AllOk(before) && IsLastData(before, buf.lwd) && at <= n <= |before| == |beforeChains| && 0 < n
    requires n < |before| ==> rest < before[n].off
    requires buf.Linked() && buf.chains == [tmp] + beforeChains[at..] && buf.cells == [tmp.ToCell()] + before[at..]
    requires tmp.ToCell().Ok() && tmp.ToCell().Data() == Flat(before[..at]) + BytesUpTo(before, at, n, rest)
    requires buf.last == buf.chains[|buf.chains| - 1] && chain == if n < |before| then beforeChains[n] else null
    modifies buf`chains, buf`cells, buf`last, buf.chains
    ensures buf.Linked() && AllOk(buf.cells) && Flat(buf.cells) == Flat(before)
    ensures buf.chains == [tmp] + beforeChains[n..] && buf.last == buf.chains[|buf.chains| - 1]
    ensures buf.cells[0] == old(tmp.ToCell()) && IsLastData(buf.cells, PulledLwd(buf.lwd, n))
  {
    hide Flat, IsLastData;
    SameRest(before, at, n, rest, tmp.ToCell());
    PulledValues(before, buf.lwd, at, n, rest, tmp.ToCell());
    hide Pulled, PulledLwd;
    DropBehindHead(tmp, beforeChains, at, n);
    DropAfterFirst(buf, tmp, chain, rest, n - at + 1);
  }

  /** The end of evbuffer_pullup: repairs the pointer to the last data. */
  method RepairPointer(buf: EvBuffer, removedLwd: bool, removedLwdp: bool, ghost lwd: nat)
    requires buf.Linked() && buf.chains != [] && IsLastData(buf.cells, lwd)
    requires removedLwd ==> lwd == 0
    requires removedLwdp && !removedLwd ==> lwd == 1
    requires !removedLwdp && !removedLwd ==> buf.last_with_datap == buf.PtrAt(lwd)
    modifies buf`lwd, buf`last_with_datap
    ensures buf.last_with_datap == buf.PtrAt(lwd) && buf.lwd == lwd
  {
    if removedLwd {
      buf.last_with_datap := FirstOf(buf);
    } else if removedLwdp {
      // The second chunk always has data here, so the original's other case does not arise.
      assert buf.first.next != null && buf.first.next.off != 0;
      buf.last_with_datap := NextOf(buf.first);
    }
    buf.lwd := lwd;
  }

  /** From the copied bytes to a repaired list. */
  method Assemble(buf: EvBuffer, tmp: Chain, chain: Chain?, rest: nat, removedLwd: bool, removedLwdp: bool,
                  ghost at: nat, ghost n: nat, ghost before: seq<Cell>, ghost beforeChains: seq<Chain>)
    requires AllOk(before) && IsLastData(before, buf.lwd) && at <= n <= |before| == |beforeChains| && 0 < n
    requires n < |before| ==> rest < before[n].off
    requires buf.Linked() && buf.chains == [tmp] + beforeChains[at..] && buf.cells == [tmp.ToCell()] + before[at..]
    requires tmp.ToCell().Ok() && tmp.ToCell().Data() == Flat(before[..at]) + BytesUpTo(before, at, n, rest)
    requires buf.last == buf.chains[|buf.chains| - 1] && chain == if n < |before| then beforeChains[n] else null
    requires 0 < buf.lwd && buf.last_with_datap == NextOf(beforeChains[buf.lwd - 1])
    requires at <= 1 && (at == 1 ==> tmp == beforeChains[0])
    requires (removedLwd <==> at <= buf.lwd < n) && (removedLwdp <==> at < buf.lwd <= n)
    requires buf.total_len == |Flat(before)|
    modifies buf`chains, buf`cells, buf`last, buf`lwd, buf`last_with_datap, buf.chains
    ensures buf.Consistent() && buf.chains == [tmp] + beforeChains[n..] && buf.Contents() == Flat(before)
    ensures buf.cells[0] == old(tmp.ToCell())
  {
    hide Flat;
    CutPulled(buf, tmp, chain, rest, at, n, before, beforeChains);
    RepairPointer(buf, removedLwd, removedLwdp, PulledLwd(buf.lwd, n));
  }

  /** Appends the copied bytes to the first chunk, which has room for them. */
  method FillFirst(buf: EvBuffer, tmp: Chain, data: seq<Byte>)
    requires buf.Linked() && AllOk(buf.cells) && buf.chains != [] && tmp == buf.chains[0]
    requires tmp.misalign + tmp.off + |data| <= |tmp.buffer|
    modifies buf`cells, tmp`buffer, tmp`off
    ensures buf.Linked() && tmp.ToCell() == Appended(old(buf.cells)[0], data)
    ensures buf.cells == [tmp.ToCell()] + old(buf.cells)[1..]
  {
    hide Flat;
    ghost var c := Appended(buf.cells[0], data);
    tmp.buffer := Written(tmp.buffer, tmp.misalign + tmp.off, data);
    tmp.off := tmp.off + |data|;
    buf.cells := [c] + buf.cells[1..];
  }

  lemma {:induction false} FirstCell(cells: seq<Cell>)
    requires AllOk(cells) && cells != []
    ensures Flat(cells) == cells[0].Data() + Flat(cells[1..]) && Flat(cells[..1]) == cells[0].Data()
  {
    assert cells[..1] == [cells[0]];
    FlatOne(cells[0]);
  }

  predicate SameMemory(a: Cell, b: Cell) {
    a.misalign == b.misalign && |a.buffer| == |b.buffer|
  }

  /** evbuffer_pullup when the first chunk can hold all the bytes. */
  method PullIntoFirst(buf: EvBuffer, size: nat)
    requires buf.Consistent() && buf.chains != [] && buf.first.off < size <= buf.total_len
    requires size <= |buf.first.buffer| - buf.first.misalign
    modifies buf`chains, buf`cells, buf`last, buf`lwd, buf`last_with_datap, buf.chains
    ensures buf.Consistent() && buf.chains != [] && buf.cells[0].off == size
    ensures buf.Contents() == old(buf.Contents()) && (forall c <- buf.chains :: c in old(buf.chains))
    ensures buf.chains[0] == old(buf.first) && SameMemory(buf.cells[0], old(buf.cells)[0])
  {
    hide Flat, IsLastData, BytesUpTo, EvBuffer.Linked, Appended;
    NonEmptyHasChain(buf);
    ghost var before, beforeChains := buf.cells, buf.chains;
    FirstCell(before);
    LastBehind(before, buf.lwd, size);
    BehindFirst(buf);
    var tmp := buf.first;
    var data, chain, rest, removedLwd, removedLwdp, n := Gather(buf, tmp.next, size - tmp.off, 1);
    FillFirst(buf, tmp, data);
    FilledFirst(before[0], data);
    assert [tmp] + beforeChains[1..] == beforeChains;
    Assemble(buf, tmp, chain, rest, removedLwd, removedLwdp, 1, n, before, beforeChains);
  }

  /** What is known when there is data behind the first chunk. */
  lemma {:induction false} BehindFirst(buf: EvBuffer)
    requires buf.Consistent() && 0 < buf.lwd
    ensures |buf.chains| == |buf.cells| && 1 < |buf.chains| && buf.first == buf.chains[0] && buf.first.ToCell() == buf.cells[0]
    ensures buf.first.next == buf.chains[1] && buf.last == buf.chains[|buf.chains| - 1]
    ensures buf.last_with_datap == NextOf(buf.chains[buf.lwd - 1])
  {
    hide Flat;
  }

  lemma {:induction false} FilledFirst(c: Cell, data: seq<Byte>)
    requires c.Ok() && c.misalign + c.off + |data| <= |c.buffer|
    ensures Appended(c, data).Ok() && Appended(c, data).Data() == c.Data() + data
    ensures Appended(c, data).off == c.off + |data| && SameMemory(Appended(c, data), c)
  {
  }

  /** More bytes than the first chunk has means that the last data is behind it. */
  lemma {:induction false} LastBehind(cells: seq<Cell>, lwd: nat, size: nat)
    requires AllOk(cells) && IsLastData(cells, lwd) && cells != [] && cells[0].off < size <= |Flat(cells)|
    ensures 0 < lwd
  {
    FlatEmptyIff(cells[1..]);
    FirstCell(cells);
  }

  /** evbuffer_pullup into the fresh chunk `tmp`. */
  method PullIntoNew(buf: EvBuffer, tmp: Chain, size: nat)
    requires buf.Consistent() && buf.chains != [] && buf.first.off < size <= buf.total_len
    requires tmp !in buf.chains && tmp.misalign == 0 && tmp.off == 0 && size <= |tmp.buffer| && 0 < |tmp.buffer| <= CHAIN_MAX - CHAIN_SIZE
    modifies buf`first, buf`chains, buf`cells, buf`last, buf`lwd, buf`last_with_datap, buf.chains, tmp
    ensures buf.Consistent() && buf.chains != [] && buf.cells[0].off == size
    ensures buf.Contents() == old(buf.Contents()) && (forall c <- buf.chains :: c in old(buf.chains) || c == tmp)
    ensures buf.chains[0] == tmp && SameMemory(buf.cells[0], old(tmp.ToCell()))
  {
    hide Flat, IsLastData, BytesUpTo, EvBuffer.Linked;
    NonEmptyHasChain(buf);
    ghost var before, beforeChains := buf.cells, buf.chains;
    LastBehind(before, buf.lwd, size);
    BehindFirst(buf);
    assert before[0..] == before && before[..0] == [] && beforeChains[0..] == beforeChains;
    FlatEmpty(before[..0]);
    var chain := buf.first;
    var data, next, rest, removedLwd, removedLwdp, n := Gather(buf, chain, size, 0);
    tmp.buffer := Written(tmp.buffer, 0, data);
    tmp.off := size;
    LinkAtFront(buf, tmp, chain);
    GatheredSome(before, n, rest, data);
    assert tmp.ToCell().Data() == [] + BytesUpTo(before, 0, n, rest);
    Assemble(buf, tmp, next, rest, removedLwd, removedLwdp, 0, n, before, beforeChains);
  }

  lemma {:induction false} GatheredSome(cells: seq<Cell>, n: nat, k: nat, data: seq<Byte>)
    requires AllOk(cells) && n <= |cells| && cells != [] && (n < |cells| ==> k < cells[n].off)
    requires data == BytesUpTo(cells, 0, n, k) && cells[0].off < |data|
    ensures 0 < n
  {
  }

  /** evbuffer_pullup. On success the returned chunk is the first one and holds the first `size`
      bytes in one piece; a negative `size` means the whole buffer. */
  method Pullup(buf: EvBuffer, size: int) returns (result: Chain?)
    requires buf.Valid()
    modifies buf, buf.chains
    ensures buf.Valid() && OnlyFreshChains(buf) && SameSettings(buf) && SameCounters(buf)
    ensures buf.Contents() == old(buf.Contents())
    ensures var n := if size < 0 then old(buf.total_len) else size;
      && (result == null <==> n == 0 || n > old(buf.total_len) || (n > CHAIN_MAX - CHAIN_SIZE && old(NeedsNewChain(buf, n))))
      && (result != null ==>
            && buf.first == result && result.misalign + n <= result.misalign + result.off <= |result.buffer|
            && result.buffer[result.misalign..result.misalign + n] == buf.Contents()[..n]
            && if old(NeedsNewChain(buf, n)) then fresh(result) && result.misalign == 0 && |result.buffer| >= SMALLEST
               else result == old(buf.first) && SameMemory(result.ToCell(), old(buf.first.ToCell())))
    ensures result == null ==> unchanged(buf) && unchanged(old(buf.chains))
  {
    hide Flat;
    var n := if size < 0 then buf.total_len else size;
    if n == 0 || n > buf.total_len {
      return null;
    }
    NonEmptyHasChain(buf);
    var chain := buf.first;
    if chain.off < n {
      if |chain.buffer| - chain.misalign >= n {
        PullIntoFirst(buf, n);
      } else {
        var tmp := ChainNew(n);
        if tmp == null {
          return null;
        }
        PullIntoNew(buf, tmp, n);
      }
    }
    FirstBytes(buf, n);
    result := buf.first;
  }

  /** The bytes are not already together, and the first chunk is too small for them. */
  ghost predicate NeedsNewChain(buf: EvBuffer, n: nat)
    reads buf, buf.first
  {
    buf.first != null && buf.first.off < n && |buf.first.buffer| - buf.first.misalign < n
  }

  lemma {:induction false} NonEmptyHasChain(buf: EvBuffer)
    requires buf.Consistent() && (buf.chains != [] || buf.total_len > 0)
    ensures buf.chains != [] && buf.first == buf.chains[0] && buf.first.ToCell() == buf.cells[0] && |buf.cells| == |buf.chains|
  {
  }

  lemma {:induction false} FirstBytes(buf: EvBuffer, n: nat)
    requires buf.Consistent() && buf.chains != [] && n <= buf.cells[0].off
    ensures buf.first == buf.chains[0] && buf.first.off == buf.cells[0].off
    ensures buf.first.misalign + buf.first.off <= |buf.first.buffer| && SameMemory(buf.first.ToCell(), buf.cells[0])
    ensures buf.first.buffer[buf.first.misalign..buf.first.misalign + n] == buf.Contents()[..n]
  {
    FirstCell(buf.cells);
    var c := buf.cells[0];
    assert c.Data()[..n] == c.buffer[c.misalign..c.misalign + n];
  }
}
