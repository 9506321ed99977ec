/** Taking bytes off the front of an evbuffer: evbuffer_drain, evbuffer_copyout_from and
    evbuffer_remove. */
module EvBufferDrain {
  import opened Bytes
  import opened Wrappers
  import opened EvBufferCore

  ghost function DroppedFront(c: Cell, k: nat): (r: Cell)
    requires c.Ok() && k <= c.off
    ensures r.Ok() && r.Data() == c.Data()[k..]
  {
    Cell(c.misalign + k, c.off - k, c.buffer)
  }

  /** Dropping the first `n` chunks and `k` bytes of the next one. */
  lemma {:induction false} FlatDropFront(cells: seq<Cell>, n: nat, k: nat)
    requires AllOk(cells) && n < |cells| && k <= cells[n].off
    ensures AllOk(cells[..n]) && AllOk([DroppedFront(cells[n], k)] + cells[n + 1..])
    ensures |Flat(cells[..n])| + k <= |Flat(cells)|
    ensures Flat([DroppedFront(cells[n], k)] + cells[n + 1..]) == Flat(cells)[|Flat(cells[..n])| + k..]
  {
    FlatAround(cells, n);
    var d := DroppedFront(cells[n], k);
    var rest := [d] + cells[n + 1..];
    assert rest[1..] == cells[n + 1..] && rest[0] == d;
    DropAcross(Flat(cells[..n]), cells[n].Data(), Flat(cells[n + 1..]), k);
  }

  lemma DropAcross(a: seq<Byte>, b: seq<Byte>, c: seq<Byte>, k: nat)
    requires k <= |b|
    ensures (a + (b + c))[|a| + k..] == b[k..] + c
  {
  }

  /** Makes chunk `n` the first, without its first `k` bytes. */
  method DropChains(buf: EvBuffer, chain: Chain, k: nat, ghost n: nat)
    requires buf.Linked() && AllOk(buf.cells) && n < |buf.chains| && chain == buf.chains[n] && k <= chain.off
    modifies buf`first, buf`chains, buf`cells, chain`misalign, chain`off
    ensures buf.Linked() && buf.chains == old(buf.chains)[n..]
    ensures buf.cells == [DroppedFront(old(buf.cells)[n], k)] + old(buf.cells)[n + 1..]
  {
    hide Flat;
    ghost var c := DroppedFront(buf.cells[n], k);
    buf.first := chain;
    chain.misalign := chain.misalign + k;
    chain.off := chain.off - k;
    buf.chains, buf.cells := buf.chains[n..], [c] + buf.cells[n + 1..];
  }

  /** The loop of evbuffer_drain and of evbuffer_remove_buffer: finds the chunk in which `len`
      bytes end and the one before it, and moves the pointer to the last data off the chunks
      that go away. */
  method SkipChains(buf: EvBuffer, len: nat) returns (previous: Chain, chain: Chain, remaining: nat, ghost n: nat)
    requires buf.Consistent() && len < buf.total_len
    modifies buf`last_with_datap
    ensures buf.Linked() && buf.Sized()
    ensures n <= buf.lwd < |buf.chains| && chain == buf.chains[n] && remaining < chain.off
    ensures previous == buf.chains[if n == 0 then 0 else n - 1]
    ensures len == |Flat(buf.cells[..n])| + remaining
    ensures buf.last_with_datap == if n == buf.lwd then FirstOf(buf) else buf.PtrAt(buf.lwd)
  {
    hide Flat;
    n := 0;
    assert buf.cells[..0] == [];
    FlatEmpty(buf.cells[..0]);
    PrefixBeforeLast(buf.cells, buf.lwd, 0);
    chain, previous := buf.first, buf.first;
    remaining := len;
    while remaining >= chain.off
      invariant n <= buf.lwd < |buf.chains| && chain == buf.chains[n]
      invariant previous == buf.chains[if n == 0 then 0 else n - 1]
      invariant len == |Flat(buf.cells[..n])| + remaining
      invariant buf.last_with_datap == if n == buf.lwd then FirstOf(buf) else buf.PtrAt(buf.lwd)
      decreases |buf.chains| - n
    {
      var next := chain.next;
      FlatPrefixStep(buf.cells, n);
      PrefixBeforeLast(buf.cells, buf.lwd, n + 1);
      remaining := remaining - chain.off;
      // Only a buffer drained of all its data could drop the chunk the pointer leads to.
      assert chain != Deref(buf.last_with_datap);
      if NextOf(chain) == buf.last_with_datap {
        buf.last_with_datap := FirstOf(buf);
      }
      previous := chain;
      chain := next;
      n := n + 1;
    }
  }

  lemma {:induction false} DropIsLastData(cells: seq<Cell>, lwd: nat, n: nat, c: Cell)
    requires IsLastData(cells, lwd) && n <= lwd < |cells| && c.off > 0
    ensures IsLastData([c] + cells[n + 1..], lwd - n)
  {
  }

  /** evbuffer_drain of less than the whole buffer. */
  method DrainSome(buf: EvBuffer, len: nat)
    requires buf.Consistent() && len < buf.total_len
    modifies buf`first, buf`chains, buf`cells, buf`lwd, buf`last_with_datap, buf`total_len, buf.chains
    ensures buf.Consistent() && (forall c <- buf.chains :: c in old(buf.chains))
    ensures buf.Contents() == old(buf.Contents())[len..]
  {
    hide Flat, EvBuffer.Linked, IsLastData;
    var previous, chain, remaining, n := SkipChains(buf, len);
    CellOf(buf, n);
    FlatDropFront(buf.cells, n, remaining);
    DropIsLastData(buf.cells, buf.lwd, n, DroppedFront(buf.cells[n], remaining));
    DropChains(buf, chain, remaining, n);
    buf.total_len := buf.total_len - len;
    buf.lwd := buf.lwd - n;
  }

  /** ZERO_CHAIN */
  method ZeroChain(buf: EvBuffer)
    modifies buf`first, buf`last, buf`last_with_datap, buf`total_len, buf`chains, buf`cells, buf`lwd
    ensures buf.Consistent() && buf.chains == [] && buf.Contents() == [] && buf.total_len == 0
  {
    buf.first, buf.last, buf.last_with_datap, buf.total_len := null, null, FirstOf(buf), 0;
    buf.chains, buf.cells, buf.lwd := [], [], 0;
  }

  function Min(a: nat, b: nat): nat {
    if a <= b then a else b
  }

  /** evbuffer_drain. An empty buffer can be drained even while its front is frozen. */
  method Drain(buf: EvBuffer, len: nat) returns (result: int)
    requires buf.Valid()
    modifies buf, buf.chains
    ensures buf.Valid() && SameSettings(buf) && buf.n_add_for_cb == old(buf.n_add_for_cb)
    ensures forall c <- buf.chains :: c in old(buf.chains)
    ensures result == if old(buf.total_len) != 0 && buf.freeze_start then -1 else 0
    ensures result == 0 ==> buf.Contents() == old(buf.Contents())[Min(len, old(buf.total_len))..]
    ensures result == 0 ==> buf.n_del_for_cb == old(buf.n_del_for_cb) + Min(len, old(buf.total_len))
    ensures result == -1 ==> unchanged(buf) && unchanged(old(buf.chains))
  {
    hide Flat;
    if buf.total_len == 0 {
      return 0;
    }
    if buf.freeze_start {
      return -1;
    }
    var n := Min(len, buf.total_len);
    if len >= buf.total_len {
      ZeroChain(buf);
    } else {
      DrainSome(buf, len);
    }
    buf.n_del_for_cb := buf.n_del_for_cb + n;
    result := 0;
  }

  /** An evbuffer_ptr: a position in a buffer, with the chunk it falls in. */
  datatype Ptr = Ptr(pos: int, chain: Chain?, pos_in_chain: nat)

  /** `p` points into chunk `i`, or just behind the last chunk. */
  ghost predicate PointsInto(buf: EvBuffer, p: Ptr, i: nat)
    requires AllOk(buf.cells)
    reads buf
  {
    && i <= |buf.chains| == |buf.cells|
    && p.chain == (if i < |buf.chains| then buf.chains[i] else null)
    && (i < |buf.chains| ==> p.pos_in_chain <= buf.cells[i].off)
    && (i == |buf.chains| ==> p.pos_in_chain == 0)
    && p.pos == |Flat(buf.cells[..i])| + p.pos_in_chain
  }

  ghost predicate PtrOk(buf: EvBuffer, p: Ptr)
    requires AllOk(buf.cells)
    reads buf
  {
    exists i: nat :: PointsInto(buf, p, i)
  }

  lemma {:induction false} PtrInBounds(buf: EvBuffer, p: Ptr)
    requires buf.Linked() && AllOk(buf.cells) && PtrOk(buf, p)
    ensures 0 <= p.pos <= |Flat(buf.cells)|
  {
    var i: nat :| PointsInto(buf, p, i);
    FlatSplit(buf.cells, i);
    if i < |buf.cells| {
      FlatAround(buf.cells, i);
    }
  }

  lemma SliceGrow(s: seq<Byte>, a: nat, b: nat, c: nat)
    requires a <= b <= c <= |s|
    ensures s[a..b] + s[b..c] == s[a..c]
  {
  }

  lemma {:induction false} CopyStep(cells: seq<Cell>, i: nat, k: nat, l: nat, a: nat)
    requires AllOk(cells) && i < |cells| && k <= l <= cells[i].off && a <= |Flat(cells[..i])| + k
    ensures |Flat(cells[..i])| + l <= |Flat(cells)|
    ensures Flat(cells)[a..|Flat(cells[..i])| + k] + cells[i].Data()[k..l] == Flat(cells)[a..|Flat(cells[..i])| + l]
  {
    FlatSlice(cells, i, k, l);
    SliceGrow(Flat(cells), a, |Flat(cells[..i])| + k, |Flat(cells[..i])| + l);
  }

  /** Bytes `k..l` of a chunk's data. */
  function Piece(chain: Chain, k: nat, l: nat): (r: seq<Byte>)
    requires k <= l <= chain.off && chain.misalign + chain.off <= |chain.buffer|
    reads chain
    ensures chain.ToCell().Ok() ==> r == chain.ToCell().Data()[k..l]
  {
    SliceSlice(chain.buffer, chain.misalign, chain.misalign + chain.off, k, l);
    chain.buffer[chain.misalign + k..chain.misalign + l]
  }

  /** Steps from chunk `i` to the next. */
  lemma {:induction false} NextChunk(buf: EvBuffer, p: Ptr, i: nat)
    requires buf.Consistent() && PointsInto(buf, p, i) && i < |buf.chains|
    ensures p.chain.ToCell() == buf.cells[i] && buf.cells[i].Ok()
    ensures p.chain.next == if i + 1 < |buf.chains| then buf.chains[i + 1] else null
    ensures PointsInto(buf, Ptr(p.pos + (buf.cells[i].off - p.pos_in_chain), p.chain.next, 0), i + 1)
    ensures p.pos + (buf.cells[i].off - p.pos_in_chain) <= |buf.Contents()|
  {
    FlatPrefixStep(buf.cells, i);
  }

  /** The copying loop of evbuffer_copyout_from: copies whole chunks while `n` bytes from
      `start` go beyond the current one. */
  method CopyChunks(buf: EvBuffer, start: Ptr, n: nat, ghost at: nat) returns (data: seq<Byte>, p: Ptr, left: nat, ghost i: nat)
    requires buf.Consistent() && PointsInto(buf, start, at) && start.pos + n <= buf.total_len
    ensures PointsInto(buf, p, i) && start.pos <= p.pos && p.pos + left == start.pos + n
    ensures left != 0 ==> p.chain != null && p.pos_in_chain + left <= p.chain.off
    ensures data == buf.Contents()[start.pos..p.pos]
  {
    hide Flat, EvBuffer.Linked, IsLastData;
    data, p, left, i := [], start, n, at;
    if left != 0 {
      EndIsBehind(buf, start, at);
    }
    while left != 0 && left >= p.chain.off - p.pos_in_chain
      invariant PointsInto(buf, p, i) && start.pos <= p.pos && p.pos + left == start.pos + n
      invariant left != 0 ==> p.chain != null
      invariant data == buf.Contents()[start.pos..p.pos]
      decreases |buf.chains| - i
    {
      var chain, k := p.chain, p.pos_in_chain;
      NextChunk(buf, p, i);
      CopyStep(buf.cells, i, k, chain.off, start.pos);
      data := data + Piece(chain, k, chain.off);
      p := Ptr(p.pos + (chain.off - k), chain.next, 0);
      left := left - (chain.off - k);
      i := i + 1;
      if left != 0 {
        EndIsBehind(buf, p, i);
      }
    }
  }

  /** Copies `n` bytes from position `start`. */
  method CopyFrom(buf: EvBuffer, start: Ptr, n: nat, ghost at: nat) returns (data: seq<Byte>)
    requires buf.Consistent() && PointsInto(buf, start, at) && start.pos + n <= buf.total_len
    ensures data == buf.Contents()[start.pos..start.pos + n]
  {
    hide Flat;
    var p, left;
    ghost var i;
    data, p, left, i := CopyChunks(buf, start, n, at);
    if left != 0 {
      CopyStep(buf.cells, i, p.pos_in_chain, p.pos_in_chain + left, start.pos);
      data := data + Piece(p.chain, p.pos_in_chain, p.pos_in_chain + left);
    }
  }

  /** A pointer before the end of the buffer names a chunk. */
  lemma {:induction false} EndIsBehind(buf: EvBuffer, p: Ptr, i: nat)
    requires buf.Consistent() && PointsInto(buf, p, i) && p.pos < buf.total_len
    ensures p.chain != null
  {
    assert buf.cells[..|buf.cells|] == buf.cells;
  }

  /** evbuffer_copyout_from, with a position or (`None`) from the start. */
  method CopyoutFrom(buf: EvBuffer, pos: Option<Ptr>, datlen: nat) returns (result: int, data: seq<Byte>)
    requires buf.Valid()
    requires pos.Some? ==> 0 <= pos.value.pos <= SSIZE_MAX && pos.value.pos <= buf.total_len && PtrOk(buf, pos.value)
    ensures var at := if pos.Some? then pos.value.pos else 0;
      var n := Min(datlen, buf.total_len - at);
      if pos.Some? && datlen > SSIZE_MAX - at then result == -1 && data == []
      else if n != 0 && buf.freeze_start then result == -1 && data == []
      else result == n && data == buf.Contents()[at..at + n]
  {
    hide Flat;
    data := [];
    var start := if pos.Some? then pos.value else Ptr(0, buf.first, 0);
    ghost var i: nat := 0;
    if pos.Some? {
      PtrInBounds(buf, start);
      i :| PointsInto(buf, start, i);
      if datlen > SSIZE_MAX - start.pos {
        return -1, [];
      }
    } else {
      FirstPtr(buf);
    }
    var n := datlen;
    if n + start.pos > buf.total_len {
      n := buf.total_len - start.pos;
    }
    if n == 0 {
      return 0, [];
    }
    if buf.freeze_start {
      return -1, [];
    }
    data := CopyFrom(buf, start, n, i);
    result := n;
  }

  lemma {:induction false} FirstPtr(buf: EvBuffer)
    requires buf.Linked() && AllOk(buf.cells)
    ensures PointsInto(buf, Ptr(0, buf.first, 0), 0)
  {
    assert buf.cells[..0] == [];
  }

  /** A size returned as a 32-bit int. */
  function CInt(n: nat): (r: int)
    ensures -0x8000_0000 <= r < 0x8000_0000 && (n < 0x8000_0000 ==> r == n)
  {
    var low := n % 0x1_0000_0000;
    if low < 0x8000_0000 then low else low - 0x1_0000_0000
  }

  /** evbuffer_remove. From 2^31 bytes on the result is not their number, though they are removed. */
  method Remove(buf: EvBuffer, datlen: nat) returns (result: int, data: seq<Byte>)
    requires buf.Valid()
    modifies buf, buf.chains
    ensures buf.Valid() && SameSettings(buf) && buf.n_add_for_cb == old(buf.n_add_for_cb)
    ensures forall c <- buf.chains :: c in old(buf.chains)
    ensures var n := Min(datlen, old(buf.total_len));
      if n != 0 && buf.freeze_start then result == -1 && data == [] && unchanged(buf) && unchanged(old(buf.chains))
      else
        && result == CInt(n) && data + buf.Contents() == old(buf.Contents()) && |data| == n
        && buf.n_del_for_cb == old(buf.n_del_for_cb) + n
  {
    hide Flat, CInt;
    var n;
    n, data := CopyoutFrom(buf, None, datlen);
    if n > 0 {
      var r := Drain(buf, n);
      if r < 0 {
        n := -1;
      }
    } else {
      assert data + buf.Contents() == buf.Contents();
    }
    result := if n < 0 then -1 else CInt(n);
  }
}
