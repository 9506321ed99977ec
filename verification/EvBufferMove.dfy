/** Moving chunks between evbuffers without copying: evbuffer_add_buffer,
    evbuffer_prepend_buffer and evbuffer_remove_buffer. */
module EvBufferMove {
  import opened Bytes
  import opened EvBufferCore
  import opened EvBufferAdd
  import opened EvBufferDrain

  /** COPY_CHAIN: `dst` takes over the whole list of `src`. */
  method CopyChain(dst: EvBuffer, src: EvBuffer)
    requires dst != src && src.Consistent()
    modifies dst`first, dst`last, dst`last_with_datap, dst`total_len, dst`chains, dst`cells, dst`lwd
    ensures dst.Consistent() && src.Consistent()
    ensures dst.chains == src.chains && dst.cells == src.cells
  {
    hide Flat, IsLastData, EvBuffer.Linked;
    dst.first := src.first;
    if src.last_with_datap == FirstOf(src) {
      dst.last_with_datap := FirstOf(dst);
    } else {
      dst.last_with_datap := src.last_with_datap;
    }
    dst.last := src.last;
    dst.total_len := src.total_len;
    dst.chains, dst.cells, dst.lwd := src.chains, src.cells, src.lwd;
    SameLinks(dst, src);
  }

  lemma {:induction false} SameLinks(dst: EvBuffer, src: EvBuffer)
    requires src.Linked() && dst.first == src.first && dst.chains == src.chains && dst.cells == src.cells
    ensures dst.Linked()
  {
  }

  /** `*chp = src->first`, where `chp` is the link at the end of `dst`. */
  method LinkListAtEnd(dst: EvBuffer, chp: NextPtr, src: EvBuffer)
    requires dst != src && dst.Linked() && src.Linked() && Disjoint(dst, src)
    requires chp == dst.PtrAt(|dst.chains|)
    modifies dst`first, dst`chains, dst`cells, dst.chains
    ensures dst.Linked() && src.Linked()
    ensures dst.chains == old(dst.chains) + src.chains && dst.cells == old(dst.cells) + src.cells
  {
    if chp.FirstOf? {
      chp.buf.first := src.first;
    } else {
      chp.chain.next := src.first;
    }
    dst.chains, dst.cells := dst.chains + src.chains, dst.cells + src.cells;
  }

  lemma {:induction false} JoinLastData(a: seq<Cell>, b: seq<Cell>, k: nat)
    requires IsLastData(b, k) && k < |b| && b[k].off > 0
    ensures IsLastData(a + b, |a| + k)
  {
  }

  lemma {:induction false} LastDataExists(cells: seq<Cell>, k: nat)
    requires AllOk(cells) && IsLastData(cells, k) && Flat(cells) != []
    ensures k < |cells| && cells[k].off > 0
  {
    FlatEmptyIff(cells);
  }

  /** The list surgery of APPEND_CHAIN; the pointers of `dst` still have to follow. */
  method AppendLinks(dst: EvBuffer, src: EvBuffer) returns (chp: NextPtr, ghost k: nat)
    requires dst != src && dst.Consistent() && src.Consistent() && Disjoint(dst, src) && src.total_len > 0
    modifies dst`first, dst`chains, dst`cells, dst.chains
    ensures dst.Linked() && src.Consistent()
    ensures k <= |old(dst.chains)| && dst.chains == old(dst.chains)[..k] + src.chains && chp == dst.PtrAt(k)
    ensures AllOk(dst.cells) && IsLastData(dst.cells, k + src.lwd) && src.lwd < |src.chains|
    ensures dst.Contents() == old(dst.Contents()) + src.Contents()
  {
    hide Flat, IsLastData, EvBuffer.Linked;
    Shape(src);
    Shape(dst);
    LastDataExists(src.cells, src.lwd);
    chp, k := FreeTrailingEmptyChains(dst);
    FlatConcat(dst.cells, src.cells);
    JoinLastData(dst.cells, src.cells, src.lwd);
    LinkListAtEnd(dst, chp, src);
  }

  lemma {:induction false} PrefixAnd(now: seq<Chain>, a: seq<Chain>, k: nat, b: seq<Chain>)
    requires k <= |a| && now == a[..k] + b
    ensures forall c <- now :: c in a || c in b
  {
  }

  lemma {:induction false} AppendedPointer(dst: EvBuffer, src: EvBuffer, before: seq<Chain>)
    requires dst.chains == before + src.chains && src.lwd < |src.chains| && src.last_with_datap == src.PtrAt(src.lwd)
    ensures dst.PtrAt(|before| + src.lwd)
      == if src.last_with_datap == FirstOf(src) then dst.PtrAt(|before|) else src.last_with_datap
    ensures dst.chains[|dst.chains| - 1] == src.chains[|src.chains| - 1]
  {
  }

  /** APPEND_CHAIN */
  method AppendChain(dst: EvBuffer, src: EvBuffer)
    requires dst != src && dst.Consistent() && src.Consistent() && Disjoint(dst, src) && src.total_len > 0
    modifies dst`first, dst`last, dst`last_with_datap, dst`total_len, dst`chains, dst`cells, dst`lwd, dst.chains
    ensures dst.Consistent() && src.Consistent()
    ensures forall c <- dst.chains :: c in old(dst.chains) || c in src.chains
    ensures dst.Contents() == old(dst.Contents()) + src.Contents()
  {
    hide Flat, EvBuffer.Linked, IsLastData;
    Shape(src);
    var chp, k := AppendLinks(dst, src);
    PrefixAnd(dst.chains, old(dst.chains), k, src.chains);
    AppendedPointer(dst, src, old(dst.chains)[..k]);
    AppendEnds(dst, src, chp, k);
  }

  /** The fields of `dst` that have to follow. */
  method AppendEnds(dst: EvBuffer, src: EvBuffer, chp: NextPtr, ghost k: nat)
    requires dst != src
    modifies dst`last, dst`last_with_datap, dst`total_len, dst`lwd
    ensures dst.last_with_datap == if src.last_with_datap == FirstOf(src) then chp else src.last_with_datap
    ensures dst.lwd == k + src.lwd && dst.last == src.last && dst.total_len == old(dst.total_len) + src.total_len
  {
    if src.last_with_datap == FirstOf(src) {
      dst.last_with_datap := chp;
    } else {
      dst.last_with_datap := src.last_with_datap;
    }
    dst.lwd := k + src.lwd;
    dst.last := src.last;
    dst.total_len := dst.total_len + src.total_len;
  }

  /** Puts the chunks of `src` in front of those of `dst`; the list of `src` ends up inside. */
  method LinkListAtFront(dst: EvBuffer, src: EvBuffer)
    requires dst != src && dst.Linked() && src.Linked() && Disjoint(dst, src) && src.chains != []
    requires src.last == src.chains[|src.chains| - 1]
    modifies dst`first, dst`chains, dst`cells, src.last`next
    ensures dst.Linked()
    ensures dst.chains == src.chains + old(dst.chains) && dst.cells == src.cells + old(dst.cells)
  {
    src.last.next := dst.first;
    dst.first := src.first;
    dst.chains, dst.cells := src.chains + dst.chains, src.cells + dst.cells;
  }

  /** PREPEND_CHAIN */
  method PrependChain(dst: EvBuffer, src: EvBuffer)
    requires dst != src && dst.Consistent() && src.Consistent() && Disjoint(dst, src)
    requires src.total_len > 0 && dst.total_len > 0
    modifies dst`first, dst`last_with_datap, dst`total_len, dst`chains, dst`cells, dst`lwd, src.last`next
    ensures dst.Consistent()
    ensures dst.chains == src.chains + old(dst.chains)
    ensures dst.Contents() == src.Contents() + old(dst.Contents())
  {
    hide Flat, EvBuffer.Linked, IsLastData;
    Shape(src);
    Shape(dst);
    DerefAt(dst, dst.lwd);
    LastDataExists(src.cells, src.lwd);
    LastDataExists(dst.cells, dst.lwd);
    FlatConcat(src.cells, dst.cells);
    JoinLastData(src.cells, dst.cells, dst.lwd);
    LinkListAtFront(dst, src);
    dst.total_len := dst.total_len + src.total_len;
    // The pointer leads to a chunk here, so the original's first case does not arise.
    assert Deref(dst.last_with_datap) != null;
    if dst.last_with_datap == FirstOf(dst) {
      dst.last_with_datap := NextOf(src.last);
    }
    dst.lwd := |src.chains| + dst.lwd;
  }

  lemma {:induction false} DisjointByMembership(a: EvBuffer, b: EvBuffer)
    requires forall c <- a.chains :: c !in b.chains
    ensures Disjoint(a, b)
  {
    forall i, j | 0 <= i < |a.chains| && 0 <= j < |b.chains|
      ensures a.chains[i] != b.chains[j]
    {
      assert a.chains[i] in a.chains && b.chains[j] in b.chains;
    }
  }

  /** How two buffers may have exchanged chunks. */
  twostate predicate ChainsExchanged(a: EvBuffer, b: EvBuffer)
    reads a, b
  {
    && Disjoint(a, b)
    && (forall c <- a.chains :: c in old(a.chains) || c in old(b.chains) || fresh(c))
    && (forall c <- b.chains :: c in old(b.chains))
  }

  lemma {:induction false} NothingToMove(outbuf: EvBuffer, inbuf: EvBuffer)
    requires inbuf.Valid() && outbuf.Valid() && inbuf.total_len == 0
    ensures inbuf.Contents() == []
    ensures outbuf.Contents() + inbuf.Contents() == outbuf.Contents()
    ensures inbuf.Contents() + outbuf.Contents() == outbuf.Contents()
  {
  }

  /** The moving part of evbuffer_add_buffer. */
  method TakeAll(outbuf: EvBuffer, inbuf: EvBuffer)
    requires inbuf != outbuf && outbuf.Consistent() && inbuf.Consistent() && Disjoint(outbuf, inbuf) && inbuf.total_len > 0
    modifies outbuf`first, outbuf`last, outbuf`last_with_datap, outbuf`total_len, outbuf`chains, outbuf`cells, outbuf`lwd
    modifies inbuf`first, inbuf`last, inbuf`last_with_datap, inbuf`total_len, inbuf`chains, inbuf`cells, inbuf`lwd
    modifies outbuf.chains, inbuf.chains
    ensures outbuf.Consistent() && inbuf.Consistent() && ChainsExchanged(outbuf, inbuf)
    ensures outbuf.Contents() == old(outbuf.Contents()) + old(inbuf.Contents()) && inbuf.Contents() == []
    ensures inbuf.chains == [] && outbuf.total_len == old(outbuf.total_len) + old(inbuf.total_len)
  {
    hide Flat, EvBuffer.Linked;
    if outbuf.total_len == 0 {
      CopyChain(outbuf, inbuf);
      assert old(outbuf.Contents()) == [];
      assert [] + old(inbuf.Contents()) == old(inbuf.Contents());
    } else {
      AppendChain(outbuf, inbuf);
    }
    ZeroChain(inbuf);
  }

  /** evbuffer_add_buffer: appends all of `inbuf` to `outbuf`. */
  method AddBuffer(outbuf: EvBuffer, inbuf: EvBuffer) returns (result: int)
    requires outbuf.Valid() && inbuf.Valid() && (inbuf == outbuf || Disjoint(outbuf, inbuf))
    modifies outbuf, inbuf, outbuf.chains, inbuf.chains
    ensures outbuf.Valid() && inbuf.Valid() && SameSettings(outbuf) && SameSettings(inbuf)
    ensures inbuf != outbuf ==> ChainsExchanged(outbuf, inbuf)
    ensures result == if old(inbuf.total_len) != 0 && inbuf != outbuf && (outbuf.freeze_end || inbuf.freeze_start) then -1 else 0
    ensures result == 0 && inbuf != outbuf ==>
        && outbuf.Contents() == old(outbuf.Contents()) + old(inbuf.Contents())
        && inbuf.Contents() == []
        && outbuf.n_add_for_cb == old(outbuf.n_add_for_cb) + old(inbuf.total_len)
        && inbuf.n_del_for_cb == old(inbuf.n_del_for_cb) + old(inbuf.total_len)
        && outbuf.n_del_for_cb == old(outbuf.n_del_for_cb)
        && inbuf.n_add_for_cb == old(inbuf.n_add_for_cb)
    ensures result == -1 || inbuf == outbuf ==> unchanged(outbuf, inbuf) && unchanged(old(outbuf.chains), old(inbuf.chains))
  {
    hide Flat, EvBuffer.Linked;
    var inTotal := inbuf.total_len;
    if inTotal == 0 || outbuf == inbuf {
      if outbuf != inbuf {
        NothingToMove(outbuf, inbuf);
      }
      return 0;
    }
    if outbuf.freeze_end || inbuf.freeze_start {
      return -1;
    }
    TakeAll(outbuf, inbuf);
    inbuf.n_del_for_cb := inbuf.n_del_for_cb + inTotal;
    outbuf.n_add_for_cb := outbuf.n_add_for_cb + inTotal;
    result := 0;
  }

  /** The moving part of evbuffer_prepend_buffer. */
  method TakeAllInFront(outbuf: EvBuffer, inbuf: EvBuffer)
    requires inbuf != outbuf && outbuf.Consistent() && inbuf.Consistent() && Disjoint(outbuf, inbuf) && inbuf.total_len > 0
    modifies outbuf`first, outbuf`last, outbuf`last_with_datap, outbuf`total_len, outbuf`chains, outbuf`cells, outbuf`lwd
    modifies inbuf`first, inbuf`last, inbuf`last_with_datap, inbuf`total_len, inbuf`chains, inbuf`cells, inbuf`lwd
    modifies outbuf.chains, inbuf.chains
    ensures outbuf.Consistent() && inbuf.Consistent() && ChainsExchanged(outbuf, inbuf)
    ensures outbuf.Contents() == old(inbuf.Contents()) + old(outbuf.Contents()) && inbuf.Contents() == []
    ensures inbuf.chains == [] && outbuf.total_len == old(outbuf.total_len) + old(inbuf.total_len)
  {
    hide Flat, EvBuffer.Linked;
    if outbuf.total_len == 0 {
      CopyChain(outbuf, inbuf);
      assert old(outbuf.Contents()) == [];
      assert old(inbuf.Contents()) + [] == old(inbuf.Contents());
    } else {
      LastDataExists(inbuf.cells, inbuf.lwd);
      PrependChain(outbuf, inbuf);
    }
    ZeroChain(inbuf);
  }

  /** evbuffer_prepend_buffer: puts all of `inbuf` in front of `outbuf`. */
  method PrependBuffer(outbuf: EvBuffer, inbuf: EvBuffer) returns (result: int)
    requires outbuf.Valid() && inbuf.Valid() && (inbuf == outbuf || Disjoint(outbuf, inbuf))
    modifies outbuf, inbuf, outbuf.chains, inbuf.chains
    ensures outbuf.Valid() && inbuf.Valid() && SameSettings(outbuf) && SameSettings(inbuf)
    ensures inbuf != outbuf ==> ChainsExchanged(outbuf, inbuf)
    ensures result == if old(inbuf.total_len) != 0 && inbuf != outbuf && (outbuf.freeze_start || inbuf.freeze_start) then -1 else 0
    ensures result == 0 && inbuf != outbuf ==>
        && outbuf.Contents() == old(inbuf.Contents()) + old(outbuf.Contents())
        && inbuf.Contents() == []
        && outbuf.n_add_for_cb == old(outbuf.n_add_for_cb) + old(inbuf.total_len)
        && inbuf.n_del_for_cb == old(inbuf.n_del_for_cb) + old(inbuf.total_len)
        && outbuf.n_del_for_cb == old(outbuf.n_del_for_cb)
        && inbuf.n_add_for_cb == old(inbuf.n_add_for_cb)
    ensures result == -1 || inbuf == outbuf ==> unchanged(outbuf, inbuf) && unchanged(old(outbuf.chains), old(inbuf.chains))
  {
    hide Flat, EvBuffer.Linked;
    var inTotal := inbuf.total_len;
    if inTotal == 0 || outbuf == inbuf {
      if outbuf != inbuf {
        NothingToMove(outbuf, inbuf);
      }
      return 0;
    }
    if outbuf.freeze_start || inbuf.freeze_start {
      return -1;
    }
    TakeAllInFront(outbuf, inbuf);
    inbuf.n_del_for_cb := inbuf.n_del_for_cb + inTotal;
    outbuf.n_add_for_cb := outbuf.n_add_for_cb + inTotal;
    result := 0;
  }

  /** advance_last_with_data: after data appeared behind the last chunk known to have data. */
  method AdvanceLastWithData(buf: EvBuffer) returns (n: nat)
    requires buf.Linked() && AllOk(buf.cells)
    requires buf.lwd <= |buf.chains| && (buf.lwd == |buf.chains| ==> buf.lwd == 0) && buf.last_with_datap == buf.PtrAt(buf.lwd)
    requires 0 < buf.lwd ==> buf.cells[buf.lwd].off > 0
    modifies buf`last_with_datap, buf`lwd
    ensures buf.Linked() && IsLastData(buf.cells, buf.lwd) && buf.last_with_datap == buf.PtrAt(buf.lwd)
  {
    n := 0;
    var chainp := buf.last_with_datap;
    ghost var i := buf.lwd;
    DerefAt(buf, i);
    if Deref(chainp) == null {
      return;
    }
    while Deref(chainp).next != null
      invariant buf.lwd <= i < |buf.chains| && chainp == buf.PtrAt(i) && Deref(chainp) == buf.chains[i]
      invariant buf.last_with_datap == buf.PtrAt(buf.lwd)
      invariant 0 < buf.lwd ==> buf.cells[buf.lwd].off > 0
      invariant forall j :: buf.lwd < j <= i ==> buf.cells[j].off == 0
      decreases |buf.chains| - i
    {
      chainp := NextOf(Deref(chainp));
      i := i + 1;
      DerefAt(buf, i);
      if Deref(chainp).off != 0 {
        buf.last_with_datap := chainp;
        buf.lwd := i;
      }
      n := n + 1;
    }
  }

  /** What `Linked` says of the chunks from `n` on. */
  ghost predicate LinkedFrom(src: EvBuffer, n: nat)
    reads src`chains, src`cells
    reads if n <= |src.chains| then src.chains[n..] else []
  {
    && n <= |src.chains| == |src.cells|
    && (forall i {:trigger src.chains[i]} :: n <= i < |src.chains| ==>
          src.chains[i] == src.chains[n..][i - n] && src.chains[i].ToCell() == src.cells[i]
          && src.chains[i].next == if i + 1 < |src.chains| then src.chains[i + 1] else null)
    && (forall i, j :: n <= i < j < |src.chains| ==> src.chains[i] != src.chains[j])
  }

  /** Hangs the first `n` chunks of `src` on the end of `dst` and cuts them off behind. */
  method HangFront(dst: EvBuffer, chp: NextPtr, src: EvBuffer, previous: Chain, ghost n: nat)
    requires dst != src && dst.Linked() && src.Linked() && Disjoint(dst, src)
    requires chp == dst.PtrAt(|dst.chains|)
    requires 0 < n < |src.chains| && previous == src.chains[n - 1]
    modifies dst`first, dst`last, dst`chains, dst`cells, dst.chains, previous`next
    ensures dst.Linked() && dst.last == previous
    ensures dst.chains == old(dst.chains) + src.chains[..n] && dst.cells == old(dst.cells) + src.cells[..n]
  {
    if dst.first == null {
      dst.first := src.first;
    } else {
      chp.chain.next := src.first;
    }
    dst.last := previous;
    previous.next := null;
    dst.chains, dst.cells := dst.chains + src.chains[..n], dst.cells + src.cells[..n];
  }

  method CutFront(src: EvBuffer, chain: Chain, ghost n: nat)
    requires LinkedFrom(src, n) && n < |src.chains| && chain == src.chains[n]
    modifies src`first, src`chains, src`cells
    ensures src.Linked() && src.chains == old(src.chains)[n..] && src.cells == old(src.cells)[n..]
  {
    src.first := chain;
    src.chains, src.cells := src.chains[n..], src.cells[n..];
  }

  lemma {:induction false} LinkedHasTail(src: EvBuffer, n: nat)
    requires src.Linked() && n <= |src.chains|
    ensures LinkedFrom(src, n)
  {
  }

  /** The pointer part of moving the first `n` chunks of `src` to the end of `dst`. */
  method SpliceFront(dst: EvBuffer, chp: NextPtr, src: EvBuffer, previous: Chain, chain: Chain, ghost n: nat)
    requires dst != src && dst.Linked() && src.Linked() && Disjoint(dst, src)
    requires chp == dst.PtrAt(|dst.chains|)
    requires 0 < n < |src.chains| && previous == src.chains[n - 1] && chain == src.chains[n]
    modifies dst`first, dst`last, dst`chains, dst`cells, src`first, src`chains, src`cells, dst.chains, previous`next
    ensures dst.Linked() && src.Linked()
    ensures dst.last == previous
    ensures dst.chains == old(dst.chains) + old(src.chains)[..n] && dst.cells == old(dst.cells) + old(src.cells)[..n]
    ensures src.chains == old(src.chains)[n..] && src.cells == old(src.cells)[n..]
  {
    hide EvBuffer.Linked;
    LinkedHasTail(src, n);
    NoRepeats(src);
    HangFront(dst, chp, src, previous, n);
    assert LinkedFrom(src, n);
    hide LinkedFrom;
    CutFront(src, chain, n);
  }

  lemma {:induction false} NoRepeats(src: EvBuffer)
    requires src.Linked()
    ensures forall i, j :: 0 <= i < j < |src.chains| ==> src.chains[i] != src.chains[j]
  {
  }

  /** The list surgery for moving the first `n` chunks of `src` to `dst`. */
  method MoveLinks(src: EvBuffer, dst: EvBuffer, previous: Chain, chain: Chain, ghost n: nat)
    requires dst != src && dst.Consistent() && src.Linked() && AllOk(src.cells) && Disjoint(dst, src)
    requires 0 < n < |src.chains| && previous == src.chains[n - 1] && chain == src.chains[n]
    modifies dst`first, dst`last, dst`chains, dst`cells, dst`last_with_datap, dst`lwd
    modifies src`first, src`chains, src`cells, dst.chains, previous`next
    ensures dst.Linked() && AllOk(dst.cells) && IsLastData(dst.cells, dst.lwd)
    ensures dst.last_with_datap == dst.PtrAt(dst.lwd) && dst.chains != [] && dst.last == dst.chains[|dst.chains| - 1]
    ensures dst.Contents() == old(dst.Contents()) + Flat(old(src.cells)[..n])
    ensures forall c <- dst.chains :: c in old(dst.chains) || c in old(src.chains)[..n]
    ensures src.Linked() && src.chains == old(src.chains)[n..] && src.cells == old(src.cells)[n..]
  {
    hide Flat;
    var chp, k := FreeTrailingEmptyChains(dst);
    FlatSplit(src.cells, n);
    FlatConcat(dst.cells, src.cells[..n]);
    SpliceFront(dst, chp, src, previous, chain, n);
    var moved := AdvanceLastWithData(dst);
  }

  /** evbuffer_remove_buffer: moves the whole chunks, `nread` bytes, to `dst`. */
  method MoveChains(src: EvBuffer, dst: EvBuffer, previous: Chain, chain: Chain, nread: nat, ghost n: nat)
    requires dst != src && dst.Valid() && src.Linked() && AllOk(src.cells) && Disjoint(dst, src)
    requires 0 < n < |src.chains| && previous == src.chains[n - 1] && chain == src.chains[n]
    requires nread == |Flat(src.cells[..n])|
    modifies dst`first, dst`last, dst`chains, dst`cells, dst`last_with_datap, dst`lwd, dst`total_len, dst`n_add_for_cb
    modifies src`first, src`chains, src`cells, dst.chains, previous`next
    ensures dst.Valid() && dst.n_add_for_cb == old(dst.n_add_for_cb) + nread
    ensures dst.Contents() == old(dst.Contents()) + Flat(old(src.cells)[..n])
    ensures forall c <- dst.chains :: c in old(dst.chains) || c in old(src.chains)[..n]
    ensures src.Linked() && src.chains == old(src.chains)[n..] && src.cells == old(src.cells)[n..]
  {
    hide Flat, EvBuffer.Linked, AllOk, IsLastData;
    MoveLinks(src, dst, previous, chain, n);
    dst.total_len := dst.total_len + nread;
    dst.n_add_for_cb := dst.n_add_for_cb + nread;
  }

  /** evbuffer_remove_buffer up to the copying: moves the chunks that go as a whole. */
  method MoveWhole(src: EvBuffer, dst: EvBuffer, len: nat) returns (chain: Chain, remaining: nat, ghost n: nat)
    requires dst != src && dst.Valid() && src.Consistent() && Disjoint(dst, src) && len < src.total_len
    modifies dst`first, dst`last, dst`chains, dst`cells, dst`last_with_datap, dst`lwd, dst`total_len, dst`n_add_for_cb
    modifies src`first, src`chains, src`cells, src`last_with_datap, dst.chains, src.chains
    ensures n <= src.lwd < |old(src.chains)| == |old(src.cells)| && len == |Flat(old(src.cells)[..n])| + remaining
    ensures dst.Valid() && dst.Contents() == old(dst.Contents()) + Flat(old(src.cells)[..n])
    ensures dst.n_add_for_cb == old(dst.n_add_for_cb) + (len - remaining)
    ensures forall c <- dst.chains :: c in old(dst.chains) || c in old(src.chains)
    ensures Disjoint(dst, src)
    ensures src.Linked() && src.chains == old(src.chains)[n..] && src.cells == old(src.cells)[n..]
    ensures chain == src.chains[0] == old(src.chains)[n] && remaining < chain.off == old(src.cells)[n].off
    ensures src.last_with_datap == if n == src.lwd then FirstOf(src) else NextOf(old(src.chains)[src.lwd - 1])
  {
    hide Flat, EvBuffer.Linked;
    var previous;
    previous, chain, remaining, n := SkipChains(src, len);
    SameHead(src, n);
    if chain != src.first {
      MoveChains(src, dst, previous, chain, len - remaining, n);
      SplitKeepsApart(dst.chains, old(dst.chains), old(src.chains), n);
      DisjointByMembership(dst, src);
    }
  }

  /** Chunk `n` is the first one just when `n` is 0. */
  lemma {:induction false} SameHead(src: EvBuffer, n: nat)
    requires src.Linked() && AllOk(src.cells) && n < |src.chains|
    ensures src.chains[n] == src.first <==> n == 0
    ensures src.chains[n].off == src.cells[n].off
    ensures |src.cells| == |src.chains| && forall i, j :: 0 <= i < j < |src.chains| ==> src.chains[i] != src.chains[j]
    ensures n == 0 ==> src.chains[n..] == src.chains && src.cells[n..] == src.cells && Flat(src.cells[..n]) == []
  {
    assert src.cells[..0] == [];
  }

  /** The bytes removed from and left in a list that loses `n` chunks and `k` bytes of the next. */
  lemma {:induction false} SplitInsideChunk(cells: seq<Cell>, n: nat, k: nat)
    requires AllOk(cells) && n < |cells| && k <= cells[n].off
    ensures |Flat(cells[..n])| + k <= |Flat(cells)|
    ensures Flat(cells[..n]) + cells[n].Data()[..k] == Flat(cells)[..|Flat(cells[..n])| + k]
    ensures AllOk([DroppedFront(cells[n], k)] + cells[n + 1..])
    ensures Flat([DroppedFront(cells[n], k)] + cells[n + 1..]) == Flat(cells)[|Flat(cells[..n])| + k..]
  {
    FlatDropFront(cells, n, k);
    FlatAround(cells, n);
    FlatSlice(cells, n, 0, k);
    SliceGrow(Flat(cells), 0, |Flat(cells[..n])|, |Flat(cells[..n])| + k);
  }

  /** The tail of evbuffer_remove_buffer: takes `k` bytes off the first chunk of `src`, whose
      pointers still describe the list it had before it lost `n` chunks. */
  method TrimSource(src: EvBuffer, chain: Chain, k: nat, len: nat, ghost n: nat, ghost before: seq<Cell>, ghost beforeChains: seq<Chain>)
    requires AllOk(before) && IsLastData(before, src.lwd) && n <= src.lwd < |before| == |beforeChains|
    requires src.Linked() && src.cells == before[n..] && src.chains == beforeChains[n..]
    requires chain == src.chains[0] && k < chain.off && len == |Flat(before[..n])| + k
    requires src.total_len == |Flat(before)| && src.last == beforeChains[|beforeChains| - 1]
    requires src.total_len + src.n_del_for_cb == src.reported + src.n_add_for_cb
    requires src.last_with_datap == if n == src.lwd then FirstOf(src) else NextOf(beforeChains[src.lwd - 1])
    modifies src`first, src`chains, src`cells, src`lwd, src`total_len, src`n_del_for_cb, chain`misalign, chain`off
    ensures src.Valid() && src.chains == old(src.chains) && src.n_del_for_cb == old(src.n_del_for_cb) + len
    ensures src.Contents() == Flat(before)[len..]
  {
    hide Flat, EvBuffer.Linked, IsLastData;
    CellOf(src, 0);
    SplitInsideChunk(before, n, k);
    DropIsLastData(before, src.lwd, n, DroppedFront(before[n], k));
    assert src.cells[1..] == before[n + 1..];
    DropChains(src, chain, k, 0);
    src.total_len := src.total_len - len;
    src.n_del_for_cb := src.n_del_for_cb + len;
    src.lwd := src.lwd - n;
  }

  lemma {:induction false} SplitKeepsApart(dst: seq<Chain>, oldDst: seq<Chain>, src: seq<Chain>, n: nat)
    requires n <= |src| && (forall i, j :: 0 <= i < j < |src| ==> src[i] != src[j])
    requires forall c <- dst :: c in oldDst || c in src[..n]
    requires forall i, j :: 0 <= i < |oldDst| && 0 <= j < |src| ==> oldDst[i] != src[j]
    ensures forall c <- dst :: (c in oldDst || c in src) && c !in src[n..]
  {
    forall c | c in dst && c !in oldDst
      ensures c in src
    {
      var i :| 0 <= i < n && src[..n][i] == c;
      assert src[i] == c;
    }
  }

  /** evbuffer_remove_buffer: copies the last `k` bytes, which are inside the first chunk left. */
  method MovePart(src: EvBuffer, dst: EvBuffer, chain: Chain, k: nat, len: nat, ghost n: nat,
      ghost before: seq<Cell>, ghost beforeChains: seq<Chain>)
    requires AllOk(before) && IsLastData(before, src.lwd) && n <= src.lwd < |before| == |beforeChains|
    requires src.Linked() && src.cells == before[n..] && src.chains == beforeChains[n..]
    requires chain == src.chains[0] && k < chain.off && len == |Flat(before[..n])| + k
    requires src.total_len == |Flat(before)| && src.last == beforeChains[|beforeChains| - 1]
    requires src.total_len + src.n_del_for_cb == src.reported + src.n_add_for_cb
    requires src.last_with_datap == if n == src.lwd then FirstOf(src) else NextOf(beforeChains[src.lwd - 1])
    requires dst != src && dst.Valid() && Disjoint(dst, src) && !dst.freeze_end && dst.total_len + k <= SIZE_MAX
    modifies dst, dst.chains, src`first, src`chains, src`cells, src`lwd, src`total_len, src`n_del_for_cb, chain`misalign, chain`off
    ensures dst.Valid() && SameSettings(dst) && OnlyFreshChains(dst) && Disjoint(dst, src)
    ensures dst.Contents() == old(dst.Contents()) + before[n].Data()[..k]
    ensures dst.n_add_for_cb == old(dst.n_add_for_cb) + k && dst.n_del_for_cb == old(dst.n_del_for_cb)
    ensures src.Valid() && src.chains == old(src.chains) && src.n_del_for_cb == old(src.n_del_for_cb) + len
    ensures src.Contents() == Flat(before)[len..]
  {
    hide Flat;
    assert chain.ToCell() == before[n] && chain.ToCell().Ok();
    var r := Add(dst, Piece(chain, 0, k));
    assert forall c <- dst.chains :: c !in src.chains;
    TrimSource(src, chain, k, len, n, before, beforeChains);
    DisjointByMembership(dst, src);
  }

  /** evbuffer_remove_buffer of less than all of `src`. */
  method RemoveSome(src: EvBuffer, dst: EvBuffer, len: nat)
    requires dst != src && dst.Valid() && src.Valid() && Disjoint(dst, src) && len < src.total_len
    requires !dst.freeze_end && dst.total_len + src.total_len <= SIZE_MAX
    modifies src, dst, src.chains, dst.chains
    ensures dst.Valid() && src.Valid() && SameSettings(dst) && SameSettings(src) && ChainsExchanged(dst, src)
    ensures dst.Contents() == old(dst.Contents()) + old(src.Contents())[..len]
    ensures src.Contents() == old(src.Contents())[len..]
    ensures dst.n_add_for_cb == old(dst.n_add_for_cb) + len && dst.n_del_for_cb == old(dst.n_del_for_cb)
    ensures src.n_del_for_cb == old(src.n_del_for_cb) + len && src.n_add_for_cb == old(src.n_add_for_cb)
  {
    hide Flat, EvBuffer.Linked, IsLastData;
    ghost var before, beforeChains := src.cells, src.chains;
    var chain, k, n := MoveWhole(src, dst, len);
    SplitInsideChunk(before, n, k);
    assert chain in old(src.chains);
    ChainsByIndex(dst.chains, old(dst.chains), old(src.chains));
    MovePart(src, dst, chain, k, len, n, before, beforeChains);
    Assoc(old(dst.Contents()), Flat(before[..n]), before[n].Data()[..k]);
  }

  /** evbuffer_remove_buffer: moves `min(datlen, length)` bytes from the front of `src` to the end
      of `dst`. The two lengths fit the address space together, since the bytes are in memory. */
  method RemoveBuffer(src: EvBuffer, dst: EvBuffer, datlen: nat) returns (result: int)
    requires dst.Valid() && src.Valid() && (dst == src || Disjoint(dst, src))
    requires dst != src ==> dst.total_len + src.total_len <= SIZE_MAX
    modifies src, dst, src.chains, dst.chains
    ensures dst.Valid() && src.Valid() && SameSettings(dst) && SameSettings(src)
    ensures dst != src ==> ChainsExchanged(dst, src)
    ensures var n := Min(datlen, old(src.total_len));
      if datlen == 0 || dst == src || dst.freeze_end || src.freeze_start
      then
        && result == (if datlen == 0 || dst == src then 0 else -1)
        && unchanged(dst, src) && unchanged(old(dst.chains), old(src.chains))
      else
        && result == CInt(n)
        && dst.Contents() == old(dst.Contents()) + old(src.Contents())[..n]
        && src.Contents() == old(src.Contents())[n..]
        && dst.n_add_for_cb == old(dst.n_add_for_cb) + n && dst.n_del_for_cb == old(dst.n_del_for_cb)
        && src.n_del_for_cb == old(src.n_del_for_cb) + n && src.n_add_for_cb == old(src.n_add_for_cb)
  {
    hide Flat, EvBuffer.Linked, CInt;
    if datlen == 0 || dst == src {
      return 0;
    }
    if dst.freeze_end || src.freeze_start {
      return -1;
    }
    if datlen >= src.total_len {
      ghost var s := src.Contents();
      result := CInt(src.total_len);
      assert |s| == src.total_len && s[..|s|] == s && s[|s|..] == [];
      var r := AddBuffer(dst, src);
    } else {
      RemoveSome(src, dst, datlen);
      result := CInt(datlen);
    }
  }
}
