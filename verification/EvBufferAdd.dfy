/** Writing at the end of an evbuffer: evbuffer_add. */
module EvBufferAdd {
  import opened Bytes
  import opened EvBufferCore

  const CHAIN_MAX_AUTO_SIZE: nat := 4096
  const MAX_TO_REALIGN_IN_EXPAND: nat := 2048

  /** memcpy(buffer + at, data, |data|) */
  function Written(buffer: seq<Byte>, at: nat, data: seq<Byte>): (r: seq<Byte>)
    requires at + |data| <= |buffer|
    ensures |r| == |buffer| && r[at..at + |data|] == data
    ensures r[..at] == buffer[..at] && r[at + |data|..] == buffer[at + |data|..]
  {
    buffer[..at] + data + buffer[at + |data|..]
  }

  ghost function Appended(c: Cell, data: seq<Byte>): (r: Cell)
    requires c.Ok() && c.misalign + c.off + |data| <= |c.buffer|
    ensures r.Ok() && r.Data() == c.Data() + data
  {
    Cell(c.misalign, c.off + |data|, Written(c.buffer, c.misalign + c.off, data))
  }

  ghost function Aligned(c: Cell): (r: Cell)
    requires c.Ok()
    ensures r.Ok() && r.Data() == c.Data()
  {
    Cell(0, c.off, Written(c.buffer, 0, c.Data()))
  }

  /** Copies `data` behind the bytes of chunk `k`. */
  method WriteAt(buf: EvBuffer, chain: Chain, data: seq<Byte>, ghost k: nat)
    requires buf.Linked() && k < |buf.chains| == |buf.cells| && chain == buf.chains[k] && buf.cells[k].Ok()
    requires buf.cells[k].misalign + buf.cells[k].off + |data| <= |buf.cells[k].buffer|
    modifies buf`cells, chain`off, chain`buffer
    ensures buf.Linked() && buf.cells == old(buf.cells)[k := Appended(old(buf.cells)[k], data)]
  {
    hide Written, Cell.Ok;
    CellOf(buf, k);
    ghost var c := Appended(buf.cells[k], data);
    chain.buffer := Written(chain.buffer, chain.misalign + chain.off, data);
    chain.off := chain.off + |data|;
    buf.cells := buf.cells[k := c];
  }

  /** Copies `data` into the free space of the last chunk with data, and accounts for it. */
  method AppendHere(buf: EvBuffer, chain: Chain, data: seq<Byte>)
    requires buf.Valid() && buf.lwd < |buf.chains| && chain == buf.chains[buf.lwd]
    requires |data| <= chain.SpaceLen()
    modifies buf`cells, buf`total_len, buf`n_add_for_cb, chain`off, chain`buffer
    ensures buf.Valid()
    ensures buf.cells == old(buf.cells)[buf.lwd := Appended(old(buf.cells)[buf.lwd], data)]
    ensures buf.Contents() == old(buf.Contents()) + data
    ensures buf.n_add_for_cb == old(buf.n_add_for_cb) + |data|
  {
    hide Flat, EvBuffer.Linked;
    CellOf(buf, buf.lwd);
    FlatGrowLast(buf.cells, buf.lwd, Appended(buf.cells[buf.lwd], data), data);
    WriteAt(buf, chain, data, buf.lwd);
    buf.total_len := buf.total_len + |data|;
    buf.n_add_for_cb := buf.n_add_for_cb + |data|;
  }

  /** evbuffer_chain_should_realign */
  function ShouldRealign(chain: Chain, datalen: nat): bool
    reads chain
  {
    && |chain.buffer| - chain.off >= datalen
    && chain.off < |chain.buffer| / 2
    && chain.off <= MAX_TO_REALIGN_IN_EXPAND
  }

  /** Moves the bytes of chunk `k` to its start. */
  method SlideDown(buf: EvBuffer, chain: Chain, ghost k: nat)
    requires buf.Linked() && k < |buf.chains| == |buf.cells| && chain == buf.chains[k] && buf.cells[k].Ok()
    modifies buf`cells, chain`misalign, chain`buffer
    ensures buf.Linked() && buf.cells == old(buf.cells)[k := Aligned(old(buf.cells)[k])] && chain.misalign == 0
  {
    hide Written;
    CellOf(buf, k);
    ghost var c := Aligned(buf.cells[k]);
    chain.buffer := Written(chain.buffer, 0, chain.buffer[chain.misalign..chain.misalign + chain.off]);
    chain.misalign := 0;
    buf.cells := buf.cells[k := c];
  }

  /** evbuffer_chain_align: moves the bytes of the last chunk with data to its start. */
  method ChainAlign(buf: EvBuffer, chain: Chain)
    requires buf.Valid() && buf.lwd < |buf.chains| && chain == buf.chains[buf.lwd]
    modifies buf`cells, chain`misalign, chain`buffer
    ensures buf.Valid() && chain.misalign == 0
    ensures buf.cells == old(buf.cells)[buf.lwd := Aligned(old(buf.cells)[buf.lwd])]
    ensures buf.Contents() == old(buf.Contents())
  {
    hide Flat, EvBuffer.Linked, Aligned;
    CellOf(buf, buf.lwd);
    SameOff(buf.cells[buf.lwd]);
    FlatRewriteLast(buf.cells, buf.lwd, Aligned(buf.cells[buf.lwd]));
    SlideDown(buf, chain, buf.lwd);
  }

  lemma AlignedFits(c: Cell)
    requires c.Ok()
    ensures Aligned(c).off == c.off && Aligned(c).misalign == 0 && |Aligned(c).buffer| == |c.buffer|
  {
  }

  lemma SameOff(c: Cell)
    requires c.Ok()
    ensures Aligned(c).off == c.off
  {
  }

  lemma SplitAppend(a: seq<Byte>, data: seq<Byte>, k: nat)
    requires k <= |data|
    ensures (a + data[..k]) + data[k..] == a + data
  {
    Assoc(a, data[..k], data[k..]);
    assert data[..k] + data[k..] == data;
  }

  /** Puts `data` at the start of the fresh chunk `tmp` and appends that chunk. */
  method InsertData(buf: EvBuffer, tmp: Chain, data: seq<Byte>)
    requires buf.Valid() && tmp !in buf.chains && tmp.next == null && tmp.misalign == 0
    requires |data| <= |tmp.buffer| && 0 < |tmp.buffer| <= CHAIN_MAX - CHAIN_SIZE
    modifies buf`first, buf`last, buf`chains, buf`cells, buf`last_with_datap, buf`lwd, buf`total_len, buf`n_add_for_cb
    modifies buf.chains, tmp
    ensures buf.Valid()
    ensures forall c <- buf.chains :: c == tmp || c in old(buf.chains)
    ensures buf.Contents() == old(buf.Contents()) + data
    ensures buf.n_add_for_cb == old(buf.n_add_for_cb) + |data|
  {
    hide Flat;
    tmp.buffer := Written(tmp.buffer, 0, data);
    tmp.off := |data|;
    ChainInsert(buf, tmp);
    buf.n_add_for_cb := buf.n_add_for_cb + |data|;
  }

  /** The last part of evbuffer_add: fills the last chunk and puts the rest into a new one. */
  method AddChunk(buf: EvBuffer, chain: Chain, data: seq<Byte>) returns (result: int)
    requires buf.Valid() && buf.lwd < |buf.chains| && chain == buf.chains[buf.lwd]
    requires chain.SpaceLen() < |data|
    modifies buf, buf.chains
    ensures buf.Valid() && OnlyFreshChains(buf) && SameSettings(buf) && buf.n_del_for_cb == old(buf.n_del_for_cb)
    ensures result == if |data| > CHAIN_MAX - CHAIN_SIZE then -1 else 0
    ensures result == 0 ==> buf.Contents() == old(buf.Contents()) + data
    ensures result == 0 ==> buf.n_add_for_cb == old(buf.n_add_for_cb) + |data|
    ensures result == -1 ==> unchanged(buf) && unchanged(old(buf.chains))
  {
    hide Flat;
    var remain := chain.SpaceLen();
    assert chain.ToCell() == buf.cells[buf.lwd] && chain.ToCell().Ok();
    var toAlloc := |chain.buffer|;
    if toAlloc <= CHAIN_MAX_AUTO_SIZE / 2 {
      toAlloc := toAlloc * 2;
    }
    if |data| > toAlloc {
      toAlloc := |data|;
    }
    var tmp := ChainNew(toAlloc);
    if tmp == null {
      return -1;
    }
    if remain != 0 {
      AppendHere(buf, chain, data[..remain]);
    } else {
      assert data[..remain] == [];
    }
    InsertData(buf, tmp, data[remain..]);
    SplitAppend(old(buf.Contents()), data, remain);
    result := 0;
  }

  /** evbuffer_add once there is a last chunk: fit the data, realign to fit it, or add a chunk. */
  method AddTo(buf: EvBuffer, chain: Chain, data: seq<Byte>) returns (result: int)
    requires buf.Valid() && buf.lwd < |buf.chains| && chain == buf.chains[buf.lwd]
    modifies buf, buf.chains
    ensures buf.Valid() && OnlyFreshChains(buf) && SameSettings(buf) && buf.n_del_for_cb == old(buf.n_del_for_cb)
    ensures result == if |data| > CHAIN_MAX - CHAIN_SIZE then -1 else 0
    ensures result == 0 ==> buf.Contents() == old(buf.Contents()) + data
    ensures result == 0 ==> buf.n_add_for_cb == old(buf.n_add_for_cb) + |data|
    ensures result == -1 ==> unchanged(buf) && unchanged(old(buf.chains))
  {
    hide Flat, EvBuffer.Linked, IsLastData, Aligned;
    CellOf(buf, buf.lwd);
    if chain.SpaceLen() >= |data| {
      AppendHere(buf, chain, data);
      result := 0;
    } else if ShouldRealign(chain, |data|) {
      ChainAlign(buf, chain);
      CellOf(buf, buf.lwd);
      AlignedFits(old(buf.cells)[buf.lwd]);
      AppendHere(buf, chain, data);
      result := 0;
    } else {
      result := AddChunk(buf, chain, data);
    }
  }

  /** evbuffer_add */
  method Add(buf: EvBuffer, data: seq<Byte>) returns (result: int)
    requires buf.Valid()
    modifies buf, buf.chains
    ensures buf.Valid() && OnlyFreshChains(buf) && SameSettings(buf) && buf.n_del_for_cb == old(buf.n_del_for_cb)
    ensures result == if buf.freeze_end || |data| > SIZE_MAX - old(buf.total_len) || |data| > CHAIN_MAX - CHAIN_SIZE then -1 else 0
    ensures result == 0 ==> buf.Contents() == old(buf.Contents()) + data
    ensures result == 0 ==> buf.n_add_for_cb == old(buf.n_add_for_cb) + |data|
    ensures result == -1 ==> unchanged(buf) && unchanged(old(buf.chains))
  {
    hide Flat;
    if buf.freeze_end || |data| > SIZE_MAX - buf.total_len {
      return -1;
    }
    DerefAt(buf, buf.lwd);
    var chain := Deref(buf.last_with_datap);
    if chain == null {
      chain := buf.last;
    }
    if chain == null {
      chain := ChainNew(|data|);
      if chain == null {
        return -1;
      }
      ChainInsert(buf, chain);
    }
    result := AddTo(buf, chain, data);
  }
}
