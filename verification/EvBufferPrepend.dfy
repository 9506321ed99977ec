/** evbuffer_prepend: writing before the first byte of an evbuffer. */
module EvBufferPrepend {
  import opened Bytes
  import opened EvBufferCore
  import opened EvBufferAdd

  /** The bytes that fit before the first chunk's data; an empty chunk counts as empty at its start. */
  ghost function FrontRoom(buf: EvBuffer): (room: nat)
    requires buf.Consistent()
    reads buf, buf.chains
    ensures buf.chains != [] ==> room <= |buf.cells[0].buffer|
  {
    if buf.chains == [] then 0
    else if buf.cells[0].off == 0 then |buf.cells[0].buffer|
    else buf.cells[0].misalign
  }

  ghost function Prepended(c: Cell, data: seq<Byte>): (r: Cell)
    requires c.Ok() && |data| <= c.misalign
    ensures r.Ok() && r.Data() == data + c.Data()
  {
    var at := c.misalign - |data|;
    var r := Cell(at, c.off + |data|, Written(c.buffer, at, data));
    assert r.Data() == r.buffer[at..at + |data|] + r.buffer[c.misalign..][..c.off];
    assert c.Data() == c.buffer[c.misalign..][..c.off];
    r
  }

  /** Moves the data position of an empty first chunk to its end. */
  method MakeFrontRoom(buf: EvBuffer, chain: Chain)
    requires buf.Valid() && buf.chains != [] && chain == buf.chains[0]
    modifies buf`cells, chain`misalign
    ensures buf.Valid() && chain.misalign == old(FrontRoom(buf))
    ensures buf.Contents() == old(buf.Contents())
  {
    hide Flat;
    if chain.off == 0 {
      ghost var c := buf.cells[0].(misalign := |chain.buffer|);
      FlatRewriteFirst(buf.cells, c);
      chain.misalign := |chain.buffer|;
      buf.cells := buf.cells[0 := c];
    }
  }

  /** Copies `data` before the bytes of the first chunk. */
  method WriteFront(buf: EvBuffer, chain: Chain, data: seq<Byte>)
    requires buf.Linked() && 0 < |buf.chains| == |buf.cells| && chain == buf.chains[0] && buf.cells[0].Ok()
    requires |data| <= buf.cells[0].misalign
    modifies buf`cells, chain`misalign, chain`off, chain`buffer
    ensures buf.Linked() && buf.cells == old(buf.cells)[0 := Prepended(old(buf.cells)[0], data)]
    ensures chain.misalign == old(chain.misalign) - |data| && chain.off == old(chain.off) + |data|
  {
    hide Written;
    CellOf(buf, 0);
    ghost var c := Prepended(buf.cells[0], data);
    chain.buffer := Written(chain.buffer, chain.misalign - |data|, data);
    chain.off := chain.off + |data|;
    chain.misalign := chain.misalign - |data|;
    buf.cells := buf.cells[0 := c];
  }

  method PrependHere(buf: EvBuffer, chain: Chain, data: seq<Byte>)
    requires buf.Valid() && buf.chains != [] && chain == buf.chains[0] && |data| <= chain.misalign
    modifies buf`cells, buf`total_len, buf`n_add_for_cb, chain`misalign, chain`off, chain`buffer
    ensures buf.Valid() && chain.misalign == old(chain.misalign) - |data| && chain.off == old(chain.off) + |data|
    ensures buf.Contents() == data + old(buf.Contents())
    ensures buf.n_add_for_cb == old(buf.n_add_for_cb) + |data|
  {
    hide Flat, EvBuffer.Linked;
    CellOf(buf, 0);
    FlatRewriteFirst(buf.cells, Prepended(buf.cells[0], data));
    Assoc(data, buf.cells[0].Data(), Flat(buf.cells[1..]));
    WriteFront(buf, chain, data);
    buf.total_len := buf.total_len + |data|;
    buf.n_add_for_cb := buf.n_add_for_cb + |data|;
  }

  lemma {:induction false} PrependCell(cells: seq<Cell>, lwd: nat, c: Cell)
    requires AllOk(cells) && IsLastData(cells, lwd) && cells != [] && c.Ok() && c.off > 0
    ensures AllOk([c] + cells) && Flat([c] + cells) == c.Data() + Flat(cells)
    ensures IsLastData([c] + cells, if lwd == 0 && cells[0].off == 0 then 0 else lwd + 1)
  {
    assert ([c] + cells)[1..] == cells;
  }

  method LinkAtFront(buf: EvBuffer, tmp: Chain, chain: Chain)
    requires buf.Linked() && buf.chains != [] && chain == buf.chains[0] && tmp !in buf.chains
    modifies buf`first, buf`chains, buf`cells, tmp`next
    ensures buf.Linked()
    ensures buf.chains == [tmp] + old(buf.chains) && buf.cells == [old(tmp.ToCell())] + old(buf.cells)
  {
    buf.first := tmp;
    tmp.next := chain;
    buf.chains, buf.cells := [tmp] + buf.chains, [tmp.ToCell()] + buf.cells;
  }

  ghost function FilledBack(buffer: seq<Byte>, data: seq<Byte>): (r: Cell)
    requires 0 < |data| <= |buffer| <= CHAIN_MAX - CHAIN_SIZE
    ensures r.Ok() && r.Data() == data && r.off > 0
  {
    Cell(|buffer| - |data|, |data|, Written(buffer, |buffer| - |data|, data))
  }

  method FillBack(tmp: Chain, data: seq<Byte>)
    requires 0 < |data| <= |tmp.buffer| <= CHAIN_MAX - CHAIN_SIZE
    modifies tmp`off, tmp`misalign, tmp`buffer
    ensures tmp.ToCell() == FilledBack(old(tmp.buffer), data)
  {
    tmp.off := |data|;
    tmp.misalign := |tmp.buffer| - |data|;
    tmp.buffer := Written(tmp.buffer, tmp.misalign, data);
  }

  method FillAndLink(buf: EvBuffer, tmp: Chain, chain: Chain, data: seq<Byte>)
    requires buf.Linked() && buf.chains != [] && chain == buf.chains[0]
    requires tmp !in buf.chains && 0 < |data| <= |tmp.buffer| <= CHAIN_MAX - CHAIN_SIZE
    modifies buf`first, buf`chains, buf`cells, tmp
    ensures buf.Linked() && buf.chains == [tmp] + old(buf.chains)
    ensures buf.cells == [FilledBack(old(tmp.buffer), data)] + old(buf.cells)
  {
    hide EvBuffer.Linked, FilledBack;
    FillBack(tmp, data);
    LinkAtFront(buf, tmp, chain);
  }

  /** Puts `data` at the end of a fresh chunk and makes that chunk the first. */
  method PrependChunk(buf: EvBuffer, tmp: Chain, chain: Chain, data: seq<Byte>)
    requires buf.Valid() && buf.chains != [] && chain == buf.chains[0]
    requires tmp !in buf.chains && 0 < |data| <= |tmp.buffer| <= CHAIN_MAX - CHAIN_SIZE
    modifies buf`first, buf`chains, buf`cells, buf`last_with_datap, buf`lwd, buf`total_len, buf`n_add_for_cb, tmp
    ensures buf.Valid() && buf.chains == [tmp] + old(buf.chains)
    ensures buf.Contents() == data + old(buf.Contents())
    ensures buf.n_add_for_cb == old(buf.n_add_for_cb) + |data|
  {
    hide Flat, EvBuffer.Linked, IsLastData, FilledBack;
    CellOf(buf, 0);
    ghost var c := FilledBack(tmp.buffer, data);
    PrependCell(buf.cells, buf.lwd, c);
    FillAndLink(buf, tmp, chain, data);
    if buf.last_with_datap == FirstOf(buf) && chain.off != 0 {
      buf.last_with_datap := NextOf(tmp);
    }
    buf.lwd := if buf.lwd == 0 && chain.off == 0 then 0 else buf.lwd + 1;
    buf.total_len := buf.total_len + |data|;
    buf.n_add_for_cb := buf.n_add_for_cb + |data|;
  }

  lemma SplitPrepend(data: seq<Byte>, k: nat, a: seq<Byte>)
    requires k <= |data|
    ensures data[..k] + (data[k..] + a) == data + a
  {
    Assoc(data[..k], data[k..], a);
    assert data[..k] + data[k..] == data;
  }

  /** evbuffer_prepend once there is a first chunk. */
  method PrependTo(buf: EvBuffer, chain: Chain, data: seq<Byte>) returns (result: int)
    requires buf.Valid() && buf.chains != [] && chain == buf.chains[0] && data != []
    modifies buf, buf.chains
    ensures buf.Valid() && OnlyFreshChains(buf) && SameSettings(buf) && buf.n_del_for_cb == old(buf.n_del_for_cb)
    ensures result == if |data| - old(FrontRoom(buf)) > CHAIN_MAX - CHAIN_SIZE then -1 else 0
    ensures result == 0 ==> buf.Contents() == data + old(buf.Contents())
    ensures result == 0 ==> buf.n_add_for_cb == old(buf.n_add_for_cb) + |data|
    ensures result == -1 ==> buf.Contents() == data[|data| - old(FrontRoom(buf))..] + old(buf.Contents())
  {
    hide Flat, EvBuffer.Linked, IsLastData;
    MakeFrontRoom(buf, chain);
    var room := chain.misalign;
    if room >= |data| {
      PrependHere(buf, chain, data);
      return 0;
    }
    var split := |data| - room;
    if room != 0 {
      PrependHere(buf, chain, data[split..]);
    } else {
      assert data[split..] + old(buf.Contents()) == old(buf.Contents());
    }
    var tmp := ChainNew(split);
    if tmp == null {
      return -1;
    }
    PrependChunk(buf, tmp, chain, data[..split]);
    SplitPrepend(data, split, old(buf.Contents()));
    result := 0;
  }

  /** evbuffer_prepend. It only fails halfway when the part that does not fit in front of the
      first chunk is larger than a chunk can be; then the part that fits has been written. */
  method Prepend(buf: EvBuffer, data: seq<Byte>) returns (result: int)
    requires buf.Valid()
    modifies buf, buf.chains
    ensures buf.Valid() && OnlyFreshChains(buf) && SameSettings(buf) && buf.n_del_for_cb == old(buf.n_del_for_cb)
    ensures result == (if data != [] && (buf.freeze_start || |data| > SIZE_MAX - old(buf.total_len)
                                          || |data| - old(FrontRoom(buf)) > CHAIN_MAX - CHAIN_SIZE) then -1 else 0)
    ensures result == 0 ==> buf.Contents() == data + old(buf.Contents())
    ensures result == 0 ==> buf.n_add_for_cb == old(buf.n_add_for_cb) + |data|
    ensures buf.n_add_for_cb - old(buf.n_add_for_cb) == |buf.Contents()| - |old(buf.Contents())|
    ensures result == -1 && (buf.freeze_start || |data| > SIZE_MAX - old(buf.total_len))
            ==> buf.Contents() == old(buf.Contents())
    ensures result == -1 && !(buf.freeze_start || |data| > SIZE_MAX - old(buf.total_len))
            ==> buf.Contents() == data[|data| - old(FrontRoom(buf))..] + old(buf.Contents())
  {
    hide Flat;
    if data == [] {
      assert data + old(buf.Contents()) == old(buf.Contents());
      return 0;
    }
    if buf.freeze_start || |data| > SIZE_MAX - buf.total_len {
      return -1;
    }
    var chain := buf.first;
    if chain == null {
      chain := ChainNew(|data|);
      if chain == null {
        return -1;
      }
      ChainInsert(buf, chain);
    }
    result := PrependTo(buf, chain, data);
  }
}
