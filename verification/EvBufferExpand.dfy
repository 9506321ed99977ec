/** Making room at the end of an evbuffer in one piece: evbuffer_expand_singlechain. */
module EvBufferExpand {
  import opened EvBufferCore
  import opened EvBufferAdd

  const MAX_TO_COPY_IN_EXPAND: nat := 4096

  function Space(c: Cell): int {
    |c.buffer| - (c.misalign + c.off)
  }

  /** What evbuffer_expand_singlechain decides to do, for the chunk with the given index. */
  datatype Choice = UseChain(i: nat) | Realign(i: nat) | Resize(i: nat) | InsertNew

  ghost function FirstWithSpace(cells: seq<Cell>, lwd: nat): (f: nat)
    requires IsLastData(cells, lwd)
    ensures lwd <= f <= |cells| && f <= lwd + 1
  {
    if lwd < |cells| && Space(cells[lwd]) == 0 then lwd + 1 else lwd
  }

  ghost function Chosen(cells: seq<Cell>, lwd: nat, datlen: nat): (r: Choice)
    requires AllOk(cells) && IsLastData(cells, lwd)
    ensures !r.InsertNew? ==> lwd <= r.i <= lwd + 1 && r.i < |cells|
  {
    var f := FirstWithSpace(cells, lwd);
    if f == |cells| then InsertNew
    else
      var c := cells[f];
      if Space(c) >= datlen then UseChain(f)
      else if c.off == 0 then InsertNew
      else if |c.buffer| - c.off >= datlen && c.off < |c.buffer| / 2 && c.off <= MAX_TO_REALIGN_IN_EXPAND then Realign(f)
      else if Space(c) < |c.buffer| / 8 || c.off > MAX_TO_COPY_IN_EXPAND || datlen >= CHAIN_MAX - c.off then
        if f + 1 < |cells| && Space(cells[f + 1]) >= datlen then UseChain(f + 1) else InsertNew
      else Resize(f)
  }

  /** The chosen chunk is behind the first one with space, and is not the last one either. */
  ghost predicate SkipsSpace(cells: seq<Cell>, lwd: nat, datlen: nat)
    requires AllOk(cells) && IsLastData(cells, lwd)
  {
    var f := FirstWithSpace(cells, lwd);
    f + 2 < |cells| && Chosen(cells, lwd, datlen) == UseChain(f + 1)
  }

  ghost function LastIndex(n: nat): nat {
    if n == 0 then 0 else n - 1
  }

  /** Chunk `at` is the one that was chosen; there were `count` chunks. */
  ghost predicate AtChoice(buf: EvBuffer, at: nat, choice: Choice, count: nat)
    reads buf
  {
    if choice.InsertNew? then at == |buf.chains| - 1 else at == choice.i && |buf.chains| == count
  }

  /** Chunk `at` is where evbuffer_commit_space can start: the last one, or the first with space. */
  ghost predicate AtStart(buf: EvBuffer, at: nat)
    requires buf.Consistent()
    reads buf, buf.chains
  {
    at == |buf.chains| - 1 || at == FirstWithSpace(buf.cells, buf.lwd)
  }

  /** evbuffer_chain_insert_new */
  method ChainInsertNew(buf: EvBuffer, datlen: nat) returns (chain: Chain?)
    requires buf.Valid()
    modifies buf`first, buf`last, buf`chains, buf`cells, buf`last_with_datap, buf`lwd, buf`total_len, buf.chains
    ensures buf.Valid() && OnlyFreshChains(buf) && buf.Contents() == old(buf.Contents())
    ensures chain == null <==> datlen > CHAIN_MAX - CHAIN_SIZE
    ensures chain == null ==> unchanged(buf) && unchanged(old(buf.chains))
    ensures chain != null ==> fresh(chain) && chain.off == 0 && chain.misalign == 0 && datlen <= |chain.buffer|
    ensures chain != null ==> buf.chains != [] && chain == buf.chains[|buf.chains| - 1]
    ensures chain != null ==> buf.cells == Inserted(old(buf.cells), old(buf.lwd), chain.ToCell())
  {
    hide Flat;
    chain := ChainNew(datlen);
    if chain != null {
      ChainInsert(buf, chain);
    }
  }

  /** The resizing branch: replaces the last chunk with data by a larger copy of it. */
  method ResizeLast(buf: EvBuffer, chain: Chain, datlen: nat) returns (tmp: Chain?)
    requires buf.Consistent() && buf.lwd < |buf.chains| && chain == buf.chains[buf.lwd]
    modifies buf`first, buf`last, buf`chains, buf`cells, buf.chains
    ensures buf.Consistent() && buf.Contents() == old(buf.Contents())
    ensures tmp == null <==> old(chain.off) + datlen > CHAIN_MAX - CHAIN_SIZE
    ensures tmp == null ==> unchanged(buf) && unchanged(old(buf.chains))
    ensures tmp != null ==> fresh(tmp) && buf.chains == old(buf.chains)[buf.lwd := tmp] && tmp.SpaceLen() >= datlen
    ensures tmp != null ==> |buf.cells| == |buf.chains| && tmp.ToCell() == buf.cells[buf.lwd]
  {
    hide Flat, EvBuffer.Linked, IsLastData;
    tmp := ChainNew(chain.off + datlen);
    if tmp == null {
      return;
    }
    Neighbour(buf, chain);
    CopyInto(chain, tmp);
    OnlyEmptyBehind(buf.cells, buf.lwd);
    FlatRewriteLast(buf.cells, buf.lwd, tmp.ToCell());
    assert tmp !in buf.chains;
    ReplaceChain(buf, buf.last_with_datap, chain, tmp, buf.lwd);
    SameLastData(old(buf.cells), buf.cells, buf.lwd);
    CellOf(buf, buf.lwd);
  }

  lemma {:induction false} OnlyEmptyBehind(cells: seq<Cell>, lwd: nat)
    requires IsLastData(cells, lwd)
    ensures forall i :: lwd < i < |cells| ==> cells[i].off == 0
  {
  }

  lemma {:induction false} SameLastData(cells: seq<Cell>, after: seq<Cell>, lwd: nat)
    requires IsLastData(cells, lwd) && lwd < |cells| == |after| && after[lwd].off == cells[lwd].off
    requires after == cells[lwd := after[lwd]]
    ensures IsLastData(after, lwd)
  {
  }

  /** The bytes of a chunk, copied to the start of a new one. */
  method CopyInto(chain: Chain, tmp: Chain)
    requires chain != tmp && chain.ToCell().Ok() && tmp.ToCell().Ok() && tmp.misalign == 0 && chain.off <= |tmp.buffer|
    modifies tmp`off, tmp`buffer
    ensures tmp.ToCell().Ok() && tmp.off == chain.off && tmp.ToCell().Data() == chain.ToCell().Data()
    ensures |tmp.buffer| == |old(tmp.buffer)|
  {
    tmp.off := chain.off;
    tmp.buffer := Written(tmp.buffer, 0, chain.buffer[chain.misalign..chain.misalign + chain.off]);
  }

  /** `*chainp = tmp`, with `tmp` taking the place of chunk `i`. */
  method ReplaceChain(buf: EvBuffer, chainp: NextPtr, chain: Chain, tmp: Chain, ghost i: nat)
    requires buf.Linked() && i < |buf.chains| && chain == buf.chains[i] && chainp == buf.PtrAt(i) && tmp !in buf.chains
    requires buf.last == buf.chains[|buf.chains| - 1]
    modifies buf`first, buf`last, buf`chains, buf`cells, buf.chains, tmp`next
    ensures buf.Linked() && buf.chains == old(buf.chains)[i := tmp] && buf.cells == old(buf.cells)[i := old(tmp.ToCell())]
    ensures buf.last == buf.chains[|buf.chains| - 1]
  {
    if chainp.FirstOf? {
      chainp.buf.first := tmp;
    } else {
      chainp.chain.next := tmp;
    }
    if buf.last == chain {
      buf.last := tmp;
    }
    tmp.next := chain.next;
    buf.chains, buf.cells := buf.chains[i := tmp], buf.cells[i := tmp.ToCell()];
  }

  /** evbuffer_expand_singlechain: some chunk at or behind the last data gets `datlen` free bytes
      in one piece; `at` is its index. */
  method ExpandSinglechain(buf: EvBuffer, datlen: nat) returns (result: Chain?, ghost at: nat)
    requires buf.Valid()
    modifies buf, buf.chains
    ensures buf.Valid() && OnlyFreshChains(buf) && SameSettings(buf) && SameCounters(buf)
    ensures buf.Contents() == old(buf.Contents())
    ensures datlen <= CHAIN_MAX - CHAIN_SIZE - MAX_TO_COPY_IN_EXPAND ==> result != null
    ensures datlen > CHAIN_MAX - CHAIN_SIZE ==> result == null
    ensures result == null ==> unchanged(buf) && unchanged(old(buf.chains))
    ensures result != null ==> at < |buf.chains| && result == buf.chains[at] && result.SpaceLen() >= datlen
    ensures result != null ==> AtChoice(buf, at, Chosen(old(buf.cells), old(buf.lwd), datlen), |old(buf.chains)|)
    ensures result != null ==> (AtStart(buf, at) <==> !SkipsSpace(old(buf.cells), old(buf.lwd), datlen))
  {
    assert |buf.cells| == |buf.chains|;
    hide Flat, EvBuffer.Linked;
    var chainp, chain, f := FindSpace(buf);
    at := f;
    if chain != null && chain.SpaceLen() >= datlen {
      result := chain;
    } else {
      result, at := ExpandAt(buf, chain, datlen, f);
    }
  }

  /** The choices of evbuffer_expand_singlechain when the first chunk with space has too little. */
  method ExpandAt(buf: EvBuffer, chain: Chain?, datlen: nat, ghost f: nat) returns (result: Chain?, ghost at: nat)
    requires buf.Valid() && f == FirstWithSpace(buf.cells, buf.lwd)
    requires chain == if f < |buf.chains| then buf.chains[f] else null
    requires chain != null ==> chain.ToCell() == buf.cells[f] && chain.SpaceLen() < datlen
    modifies buf, buf.chains
    ensures buf.Valid() && OnlyFreshChains(buf) && SameSettings(buf) && SameCounters(buf)
    ensures buf.Contents() == old(buf.Contents())
    ensures datlen <= CHAIN_MAX - CHAIN_SIZE - MAX_TO_COPY_IN_EXPAND ==> result != null
    ensures datlen > CHAIN_MAX - CHAIN_SIZE ==> result == null
    ensures result == null ==> unchanged(buf) && unchanged(old(buf.chains))
    ensures result != null ==> at < |buf.chains| && result == buf.chains[at] && result.SpaceLen() >= datlen
    ensures result != null ==> AtChoice(buf, at, Chosen(old(buf.cells), old(buf.lwd), datlen), |old(buf.chains)|)
    ensures result != null ==> (AtStart(buf, at) <==> !SkipsSpace(old(buf.cells), old(buf.lwd), datlen))
  {
    hide Flat, EvBuffer.Linked, IsLastData, Aligned;
    Shape(buf);
    at := f;
    if chain == null || chain.off == 0 {
      result := ChainInsertNew(buf, datlen);
      at := LastIndex(|buf.chains|);
      return;
    }
    OnlyLastHasData(buf.cells, buf.lwd, f);
    if ShouldRealign(chain, datlen) {
      AlignedSpace(buf.cells[f]);
      ChainAlign(buf, chain);
      CellOf(buf, f);
      result := chain;
    } else {
      result, at := ExpandBeyond(buf, chain, datlen);
    }
  }

  lemma {:induction false} OnlyLastHasData(cells: seq<Cell>, lwd: nat, f: nat)
    requires IsLastData(cells, lwd) && f == FirstWithSpace(cells, lwd) < |cells| && cells[f].off != 0
    ensures f == lwd
  {
  }

  lemma {:induction false} AlignedSpace(c: Cell)
    requires c.Ok()
    ensures Space(Aligned(c)) == |c.buffer| - c.off
  {
  }

  /** The first chunk with free space at or behind the last data. */
  method FindSpace(buf: EvBuffer) returns (chainp: NextPtr, chain: Chain?, ghost f: nat)
    requires buf.Consistent()
    ensures f == FirstWithSpace(buf.cells, buf.lwd) && f <= |buf.chains| && chainp == buf.PtrAt(f)
    ensures chain == if f < |buf.chains| then buf.chains[f] else null
    ensures chain != null ==> chain.ToCell() == buf.cells[f] && chain.ToCell().Ok()
  {
    hide Flat;
    chainp := buf.last_with_datap;
    f := buf.lwd;
    DerefAt(buf, f);
    if Deref(chainp) != null && Deref(chainp).SpaceLen() == 0 {
      chainp := NextOf(Deref(chainp));
      f := f + 1;
      DerefAt(buf, f);
    }
    chain := Deref(chainp);
  }

  /** The last choices of evbuffer_expand_singlechain: the chunk behind, a new one, or resizing. */
  method ExpandBeyond(buf: EvBuffer, chain: Chain, datlen: nat) returns (result: Chain?, ghost at: nat)
    requires buf.Valid() && buf.lwd < |buf.chains| && chain == buf.chains[buf.lwd] && chain.off != 0
    requires chain.SpaceLen() < datlen && chain.SpaceLen() != 0 && !ShouldRealign(chain, datlen)
    modifies buf, buf.chains
    ensures buf.Valid() && OnlyFreshChains(buf) && SameSettings(buf) && SameCounters(buf)
    ensures buf.Contents() == old(buf.Contents())
    ensures datlen <= CHAIN_MAX - CHAIN_SIZE - MAX_TO_COPY_IN_EXPAND ==> result != null
    ensures datlen > CHAIN_MAX - CHAIN_SIZE ==> result == null
    ensures result == null ==> unchanged(buf) && unchanged(old(buf.chains))
    ensures result != null ==> at < |buf.chains| && result == buf.chains[at] && result.SpaceLen() >= datlen
    ensures result != null ==> AtChoice(buf, at, Chosen(old(buf.cells), old(buf.lwd), datlen), |old(buf.chains)|)
    ensures result != null ==> (AtStart(buf, at) <==> !SkipsSpace(old(buf.cells), old(buf.lwd), datlen))
  {
    hide Flat, EvBuffer.Linked, IsLastData;
    at := buf.lwd;
    Neighbour(buf, chain);
    if chain.SpaceLen() < |chain.buffer| / 8 || chain.off > MAX_TO_COPY_IN_EXPAND || datlen >= CHAIN_MAX - chain.off {
      if chain.next != null && chain.next.SpaceLen() >= datlen {
        return chain.next, at + 1;
      }
      result := ChainInsertNew(buf, datlen);
      at := LastIndex(|buf.chains|);
    } else {
      result := ResizeLast(buf, chain, datlen);
    }
  }

  /** The chunk behind the last one with data. */
  lemma {:induction false} Neighbour(buf: EvBuffer, chain: Chain)
    requires buf.Consistent() && buf.lwd < |buf.chains| && chain == buf.chains[buf.lwd]
    ensures |buf.cells| == |buf.chains| && chain.ToCell() == buf.cells[buf.lwd] && chain.ToCell().Ok()
    ensures chain.next == if buf.lwd + 1 < |buf.chains| then buf.chains[buf.lwd + 1] else null
    ensures chain.next != null ==> chain.next.ToCell() == buf.cells[buf.lwd + 1]
  {
    hide Flat;
  }
}
