/** The evbuffer data structure: a singly linked list of memory chunks ("chains"), each with
    free space before and after its bytes, and a cached pointer to the link that leads to the
    last chunk holding data. */
module EvBufferCore {
  import opened Bytes

  const SIZE_MAX: nat := 0xFFFF_FFFF_FFFF_FFFF
  const SSIZE_MAX: nat := 0x7FFF_FFFF_FFFF_FFFF
  const SSIZE_MIN: int := -0x8000_0000_0000_0000
  /** Largest chunk, header included, and the size of the header (LP64). */
  const CHAIN_MAX: nat := SSIZE_MAX
  const CHAIN_SIZE: nat := 48
  const MIN_BUFFER_SIZE: nat := 1024
  /** The memory of the smallest chunk. */
  const SMALLEST: nat := MIN_BUFFER_SIZE - CHAIN_SIZE

  // ---------- values: what a list of chunks holds ----------

  /** A snapshot of one chunk's fields, apart from its `next` pointer. */
  datatype Cell = Cell(misalign: nat, off: nat, buffer: seq<Byte>) {
    ghost predicate Ok() {
      misalign + off <= |buffer| && 0 < |buffer| <= CHAIN_MAX - CHAIN_SIZE
    }

    ghost function Data(): seq<Byte>
      requires Ok()
    {
      buffer[misalign..misalign + off]
    }
  }

  ghost predicate AllOk(cells: seq<Cell>) {
    forall i :: 0 <= i < |cells| ==> cells[i].Ok()
  }

  /** The flat byte string a list of chunks stands for. */
  ghost function Flat(cells: seq<Cell>): seq<Byte>
    requires AllOk(cells)
  {
    if cells == [] then [] else cells[0].Data() + Flat(cells[1..])
  }

  /** Chunk `k` is the last one with data; it is the first one if all are empty. */
  ghost predicate IsLastData(cells: seq<Cell>, k: nat) {
    && k <= |cells|
    && (k == |cells| ==> k == 0)
    && (0 < k ==> cells[k].off > 0)
    && (forall i :: k < i < |cells| ==> cells[i].off == 0)
  }

  ghost predicate NoData(cells: seq<Cell>) {
    forall i :: 0 <= i < |cells| ==> cells[i].off == 0
  }

  lemma {:induction false} FlatConcat(a: seq<Cell>, b: seq<Cell>)
    requires AllOk(a) && AllOk(b)
    ensures AllOk(a + b) && Flat(a + b) == Flat(a) + Flat(b)
  {
    if a == [] {
      assert a + b == b;
    } else {
      var rest := a[1..] + b;
      FlatConcat(a[1..], b);
      assert a + b == [a[0]] + rest;
      FlatCons(a[0], rest);
      Assoc(a[0].Data(), Flat(a[1..]), Flat(b));
    }
  }

  lemma {:induction false} FlatOne(c: Cell)
    requires c.Ok()
    ensures AllOk([c]) && Flat([c]) == c.Data()
  {
    assert [c][1..] == [];
  }

  lemma {:induction false} FlatCons(c: Cell, rest: seq<Cell>)
    requires c.Ok() && AllOk(rest)
    ensures AllOk([c] + rest) && Flat([c] + rest) == c.Data() + Flat(rest)
  {
    assert ([c] + rest)[1..] == rest;
  }

  lemma {:induction false} FlatEmpty(cells: seq<Cell>)
    requires AllOk(cells) && NoData(cells)
    ensures Flat(cells) == []
  {
    if cells != [] {
      FlatEmpty(cells[1..]);
    }
  }

  lemma {:induction false} NoDataCons(cells: seq<Cell>)
    requires cells != []
    ensures NoData(cells) <==> cells[0].off == 0 && NoData(cells[1..])
  {
    assert forall i :: 0 <= i < |cells[1..]| ==> cells[1..][i] == cells[i + 1];
    assert forall i :: 0 < i < |cells| ==> cells[i] == cells[1..][i - 1];
  }

  /** A chunk list without data, and only that, is an empty string. */
  lemma {:induction false} FlatEmptyIff(cells: seq<Cell>)
    requires AllOk(cells)
    ensures Flat(cells) == [] <==> NoData(cells)
  {
    if cells != [] {
      var rest := cells[1..];
      FlatEmptyIff(rest);
      assert |Flat(cells)| == cells[0].off + |Flat(rest)|;
      NoDataCons(cells);
    }
  }

  lemma {:induction false} FlatSplit(cells: seq<Cell>, k: nat)
    requires AllOk(cells) && k <= |cells|
    ensures AllOk(cells[..k]) && AllOk(cells[k..])
    ensures Flat(cells) == Flat(cells[..k]) + Flat(cells[k..])
    ensures NoData(cells[k..]) ==> Flat(cells[..k]) == Flat(cells)
  {
    assert cells == cells[..k] + cells[k..];
    FlatConcat(cells[..k], cells[k..]);
    FlatEmptyIff(cells[k..]);
  }

  /** Splits the string around chunk `k`. */
  lemma {:induction false} FlatAround(cells: seq<Cell>, k: nat)
    requires AllOk(cells) && k < |cells|
    ensures AllOk(cells[..k]) && AllOk(cells[k + 1..])
    ensures Flat(cells) == Flat(cells[..k]) + (cells[k].Data() + Flat(cells[k + 1..]))
  {
    FlatSplit(cells, k);
    assert cells[k..][0] == cells[k] && cells[k..][1..] == cells[k + 1..];
  }

  /** Rewriting chunk `k` when only empty chunks follow it. */
  lemma {:induction false} FlatRewriteLast(cells: seq<Cell>, k: nat, c: Cell)
    requires AllOk(cells) && k < |cells| && c.Ok()
    requires forall i :: k < i < |cells| ==> cells[i].off == 0
    ensures AllOk(cells[k := c]) && AllOk(cells[..k])
    ensures Flat(cells) == Flat(cells[..k]) + cells[k].Data()
    ensures Flat(cells[k := c]) == Flat(cells[..k]) + c.Data()
  {
    FlatAround(cells, k);
    FlatAround(cells[k := c], k);
    assert cells[k := c][..k] == cells[..k] && cells[k := c][k + 1..] == cells[k + 1..];
    FlatEmpty(cells[k + 1..]);
  }

  /** Appending `data` to the bytes of chunk `k`, when only empty chunks follow it. */
  lemma {:induction false} FlatGrowLast(cells: seq<Cell>, k: nat, c: Cell, data: seq<Byte>)
    requires AllOk(cells) && k < |cells| && c.Ok() && c.Data() == cells[k].Data() + data
    requires forall i :: k < i < |cells| ==> cells[i].off == 0
    ensures AllOk(cells[k := c]) && Flat(cells[k := c]) == Flat(cells) + data
  {
    FlatRewriteLast(cells, k, c);
    Assoc(Flat(cells[..k]), cells[k].Data(), data);
  }

  /** Rewriting the first chunk. */
  lemma {:induction false} FlatRewriteFirst(cells: seq<Cell>, c: Cell)
    requires AllOk(cells) && 0 < |cells| && c.Ok()
    ensures AllOk(cells[0 := c]) && AllOk(cells[1..])
    ensures Flat(cells) == cells[0].Data() + Flat(cells[1..])
    ensures Flat(cells[0 := c]) == c.Data() + Flat(cells[1..])
  {
    assert cells[0 := c][1..] == cells[1..];
  }

  lemma {:induction false} FlatPrefixStep(cells: seq<Cell>, n: nat)
    requires AllOk(cells) && n < |cells|
    ensures AllOk(cells[..n]) && AllOk(cells[..n + 1])
    ensures Flat(cells[..n + 1]) == Flat(cells[..n]) + cells[n].Data()
    ensures |Flat(cells[..n])| + cells[n].off <= |Flat(cells)|
  {
    assert cells[..n + 1] == cells[..n] + [cells[n]];
    FlatOne(cells[n]);
    FlatConcat(cells[..n], [cells[n]]);
    FlatAround(cells, n);
  }

  /** A prefix shorter than the whole string cannot reach past the last chunk with data. */
  lemma {:induction false} PrefixBeforeLast(cells: seq<Cell>, lwd: nat, n: nat)
    requires AllOk(cells) && IsLastData(cells, lwd) && n <= |cells|
    requires |Flat(cells[..n])| < |Flat(cells)|
    ensures n <= lwd < |cells| && n < |cells|
  {
    if n > lwd {
      FlatSplit(cells, n);
    }
    assert cells[..|cells|] == cells;
  }

  /** Bytes `k..l` of chunk `n` within the whole string. */
  lemma {:induction false} FlatSlice(cells: seq<Cell>, n: nat, k: nat, l: nat)
    requires AllOk(cells) && n < |cells| && k <= l <= cells[n].off
    ensures AllOk(cells[..n]) && |Flat(cells[..n])| + l <= |Flat(cells)|
    ensures cells[n].Data()[k..l] == Flat(cells)[|Flat(cells[..n])| + k..|Flat(cells[..n])| + l]
  {
    hide Flat;
    FlatAround(cells, n);
    var before, data, behind := Flat(cells[..n]), cells[n].Data(), Flat(cells[n + 1..]);
    SliceOfMiddle(before, data, behind, k, l);
  }

  lemma SliceOfMiddle(a: seq<Byte>, b: seq<Byte>, c: seq<Byte>, k: nat, l: nat)
    requires k <= l <= |b|
    ensures |a| + l <= |a + (b + c)| && b[k..l] == (a + (b + c))[|a| + k..|a| + l]
  {
  }

  // ---------- the heap structure ----------

  /** One chunk. Its memory is part of the chunk itself, as in the original, where header
      and bytes are one allocation. */
  class Chain {
    var next: Chain?
    var misalign: nat
    var off: nat
    var buffer: seq<Byte>

    constructor (len: nat)
      ensures |buffer| == len && misalign == 0 && off == 0 && next == null
    {
      buffer := seq(len, _ => 0);
      misalign, off, next := 0, 0, null;
    }

    /** CHAIN_SPACE_LEN: the free bytes after the data. */
    function SpaceLen(): int
      reads this
    {
      |buffer| - (misalign + off)
    }

    ghost function ToCell(): Cell
      reads this
    {
      Cell(misalign, off, buffer)
    }
  }

  /** A pointer to a `Chain?` variable: some buffer's `first` or some chunk's `next`. */
  datatype NextPtr = FirstOf(buf: EvBuffer) | NextOf(chain: Chain)

  class EvBuffer {
    var first: Chain?
    var last: Chain?
    var last_with_datap: NextPtr
    var total_len: nat
    var n_add_for_cb: nat
    var n_del_for_cb: nat
    var freeze_start: bool
    var freeze_end: bool

    /** The chunks in list order, a snapshot of each, the index of the last chunk with data,
        and the length last reported to the callbacks. */
    ghost var chains: seq<Chain>
    ghost var cells: seq<Cell>
    ghost var lwd: nat
    ghost var reported: int

    constructor ()
      ensures Valid() && Contents() == [] && !freeze_start && !freeze_end
      ensures chains == [] && n_add_for_cb == n_del_for_cb == 0
    {
      first, last, last_with_datap := null, null, FirstOf(this);
      total_len, n_add_for_cb, n_del_for_cb, freeze_start, freeze_end := 0, 0, 0, false, false;
      chains, cells, lwd, reported := [], [], 0, 0;
    }

    ghost predicate Linked()
      reads `first, `chains, `cells, chains
    {
      && |cells| == |chains|
      && (forall i {:trigger chains[i].misalign} {:trigger chains[i].off} {:trigger chains[i].buffer} {:trigger cells[i]} ::
            0 <= i < |chains| ==>
            && chains[i].misalign == cells[i].misalign
            && chains[i].off == cells[i].off
            && chains[i].buffer == cells[i].buffer)
      && (forall i {:trigger chains[i].next} :: 0 <= i < |chains| ==>
            chains[i].next == if i + 1 < |chains| then chains[i + 1] else null)
      && (forall i, j :: 0 <= i < j < |chains| ==> chains[i] != chains[j])
      && first == (if |chains| == 0 then null else chains[0])
    }

    ghost predicate Sized()
      reads `cells, `lwd, `total_len
    {
      && AllOk(cells)
      && IsLastData(cells, lwd)
      && total_len == |Flat(cells)|
    }

    /** Everything but `last`, which some helpers leave for their caller to repair. */
    ghost predicate ValidButLast()
      reads `first, `chains, `cells, `lwd, `total_len, `last_with_datap, chains
    {
      Linked() && Sized() && last_with_datap == PtrAt(lwd)
    }

    ghost predicate Consistent()
      reads `first, `last, `chains, `cells, `lwd, `total_len, `last_with_datap, chains
    {
      ValidButLast() && last == if |chains| == 0 then null else chains[|chains| - 1]
    }

    /** The representation invariant, with the accounting that lets the callbacks compute the
        length the buffer had when they last ran. */
    ghost predicate Valid()
      reads this, chains
    {
      Consistent() && total_len + n_del_for_cb == reported + n_add_for_cb
    }

    /** The link that leads to chunk `i`. */
    ghost function PtrAt(i: nat): NextPtr
      requires i <= |chains|
      reads `chains
    {
      if i == 0 then FirstOf(this) else NextOf(chains[i - 1])
    }

    ghost function Contents(): seq<Byte>
      requires AllOk(cells)
      reads `cells
    {
      Flat(cells)
    }
  }

  lemma {:induction false} CellOf(buf: EvBuffer, k: nat)
    requires buf.Linked() && k < |buf.chains|
    ensures |buf.cells| == |buf.chains| && buf.cells[k] == buf.chains[k].ToCell()
  {
  }

  /** What a consistent buffer looks like from outside. */
  lemma {:induction false} Shape(buf: EvBuffer)
    requires buf.Consistent()
    ensures |buf.cells| == |buf.chains| && buf.first == if buf.chains == [] then null else buf.chains[0]
    ensures buf.chains == [] ==> buf.lwd == 0
    ensures buf.chains != [] ==> buf.lwd < |buf.chains| && buf.chains[buf.lwd].ToCell() == buf.cells[buf.lwd]
  {
  }

  /** Two buffers share no chunk. */
  ghost predicate Disjoint(a: EvBuffer, b: EvBuffer)
    reads a, b
  {
    forall i, j :: 0 <= i < |a.chains| && 0 <= j < |b.chains| ==> a.chains[i] != b.chains[j]
  }

  twostate predicate OnlyFreshChains(buf: EvBuffer)
    reads buf
  {
    forall c <- buf.chains :: c in old(buf.chains) || fresh(c)
  }

  lemma {:induction false} ChainsByIndex(now: seq<Chain>, a: seq<Chain>, b: seq<Chain>)
    requires forall c <- now :: c in a || c in b
    ensures forall i :: 0 <= i < |now| ==> now[i] in a || now[i] in b
  {
    assert forall i :: 0 <= i < |now| ==> now[i] in now;
  }

  twostate predicate SameSettings(buf: EvBuffer)
    reads buf
  {
    buf.freeze_start == old(buf.freeze_start) && buf.freeze_end == old(buf.freeze_end) && buf.reported == old(buf.reported)
  }

  twostate predicate SameCounters(buf: EvBuffer)
    reads buf
  {
    buf.n_add_for_cb == old(buf.n_add_for_cb) && buf.n_del_for_cb == old(buf.n_del_for_cb)
  }

  function Deref(p: NextPtr): Chain?
    reads match p case FirstOf(b) => {b as object} case NextOf(c) => {c as object}
  {
    match p case FirstOf(b) => b.first case NextOf(c) => c.next
  }

  lemma DerefAt(buf: EvBuffer, i: nat)
    requires buf.Linked() && i <= |buf.chains|
    ensures Deref(buf.PtrAt(i)) == if i < |buf.chains| then buf.chains[i] else null
  {
  }

  /** evbuffer_chain_new: rounds the allocation up to a power of two while it is small. It can
      only fail by asking for more than a chunk may hold. */
  method ChainNew(size: nat) returns (chain: Chain?)
    ensures chain == null <==> size > CHAIN_MAX - CHAIN_SIZE
    ensures chain != null ==> fresh(chain) && chain.next == null && chain.misalign == 0 && chain.off == 0
    ensures chain != null ==> size <= |chain.buffer| && SMALLEST <= |chain.buffer| <= CHAIN_MAX - CHAIN_SIZE
  {
    if size > CHAIN_MAX - CHAIN_SIZE {
      return null;
    }
    var total := size + CHAIN_SIZE;
    var toAlloc := total;
    if total < CHAIN_MAX / 2 {
      toAlloc := MIN_BUFFER_SIZE;
      while toAlloc < total
        invariant MIN_BUFFER_SIZE <= toAlloc < CHAIN_MAX
        decreases total - toAlloc
      {
        toAlloc := toAlloc * 2;
      }
    }
    chain := new Chain(toAlloc - CHAIN_SIZE);
  }

  /** Ends the list after its first `k` chunks; `ch` is the link that led to chunk `k`. */
  method CutAt(buf: EvBuffer, ch: NextPtr, ghost k: nat)
    requires buf.ValidButLast() && k <= |buf.chains| && ch == buf.PtrAt(k)
    requires buf.lwd <= k && (buf.lwd == k ==> k == 0) && NoData(buf.cells[k..])
    modifies buf`first, buf`chains, buf`cells, buf.chains
    ensures buf.ValidButLast()
    ensures buf.chains == old(buf.chains)[..k] && buf.cells == old(buf.cells)[..k]
    ensures buf.Contents() == old(buf.Contents())
  {
    hide Flat;
    FlatSplit(buf.cells, k);
    ghost var newCells := buf.cells[..k];
    assert AllOk(newCells) && IsLastData(newCells, buf.lwd);
    if ch.FirstOf? {
      ch.buf.first := null;
    } else {
      ch.chain.next := null;
    }
    buf.chains := buf.chains[..k];
    buf.cells := newCells;
  }

  /** evbuffer_free_trailing_empty_chains: drops the empty chunks at the end, and all chunks if
      none has data. Returns the link where the next chunk goes. */
  method FreeTrailingEmptyChains(buf: EvBuffer) returns (ch: NextPtr, ghost k: nat)
    requires buf.ValidButLast()
    modifies buf`first, buf`chains, buf`cells, buf.chains
    ensures buf.ValidButLast()
    ensures k == TrimmedLength(old(buf.cells), buf.lwd)
    ensures buf.chains == old(buf.chains)[..k] && buf.cells == old(buf.cells)[..k] && ch == buf.PtrAt(k)
    ensures buf.Contents() == old(buf.Contents())
  {
    hide Flat;
    ch := buf.last_with_datap;
    k := buf.lwd;
    DerefAt(buf, k);
    while Deref(ch) != null && Deref(ch).off != 0
      modifies {}
      invariant k <= |buf.chains| && ch == buf.PtrAt(k)
      invariant Deref(ch) == if k < |buf.chains| then buf.chains[k] else null
      invariant buf.lwd <= k <= buf.lwd + 1
      invariant k == buf.lwd + 1 ==> buf.cells[buf.lwd].off > 0
      decreases |buf.chains| - k
    {
      ch := NextOf(Deref(ch));
      k := k + 1;
      DerefAt(buf, k);
    }
    if Deref(ch) != null {
      CutAt(buf, ch, k);
    }
  }

  ghost function TrimmedLength(cells: seq<Cell>, lwd: nat): (k: nat)
    requires IsLastData(cells, lwd)
    ensures k <= |cells| && (lwd == k ==> k == 0) && lwd <= k
    ensures NoData(cells[k..])
  {
    if lwd < |cells| && cells[lwd].off > 0 then lwd + 1 else 0
  }

  /** The list of chunks after a new chunk replaced all empty ones at the end. */
  ghost function Inserted(cells: seq<Cell>, lwd: nat, c: Cell): (r: seq<Cell>)
    requires IsLastData(cells, lwd)
  {
    cells[..TrimmedLength(cells, lwd)] + [c]
  }

  lemma {:induction false} InsertedFlat(cells: seq<Cell>, lwd: nat, c: Cell)
    requires AllOk(cells) && IsLastData(cells, lwd) && c.Ok()
    ensures AllOk(Inserted(cells, lwd, c))
    ensures IsLastData(Inserted(cells, lwd, c), if c.off > 0 then TrimmedLength(cells, lwd) else lwd)
    ensures Flat(Inserted(cells, lwd, c)) == Flat(cells) + c.Data()
  {
    var k := TrimmedLength(cells, lwd);
    FlatSplit(cells, k);
    FlatOne(c);
    FlatConcat(cells[..k], [c]);
  }

  /** `*chp = chain`, where `chp` is the link at the end of the list. */
  method LinkAtEnd(buf: EvBuffer, chp: NextPtr, chain: Chain)
    requires buf.Linked() && chp == buf.PtrAt(|buf.chains|) && chain !in buf.chains && chain.next == null
    modifies buf`first, buf`chains, buf`cells, buf.chains
    ensures buf.Linked()
    ensures buf.chains == old(buf.chains) + [chain] && buf.cells == old(buf.cells) + [old(chain.ToCell())]
  {
    if chp.FirstOf? {
      chp.buf.first := chain;
    } else {
      chp.chain.next := chain;
    }
    buf.chains, buf.cells := buf.chains + [chain], buf.cells + [chain.ToCell()];
  }

  /** The second half of `ChainInsert`, for a buffer that has chunks. Leaves `last` alone. */
  method InsertTrimmed(buf: EvBuffer, chain: Chain)
    requires buf.Consistent() && chain !in buf.chains && chain.next == null && chain.ToCell().Ok()
    modifies buf`first, buf`chains, buf`cells, buf`last_with_datap, buf`lwd, buf`total_len, buf.chains
    ensures buf.ValidButLast()
    ensures buf.chains == old(buf.chains)[..TrimmedLength(old(buf.cells), old(buf.lwd))] + [chain]
    ensures buf.cells == Inserted(old(buf.cells), old(buf.lwd), old(chain.ToCell()))
    ensures unchanged(chain)
  {
    hide Flat, IsLastData, EvBuffer.Linked;
    Shape(buf);
    InsertedFlat(buf.cells, buf.lwd, chain.ToCell());
    var chp, k := FreeTrailingEmptyChains(buf);
    LinkAtEnd(buf, chp, chain);
    if chain.off != 0 {
      buf.last_with_datap := chp;
      buf.lwd := k;
    }
    buf.total_len := buf.total_len + chain.off;
  }

  /** evbuffer_chain_insert: appends a chunk, dropping the empty ones at the end. The caller
      accounts for the bytes added. */
  method ChainInsert(buf: EvBuffer, chain: Chain)
    requires buf.Consistent() && chain !in buf.chains && chain.next == null && chain.ToCell().Ok()
    modifies buf`first, buf`last, buf`chains, buf`cells, buf`last_with_datap, buf`lwd, buf`total_len, buf.chains
    ensures buf.Consistent()
    ensures buf.chains == old(buf.chains)[..TrimmedLength(old(buf.cells), old(buf.lwd))] + [chain]
    ensures buf.cells == Inserted(old(buf.cells), old(buf.lwd), old(chain.ToCell()))
    ensures buf.Contents() == old(buf.Contents()) + old(chain.ToCell().Data())
    ensures unchanged(chain)
  {
    hide Flat;
    InsertedFlat(buf.cells, buf.lwd, chain.ToCell());
    DerefAt(buf, buf.lwd);
    if Deref(buf.last_with_datap) == null {
      assert buf.last_with_datap == FirstOf(buf) && buf.first == null;
      LinkAtEnd(buf, FirstOf(buf), chain);
      buf.total_len := buf.total_len + chain.off;
    } else {
      InsertTrimmed(buf, chain);
    }
    buf.last := chain;
  }
}
