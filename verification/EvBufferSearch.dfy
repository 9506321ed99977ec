/** Finding things in an evbuffer across chunk borders: evbuffer_ptr_set, evbuffer_search_range,
    evbuffer_search_eol and evbuffer_readln. */
module EvBufferSearch {
  import opened Bytes
  import opened Wrappers
  import opened EvBufferCore
  import opened EvBufferDrain

  const NOT_FOUND: Ptr := Ptr(-1, null, 0)

  datatype PtrHow = PtrSet | PtrAdd

  /** `p` is a position of the buffer: inside a chunk's data, or at the end without a chunk. */
  ghost predicate Settled(buf: EvBuffer, p: Ptr)
    requires AllOk(buf.cells)
    reads buf, buf.chains
  {
    PtrOk(buf, p) && (p.chain != null ==> p.pos_in_chain < p.chain.off)
  }

  lemma {:induction false} BehindLast(buf: EvBuffer, p: Ptr, i: nat)
    requires buf.Consistent() && PointsInto(buf, p, i) && p.chain == null
    ensures i == |buf.chains| && p.pos == |buf.Contents()|
  {
    assert buf.cells[..|buf.cells|] == buf.cells;
  }

  /** evbuffer_ptr_set: moves a position to an absolute place or forward. */
  method PtrSetTo(buf: EvBuffer, start: Ptr, position: nat, how: PtrHow) returns (result: int, p: Ptr)
    requires buf.Valid() && (how.PtrAdd? && start.pos >= 0 ==> PtrOk(buf, start))
    ensures var target := if how.PtrSet? then position else start.pos + position;
      if how.PtrAdd? && (start.pos < 0 || target > SIZE_MAX) then result == -1 && p == start
      else if target > |buf.Contents()| then result == -1 && p == NOT_FOUND
      else result == 0 && p.pos == target && Settled(buf, p)
  {
    hide Flat;
    ghost var i: nat := 0;
    if how.PtrSet? {
      FirstPtr(buf);
      p := Ptr(0, buf.first, 0);
    } else {
      if start.pos < 0 || SIZE_MAX - position < start.pos {
        return -1, start;
      }
      p := start;
      PtrInBounds(buf, start);
      i :| PointsInto(buf, start, i);
    }
    var left := position;
    ghost var target := p.pos + position;
    while p.chain != null && p.pos_in_chain + left >= p.chain.off
      invariant PointsInto(buf, p, i) && left >= 0 && p.pos + left == target
      invariant 0 <= p.pos <= |buf.Contents()|
      decreases |buf.chains| - i
    {
      NextChunk(buf, p, i);
      left := left - (p.chain.off - p.pos_in_chain);
      p := Ptr(p.pos + (p.chain.off - p.pos_in_chain), p.chain.next, 0);
      i := i + 1;
    }
    if p.chain != null {
      NextChunk(buf, p, i);
      p := Ptr(p.pos + left, p.chain, p.pos_in_chain + left);
      assert PointsInto(buf, p, i);
      result := 0;
    } else {
      BehindLast(buf, p, i);
      if left == 0 {
        result := 0;
      } else {
        result, p := -1, NOT_FOUND;
      }
    }
  }

  // ---------- searching for a pattern ----------

  ghost predicate MatchAt(s: seq<Byte>, what: seq<Byte>, p: int) {
    0 <= p && p + |what| <= |s| && s[p..p + |what|] == what
  }

  /** memchr: the first index of `c` in `s`. */
  method Memchr(s: seq<Byte>, c: Byte) returns (r: int)
    ensures r == -1 ==> c !in s
    ensures r != -1 ==> 0 <= r < |s| && s[r] == c && c !in s[..r]
  {
    r := 0;
    while r < |s|
      invariant 0 <= r <= |s| && c !in s[..r]
    {
      if s[r] == c {
        return;
      }
      r := r + 1;
    }
    r := -1;
  }

  /** The first `k` bytes of `what` are found at `a`; whether the next `n` are, too. */
  lemma {:induction false} MatchStep(s: seq<Byte>, a: nat, what: seq<Byte>, k: nat, n: nat)
    requires a + |what| <= |s| && k + n <= |what| && s[a..a + k] == what[..k]
    ensures s[a + k..a + k + n] == what[k..k + n] ==> s[a..a + k + n] == what[..k + n]
    ensures s[a + k..a + k + n] != what[k..k + n] ==> s[a..a + |what|] != what
  {
    SliceSlice(s, a, a + |what|, k, k + n);
    assert s[a..a + k + n] == s[a..a + k] + s[a + k..a + k + n];
    assert what[..k + n] == what[..k] + what[k..k + n];
  }

  /** Bytes of a chunk as bytes of the string. */
  lemma {:induction false} PieceAt(buf: EvBuffer, p: Ptr, n: nat, i: nat)
    requires buf.Consistent() && PointsInto(buf, p, i) && p.chain != null && n <= p.chain.off - p.pos_in_chain
    ensures p.chain.misalign + p.chain.off <= |p.chain.buffer| && p.pos + n <= |buf.Contents()|
    ensures Piece(p.chain, p.pos_in_chain, p.pos_in_chain + n) == buf.Contents()[p.pos..p.pos + n]
  {
    hide Flat, IsLastData, EvBuffer.Linked;
    NextChunk(buf, p, i);
    FlatSlice(buf.cells, i, p.pos_in_chain, p.pos_in_chain + n);
  }

  /** One comparison of evbuffer_ptr_memcmp, within a chunk. */
  method CompareInChunk(buf: EvBuffer, p: Ptr, mem: seq<Byte>, k: nat, ghost i: nat, ghost at: nat)
      returns (n: nat, equal: bool)
    requires buf.Consistent() && PointsInto(buf, p, i) && p.chain != null
    requires k <= |mem| && p.pos == at + k && at + |mem| <= |buf.Contents()| && buf.Contents()[at..at + k] == mem[..k]
    ensures k + n <= |mem| && n == Min(|mem| - k, p.chain.off - p.pos_in_chain)
    ensures equal ==> buf.Contents()[at..at + k + n] == mem[..k + n]
    ensures !equal ==> buf.Contents()[at..at + |mem|] != mem
  {
    hide Flat, IsLastData, EvBuffer.Linked;
    NextChunk(buf, p, i);
    n := if |mem| - k + p.pos_in_chain > p.chain.off then p.chain.off - p.pos_in_chain else |mem| - k;
    PieceAt(buf, p, n, i);
    MatchStep(buf.Contents(), at, mem, k, n);
    hide PointsInto;
    equal := Piece(p.chain, p.pos_in_chain, p.pos_in_chain + n) == mem[k..k + n];
  }

  /** evbuffer_ptr_memcmp: does the buffer continue with `mem` at `start`? */
  method PtrMemcmp(buf: EvBuffer, start: Ptr, mem: seq<Byte>) returns (equal: bool)
    requires buf.Consistent() && (start.pos >= 0 ==> PtrOk(buf, start))
    ensures equal <==> start.pos + |mem| <= SIZE_MAX && MatchAt(buf.Contents(), mem, start.pos)
  {
    hide Flat, IsLastData, EvBuffer.Linked;
    if start.pos < 0 || SIZE_MAX - |mem| < start.pos || start.pos + |mem| > buf.total_len {
      return false;
    }
    ghost var i: nat :| PointsInto(buf, start, i);
    var p, k := start, 0;
    while k < |mem| && p.chain != null
      invariant 0 <= k <= |mem| && PointsInto(buf, p, i) && (k < |mem| ==> p.pos == start.pos + k)
      invariant buf.Contents()[start.pos..start.pos + k] == mem[..k]
      decreases |buf.chains| - i
    {
      var n, same := CompareInChunk(buf, p, mem, k, i, start.pos);
      NextChunk(buf, p, i);
      if !same {
        return false;
      }
      p := Ptr(p.pos + (p.chain.off - p.pos_in_chain), p.chain.next, 0);
      k := k + n;
      i := i + 1;
    }
    if p.chain == null {
      BehindLast(buf, p, i);
    }
    assert mem[..k] == mem;
    equal := true;
  }

  /** No occurrence of `what` starts in `[a, b)`. */
  ghost predicate NoMatch(s: seq<Byte>, what: seq<Byte>, a: int, b: int) {
    forall q :: a <= q < b ==> !MatchAt(s, what, q)
  }

  /** The first occurrence of `what` at or after `from`, if it ends by `limit`; else -1. */
  ghost predicate FirstMatch(s: seq<Byte>, what: seq<Byte>, from: int, limit: int, r: int) {
    if r == -1 then forall q :: from <= q && MatchAt(s, what, q) ==> q + |what| > limit
    else from <= r && MatchAt(s, what, r) && r + |what| <= limit && NoMatch(s, what, from, r)
  }

  lemma {:induction false} MatchStarts(s: seq<Byte>, what: seq<Byte>, q: int)
    requires what != []
    ensures MatchAt(s, what, q) ==> s[q] == what[0]
  {
    if MatchAt(s, what, q) {
      assert s[q..q + |what|][0] == s[q];
    }
  }

  lemma {:induction false} NoMatchWithoutFirst(s: seq<Byte>, what: seq<Byte>, a: int, b: nat, c: nat)
    requires what != [] && b <= c <= |s| && NoMatch(s, what, a, b) && what[0] !in s[b..c]
    ensures NoMatch(s, what, a, c)
  {
    forall q | b <= q < c
      ensures !MatchAt(s, what, q)
    {
      MatchStarts(s, what, q);
      assert s[b..c][q - b] == s[q];
    }
  }

  lemma {:induction false} NoMatchOneMore(s: seq<Byte>, what: seq<Byte>, a: int, b: int)
    requires NoMatch(s, what, a, b) && !MatchAt(s, what, b)
    ensures NoMatch(s, what, a, b + 1)
  {
  }

  /** memchr over the rest of the chunk that `p` points into. */
  method ScanChunk(buf: EvBuffer, p: Ptr, c: Byte, ghost i: nat) returns (r: int)
    requires buf.Consistent() && PointsInto(buf, p, i) && p.chain != null
    ensures p.pos + (p.chain.off - p.pos_in_chain) <= |buf.Contents()|
    ensures r == -1 ==> c !in buf.Contents()[p.pos..p.pos + (p.chain.off - p.pos_in_chain)]
    ensures r != -1 ==> 0 <= r < p.chain.off - p.pos_in_chain
                        && buf.Contents()[p.pos + r] == c && c !in buf.Contents()[p.pos..p.pos + r]
  {
    hide Flat, IsLastData, EvBuffer.Linked;
    NextChunk(buf, p, i);
    PieceAt(buf, p, p.chain.off - p.pos_in_chain, i);
    hide PointsInto;
    r := Memchr(Piece(p.chain, p.pos_in_chain, p.chain.off), c);
    if r != -1 {
      SliceStart(buf.Contents(), p.pos, p.pos + (p.chain.off - p.pos_in_chain), r);
    }
  }

  lemma SliceStart(s: seq<Byte>, a: nat, b: nat, r: nat)
    requires a + r < b <= |s|
    ensures s[a..b][r] == s[a + r] && s[a..b][..r] == s[a..a + r]
  {
  }

  /** `p` moved `k` bytes forward within its chunk. */
  function Forward(p: Ptr, k: nat): Ptr {
    Ptr(p.pos + k, p.chain, p.pos_in_chain + k)
  }

  /** Moves on to the next chunk from the end of the current one. */
  function Onward(p: Ptr): Ptr
    reads p.chain
  {
    if p.chain == null then p else Ptr(p.pos + (p.chain.off - p.pos_in_chain), p.chain.next, 0)
  }

  lemma {:induction false} ForwardPointsInto(buf: EvBuffer, p: Ptr, k: nat, i: nat)
    requires buf.Consistent() && PointsInto(buf, p, i) && p.chain != null && k <= p.chain.off - p.pos_in_chain
    ensures PointsInto(buf, Forward(p, k), i)
  {
    NextChunk(buf, p, i);
  }

  /** Nothing behind the chunk that `end` points into can end before it. */
  lemma {:induction false} EndInChunk(buf: EvBuffer, p: Ptr, i: nat, end: Ptr)
    requires buf.Consistent() && PointsInto(buf, p, i) && p.chain != null && PtrOk(buf, end) && end.chain == p.chain
    ensures end.pos <= p.pos + (p.chain.off - p.pos_in_chain)
  {
    NextChunk(buf, p, i);
    var j: nat :| PointsInto(buf, end, j);
    assert i == j;
  }

  /** The position that a search without a starting point begins at. */
  function StartOf(buf: EvBuffer, start: Option<Ptr>): Ptr
    reads buf`first
  {
    if start.Some? then start.value else Ptr(0, buf.first, 0)
  }

  ghost predicate PtrOkOrNone(buf: EvBuffer, p: Option<Ptr>)
    requires AllOk(buf.cells)
    reads buf
  {
    p.Some? ==> p.value == NOT_FOUND || PtrOk(buf, p.value)
  }

  /** One round of evbuffer_search_range: looks in the current chunk for the next place where
      `what` may begin. A hit is at `next`; otherwise the search goes on there. `skipped` says
      that the rest of the chunk has no such place. */
  method SearchInChunk(buf: EvBuffer, pos: Ptr, what: seq<Byte>, ghost i: nat, ghost from: nat)
      returns (hit: bool, skipped: bool, next: Ptr, ghost j: nat)
    requires buf.Consistent() && PointsInto(buf, pos, i) && pos.chain != null && what != []
    requires from <= pos.pos && NoMatch(buf.Contents(), what, from, pos.pos) && |buf.Contents()| + |what| <= SIZE_MAX
    ensures PointsInto(buf, next, j) && pos.pos <= next.pos && NoMatch(buf.Contents(), what, from, next.pos)
    ensures hit ==> !skipped && next.chain != null && next.pos_in_chain < next.chain.off
    ensures hit ==> next.pos + |what| <= SIZE_MAX && MatchAt(buf.Contents(), what, next.pos)
    ensures !hit ==> j == i + 1 || (j == i && next.chain == pos.chain && pos.pos_in_chain < next.pos_in_chain <= pos.chain.off)
    ensures skipped ==> next == Onward(pos)
  {
    hide Flat, EvBuffer.Linked, IsLastData, NoMatch, MatchAt;
    NextChunk(buf, pos, i);
    var k := ScanChunk(buf, pos, what[0], i);
    if k == -1 {
      NoMatchWithoutFirst(buf.Contents(), what, from, pos.pos, Onward(pos).pos);
      return false, true, Onward(pos), i + 1;
    }
    NoMatchWithoutFirst(buf.Contents(), what, from, pos.pos, pos.pos + k);
    ForwardPointsInto(buf, pos, k + 1, i);
    ForwardPointsInto(buf, pos, k, i);
    skipped, next, j := false, Forward(pos, k), i;
    hit := PtrMemcmp(buf, next, what);
    if !hit {
      NoMatchOneMore(buf.Contents(), what, from, next.pos);
      next := Forward(pos, k + 1);
      if next.pos_in_chain == next.chain.off {
        NextChunk(buf, next, i);
        next, j := Onward(next), i + 1;
      }
    }
  }

  /** The loop of evbuffer_search_range. */
  method SearchFrom(buf: EvBuffer, what: seq<Byte>, start: Ptr, end: Option<Ptr>, ghost at: nat) returns (r: Ptr)
    requires buf.Consistent() && |buf.Contents()| + |what| <= SIZE_MAX && what != []
    requires PointsInto(buf, start, at) && PtrOkOrNone(buf, end)
    ensures r == NOT_FOUND || Settled(buf, r)
    ensures FirstMatch(buf.Contents(), what, start.pos, if end.Some? then end.value.pos else |buf.Contents()|, r.pos)
  {
    hide Flat, EvBuffer.Linked;
    var lastChain := if end.Some? then end.value.chain else null;
    var pos := start;
    ghost var i := at;
    while pos.chain != null
      invariant PointsInto(buf, pos, i) && start.pos <= pos.pos && NoMatch(buf.Contents(), what, start.pos, pos.pos)
      decreases |buf.chains| - i, if pos.chain == null then 0 else pos.chain.off - pos.pos_in_chain
    {
      var hit, skipped, next;
      ghost var j;
      hit, skipped, next, j := SearchInChunk(buf, pos, what, i, start.pos);
      if hit {
        if end.Some? && next.pos + |what| > end.value.pos {
          return NOT_FOUND;
        }
        return next;
      }
      if skipped && pos.chain == lastChain {
        EndInChunk(buf, pos, i, end.value);
        return NOT_FOUND;
      }
      pos, i := next, j;
    }
    BehindLast(buf, pos, i);
    r := NOT_FOUND;
  }

  /** evbuffer_search_range: an empty or overlong pattern yields the start; otherwise the first
      occurrence from `start` that ends by `end`, or nothing if there is none. */
  method SearchRange(buf: EvBuffer, what: seq<Byte>, start: Option<Ptr>, end: Option<Ptr>) returns (r: Ptr)
    requires buf.Valid() && |buf.Contents()| + |what| <= SIZE_MAX
    requires PtrOkOrNone(buf, start) && PtrOkOrNone(buf, end)
    ensures what == [] || |what| > SSIZE_MAX ==> r == StartOf(buf, start)
    ensures 0 < |what| <= SSIZE_MAX && start == Some(NOT_FOUND) ==> r == NOT_FOUND
    ensures 0 < |what| <= SSIZE_MAX && start != Some(NOT_FOUND) ==>
      && (r == NOT_FOUND || Settled(buf, r))
      && FirstMatch(buf.Contents(), what, StartOf(buf, start).pos, if end.Some? then end.value.pos else |buf.Contents()|, r.pos)
  {
    hide Flat;
    var pos := StartOf(buf, start);
    if |what| == 0 || |what| > SSIZE_MAX {
      return pos;
    }
    if start == Some(NOT_FOUND) {
      return NOT_FOUND;
    }
    StartIsOk(buf, start);
    ghost var i: nat :| PointsInto(buf, pos, i);
    r := SearchFrom(buf, what, pos, end, i);
  }

  lemma {:induction false} StartIsOk(buf: EvBuffer, start: Option<Ptr>)
    requires buf.Consistent() && PtrOkOrNone(buf, start) && start != Some(NOT_FOUND)
    ensures PtrOk(buf, StartOf(buf, start))
  {
    if start.None? {
      FirstPtr(buf);
    }
  }
}
