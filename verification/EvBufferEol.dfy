/** Lines in an evbuffer: evbuffer_search_eol and evbuffer_readln. */
module EvBufferEol {
  import opened Bytes
  import opened Wrappers
  import opened EvBufferCore
  import opened EvBufferDrain
  import opened EvBufferSearch

  const NUL: Byte := 0
  const LF: Byte := 10
  const CR: Byte := 13

  datatype EolStyle = EolAny | EolCrlfStrict | EolCrlf | EolLf | EolNul

  // ---------- what a line end is ----------

  /** No byte of `cs` in `s[a..b]`. */
  ghost predicate NoneIn(s: seq<Byte>, cs: set<Byte>, a: int, b: int) {
    forall q :: a <= q < b && 0 <= q < |s| ==> s[q] !in cs
  }

  /** `r` is the first place at or after `from` with a byte of `cs`. */
  ghost predicate FirstIn(s: seq<Byte>, cs: set<Byte>, from: int, r: int) {
    from <= r && 0 <= r < |s| && s[r] in cs && NoneIn(s, cs, from, r)
  }

  /** `s[a..a + n]` is a longest run of bytes of `cs`. */
  ghost predicate RunOf(s: seq<Byte>, cs: set<Byte>, a: int, n: int) {
    && 0 <= n && 0 <= a && a + n <= |s|
    && (forall q :: a <= q < a + n ==> s[q] in cs)
    && (a + n < |s| ==> s[a + n] !in cs)
  }

  /** In `s` from `from` on, the first line end of the given style is `s[at..at + n]`. */
  ghost predicate IsEol(style: EolStyle, s: seq<Byte>, from: int, at: int, n: int) {
    match style
    case EolAny => FirstIn(s, {CR, LF}, from, at) && RunOf(s, {CR, LF}, at, n)
    case EolCrlfStrict => n == 2 && from <= at && MatchAt(s, [CR, LF], at) && NoMatch(s, [CR, LF], from, at)
    case EolCrlf =>
      // A line feed, with the carriage return before it, if it has one.
      && from <= at && (n == 1 || n == 2) && FirstIn(s, {LF}, from, at + n - 1)
      && (n == 2 ==> 0 <= at && s[at] == CR)
      && (n == 1 && from < at && 0 < at ==> s[at - 1] != CR)
    case EolLf => n == 1 && FirstIn(s, {LF}, from, at)
    case EolNul => n == 1 && FirstIn(s, {NUL}, from, at)
  }

  /** There is no line end of the given style in `s` from `from` on. */
  ghost predicate NoEol(style: EolStyle, s: seq<Byte>, from: int) {
    match style
    case EolAny => NoneIn(s, {CR, LF}, from, |s|)
    case EolCrlfStrict => NoMatch(s, [CR, LF], from, |s|)
    case EolCrlf => NoneIn(s, {LF}, from, |s|)
    case EolLf => NoneIn(s, {LF}, from, |s|)
    case EolNul => NoneIn(s, {NUL}, from, |s|)
  }

  /** The first line end is unique, and it is not there when none is. */
  lemma {:induction false} EolIsUnique(style: EolStyle, s: seq<Byte>, from: nat, a: int, n: int, b: int, m: int)
    requires IsEol(style, s, from, a, n)
    ensures IsEol(style, s, from, b, m) ==> a == b && n == m
    ensures !NoEol(style, s, from)
    ensures 0 < n && from <= a && a + n <= |s|
  {
  }

  lemma {:induction false} LeastIn(s: seq<Byte>, cs: set<Byte>, from: nat) returns (r: int)
    requires !NoneIn(s, cs, from, |s|)
    ensures FirstIn(s, cs, from, r)
  {
    r := from;
    while s[r] !in cs
      invariant from <= r < |s| && NoneIn(s, cs, from, r) && !NoneIn(s, cs, r, |s|)
      decreases |s| - r
    {
      r := r + 1;
    }
  }

  /** And there is one unless there is none, so the predicates describe one partial function. */
  lemma {:induction false} EolExists(style: EolStyle, s: seq<Byte>, from: nat) returns (at: int, n: int)
    requires !NoEol(style, s, from)
    ensures IsEol(style, s, from, at, n)
  {
    match style
    case EolAny =>
      at := LeastIn(s, {CR, LF}, from);
      n := 1;
      while at + n < |s| && s[at + n] in {CR, LF}
        invariant 1 <= n <= |s| - at
        invariant forall q :: at <= q < at + n ==> s[q] in {CR, LF}
      {
        n := n + 1;
      }
    case EolCrlfStrict =>
      at, n := from, 2;
      while !MatchAt(s, [CR, LF], at)
        invariant from <= at && NoMatch(s, [CR, LF], from, at)
        decreases |s| - at
      {
        at := at + 1;
      }
    case EolCrlf =>
      at := LeastIn(s, {LF}, from);
      n := 1;
      if from < at && s[at - 1] == CR {
        at, n := at - 1, 2;
      }
    case EolLf =>
      at := LeastIn(s, {LF}, from);
      n := 1;
    case EolNul =>
      at := LeastIn(s, {NUL}, from);
      n := 1;
  }

  // ---------- scanning one piece of memory ----------

  const CHUNK_SZ: nat := 128

  method MemchrSet(s: seq<Byte>, c: Byte) returns (r: int)
    ensures if r == -1 then NoneIn(s, {c}, 0, |s|) else FirstIn(s, {c}, 0, r)
  {
    r := Memchr(s, c);
    if r == -1 {
      assert forall q :: 0 <= q < |s| ==> s[q] in s;
    } else {
      assert forall q :: 0 <= q < r ==> s[..r][q] == s[q] && s[..r][q] in s[..r];
    }
  }

  /** find_eol_char: searches block by block for the nearer of the two line end bytes. */
  method FindEolChar(s: seq<Byte>) returns (r: int)
    ensures if r == -1 then NoneIn(s, {CR, LF}, 0, |s|) else FirstIn(s, {CR, LF}, 0, r)
  {
    var k := 0;
    while k < |s|
      invariant 0 <= k && NoneIn(s, {CR, LF}, 0, k)
      decreases |s| - k
    {
      var n := if k + CHUNK_SZ < |s| then CHUNK_SZ else |s| - k;
      var block := s[k..k + n];
      assert forall q :: k <= q < k + n ==> s[q] == block[q - k];
      var cr := MemchrSet(block, CR);
      var lf := MemchrSet(block, LF);
      if cr != -1 {
        if lf != -1 && lf < cr {
          return k + lf;
        }
        return k + cr;
      } else if lf != -1 {
        return k + lf;
      }
      k := k + CHUNK_SZ;
    }
    r := -1;
  }

  /** What a line end search starts with: either line end byte, or one given byte. */
  datatype Sought = EolByte | Chr(c: Byte) {
    ghost function Bytes(): set<Byte> {
      match this case EolByte => {CR, LF} case Chr(c) => {c}
    }
  }

  method FindByte(s: seq<Byte>, what: Sought) returns (r: int)
    ensures if r == -1 then NoneIn(s, what.Bytes(), 0, |s|) else FirstIn(s, what.Bytes(), 0, r)
  {
    match what
    case EolByte => r := FindEolChar(s);
    case Chr(c) => r := MemchrSet(s, c);
  }

  // ---------- scanning the buffer ----------

  /** A scan of the data of chunk `i` from `p` on says the same of the whole contents. */
  lemma {:induction false} ScanRest(s: seq<Byte>, rest: seq<Byte>, cs: set<Byte>, from: nat, a: nat)
    requires from <= a && a + |rest| <= |s| && rest == s[a..a + |rest|] && NoneIn(s, cs, from, a)
    ensures NoneIn(rest, cs, 0, |rest|) ==> NoneIn(s, cs, from, a + |rest|)
    ensures forall r :: FirstIn(rest, cs, 0, r) ==> FirstIn(s, cs, from, a + r)
  {
    assert forall q :: a <= q < a + |rest| ==> s[q] == rest[q - a];
  }

  /** The bytes of chunk `i` from `p` on, as the position in the contents they have. */
  method RestOfChunk(buf: EvBuffer, p: Ptr, ghost i: nat) returns (rest: seq<Byte>)
    requires buf.Consistent() && PointsInto(buf, p, i) && p.chain != null
    ensures |rest| == p.chain.off - p.pos_in_chain && p.pos + |rest| <= |buf.Contents()|
    ensures rest == buf.Contents()[p.pos..p.pos + |rest|]
    ensures Onward(p).pos == p.pos + |rest| && PointsInto(buf, Onward(p), i + 1)
  {
    hide Flat;
    NextChunk(buf, p, i);
    FlatSlice(buf.cells, i, p.pos_in_chain, p.chain.off);
    rest := Piece(p.chain, p.pos_in_chain, p.chain.off);
  }

  /** evbuffer_strchr and evbuffer_find_eol_char: the first byte sought, from `it` on. */
  method Scan(buf: EvBuffer, it: Ptr, what: Sought, ghost at: nat) returns (found: bool, p: Ptr)
    requires buf.Consistent() && PointsInto(buf, it, at)
    ensures found ==> Settled(buf, p) && p.chain != null && FirstIn(buf.Contents(), what.Bytes(), it.pos, p.pos)
    ensures !found ==> NoneIn(buf.Contents(), what.Bytes(), it.pos, |buf.Contents()|)
  {
    hide Flat, EvBuffer.Linked;
    p := it;
    ghost var i := at;
    while p.chain != null
      invariant PointsInto(buf, p, i) && it.pos <= p.pos && NoneIn(buf.Contents(), what.Bytes(), it.pos, p.pos)
      decreases |buf.chains| - i
    {
      var rest := RestOfChunk(buf, p, i);
      ScanRest(buf.Contents(), rest, what.Bytes(), it.pos, p.pos);
      var r := FindByte(rest, what);
      if r != -1 {
        ForwardPointsInto(buf, p, r, i);
        return true, Forward(p, r);
      }
      p := Onward(p);
      i := i + 1;
    }
    BehindLast(buf, p, i);
    found := false;
  }

  /** evbuffer_strspn over the two line end bytes: how many of them follow. */
  method Strspn(buf: EvBuffer, it: Ptr, ghost at: nat) returns (count: nat)
    requires buf.Consistent() && PointsInto(buf, it, at) && it.chain != null
    ensures RunOf(buf.Contents(), {CR, LF}, it.pos, count)
  {
    hide Flat, EvBuffer.Linked;
    var p := it;
    ghost var i := at;
    count := 0;
    while true
      invariant PointsInto(buf, p, i) && p.chain != null && p.pos == it.pos + count
      invariant forall q :: it.pos <= q < it.pos + count && q < |buf.Contents()| ==> buf.Contents()[q] in {CR, LF}
      decreases |buf.chains| - i
    {
      var rest := RestOfChunk(buf, p, i);
      assert forall q :: p.pos <= q < p.pos + |rest| ==> buf.Contents()[q] == rest[q - p.pos];
      var k := 0;
      while k < |rest| && (rest[k] == CR || rest[k] == LF)
        invariant 0 <= k <= |rest| && forall q :: 0 <= q < k ==> rest[q] in {CR, LF}
      {
        k := k + 1;
      }
      count := count + k;
      if k < |rest| {
        return;
      }
      p := Onward(p);
      i := i + 1;
      if p.chain == null {
        BehindLast(buf, p, i);
        return;
      }
    }
  }

  /** evbuffer_ptr_subtract */
  method PtrSubtract(buf: EvBuffer, pos: Ptr, howfar: nat) returns (result: int, p: Ptr)
    requires buf.Valid() && (pos.pos >= 0 ==> PtrOk(buf, pos))
    ensures if howfar > pos.pos then result == -1 && p == pos
      else result == 0 && p.pos == pos.pos - howfar && PtrOk(buf, p)
    ensures Settled(buf, pos) || howfar > 0 ==> result == -1 || Settled(buf, p)
  {
    hide Flat;
    if pos.pos < 0 || howfar > pos.pos {
      return -1, pos;
    }
    PtrInBounds(buf, pos);
    if pos.chain != null && howfar <= pos.pos_in_chain {
      p := Ptr(pos.pos - howfar, pos.chain, pos.pos_in_chain - howfar);
      ghost var i: nat :| PointsInto(buf, pos, i);
      assert PointsInto(buf, p, i);
      result := 0;
    } else {
      result, p := PtrSetTo(buf, pos, pos.pos - howfar, PtrSet);
    }
  }

  lemma {:induction false} ByteAt(cells: seq<Cell>, n: nat, k: nat)
    requires AllOk(cells) && n < |cells| && k < cells[n].off
    ensures AllOk(cells[..n]) && |Flat(cells[..n])| + k < |Flat(cells)|
    ensures cells[n].buffer[cells[n].misalign + k] == Flat(cells)[|Flat(cells[..n])| + k]
  {
    FlatAround(cells, n);
    assert cells[n].Data()[k] == cells[n].buffer[cells[n].misalign + k];
  }

  /** evbuffer_getchr, as a byte of the contents. */
  method GetChr(buf: EvBuffer, it: Ptr) returns (c: int)
    requires buf.Consistent() && Settled(buf, it)
    ensures if it.pos == |buf.Contents()| then c == -1 else 0 <= it.pos < |buf.Contents()| && c == buf.Contents()[it.pos]
  {
    hide Flat;
    ghost var i: nat :| PointsInto(buf, it, i);
    if it.chain == null {
      BehindLast(buf, it, i);
      return -1;
    }
    NextChunk(buf, it, i);
    ByteAt(buf.cells, i, it.pos_in_chain);
    c := it.chain.buffer[it.chain.misalign + it.pos_in_chain];
  }

  // ---------- line ends ----------

  /** The EVBUFFER_EOL_CRLF case: a line feed, backing up over a carriage return. */
  method SearchCrlf(buf: EvBuffer, start: Ptr, ghost i: nat) returns (ok: bool, it: Ptr, eolLen: nat)
    requires buf.Valid() && PointsInto(buf, start, i)
    ensures ok ==> PtrOk(buf, it) && IsEol(EolCrlf, buf.Contents(), start.pos, it.pos, eolLen)
    ensures !ok ==> eolLen == 0 && NoEol(EolCrlf, buf.Contents(), start.pos)
  {
    hide Flat, EvBuffer.Linked;
    ok, it := Scan(buf, start, Chr(LF), i);
    if !ok {
      return false, it, 0;
    }
    eolLen := 1;
    if it.pos == start.pos {
      return;
    }
    var r, it2 := PtrSubtract(buf, it, 1);
    var c := GetChr(buf, it2);
    if c == CR {
      it, eolLen := it2, 2;
    }
  }

  /** evbuffer_search_eol */
  method SearchEol(buf: EvBuffer, start: Option<Ptr>, style: EolStyle) returns (it: Ptr, eolLen: nat)
    requires buf.Valid() && |buf.Contents()| + 2 <= SIZE_MAX && PtrOkOrNone(buf, start)
    ensures start.Some? && start.value.chain == null ==> it == NOT_FOUND && eolLen == 0
    ensures start != Some(NOT_FOUND) ==>
      if it == NOT_FOUND then eolLen == 0 && NoEol(style, buf.Contents(), StartOf(buf, start).pos)
      else PtrOk(buf, it) && IsEol(style, buf.Contents(), StartOf(buf, start).pos, it.pos, eolLen)
  {
    hide Flat, EvBuffer.Linked;
    if start.Some? && start.value.chain == null {
      if start != Some(NOT_FOUND) {
        ghost var j: nat :| PointsInto(buf, start.value, j);
        BehindLast(buf, start.value, j);
      }
      return NOT_FOUND, 0;
    }
    it := StartOf(buf, start);
    StartIsOk(buf, start);
    ghost var i: nat :| PointsInto(buf, it, i);
    var ok;
    match style {
      case EolAny =>
        ok, it := Scan(buf, it, EolByte, i);
        eolLen := 0;
        if ok {
          ghost var j: nat :| PointsInto(buf, it, j);
          eolLen := Strspn(buf, it, j);
        }
      case EolCrlfStrict =>
        it := SearchRange(buf, [CR, LF], Some(it), None);
        ok := it.pos >= 0;
        eolLen := if ok then 2 else 0;
      case EolCrlf =>
        ok, it, eolLen := SearchCrlf(buf, it, i);
      case EolLf =>
        ok, it := Scan(buf, it, Chr(LF), i);
        eolLen := if ok then 1 else 0;
      case EolNul =>
        ok, it := Scan(buf, it, Chr(NUL), i);
        eolLen := if ok then 1 else 0;
    }
    if !ok {
      it := NOT_FOUND;
    }
  }

  lemma {:induction false} SplitLine(s: seq<Byte>, line: seq<Byte>, rest: seq<Byte>, n: nat)
    requires s == line + rest && n <= |rest|
    ensures s == line + s[|line|..|line| + n] + rest[n..]
  {
  }

  /** evbuffer_readln: takes the first line off the buffer, and its line end with it. */
  method Readln(buf: EvBuffer, style: EolStyle) returns (line: Option<seq<Byte>>, ghost eol: seq<Byte>)
    requires buf.Valid() && |buf.Contents()| + 2 <= SIZE_MAX
    modifies buf, buf.chains
    ensures buf.Valid() && SameSettings(buf) && buf.n_add_for_cb == old(buf.n_add_for_cb)
    ensures line.None? ==> unchanged(buf) && unchanged(old(buf.chains))
    ensures line.None? <==> buf.freeze_start || NoEol(style, old(buf.Contents()), 0)
    ensures line.Some? ==>
      && IsEol(style, old(buf.Contents()), 0, |line.value|, |eol|)
      && old(buf.Contents()) == line.value + eol + buf.Contents()
      && buf.n_del_for_cb == old(buf.n_del_for_cb) + |line.value| + |eol|
  {
    hide Flat, EvBuffer.Linked;
    if buf.freeze_start {
      return None, [];
    }
    ghost var s := buf.Contents();
    var it, extraDrain := SearchEol(buf, None, style);
    if it.pos < 0 {
      return None, [];
    }
    EolIsUnique(style, s, 0, it.pos, extraDrain, it.pos, extraDrain);
    var n, data := Remove(buf, it.pos);
    eol := s[it.pos..it.pos + extraDrain];
    ChainsByIndex(buf.chains, old(buf.chains), old(buf.chains));
    SplitLine(s, data, buf.Contents(), extraDrain);
    var r := Drain(buf, extraDrain);
    line := Some(data);
  }
}
