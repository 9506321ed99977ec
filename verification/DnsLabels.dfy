/** Writing names into DNS messages with compression (section 4.1.4 of RFC 1035), and reading them
    back. */
module DnsLabels {
  import opened Bytes
  import opened DnsNames
  import opened DnsText

  /** Pointers have 14 bits. */
  const POINTER_RANGE: nat := 0x4000

  // ---------- the compression table ----------

  /** struct dnslabel_table */
  class LabelTable {
    var labels: seq<Entry>

    /** dnslabel_table_init */
    constructor ()
      ensures labels == []
    {
      labels := [];
    }

    /** dnslabel_table_get_pos */
    method GetPos(name: seq<Byte>) returns (pos: int)
      ensures pos == -1 <==> forall e <- labels :: e.v != name
      ensures pos != -1 ==> pos >= 0 && Entry(name, pos) in labels
    {
      for i := 0 to |labels|
        invariant forall k :: 0 <= k < i ==> labels[k].v != name
      {
        if labels[i].v == name {
          assert labels[i] == Entry(name, labels[i].pos);
          return labels[i].pos;
        }
      }
      pos := -1;
    }

    /** dnslabel_table_add: a full table stays as it is. */
    method Add(name: seq<Byte>, pos: nat) returns (r: int)
      modifies this
      ensures labels == if r == 0 then old(labels) + [Entry(name, pos)] else old(labels)
      ensures r == if |old(labels)| == MAX_LABELS then -1 else 0
    {
      if |labels| == MAX_LABELS {
        return -1;
      }
      labels := labels + [Entry(name, pos)];
      r := 0;
    }
  }

  /** Reading a name at offset `j` gives what is left of `name` before an empty label. */
  ghost predicate Readable(p: seq<Byte>, j: int, name: seq<Byte>) {
    exists n: nat :: Decodes(p, j, Labels(name), n)
  }

  /** Reading any name of the table where it was written gives that name. */
  ghost predicate TableOk(labels: seq<Entry>, p: seq<Byte>) {
    forall e <- labels :: e.pos < |p| && (e.pos < POINTER_RANGE ==> Readable(p, e.pos, e.v))
  }

  /** What has been read stays readable when the message grows. */
  lemma {:induction false} DecodesLonger(p: seq<Byte>, q: seq<Byte>, j: int, labels: seq<seq<Byte>>, n: nat)
    requires p <= q && Decodes(p, j, labels, n)
    ensures Decodes(q, j, labels, n) && PieceEnd(q, j, labels, n) == PieceEnd(p, j, labels, n)
    decreases |labels| + n
  {
    if p[j] == 0 {
    } else if p[j] >= 64 {
      DecodesLonger(p, q, Target(p[j], p[j + 1]), labels, n - 1);
    } else {
      DecodesLonger(p, q, j + 1 + p[j], labels[1..], n);
    }
  }

  lemma {:induction false} TableLonger(labels: seq<Entry>, p: seq<Byte>, q: seq<Byte>)
    requires p <= q && TableOk(labels, p)
    ensures TableOk(labels, q)
  {
    forall e | e in labels && e.pos < POINTER_RANGE
      ensures Readable(q, e.pos, e.v)
    {
      var n: nat :| Decodes(p, e.pos, Labels(e.v), n);
      DecodesLonger(p, q, e.pos, Labels(e.v), n);
    }
  }

  // ---------- dnsname_to_labels ----------

  /** The first label of `name`, which a dot ends, is written at `j`. */
  ghost predicate LabelAt(p: seq<Byte>, j: int, name: seq<Byte>) {
    var n := FirstLabel(name);
    n < |name| && n <= MAX_LABEL && 0 <= j && j + 1 + n <= |p| && p[j] == n && p[j + 1..j + 1 + n] == name[..n]
  }

  /** The labels of `name` up to its suffix `rest` are written from `start` to `j`. */
  ghost predicate Chain(p: seq<Byte>, start: int, name: seq<Byte>, j: int, rest: seq<Byte>)
    decreases |name|
  {
    || (start == j && name == rest)
    || (LabelAt(p, start, name) && Chain(p, start + 1 + FirstLabel(name), name[FirstLabel(name) + 1..], j, rest))
  }

  lemma {:induction false} LabelAtLonger(p: seq<Byte>, q: seq<Byte>, j: int, name: seq<Byte>)
    requires p <= q && LabelAt(p, j, name)
    ensures LabelAt(q, j, name)
  {
    var n := FirstLabel(name);
    assert q[j + 1..j + 1 + n] == p[j + 1..j + 1 + n];
  }

  lemma {:induction false} ChainPush(p: seq<Byte>, q: seq<Byte>, start: int, name: seq<Byte>, j: int, rest: seq<Byte>)
    requires p <= q && Chain(p, start, name, j, rest) && LabelAt(q, j, rest)
    ensures Chain(q, start, name, j + 1 + FirstLabel(rest), rest[FirstLabel(rest) + 1..])
    decreases |name|
  {
    hide FirstLabel;
    if !(start == j && name == rest) {
      assert FirstLabel(name) < |name|;
      LabelAtLonger(p, q, start, name);
      ChainPush(p, q, start + 1 + FirstLabel(name), name[FirstLabel(name) + 1..], j, rest);
    }
  }

  /** A label and a name that can be read behind it. */
  lemma {:induction false} LabelReads(q: seq<Byte>, start: int, name: seq<Byte>, m: nat)
    requires LabelAt(q, start, name) && FirstLabel(name) > 0
    requires Decodes(q, start + 1 + FirstLabel(name), Labels(name[FirstLabel(name) + 1..]), m)
    ensures Decodes(q, start, Labels(name), m)
    ensures PieceEnd(q, start, Labels(name), m) ==
            PieceEnd(q, start + 1 + FirstLabel(name), Labels(name[FirstLabel(name) + 1..]), m)
  {
    var k := FirstLabel(name);
    assert Labels(name) == [name[..k]] + Labels(name[k + 1..]);
    assert Labels(name)[1..] == Labels(name[k + 1..]);
  }

  lemma {:induction false} EmptyReads(q: seq<Byte>, start: int, name: seq<Byte>)
    requires LabelAt(q, start, name) && FirstLabel(name) == 0
    ensures Decodes(q, start, Labels(name), 0)
  {
  }

  /** Once the rest can be read, the whole can; if the name is a whole one, up to the same end. */
  lemma {:induction false} ChainReads(p: seq<Byte>, q: seq<Byte>, start: int, name: seq<Byte>, j: int, rest: seq<Byte>, n: nat)
      returns (m: nat)
    requires p <= q && Chain(p, start, name, j, rest) && Decodes(q, j, Labels(rest), n)
    ensures Decodes(q, start, Labels(name), m)
    ensures Whole(name) ==> PieceEnd(q, start, Labels(name), m) == PieceEnd(q, j, Labels(rest), n)
    decreases |name|
  {
    hide Whole, Decodes, PieceEnd;
    if start == j && name == rest {
      m := n;
    } else {
      var k := FirstLabel(name);
      LabelAtLonger(p, q, start, name);
      if k == 0 {
        if Whole(name) {
          WholeStarts(name);
        }
        EmptyReads(q, start, name);
        m := 0;
      } else {
        m := ChainReads(p, q, start + 1 + k, name[k + 1..], j, rest, n);
        WholeBehind(name);
        LabelReads(q, start, name, m);
      }
    }
  }

  /** A pointer to where the name stands reads the name. */
  lemma {:induction false} PointerReads(p: seq<Byte>, q: seq<Byte>, j: nat, pos: nat, name: seq<Byte>) returns (n: nat)
    requires p <= q && j + 2 <= |q| && pos < POINTER_RANGE && Readable(p, pos, name)
    requires q[j] == 192 + pos / 256 && q[j + 1] == pos % 256
    ensures Decodes(q, j, Labels(name), n) && PieceEnd(q, j, Labels(name), n) == j + 2
  {
    var m: nat :| Decodes(p, pos, Labels(name), m);
    DecodesLonger(p, q, pos, Labels(name), m);
    assert Target(q[j], q[j + 1]) == pos;
    n := m + 1;
  }

  /** A last label with a zero behind it reads as the name. */
  lemma {:induction false} LastLabelReads(q: seq<Byte>, j: nat, name: seq<Byte>)
    requires FirstLabel(name) == |name| <= MAX_LABEL && j + 1 + |name| <= |q| && q[j] == |name| && q[j + 1..j + 1 + |name|] == name
    requires name != [] ==> j + 1 + |name| < |q| && q[j + 1 + |name|] == 0
    ensures Decodes(q, j, Labels(name), 0)
    ensures PieceEnd(q, j, Labels(name), 0) == if name == [] then j + 1 else j + 2 + |name|
  {
    if name != [] {
      assert Labels(name)[1..] == [];
      assert Decodes(q, j + 1 + |name|, [], 0);
    }
  }

  /** Writes one label with its length. */
  method PutLabel(buf: array<Byte>, j: nat, piece: seq<Byte>)
    requires j + 1 + |piece| <= buf.Length && |piece| < 256
    modifies buf
    ensures buf[..j] == old(buf[..j]) && buf[j + 1 + |piece|..] == old(buf[j + 1 + |piece|..])
    ensures buf[j] == |piece| && buf[j + 1..j + 1 + |piece|] == piece
  {
    buf[j] := |piece|;
    forall i | 0 <= i < |piece| {
      buf[j + 1 + i] := piece[i];
    }
  }

  /** The entries made for the labels written so far: they are of longer names than the rest, and
      will be readable when the rest is. */
  ghost predicate Waiting(labels: seq<Entry>, from: nat, p: seq<Byte>, j: int, rest: seq<Byte>)
    requires from <= |labels|
  {
    forall k :: from <= k < |labels| ==> labels[k].pos < |p| && |labels[k].v| > |rest| && Chain(p, labels[k].pos, labels[k].v, j, rest)
  }

  lemma {:induction false} WaitingPush(labels: seq<Entry>, from: nat, p: seq<Byte>, q: seq<Byte>, j: nat, rest: seq<Byte>, more: seq<Entry>)
    requires from <= |labels| && Waiting(labels, from, p, j, rest) && p <= q && LabelAt(q, j, rest) && |p| == j
    requires more == [] || more == [Entry(rest, j)]
    ensures var n := FirstLabel(rest); Waiting(labels + more, from, q, j + 1 + n, rest[n + 1..])
  {
    hide FirstLabel;
    var n := FirstLabel(rest);
    assert n < |rest| && j < |q|;
    var all := labels + more;
    forall k | from <= k < |all|
      ensures all[k].pos < |q| && |all[k].v| > |rest| - n - 1 && Chain(q, all[k].pos, all[k].v, j + 1 + n, rest[n + 1..])
    {
      if k < |labels| {
        assert all[k] == labels[k];
        ChainPush(p, q, all[k].pos, all[k].v, j, rest);
      } else {
        ChainPush(p, q, j, rest, j, rest);
      }
    }
  }

  /** A name can be read at `start`, and the reader goes on at `end`. */
  ghost predicate ReadUpTo(p: seq<Byte>, start: nat, name: seq<Byte>, end: nat) {
    exists m: nat :: Decodes(p, start, Labels(name), m) && PieceEnd(p, start, Labels(name), m) == end
  }

  /** A name written at `start` is there to be read, and a whole one reaches to the end. */
  ghost predicate ReadsTo(q: seq<Byte>, start: nat, name: seq<Byte>) {
    Readable(q, start, name) && (Whole(name) ==> ReadUpTo(q, start, name, |q|))
  }

  /** The rest can be read at last, so the name and all entries made for it can. */
  lemma {:induction false} Finished(before: seq<Entry>, labels: seq<Entry>, p0: seq<Byte>, p: seq<Byte>, q: seq<Byte>,
      start: nat, name: seq<Byte>, j: nat, rest: seq<Byte>, n: nat)
    requires p0 <= p <= q && TableOk(before, p0) && before <= labels && Chain(p, start, name, j, rest)
    requires forall k :: |before| <= k < |labels| ==> labels[k].pos < |q| && Chain(p, labels[k].pos, labels[k].v, j, rest)
    requires Decodes(q, j, Labels(rest), n) && PieceEnd(q, j, Labels(rest), n) == |q|
    ensures ReadsTo(q, start, name) && TableOk(labels, q)
  {
    var m := ChainReads(p, q, start, name, j, rest, n);
    TableLonger(before, p0, q);
    forall e | e in labels
      ensures e.pos < |q| && (e.pos < POINTER_RANGE ==> Readable(q, e.pos, e.v))
    {
      var k: nat :| k < |labels| && labels[k] == e;
      if k < |before| {
        assert before[k] == e;
      } else {
        var i := ChainReads(p, q, e.pos, e.v, j, rest, n);
      }
    }
  }

  lemma {:induction false} ReadableLonger(p: seq<Byte>, q: seq<Byte>, j: int, name: seq<Byte>)
    requires p <= q && Readable(p, j, name)
    ensures Readable(q, j, name)
  {
    var n: nat :| Decodes(p, j, Labels(name), n);
    DecodesLonger(p, q, j, Labels(name), n);
  }

  /** The entries of a table that need not be there. */
  ghost function EntriesOf(table: LabelTable?): seq<Entry>
    reads table
  {
    if table == null then [] else table.labels
  }

  /** APPEND16 of a compression pointer; `ref` loses the bits above the fourteenth. */
  method PutPointer(buf: array<Byte>, j: nat, ref: nat)
    requires j + 2 <= buf.Length
    modifies buf
    ensures buf[..j] == old(buf[..j]) && buf[j + 2..] == old(buf[j + 2..])
    ensures buf[j] == 192 + ref % POINTER_RANGE / 256 && buf[j + 1] == ref % 256
  {
    var x := 0xc000 + ref % POINTER_RANGE;
    buf[j] := x / 256;
    buf[j + 1] := x % 256;
  }

  /** What dnsname_to_labels keeps while it goes through the labels. */
  ghost predicate SoFar(buf: array<Byte>, p0: seq<Byte>, start: nat, name: seq<Byte>, j: nat, rest: seq<Byte>,
      before: seq<Entry>, labels: seq<Entry>)
    reads buf
  {
    && start <= j <= buf.Length && |p0| == start && buf[..start] == p0
    && j - start == |name| - |rest| && 0 !in rest
    && Chain(buf[..j], start, name, j, rest)
    && before <= labels && TableOk(before, p0) && Waiting(labels, |before|, buf[..j], j, rest)
  }

  /** `table && dnslabel_table_get_pos(table, name)` */
  method Recall(table: LabelTable?, name: seq<Byte>) returns (ref: int)
    ensures ref >= 0 ==> Entry(name, ref) in EntriesOf(table)
    ensures ref >= 0 <==> Known(EntriesOf(table), name)
  {
    ref := -1;
    if table != null {
      ref := table.GetPos(name);
    }
  }

  /** `if (table) dnslabel_table_add(table, name, pos)`, which may find the table full */
  method Remember(table: LabelTable?, name: seq<Byte>, pos: nat) returns (ghost more: seq<Entry>)
    modifies table
    ensures more == if table == null || |old(EntriesOf(table))| == MAX_LABELS then [] else [Entry(name, pos)]
    ensures EntriesOf(table) == old(EntriesOf(table)) + more
  {
    more := [];
    if table != null {
      var added := table.Add(name, pos);
      more := if added == 0 then [Entry(name, pos)] else [];
    }
  }

  lemma TableIs(table: LabelTable?)
    ensures EntriesOf(table) == if table == null then [] else table.labels
  {
  }

  lemma TailOfTail(a: seq<Byte>, b: seq<Byte>, j: nat, k: nat)
    requires |a| == |b| && j <= k <= |a| && a[j..] == b[j..]
    ensures a[k..] == b[k..]
  {
    assert a[k..] == a[j..][k - j..] && b[k..] == b[j..][k - j..];
  }

  lemma SoFarFacts(buf: array<Byte>, p0: seq<Byte>, start: nat, name: seq<Byte>, j: nat, rest: seq<Byte>,
      before: seq<Entry>, labels: seq<Entry>)
    requires SoFar(buf, p0, start, name, j, rest, before, labels)
    ensures start <= j <= buf.Length && buf[..start] == p0 && j - start == |name| - |rest|
    ensures Known(labels, rest) <==> Known(before, rest)
  {
    KnownBefore(before, labels, buf[..j], j, rest);
  }

  /** The pointer case: the rest is in the table already. */
  method EndWithPointer(buf: array<Byte>, ghost p0: seq<Byte>, ghost start: nat, ghost name: seq<Byte>, j: nat, ghost rest: seq<Byte>,
      ghost before: seq<Entry>, ghost labels: seq<Entry>, ref: nat) returns (r: Encoded)
    requires SoFar(buf, p0, start, name, j, rest, before, labels) && Entry(rest, ref) in labels
    modifies buf
    ensures buf[..start] == p0
    ensures r == if j + 2 <= buf.Length then Encoded(j + 2) else NoRoom
    ensures r.Encoded? ==> buf[r.end..] == old(buf[r.end..])
    ensures r.Encoded? && r.end <= POINTER_RANGE ==> ReadsTo(buf[..r.end], start, name) && TableOk(labels, buf[..r.end])
  {
    hide FirstLabel, Chain, LabelAt, Readable, ReadsTo, Decodes, LabelsFit, PieceEnd;
    if j + 2 > buf.Length {
      return NoRoom;
    }
    ghost var p := buf[..j];
    assert p[..start] == p0;
    PutPointer(buf, j, ref);
    r := Encoded(j + 2);
    if r.end <= POINTER_RANGE {
      EntryIsOld(before, labels, p, j, rest, ref);
      assert ref < POINTER_RANGE && ref / 256 == ref % POINTER_RANGE / 256;
      ghost var q := buf[..j + 2];
      var n := PointerReads(p0, q, j, ref, rest);
      Finished(before, labels, p0, p, q, start, name, j, rest, n);
    }
  }

  lemma {:induction false} EntryIsOld(before: seq<Entry>, labels: seq<Entry>, p: seq<Byte>, j: int, rest: seq<Byte>, ref: nat)
    requires before <= labels && Waiting(labels, |before|, p, j, rest) && Entry(rest, ref) in labels
    ensures Entry(rest, ref) in before
  {
    var k: nat :| k < |labels| && labels[k] == Entry(rest, ref);
    assert k < |before|;
    assert before[k] == labels[k];
  }

  /** The entries made on the way are of longer names, so that the rest is known iff it was before. */
  lemma {:induction false} KnownBefore(before: seq<Entry>, labels: seq<Entry>, p: seq<Byte>, j: int, rest: seq<Byte>)
    requires before <= labels && Waiting(labels, |before|, p, j, rest)
    ensures Known(labels, rest) <==> Known(before, rest)
  {
    if Known(labels, rest) {
      var e :| e in labels && e.v == rest;
      EntryIsOld(before, labels, p, j, rest, e.pos);
    }
    if Known(before, rest) {
      var e :| e in before && e.v == rest;
      var k: nat :| k < |before| && before[k] == e;
      assert labels[k] == e;
    }
  }

  /** The label, and the final zero unless the label was empty, and is one itself. */
  method PutLastLabel(buf: array<Byte>, j: nat, rest: seq<Byte>) returns (r: Encoded)
    requires |rest| <= MAX_LABEL && j + 1 + |rest| <= buf.Length && 0 !in rest
    modifies buf
    ensures r == if rest == [] then Encoded(j + 1) else if j + 2 + |rest| <= buf.Length then Encoded(j + 2 + |rest|) else ZeroOverrun
    ensures buf[..j] == old(buf[..j])
    ensures r.Encoded? ==> buf[r.end..] == old(buf[r.end..])
    ensures r.Encoded? ==> buf[..r.end][j] == |rest| && buf[..r.end][j + 1..j + 1 + |rest|] == rest && buf[..r.end][r.end - 1] == 0
  {
    PutLabel(buf, j, rest);
    var end := j + 1 + |rest|;
    ghost var tail := buf[end..];
    if buf[end - 1] != 0 {
      if end == buf.Length {
        return ZeroOverrun;
      }
      buf[end] := 0;
      end := end + 1;
      assert buf[end..] == tail[1..] && old(buf[end..]) == tail[1..];
    }
    r := Encoded(end);
  }

  /** The last label, with the zero that ends the name. */
  method EndWithLabel(buf: array<Byte>, ghost p0: seq<Byte>, ghost start: nat, ghost name: seq<Byte>, j: nat, rest: seq<Byte>,
      ghost before: seq<Entry>, ghost labels: seq<Entry>, ghost more: seq<Entry>) returns (r: Encoded)
    requires SoFar(buf, p0, start, name, j, rest, before, labels) && (more == [] || more == [Entry(rest, j)])
    requires FirstLabel(rest) == |rest| <= MAX_LABEL && j + 1 + |rest| <= buf.Length
    modifies buf
    ensures buf[..start] == p0
    ensures r == if rest == [] then Encoded(j + 1) else if j + 2 + |rest| <= buf.Length then Encoded(j + 2 + |rest|) else ZeroOverrun
    ensures r.Encoded? ==> buf[r.end..] == old(buf[r.end..])
    ensures r.Encoded? ==> ReadsTo(buf[..r.end], start, name) && TableOk(labels + more, buf[..r.end])
  {
    hide Chain, LabelAt, Readable, ReadsTo, Decodes, LabelsFit, TableOk;
    ghost var p := buf[..j];
    assert p[..start] == p0;
    r := PutLastLabel(buf, j, rest);
    assert buf[..start] == buf[..j][..start];
    if r == ZeroOverrun {
      return;
    }
    ghost var q := buf[..r.end];
    assert p == q[..j];
    LastLabelReads(q, j, rest);
    WaitingEnd(labels, |before|, p, q, j, rest, more);
    Finished(before, labels + more, p0, p, q, start, name, j, rest, 0);
  }

  lemma {:induction false} WaitingEnd(labels: seq<Entry>, from: nat, p: seq<Byte>, q: seq<Byte>, j: nat, rest: seq<Byte>, more: seq<Entry>)
    requires from <= |labels| && Waiting(labels, from, p, j, rest) && p <= q && |p| == j < |q|
    requires more == [] || more == [Entry(rest, j)]
    ensures forall k :: from <= k < |labels + more| ==>
      (labels + more)[k].pos < |q| && Chain(p, (labels + more)[k].pos, (labels + more)[k].v, j, rest)
  {
    var all := labels + more;
    forall k | from <= k < |all|
      ensures all[k].pos < |q| && Chain(p, all[k].pos, all[k].v, j, rest)
    {
      if k < |labels| {
        assert all[k] == labels[k];
      }
    }
  }

  lemma {:induction false} StartSoFar(buf: array<Byte>, start: nat, name: seq<Byte>, before: seq<Entry>)
    requires start <= buf.Length && 0 !in name && TableOk(before, buf[..start])
    ensures SoFar(buf, buf[..start], start, name, start, name, before, before)
  {
  }

  /** One label that a dot ends. */
  method PutDottedLabel(buf: array<Byte>, ghost p0: seq<Byte>, ghost start: nat, ghost name: seq<Byte>, j: nat, rest: seq<Byte>,
      ghost before: seq<Entry>, ghost labels: seq<Entry>, ghost more: seq<Entry>)
    requires SoFar(buf, p0, start, name, j, rest, before, labels) && (more == [] || more == [Entry(rest, j)])
    requires FirstLabel(rest) < |rest| && FirstLabel(rest) <= MAX_LABEL && j + 1 + FirstLabel(rest) <= buf.Length
    modifies buf
    ensures var n := FirstLabel(rest);
      && SoFar(buf, p0, start, name, j + 1 + n, rest[n + 1..], before, labels + more)
      && buf[j + 1 + n..] == old(buf[j + 1 + n..])
  {
    hide Chain, FirstLabel, TableOk;
    ghost var p := buf[..j];
    assert p[..start] == p0;
    var n := FirstLabel(rest);
    PutLabel(buf, j, rest[..n]);
    ghost var q := buf[..j + 1 + n];
    assert p == q[..j] && buf[..start] == p[..start] && q[j] == n && q[j + 1..j + 1 + n] == rest[..n];
    assert LabelAt(q, j, rest);
    ChainPush(p, q, start, name, j, rest);
    WaitingPush(labels, |before|, p, q, j, rest, more);
  }

  /** What is left to do will end as the whole was to end, for the message and for the table. */
  ghost predicate Promised(before: seq<Entry>, now: seq<Entry>, tabled: bool, j: nat, len: nat, rest: seq<Byte>,
      start: nat, name: seq<Byte>)
    requires j <= len && start <= len
  {
    && EncodedIn(before, j, len - j, rest) == EncodedIn(before, start, len - start, name)
    && (tabled ==> Taken(now, NewEntries(before, j, len, rest)) == Taken(before, NewEntries(before, start, len, name)))
  }

  /** How it ends: at a suffix that is known, or at a label that is too long or has no room. */
  lemma {:induction false} PromiseEnds(before: seq<Entry>, now: seq<Entry>, tabled: bool, j: nat, len: nat, rest: seq<Byte>,
      start: nat, name: seq<Byte>)
    requires j <= len && start <= len && |name| <= MAX_NAME && Promised(before, now, tabled, j, len, rest, start, name)
    requires Known(before, rest) || FirstLabel(rest) > MAX_LABEL || j + FirstLabel(rest) + 1 > len
    ensures Outcome(before, start, len, name) ==
      if Known(before, rest) then if j + 2 <= len then Encoded(j + 2) else NoRoom
      else if FirstLabel(rest) > MAX_LABEL then LabelTooLong else NoRoom
    ensures tabled ==> now == Remembered(before, start, len, name)
  {
    hide Known, FirstLabel, EncodedIn, NewEntries, Taken;
    TakenNone(before, now, j, len, rest);
    if Known(before, rest) {
      KnownEncoded(before, j, len - j, rest);
    } else if FirstLabel(rest) > MAX_LABEL {
      LongLabelEncoded(before, j, len - j, rest);
    } else {
      NoRoomEncoded(before, j, len - j, rest);
    }
  }

  /** And how it goes on, or ends with the last label. */
  lemma {:induction false} PromiseGoesOn(before: seq<Entry>, now: seq<Entry>, tabled: bool, j: nat, len: nat, rest: seq<Byte>,
      start: nat, name: seq<Byte>, more: seq<Entry>)
    requires j <= len && start <= len && |name| <= MAX_NAME && Promised(before, now, tabled, j, len, rest, start, name)
    requires !Known(before, rest) && FirstLabel(rest) <= MAX_LABEL && j + FirstLabel(rest) + 1 <= len
    requires tabled ==> more == if |now| == MAX_LABELS then [] else [Entry(rest, j)]
    ensures var n := FirstLabel(rest);
      n < |rest| ==> Promised(before, now + more, tabled, j + n + 1, len, rest[n + 1..], start, name)
    ensures FirstLabel(rest) == |rest| ==>
      && Outcome(before, start, len, name) ==
        (if rest == [] then Encoded(j + 1) else if j + 2 + |rest| <= len then Encoded(j + 2 + |rest|) else ZeroOverrun)
      && (tabled ==> now + more == Remembered(before, start, len, name))
  {
    hide Known, FirstLabel, EncodedIn, NewEntries, Taken;
    if tabled {
      TakenOne(before, now, j, len, rest, more);
    }
    if FirstLabel(rest) == |rest| {
      LastLabelEncoded(before, j, len - j, rest);
    } else {
      LabelOff(before, j, len - j, rest);
    }
  }

  /** dnsname_to_labels: writes `name` at offset `start`, as a pointer from where the table knows it.
      In a message that pointers can reach, the name then is there to be read, and so are all names
      in the table. What comes of it can be told beforehand, failures included. */
  method DnsNameToLabels(buf: array<Byte>, start: nat, name: seq<Byte>, table: LabelTable?) returns (r: Encoded)
    requires start <= buf.Length && 0 !in name && TableOk(EntriesOf(table), buf[..start])
    modifies buf, table
    ensures buf[..start] == old(buf[..start])
    ensures r.Encoded? ==> start < r.end <= buf.Length && buf[r.end..] == old(buf[r.end..])
    ensures r.Encoded? && r.end <= POINTER_RANGE ==> ReadsTo(buf[..r.end], start, name) && TableOk(EntriesOf(table), buf[..r.end])
    ensures r == Outcome(old(EntriesOf(table)), start, buf.Length, name)
    ensures table != null ==> table.labels == Remembered(old(table.labels), start, buf.Length, name)
  {
    hide SoFar, TableOk, ReadsTo, LabelsFit, FirstLabel, EntriesOf, Known, Promised, Outcome, Remembered;
    TableIs(table);
    TooLong(EntriesOf(table), start, buf.Length, name);
    if |name| > MAX_NAME {
      return NoRoom;
    }
    ghost var before, p0, was, tabled := EntriesOf(table), buf[..start], buf[..], table != null;
    var j: nat, rest := start, name;
    StartSoFar(buf, start, name, before);
    StartPromised(before, tabled, start, buf.Length, name);
    while true
      invariant SoFar(buf, p0, start, name, j, rest, before, EntriesOf(table))
      invariant j <= buf.Length == |was| && buf[j..] == was[j..]
      invariant Promised(before, EntriesOf(table), tabled, j, buf.Length, rest, start, name)
      decreases |rest|
    {
      ghost var now := buf[..];
      SoFarFacts(buf, p0, start, name, j, rest, before, EntriesOf(table));
      TableIs(table);
      var ref := Recall(table, rest);
      if ref >= 0 || FirstLabel(rest) > MAX_LABEL || j + FirstLabel(rest) + 1 > buf.Length {
        PromiseEnds(before, EntriesOf(table), tabled, j, buf.Length, rest, start, name);
      }
      if ref >= 0 {
        r := EndWithPointer(buf, p0, start, name, j, rest, before, EntriesOf(table), ref);
        TailOfTail(now, was, j, if r.Encoded? then r.end else j);
        return;
      }
      var n := FirstLabel(rest);
      if n > MAX_LABEL {
        return LabelTooLong;
      }
      if j + n + 1 > buf.Length {
        return NoRoom;
      }
      ghost var labels := EntriesOf(table);
      ghost var more := Remember(table, rest, j);
      TableIs(table);
      PromiseGoesOn(before, labels, tabled, j, buf.Length, rest, start, name, more);
      if n == |rest| {
        r := EndWithLabel(buf, p0, start, name, j, rest, before, labels, more);
        TailOfTail(now, was, j, if r.Encoded? then r.end else j);
        return;
      }
      TailOfTail(now, was, j, j + 1 + n);
      PutDottedLabel(buf, p0, start, name, j, rest, before, labels, more);
      j, rest := j + 1 + n, rest[n + 1..];
    }
  }

  lemma {:induction false} TooLong(entries: seq<Entry>, start: nat, len: nat, name: seq<Byte>)
    requires start <= len
    ensures |name| > MAX_NAME ==> Outcome(entries, start, len, name) == NoRoom && Remembered(entries, start, len, name) == entries
  {
  }

  lemma {:induction false} StartPromised(before: seq<Entry>, tabled: bool, start: nat, len: nat, name: seq<Byte>)
    requires start <= len
    ensures Promised(before, before, tabled, start, len, name, start, name)
  {
  }

  /** A name written twice in a row: the second time only a pointer is written. */
  method NameTwice(buf: array<Byte>, start: nat, name: seq<Byte>, table: LabelTable) returns (first: Encoded, second: Encoded)
    requires start <= buf.Length <= POINTER_RANGE && 0 !in name && TableOk(table.labels, buf[..start]) && |table.labels| < MAX_LABELS
    modifies buf, table
    ensures first == Outcome(old(table.labels), start, buf.Length, name)
    ensures first.Encoded? ==> second == if first.end + 2 <= buf.Length then Encoded(first.end + 2) else NoRoom
    ensures first.Encoded? && second.Encoded? ==>
      Readable(buf[..second.end], start, name) && Readable(buf[..second.end], first.end, name)
  {
    hide TableOk, Outcome, Remembered, Known, Readable, ReadUpTo, Whole;
    first := DnsNameToLabels(buf, start, name, table);
    second := NoRoom;
    if first.Encoded? {
      ghost var p := buf[..first.end];
      WrittenIsKnown(old(table.labels), start, buf.Length, name);
      SecondTime(table.labels, first.end, buf.Length, name, old(table.labels), start);
      second := DnsNameToLabels(buf, first.end, name, table);
      if second.Encoded? {
        assert buf[..first.end] == buf[..second.end][..first.end];
        ReadableLonger(p, buf[..second.end], start, name);
      }
    }
  }

  lemma {:induction false} SecondTime(entries: seq<Entry>, at: nat, len: nat, name: seq<Byte>, before: seq<Entry>, start: nat)
    requires start <= len && Outcome(before, start, len, name).Encoded? && at <= len && Known(entries, name)
    ensures Outcome(entries, at, len, name) == if at + 2 <= len then Encoded(at + 2) else NoRoom
  {
    hide Known, EncodedIn;
    KnownEncoded(entries, at, len - at, name);
  }
}
