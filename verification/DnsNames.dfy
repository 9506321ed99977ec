/** Names in DNS messages (section 4.1.4 of RFC 1035): the decoder of evdns. */
module DnsNames {
  import opened Bytes

  const DOT: Byte := 46

  /** The offset in a compression pointer. Any set bit of the top two makes a pointer. */
  function Target(high: Byte, low: Byte): (r: nat)
    ensures r < 0x4000
  {
    high % 64 * 256 + low
  }

  /** At offset `j` of packet `p` there is a name with the given labels, spread over pieces that are
      connected by `jumps` pointers. */
  ghost predicate Decodes(p: seq<Byte>, j: int, labels: seq<seq<Byte>>, jumps: nat)
    decreases |labels| + jumps
  {
    && 0 <= j < |p|
    && if p[j] == 0 then labels == [] && jumps == 0
       else if p[j] >= 64 then jumps > 0 && j + 1 < |p| && Decodes(p, Target(p[j], p[j + 1]), labels, jumps - 1)
       else
         && labels != [] && j + 1 + p[j] <= |p| && labels[0] == p[j + 1..j + 1 + p[j]]
         && Decodes(p, j + 1 + p[j], labels[1..], jumps)
  }

  /** There is no name at offset `j`. */
  ghost predicate NoName(p: seq<Byte>, j: int) {
    forall labels: seq<seq<Byte>>, jumps: nat :: !Decodes(p, j, labels, jumps)
  }

  /** Where the first piece of the name ends. */
  ghost function PieceEnd(p: seq<Byte>, j: int, labels: seq<seq<Byte>>, jumps: nat): (end: int)
    requires Decodes(p, j, labels, jumps)
    ensures j < end <= |p|
    decreases |labels|
  {
    if p[j] == 0 then j + 1
    else if p[j] >= 64 then j + 2
    else PieceEnd(p, j + 1 + p[j], labels[1..], jumps)
  }

  /** The labels with dots between them. */
  ghost function Join(labels: seq<seq<Byte>>): seq<Byte> {
    if labels == [] then []
    else if |labels| == 1 then labels[0]
    else labels[0] + [DOT] + Join(labels[1..])
  }

  /** There is at most one name at an offset. */
  lemma {:induction false} DecodesOnce(p: seq<Byte>, j: int, a: seq<seq<Byte>>, m: nat, b: seq<seq<Byte>>, n: nat)
    requires Decodes(p, j, a, m) && Decodes(p, j, b, n)
    ensures a == b && m == n
    decreases |a| + m
  {
    if p[j] == 0 {
    } else if p[j] >= 64 {
      DecodesOnce(p, Target(p[j], p[j + 1]), a, m - 1, b, n - 1);
    } else {
      DecodesOnce(p, j + 1 + p[j], a[1..], m, b[1..], n);
      assert a == [a[0]] + a[1..] && b == [b[0]] + b[1..];
    }
  }

  /** A name that ends does not come by a pointer twice; so there are no more jumps than bytes. */
  lemma {:induction false} JumpsAreFew(p: seq<Byte>, j: int, labels: seq<seq<Byte>>, jumps: nat)
    requires Decodes(p, j, labels, jumps)
    ensures jumps <= |p|
  {
    var s := Pointers(p, j, labels, jumps);
    assert Range(|p|) == s + (Range(|p|) - s);
  }

  ghost function Range(n: nat): (r: set<int>)
    ensures |r| == n && forall i :: i in r <==> 0 <= i < n
  {
    if n == 0 then {} else Range(n - 1) + {n - 1}
  }

  /** A name with at most so many jumps ends from `q`. */
  ghost predicate Ends(p: seq<Byte>, q: int, jumps: int) {
    exists l: seq<seq<Byte>>, n: nat :: n <= jumps && Decodes(p, q, l, n)
  }

  /** The offsets of the pointers that lead from `j` to the end of the name, all different. */
  lemma {:induction false} Pointers(p: seq<Byte>, j: int, labels: seq<seq<Byte>>, jumps: nat) returns (s: set<int>)
    requires Decodes(p, j, labels, jumps)
    ensures |s| == jumps && forall q <- s :: 0 <= q < |p|
    ensures forall q <- s :: Ends(p, q, jumps)
    decreases |labels| + jumps
  {
    if p[j] == 0 {
      s := {};
    } else if p[j] >= 64 {
      var t := Pointers(p, Target(p[j], p[j + 1]), labels, jumps - 1);
      if j in t {
        var l: seq<seq<Byte>>, n: nat :| n <= jumps - 1 && Decodes(p, j, l, n);
        DecodesOnce(p, j, l, n, labels, jumps);
      }
      s := t + {j};
      assert Ends(p, j, jumps);
      forall q | q in t
        ensures Ends(p, q, jumps)
      {
        assert Ends(p, q, jumps - 1);
      }
    } else {
      s := Pointers(p, j + 1 + p[j], labels[1..], jumps);
    }
  }

  // ---------- name_parse ----------

  /** What name_parse has read so far: `done` labels, and the rest of the name is at `j`. Once a
      pointer was followed, `nameEnd` is where the first piece ends. */
  ghost predicate Progress(p: seq<Byte>, start: int, j: int, done: seq<seq<Byte>>, jumped: nat, nameEnd: int) {
    && (forall l: seq<seq<Byte>>, n: nat :: Decodes(p, j, l, n) ==> Decodes(p, start, done + l, jumped + n))
    && (forall l: seq<seq<Byte>>, n: nat :: Decodes(p, start, l, n) ==>
          |done| <= |l| && done == l[..|done|] && jumped <= n && Decodes(p, j, l[|done|..], n - jumped))
    && (forall l: seq<seq<Byte>>, n: nat :: Decodes(p, start, l, n) ==>
          PieceEnd(p, start, l, n) == if nameEnd < 0 then PieceEnd(p, j, l[|done|..], n - jumped) else nameEnd)
  }

  lemma {:induction false} StartProgress(p: seq<Byte>, start: int)
    ensures Progress(p, start, start, [], 0, -1)
  {
    forall l: seq<seq<Byte>>, n: nat | Decodes(p, start, l, n)
      ensures Decodes(p, start, [] + l, 0 + n) && [] == l[..0] && Decodes(p, start, l[0..], n - 0)
      ensures PieceEnd(p, start, l, n) == PieceEnd(p, start, l[0..], n - 0)
    {
      assert [] + l == l && l[0..] == l;
    }
  }

  lemma {:induction false} PointerProgress(p: seq<Byte>, start: int, j: int, done: seq<seq<Byte>>, jumped: nat, nameEnd: int)
    requires Progress(p, start, j, done, jumped, nameEnd) && 0 <= j && j + 1 < |p| && p[j] >= 64
    ensures Progress(p, start, Target(p[j], p[j + 1]), done, jumped + 1, if nameEnd < 0 then j + 2 else nameEnd)
  {
    var t := Target(p[j], p[j + 1]);
    forall l: seq<seq<Byte>>, n: nat | Decodes(p, t, l, n)
      ensures Decodes(p, start, done + l, jumped + 1 + n)
    {
      assert Decodes(p, j, l, n + 1);
      assert jumped + (n + 1) == jumped + 1 + n;
    }
    forall l: seq<seq<Byte>>, n: nat | Decodes(p, start, l, n)
      ensures |done| <= |l| && done == l[..|done|] && jumped + 1 <= n && Decodes(p, t, l[|done|..], n - (jumped + 1))
      ensures PieceEnd(p, start, l, n) == if nameEnd < 0 then j + 2 else nameEnd
    {
      assert Decodes(p, j, l[|done|..], n - jumped);
    }
  }

  /** One label more, forwards ... */
  lemma {:induction false} LabelForward(p: seq<Byte>, start: int, j: int, done: seq<seq<Byte>>, jumped: nat, nameEnd: int,
                                        l: seq<seq<Byte>>, n: nat)
    requires Progress(p, start, j, done, jumped, nameEnd) && 0 <= j < |p| && 0 < p[j] < 64 && j + 1 + p[j] <= |p|
    requires Decodes(p, j + 1 + p[j], l, n)
    ensures Decodes(p, start, done + [p[j + 1..j + 1 + p[j]]] + l, jumped + n)
  {
    var piece := p[j + 1..j + 1 + p[j]];
    assert ([piece] + l)[1..] == l;
    assert Decodes(p, j, [piece] + l, n);
    hide Decodes;
    assert done + [piece] + l == done + ([piece] + l);
  }

  /** ... and backwards. */
  lemma {:induction false} LabelBack(p: seq<Byte>, start: int, j: int, done: seq<seq<Byte>>, jumped: nat, nameEnd: int,
                                     l: seq<seq<Byte>>, n: nat)
    requires Progress(p, start, j, done, jumped, nameEnd) && 0 <= j < |p| && 0 < p[j] < 64 && j + 1 + p[j] <= |p|
    requires Decodes(p, start, l, n)
    ensures var piece, t := p[j + 1..j + 1 + p[j]], j + 1 + p[j];
      && |done| + 1 <= |l| && done + [piece] == l[..|done| + 1] && jumped <= n && Decodes(p, t, l[|done| + 1..], n - jumped)
      && PieceEnd(p, start, l, n) == if nameEnd < 0 then PieceEnd(p, t, l[|done| + 1..], n - jumped) else nameEnd
  {
    var rest := l[|done|..];
    assert Decodes(p, j, rest, n - jumped);
    hide Progress;
    assert rest[1..] == l[|done| + 1..];
    assert l[..|done| + 1] == l[..|done|] + [l[|done|]];
  }

  lemma {:induction false} LabelProgress(p: seq<Byte>, start: int, j: int, done: seq<seq<Byte>>, jumped: nat, nameEnd: int)
    requires Progress(p, start, j, done, jumped, nameEnd) && 0 <= j < |p| && 0 < p[j] < 64 && j + 1 + p[j] <= |p|
    ensures Progress(p, start, j + 1 + p[j], done + [p[j + 1..j + 1 + p[j]]], jumped, nameEnd)
  {
    hide Decodes, PieceEnd;
    var t, next := j + 1 + p[j], done + [p[j + 1..j + 1 + p[j]]];
    forall l: seq<seq<Byte>>, n: nat | Decodes(p, t, l, n)
      ensures Decodes(p, start, next + l, jumped + n)
    {
      LabelForward(p, start, j, done, jumped, nameEnd, l, n);
    }
    forall l: seq<seq<Byte>>, n: nat | Decodes(p, start, l, n)
      ensures |next| <= |l| && next == l[..|next|] && jumped <= n && Decodes(p, t, l[|next|..], n - jumped)
      ensures PieceEnd(p, start, l, n) == if nameEnd < 0 then PieceEnd(p, t, l[|next|..], n - jumped) else nameEnd
    {
      LabelBack(p, start, j, done, jumped, nameEnd, l, n);
    }
  }

  lemma {:induction false} JoinPush(labels: seq<seq<Byte>>, last: seq<Byte>)
    ensures Join(labels + [last]) == if labels == [] then last else Join(labels) + [DOT] + last
  {
    if |labels| > 1 {
      JoinPush(labels[1..], last);
      assert (labels + [last])[1..] == labels[1..] + [last];
      assert labels[0] + [DOT] + (Join(labels[1..]) + [DOT] + last) == labels[0] + [DOT] + Join(labels[1..]) + [DOT] + last;
    } else if |labels| == 1 {
      assert (labels + [last])[1..] == [last];
    }
  }

  lemma {:induction false} JoinGrows(labels: seq<seq<Byte>>, k: nat)
    requires k <= |labels|
    ensures |Join(labels[..k])| <= |Join(labels)|
    decreases |labels| - k
  {
    if k < |labels| {
      JoinGrows(labels, k + 1);
      assert labels[..k + 1] == labels[..k] + [labels[k]];
      JoinPush(labels[..k], labels[k]);
    } else {
      assert labels[..k] == labels;
    }
  }

  /** Some name at `start` fits `room` bytes, with the final zero. */
  ghost predicate Fits(p: seq<Byte>, start: int, room: nat) {
    exists l: seq<seq<Byte>>, n: nat :: Decodes(p, start, l, n) && |Join(l)| < room
  }

  lemma {:induction false} NothingThere(p: seq<Byte>, start: int, j: int, done: seq<seq<Byte>>, jumped: nat, nameEnd: int,
      room: nat)
    requires Progress(p, start, j, done, jumped, nameEnd) && NoName(p, j)
    ensures !Fits(p, start, room)
  {
  }

  lemma {:induction false} TooManyJumps(p: seq<Byte>, start: int, j: int, done: seq<seq<Byte>>, jumped: nat, nameEnd: int,
      room: nat)
    requires Progress(p, start, j, done, jumped, nameEnd) && jumped > |p|
    ensures !Fits(p, start, room)
  {
    forall l: seq<seq<Byte>>, n: nat | Decodes(p, start, l, n)
      ensures n <= |p|
    {
      JumpsAreFew(p, start, l, n);
    }
    assert forall l: seq<seq<Byte>>, n: nat :: Decodes(p, start, l, n) ==> jumped <= n;
  }

  lemma {:induction false} TooLong(p: seq<Byte>, start: int, j: int, done: seq<seq<Byte>>, jumped: nat, nameEnd: int,
      room: nat)
    requires Progress(p, start, j, done, jumped, nameEnd) && |Join(done)| >= room
    ensures !Fits(p, start, room)
  {
    forall l: seq<seq<Byte>>, n: nat | Decodes(p, start, l, n)
      ensures |Join(l)| >= room
    {
      JoinGrows(l, |done|);
    }
  }

  /** The label branch of name_parse: appends a dot, if need be, and the label to the text. */
  method AppendLabel(packet: seq<Byte>, j: nat, len: nat, nameOut: array<Byte>, cp: nat, ghost labels: seq<seq<Byte>>)
      returns (ok: bool, cp': nat)
    requires 0 < len && cp <= nameOut.Length && nameOut[..cp] == Join(labels) && (labels != [] <==> cp > 0)
    modifies nameOut
    ensures ok ==> j + len <= |packet| && cp' <= nameOut.Length
    ensures ok ==> cp' > 0 && nameOut[..cp'] == Join(labels + [packet[j..j + len]])
    ensures !ok && j + len <= |packet| ==> |Join(labels + [packet[j..j + len]])| >= nameOut.Length
  {
    cp' := cp;
    if j + len <= |packet| {
      JoinPush(labels, packet[j..j + len]);
    }
    if cp' != 0 {
      if cp' + 1 >= nameOut.Length {
        return false, cp';
      }
      nameOut[cp'] := DOT;
      cp' := cp' + 1;
    }
    if cp' + len >= nameOut.Length {
      return false, cp';
    }
    if j + len > |packet| {
      return false, cp';
    }
    ghost var before := nameOut[..cp'];
    forall i | 0 <= i < len {
      nameOut[cp' + i] := packet[j + i];
    }
    assert nameOut[..cp' + len] == before + packet[j..j + len];
    ok, cp' := true, cp' + len;
  }

  /** The pointer branch of name_parse, without the count of jumps. */
  method ReadPointer(packet: seq<Byte>, j: nat) returns (ok: bool, target: nat)
    requires 0 < j <= |packet| && packet[j - 1] >= 64
    ensures ok ==> j < |packet| && target == Target(packet[j - 1], packet[j]) < |packet|
    ensures !ok ==> NoName(packet, j - 1)
  {
    target := 0;
    if j >= |packet| {
      return false, 0;
    }
    target := Target(packet[j - 1], packet[j]);
    ok := target < |packet|;
    if !ok {
      ghost var at := j - 1;
      forall l: seq<seq<Byte>>, n: nat
        ensures !Decodes(packet, at, l, n)
      {
        assert n > 0 ==> !Decodes(packet, target, l, n - 1);
      }
    }
  }

  /** name_parse. It succeeds iff there is a name at `idx` that fits the room for it, and then moves
      the index behind the first piece of the name; on failure the index stays. */
  method NameParse(packet: seq<Byte>, idx: nat, nameOut: array<Byte>)
      returns (ok: bool, idx': nat, ghost labels: seq<seq<Byte>>, ghost jumps: nat)
    modifies nameOut
    ensures ok <==> Fits(packet, idx, nameOut.Length)
    ensures ok ==> Decodes(packet, idx, labels, jumps) && idx' == PieceEnd(packet, idx, labels, jumps)
    ensures ok ==> |Join(labels)| < nameOut.Length && nameOut[..|Join(labels)|] == Join(labels) && nameOut[|Join(labels)|] == 0
    ensures !ok ==> idx' == idx
  {
    hide Progress, Join, Fits;
    var nameEnd, j: nat, ptrCount: nat, cp: nat := -1, idx, 0, 0;
    ok, idx', labels, jumps := false, idx, [], 0;
    StartProgress(packet, idx);
    JoinOfNone();
    while j < |packet| && packet[j] != 0
      invariant Progress(packet, idx, j, labels, ptrCount, nameEnd) && ptrCount <= |packet|
      invariant cp == |Join(labels)| <= nameOut.Length && nameOut[..cp] == Join(labels)
      invariant labels != [] <==> cp > 0
      decreases |packet| - ptrCount, |packet| - j
    {
      var labelLen := packet[j];
      j := j + 1;
      if labelLen >= 64 {
        var inBounds, target := ReadPointer(packet, j);
        if !inBounds {
          NothingThere(packet, idx, j - 1, labels, ptrCount, nameEnd, nameOut.Length);
          return;
        }
        PointerProgress(packet, idx, j - 1, labels, ptrCount, nameEnd);
        nameEnd := if nameEnd < 0 then j + 1 else nameEnd;
        j, ptrCount := target, ptrCount + 1;
        if ptrCount > |packet| {
          TooManyJumps(packet, idx, j, labels, ptrCount, nameEnd, nameOut.Length);
          return;
        }
      } else {
        var fits;
        fits, cp := AppendLabel(packet, j, labelLen, nameOut, cp, labels);
        if !fits && j + labelLen > |packet| {
          NothingThere(packet, idx, j - 1, labels, ptrCount, nameEnd, nameOut.Length);
          return;
        }
        LabelProgress(packet, idx, j - 1, labels, ptrCount, nameEnd);
        labels := labels + [packet[j..j + labelLen]];
        j := j + labelLen;
        if !fits {
          TooLong(packet, idx, j, labels, ptrCount, nameEnd, nameOut.Length);
          return;
        }
      }
    }
    if j >= |packet| {
      NothingThere(packet, idx, j, labels, ptrCount, nameEnd, nameOut.Length);
      return;
    }
    if cp >= nameOut.Length {
      TooLong(packet, idx, j, labels, ptrCount, nameEnd, nameOut.Length);
      return;
    }
    nameOut[cp] := 0;
    Complete(packet, idx, j, labels, ptrCount, nameEnd, nameOut.Length);
    ok, jumps := true, ptrCount;
    idx' := if nameEnd < 0 then j + 1 else nameEnd;
  }

  lemma JoinOfNone()
    ensures Join([]) == []
  {
  }

  lemma {:induction false} Complete(p: seq<Byte>, start: int, j: int, done: seq<seq<Byte>>, jumped: nat, nameEnd: int, room: nat)
    requires Progress(p, start, j, done, jumped, nameEnd) && 0 <= j < |p| && p[j] == 0 && |Join(done)| < room
    ensures Decodes(p, start, done, jumped) && Fits(p, start, room)
    ensures PieceEnd(p, start, done, jumped) == if nameEnd < 0 then j + 1 else nameEnd
  {
    assert Decodes(p, j, [], 0);
    assert done + [] == done && jumped + 0 == jumped;
    assert done[|done|..] == [];
  }
}
