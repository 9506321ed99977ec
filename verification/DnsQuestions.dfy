/** The questions of DNS messages: many names written with one compression table, and read back. */
module DnsQuestions {
  import opened Bytes
  import opened DnsNames
  import opened DnsText
  import opened DnsLabels

  /** What name_parse makes of a written name, with `room` bytes for the text: the name up to its first
      empty label, if it fits. In particular the name itself if it has no empty label. */
  lemma {:induction false} RoundTrip(p: seq<Byte>, j: nat, name: seq<Byte>, room: nat)
    requires Readable(p, j, name)
    ensures Fits(p, j, room) <==> |Join(Labels(name))| < room
    ensures forall l: seq<seq<Byte>>, n: nat :: Decodes(p, j, l, n) ==> Join(l) == Join(Labels(name))
    ensures !HasEmptyLabel(name) ==> Join(Labels(name)) == name
  {
    var m: nat :| Decodes(p, j, Labels(name), m);
    forall l: seq<seq<Byte>>, n: nat | Decodes(p, j, l, n)
      ensures l == Labels(name)
    {
      DecodesOnce(p, j, l, n, Labels(name), m);
    }
    if !HasEmptyLabel(name) {
      JoinLabels(name);
    }
  }

  datatype Question = Question(name: seq<Byte>, qtype: nat, qclass: nat)

  /** APPEND16 */
  method Append16(buf: array<Byte>, j: nat, x: nat) returns (ok: bool)
    modifies buf
    ensures ok <==> j + 2 <= buf.Length
    ensures ok ==> buf[..j] == old(buf[..j]) && buf[j] == x / 256 % 256 && buf[j + 1] == x % 256
    ensures !ok ==> buf[..] == old(buf[..])
  {
    ok := j + 2 <= buf.Length;
    if ok {
      buf[j] := x / 256 % 256;
      buf[j + 1] := x % 256;
    }
  }

  /** A 16-bit number, the high byte first. */
  function Word(p: seq<Byte>, j: nat): nat
    requires j + 2 <= |p|
  {
    var high: int := p[j];
    high * 256 + p[j + 1]
  }

  /** The question `q` is written at `j`, and the next one follows at `next`: its name can be read, and
      if it is a whole one then type and class are where the reader goes on. */
  ghost predicate Written(p: seq<Byte>, j: nat, next: nat, q: Question) {
    && 4 <= next <= |p|
    && Readable(p, j, q.name) && (Whole(q.name) ==> ReadUpTo(p, j, q.name, next - 4))
    && Word(p, next - 4) == q.qtype % 0x1_0000 && Word(p, next - 2) == q.qclass % 0x1_0000
  }

  /** The questions follow one another at `offsets`, the end included. */
  ghost predicate AllWritten(p: seq<Byte>, offsets: seq<nat>, questions: seq<Question>) {
    && 1 <= |offsets| <= |questions| + 1
    && forall i :: 0 <= i < |offsets| - 1 ==> Written(p, offsets[i], offsets[i + 1], questions[i])
  }

  lemma {:induction false} WrittenLonger(p: seq<Byte>, r: seq<Byte>, j: nat, next: nat, q: Question)
    requires p <= r && Written(p, j, next, q)
    ensures Written(r, j, next, q)
  {
    ReadableLonger(p, r, j, q.name);
    if Whole(q.name) {
      ReadUpToLonger(p, r, j, q.name, next - 4);
    }
    hide Readable, ReadUpTo, Whole;
  }

  lemma {:induction false} ReadUpToLonger(p: seq<Byte>, r: seq<Byte>, j: nat, name: seq<Byte>, end: nat)
    requires p <= r && ReadUpTo(p, j, name, end)
    ensures ReadUpTo(r, j, name, end)
  {
    var m: nat :| Decodes(p, j, Labels(name), m) && PieceEnd(p, j, Labels(name), m) == end;
    DecodesLonger(p, r, j, Labels(name), m);
  }

  lemma {:induction false} AllLonger(p: seq<Byte>, r: seq<Byte>, offsets: seq<nat>, questions: seq<Question>)
    requires p <= r && AllWritten(p, offsets, questions)
    ensures AllWritten(r, offsets, questions)
  {
    hide Written;
    forall i | 0 <= i < |offsets| - 1
      ensures Written(r, offsets[i], offsets[i + 1], questions[i])
    {
      WrittenLonger(p, r, offsets[i], offsets[i + 1], questions[i]);
    }
  }

  /** Room for the longest form of all questions. */
  ghost function Room(questions: seq<Question>): nat {
    if questions == [] then 0 else |questions[0].name| + 6 + Room(questions[1..])
  }

  /** All names and labels have a size that can be encoded. */
  ghost predicate NamesFit(questions: seq<Question>) {
    forall q <- questions :: |q.name| <= MAX_NAME && LabelsFit(q.name)
  }

  /** One question: its name, type and class. */
  method WriteQuestion(buf: array<Byte>, j: nat, q: Question, table: LabelTable) returns (r: Encoded)
    requires j <= buf.Length <= POINTER_RANGE && TableOk(table.labels, buf[..j]) && 0 !in q.name
    modifies buf, table
    ensures buf[..j] == old(buf[..j])
    ensures r.Encoded? ==> j < r.end <= buf.Length && TableOk(table.labels, buf[..r.end]) && Written(buf[..r.end], j, r.end, q)
    ensures |q.name| <= MAX_NAME && LabelsFit(q.name) && j + |q.name| + 6 <= buf.Length ==>
      r.Encoded? && r.end <= j + |q.name| + 6
  {
    hide TableOk, Readable, ReadUpTo, Whole, LabelsFit, Outcome;
    if |q.name| <= MAX_NAME && j + |q.name| + 2 <= buf.Length {
      RoomSuffices(table.labels, j, buf.Length, q.name);
    }
    r := DnsNameToLabels(buf, j, q.name, table);
    if !r.Encoded? {
      return;
    }
    var end := r.end;
    ghost var named := buf[..end];
    assert named[..j] == buf[..j];
    var ok := Append16(buf, end, q.qtype);
    if ok {
      ok := Append16(buf, end + 2, q.qclass);
    }
    if !ok {
      assert buf[..j] == buf[..end][..j];
      return NoRoom;
    }
    r := Encoded(end + 4);
    ghost var all := buf[..end + 4];
    assert buf[..end] == buf[..end + 2][..end] == named == all[..end] && buf[..j] == named[..j];
    TableLonger(table.labels, named, all);
    NamedIsWritten(named, all, j, q);
  }

  lemma {:induction false} RoomSuffices(entries: seq<Entry>, j: nat, len: nat, name: seq<Byte>)
    requires |name| <= MAX_NAME && j + |name| + 2 <= len
    ensures LabelsFit(name) ==> Outcome(entries, j, len, name).Encoded? && Outcome(entries, j, len, name).end <= j + |name| + 2
  {
    if LabelsFit(name) {
      EncodedWithRoom(entries, j, len, name);
    }
  }

  lemma {:induction false} NamedIsWritten(named: seq<Byte>, all: seq<Byte>, j: nat, q: Question)
    requires ReadsTo(named, j, q.name) && named <= all && |all| == |named| + 4
    requires all[|named|] == q.qtype / 256 % 256 && all[|named| + 1] == q.qtype % 256
    requires all[|named| + 2] == q.qclass / 256 % 256 && all[|named| + 3] == q.qclass % 256
    ensures Written(all, j, |all|, q)
  {
    ReadableLonger(named, all, j, q.name);
    if Whole(q.name) {
      ReadUpToLonger(named, all, j, q.name, |named|);
    }
    hide Readable, ReadUpTo, Whole;
    TwoBytes(q.qtype);
    TwoBytes(q.qclass);
  }

  lemma TwoBytes(x: nat)
    ensures x / 256 % 256 * 256 + x % 256 == x % 0x1_0000
  {
  }

  /** The questions of a response, written one after the other with one compression table: every one of
      them can be read where it starts, also after all the others were written. */
  method WriteQuestions(buf: array<Byte>, start: nat, questions: seq<Question>, table: LabelTable)
      returns (r: Encoded, ghost offsets: seq<nat>)
    requires start <= buf.Length <= POINTER_RANGE && TableOk(table.labels, buf[..start])
    requires forall q <- questions :: 0 !in q.name
    modifies buf, table
    ensures buf[..start] == old(buf[..start])
    ensures r.Encoded? ==> start <= r.end <= buf.Length && TableOk(table.labels, buf[..r.end])
    ensures r.Encoded? ==>
      |offsets| == |questions| + 1 && offsets[0] == start && offsets[|questions|] == r.end
      && AllWritten(buf[..r.end], offsets, questions)
    ensures NamesFit(questions) && start + Room(questions) <= buf.Length ==> r.Encoded?
  {
    hide TableOk, Written, LabelsFit, AllWritten;
    var j := start;
    offsets := [start];
    NoneWritten(buf[..start], offsets, questions);
    assert questions[0..] == questions;
    for i := 0 to |questions|
      invariant start <= j <= buf.Length && |offsets| == i + 1 && offsets[0] == start && offsets[i] == j
      invariant buf[..start] == old(buf[..start])
      invariant TableOk(table.labels, buf[..j]) && AllWritten(buf[..j], offsets, questions)
      invariant NamesFit(questions) && start + Room(questions) <= buf.Length ==> j + Room(questions[i..]) <= buf.Length
    {
      ghost var before := buf[..j];
      assert questions[i] in questions && before[..start] == buf[..start];
      assert questions[i..][0] == questions[i] && questions[i..][1..] == questions[i + 1..];
      r := WriteQuestion(buf, j, questions[i], table);
      assert before == buf[..j] && buf[..start] == before[..start];
      if !r.Encoded? {
        return r, offsets;
      }
      assert before == buf[..r.end][..j];
      OneMoreWritten(before, buf[..r.end], offsets, questions, i, j);
      offsets := offsets + [r.end];
      j := r.end;
    }
    r := Encoded(j);
  }

  lemma {:induction false} NoneWritten(p: seq<Byte>, offsets: seq<nat>, questions: seq<Question>)
    requires |offsets| == 1
    ensures AllWritten(p, offsets, questions)
  {
  }

  lemma {:induction false} OneMoreWritten(p: seq<Byte>, r: seq<Byte>, offsets: seq<nat>, questions: seq<Question>, i: nat, j: nat)
    requires p <= r && AllWritten(p, offsets, questions) && |offsets| == i + 1 <= |questions| && offsets[i] == j
    requires Written(r, j, |r|, questions[i])
    ensures AllWritten(r, offsets + [|r|], questions)
  {
    hide Written;
    AllLonger(p, r, offsets, questions);
    var more := offsets + [|r|];
    forall k | 0 <= k < |more| - 1
      ensures Written(r, more[k], more[k + 1], questions[k])
    {
      if k < i {
        assert more[k] == offsets[k] && more[k + 1] == offsets[k + 1];
      }
    }
  }

  // ---------- reading them ----------

  /** strlen of a text that ends with a zero */
  method Strlen(text: array<Byte>) returns (n: nat)
    requires exists i :: 0 <= i < text.Length && text[i] == 0
    ensures n < text.Length && text[n] == 0 && 0 !in text[..n]
  {
    n := 0;
    while text[n] != 0
      invariant n < text.Length && 0 !in text[..n]
      invariant exists i :: n <= i < text.Length && text[i] == 0
      decreases text.Length - n
    {
      n := n + 1;
    }
  }

  /** What request_parse makes of a question as it was written: a final dot is lost. */
  function AsRead(q: Question): Question {
    Question(Undotted(q.name), q.qtype % 0x1_0000, q.qclass % 0x1_0000)
  }

  /** The loop over the questions in request_parse. Questions with whole names that were written one
      after the other are read as they were written. */
  method ReadQuestions(packet: seq<Byte>, idx: nat, count: nat, ghost sent: seq<Question>, ghost offsets: seq<nat>)
      returns (ok: bool, questions: seq<Question>, end: nat)
    ensures ok ==> |questions| == count && idx <= end && (count > 0 ==> end <= |packet|)
    ensures
      |sent| == count && |offsets| == count + 1 && offsets[0] == idx && AllWritten(packet, offsets, sent)
      && (forall q <- sent :: Whole(q.name) && |q.name| <= MAX_NAME && 0 !in q.name) ==>
        ok && end == offsets[count] && |questions| == count && forall i :: 0 <= i < count ==> questions[i] == AsRead(sent[i])
  {
    hide Written, Whole, Undotted;
    ghost var good := |sent| == count && |offsets| == count + 1 && offsets[0] == idx && AllWritten(packet, offsets, sent)
      && forall q <- sent :: Whole(q.name) && |q.name| <= MAX_NAME && 0 !in q.name;
    questions, end := [], idx;
    for i := 0 to count
      invariant |questions| == i && idx <= end && (i > 0 ==> end <= |packet|)
      invariant good ==> end == offsets[i] && forall k :: 0 <= k < i ==> questions[k] == AsRead(sent[k])
    {
      ghost var q, next := if good then sent[i] else Question([], 0, 0), if good then offsets[i + 1] else 0;
      assert good ==> q in sent && Written(packet, offsets[i], offsets[i + 1], sent[i]);
      var question;
      ok, question, end := ReadQuestion(packet, end, q, next);
      if !ok {
        return;
      }
      questions := questions + [question];
    }
    ok := true;
  }

  /** One round of it. */
  method ReadQuestion(packet: seq<Byte>, idx: nat, ghost q: Question, ghost next: nat)
      returns (ok: bool, question: Question, end: nat)
    ensures ok ==> idx <= end <= |packet|
    ensures Written(packet, idx, next, q) && Whole(q.name) && |q.name| <= MAX_NAME && 0 !in q.name ==>
      ok && end == next && question == AsRead(q)
  {
    hide Readable, Whole, Fits, Decodes, PieceEnd, Join, Labels, Undotted;
    var tmpName := new Byte[256];
    ghost var labels, jumps;
    ghost var good := Written(packet, idx, next, q) && Whole(q.name) && |q.name| <= MAX_NAME && 0 !in q.name;
    if good {
      NameIsRead(packet, idx, q.name, next - 4);
    }
    question := Question([], 0, 0);
    ok, end, labels, jumps := NameParse(packet, idx, tmpName);
    if good && ok {
      NameIsOnce(packet, idx, q.name, next - 4, labels, jumps);
    }
    if !ok || end + 4 > |packet| {
      return false, question, end;
    }
    ghost var name := Join(labels);
    var n := Strlen(tmpName);
    question := Question(tmpName[..n], Word(packet, end), Word(packet, end + 2));
    if good {
      SameStrlen(tmpName[..], tmpName[..n], name);
    }
    end := end + 4;
  }

  /** The text before the first zero is determined by the bytes. */
  lemma SameStrlen(text: seq<Byte>, a: seq<Byte>, b: seq<Byte>)
    requires a + [0] <= text && b + [0] <= text && 0 !in a && 0 !in b
    ensures a == b
  {
    assert text[|a|] == (a + [0])[|a|] && text[|b|] == (b + [0])[|b|];
    forall i | 0 <= i < |a|
      ensures text[i] == a[i] != 0
    {
      assert text[i] == (a + [0])[i] && a[i] in a;
    }
    forall i | 0 <= i < |b|
      ensures text[i] == b[i] != 0
    {
      assert text[i] == (b + [0])[i] && b[i] in b;
    }
    assert |a| == |b|;
  }

  lemma {:induction false} NameIsRead(p: seq<Byte>, j: nat, name: seq<Byte>, end: nat)
    requires ReadUpTo(p, j, name, end) && Whole(name) && |name| <= MAX_NAME
    ensures Fits(p, j, 256)
  {
    JoinWhole(name);
  }

  lemma {:induction false} NameIsOnce(p: seq<Byte>, j: nat, name: seq<Byte>, end: nat, labels: seq<seq<Byte>>, jumps: nat)
    requires ReadUpTo(p, j, name, end) && Whole(name) && 0 !in name && Decodes(p, j, labels, jumps)
    ensures Join(labels) == Undotted(name) && PieceEnd(p, j, labels, jumps) == end && 0 !in Join(labels)
  {
    JoinWhole(name);
    var m: nat :| Decodes(p, j, Labels(name), m) && PieceEnd(p, j, Labels(name), m) == end;
    DecodesOnce(p, j, labels, jumps, Labels(name), m);
  }
}
