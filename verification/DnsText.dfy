/** Names with dots, the labels they are encoded as, and what comes of encoding one. */
module DnsText {
  import opened Bytes
  import opened DnsNames

  /** The limits of section 2.3.4 of RFC 1035. */
  const MAX_LABEL: nat := 63
  const MAX_NAME: nat := 255
  /** What a compression table can hold. */
  const MAX_LABELS: nat := 128

  /** strchr(name, '.'): the length of the first label. */
  function FirstLabel(name: seq<Byte>): (n: nat)
    ensures n <= |name| && (n < |name| ==> name[n] == DOT) && forall i :: 0 <= i < n ==> name[i] != DOT
  {
    if name == [] || name[0] == DOT then 0 else 1 + FirstLabel(name[1..])
  }

  /** The labels that a name is encoded as: an empty label ends it. */
  ghost function Labels(name: seq<Byte>): seq<seq<Byte>> {
    var n := FirstLabel(name);
    if n == 0 then []
    else if n == |name| then [name]
    else [name[..n]] + Labels(name[n + 1..])
  }

  /** Nothing stands at `i` between two dots, or before the first, or behind the last. */
  ghost predicate EmptyAt(name: seq<Byte>, i: int) {
    0 <= i <= |name| && (i == 0 || name[i - 1] == DOT) && (i == |name| || name[i] == DOT)
  }

  ghost predicate HasEmptyLabel(name: seq<Byte>) {
    exists i :: EmptyAt(name, i)
  }

  /** Nothing stands behind an empty label: there is none, or only behind a final dot. */
  ghost predicate Whole(name: seq<Byte>) {
    forall i :: EmptyAt(name, i) ==> i == |name|
  }

  lemma {:induction false} WholeBehind(name: seq<Byte>)
    requires 0 < FirstLabel(name) < |name|
    ensures Whole(name) <==> Whole(name[FirstLabel(name) + 1..])
  {
    var n := FirstLabel(name);
    var rest := name[n + 1..];
    if Whole(name) {
      forall i | EmptyAt(rest, i)
        ensures i == |rest|
      {
        assert EmptyAt(name, i + n + 1);
      }
    }
    if Whole(rest) {
      forall i | EmptyAt(name, i)
        ensures i == |name|
      {
        assert i > n && EmptyAt(rest, i - n - 1);
      }
    }
  }

  lemma {:induction false} WholeStarts(name: seq<Byte>)
    requires FirstLabel(name) == 0 && Whole(name)
    ensures name == []
  {
    assert EmptyAt(name, 0);
  }

  /** Empty labels of a name behind its first label are those of the rest. */
  lemma {:induction false} EmptyBehind(name: seq<Byte>)
    requires 0 < FirstLabel(name) < |name|
    ensures HasEmptyLabel(name) <==> HasEmptyLabel(name[FirstLabel(name) + 1..])
  {
    var n := FirstLabel(name);
    var rest := name[n + 1..];
    if HasEmptyLabel(rest) {
      var i :| EmptyAt(rest, i);
      assert EmptyAt(name, i + n + 1);
    }
    if HasEmptyLabel(name) {
      var i :| EmptyAt(name, i);
      assert i > n;
      assert EmptyAt(rest, i - n - 1);
    }
  }

  lemma {:induction false} EmptyFirst(name: seq<Byte>)
    requires FirstLabel(name) == 0
    ensures HasEmptyLabel(name)
  {
    assert EmptyAt(name, 0);
  }

  lemma {:induction false} NoDots(name: seq<Byte>)
    requires 0 < FirstLabel(name) == |name|
    ensures !HasEmptyLabel(name)
  {
  }

  /** A name without empty labels is the join of its labels. */
  lemma {:induction false} JoinLabels(name: seq<Byte>)
    requires !HasEmptyLabel(name)
    ensures Join(Labels(name)) == name && Labels(name) != []
  {
    hide HasEmptyLabel;
    var n := FirstLabel(name);
    if n == 0 {
      EmptyFirst(name);
    } else if n < |name| {
      var rest := name[n + 1..];
      EmptyBehind(name);
      JoinLabels(rest);
      assert Labels(name)[1..] == Labels(rest);
      assert name == name[..n] + [DOT] + rest;
    }
  }

  /** And only such a name is, but for the empty one. */
  lemma {:induction false} JoinLabelsOnly(name: seq<Byte>)
    requires HasEmptyLabel(name) && name != []
    ensures |Join(Labels(name))| < |name|
  {
    hide HasEmptyLabel;
    var n := FirstLabel(name);
    if n == |name| {
      NoDots(name);
    } else if n > 0 {
      var rest := name[n + 1..];
      EmptyBehind(name);
      assert Labels(name) == [name[..n]] + Labels(rest) && Labels(name)[1..] == Labels(rest);
      if rest != [] {
        JoinLabelsOnly(rest);
      }
    }
  }

  /** So an encoded name is read back as it was iff it is empty or has no empty label. */
  lemma {:induction false} ReadsBack(name: seq<Byte>)
    ensures Join(Labels(name)) == name <==> name == [] || !HasEmptyLabel(name)
  {
    if name != [] {
      if HasEmptyLabel(name) {
        JoinLabelsOnly(name);
      } else {
        JoinLabels(name);
      }
    }
  }

  function Undotted(name: seq<Byte>): seq<Byte> {
    if name != [] && name[|name| - 1] == DOT then name[..|name| - 1] else name
  }

  /** Of a whole name only a final dot is lost. */
  lemma {:induction false} JoinWhole(name: seq<Byte>)
    requires Whole(name)
    ensures Join(Labels(name)) == Undotted(name) && (name != [] ==> Labels(name) != [])
  {
    hide Whole, Undotted, Labels, Join, FirstLabel;
    var n := FirstLabel(name);
    JoinEmpty();
    if n == 0 {
      WholeStarts(name);
    } else if n == |name| {
      LastLabelUndotted(name);
    } else {
      var rest := name[n + 1..];
      WholeBehind(name);
      JoinWhole(rest);
      JoinFirst(name);
      DotBehind(name[..n], rest);
      assert name == (name[..n] + [DOT]) + rest;
    }
  }

  lemma {:induction false} JoinEmpty()
    ensures Labels([]) == [] && Join([]) == [] == Undotted([])
  {
  }

  lemma {:induction false} DotBehind(first: seq<Byte>, rest: seq<Byte>)
    ensures Undotted((first + [DOT]) + rest) == if rest == [] then first else (first + [DOT]) + Undotted(rest)
  {
  }

  lemma {:induction false} LastLabelUndotted(name: seq<Byte>)
    requires 0 < FirstLabel(name) == |name|
    ensures Undotted(name) == name == Join(Labels(name)) && Labels(name) != []
  {
  }

  lemma {:induction false} JoinFirst(name: seq<Byte>)
    requires 0 < FirstLabel(name) < |name|
    ensures var n := FirstLabel(name);
      var more := Labels(name[n + 1..]);
      Labels(name) != [] && Join(Labels(name)) == if more == [] then name[..n] else name[..n] + [DOT] + Join(more)
  {
    var n := FirstLabel(name);
    assert Labels(name) == [name[..n]] + Labels(name[n + 1..]) && Labels(name)[1..] == Labels(name[n + 1..]);
  }

  /** Every label between dots has at most 63 bytes. */
  ghost predicate LabelsFit(name: seq<Byte>) {
    var n := FirstLabel(name);
    n <= MAX_LABEL && (n < |name| ==> LabelsFit(name[n + 1..]))
  }

  // ---------- what comes of encoding a name ----------

  /** What the compression table knows: a name and where it was written. */
  datatype Entry = Entry(v: seq<Byte>, pos: nat)

  /** The end of the name, or the reason why it cannot be written. The original checks that labels
      fit the buffer, but not that the final zero does. */
  datatype Encoded = Encoded(end: nat) | LabelTooLong | NoRoom | ZeroOverrun

  ghost predicate Known(entries: seq<Entry>, name: seq<Byte>) {
    exists e <- entries :: e.v == name
  }

  /** Where the first suffix behind a dot that the table knows starts, the whole name included; one
      beyond the end if there is none. */
  ghost function KnownFrom(entries: seq<Entry>, name: seq<Byte>): (k: nat)
    ensures k <= |name| + 1
  {
    var n := FirstLabel(name);
    if Known(entries, name) then 0
    else if n == |name| then |name| + 1
    else n + 1 + KnownFrom(entries, name[n + 1..])
  }

  /** Where the first label of more than 63 bytes starts; one beyond the end if there is none. */
  ghost function FirstLong(name: seq<Byte>): (k: nat)
    ensures k <= |name| + 1
  {
    var n := FirstLabel(name);
    if n > MAX_LABEL then 0
    else if n == |name| then |name| + 1
    else n + 1 + FirstLong(name[n + 1..])
  }

  /** What has to be spelled out: the name up to a suffix that the table knows. */
  ghost function Spelled(entries: seq<Entry>, name: seq<Byte>): seq<Byte> {
    var k := KnownFrom(entries, name);
    if k <= |name| then name[..k] else name
  }

  /** The final zero is one more byte, unless an empty last label is one already. */
  predicate EndsInLabel(name: seq<Byte>) {
    name != [] && name[|name| - 1] != DOT
  }

  /** The size of the encoding: the labels with their lengths, and then a pointer or the final zero. */
  ghost function Size(entries: seq<Entry>, name: seq<Byte>): (n: nat)
    ensures n > 0
  {
    var k := KnownFrom(entries, name);
    if k <= |name| then k + 2 else if EndsInLabel(name) then |name| + 2 else |name| + 1
  }

  /** What comes of encoding `name` into `room` bytes, once it is not too long as a whole. */
  ghost function EncodedIn(entries: seq<Entry>, start: nat, room: nat, name: seq<Byte>): Encoded {
    var spelled := Spelled(entries, name);
    if !LabelsFit(spelled) then
      if FirstLong(spelled) <= room then LabelTooLong else NoRoom
    else if Size(entries, name) <= room then Encoded(start + Size(entries, name))
    else if KnownFrom(entries, name) > |name| && EndsInLabel(name) && room == |name| + 1 then ZeroOverrun
    else NoRoom
  }

  /** What comes of encoding `name` at `start` of a buffer of `len` bytes. */
  ghost function Outcome(entries: seq<Entry>, start: nat, len: nat, name: seq<Byte>): Encoded
    requires start <= len
  {
    if |name| > MAX_NAME then NoRoom else EncodedIn(entries, start, len - start, name)
  }

  lemma {:induction false} LongMeansUnfit(name: seq<Byte>)
    ensures LabelsFit(name) <==> FirstLong(name) > |name|
  {
    var n := FirstLabel(name);
    if n <= MAX_LABEL && n < |name| {
      LongMeansUnfit(name[n + 1..]);
    }
  }

  /** Taking the first label off a part of the name that ends behind a later dot, or at the end. */
  lemma {:induction false} FirstOfPrefix(name: seq<Byte>, k: nat)
    requires FirstLabel(name) < k <= |name|
    ensures FirstLabel(name[..k]) == FirstLabel(name)
  {
    if name != [] && name[0] != DOT {
      assert name[..k][1..] == name[1..][..k - 1];
      FirstOfPrefix(name[1..], k - 1);
    }
  }

  /** One label that a dot ends is spelled out, and then the rest is encoded. */
  lemma {:induction false} LabelOff(entries: seq<Entry>, start: nat, room: nat, name: seq<Byte>)
    requires !Known(entries, name) && FirstLabel(name) < |name| && FirstLabel(name) <= MAX_LABEL && FirstLabel(name) + 1 <= room
    ensures var n := FirstLabel(name);
      EncodedIn(entries, start, room, name) == EncodedIn(entries, start + n + 1, room - n - 1, name[n + 1..])
  {
    hide Known, FirstLabel, FirstLong, LabelsFit, Spelled, Size;
    var rest := name[FirstLabel(name) + 1..];
    SpelledOff(entries, name);
    SizeOff(entries, name);
    LongMeansUnfit(Spelled(entries, name));
    LongMeansUnfit(Spelled(entries, rest));
  }

  lemma {:induction false} SizeOff(entries: seq<Entry>, name: seq<Byte>)
    requires !Known(entries, name) && FirstLabel(name) < |name|
    ensures var n := FirstLabel(name);
      && KnownFrom(entries, name) == n + 1 + KnownFrom(entries, name[n + 1..])
      && (EndsInLabel(name) <==> EndsInLabel(name[n + 1..]))
      && Size(entries, name) == n + 1 + Size(entries, name[n + 1..])
  {
    hide Known, FirstLabel;
  }

  lemma {:induction false} SpelledOff(entries: seq<Entry>, name: seq<Byte>)
    requires !Known(entries, name) && FirstLabel(name) < |name| && FirstLabel(name) <= MAX_LABEL
    ensures var n := FirstLabel(name);
      var s, t := Spelled(entries, name), Spelled(entries, name[n + 1..]);
      |s| == n + 1 + |t| && FirstLong(s) == n + 1 + FirstLong(t)
  {
    hide Known, Spelled, FirstLabel;
    var n := FirstLabel(name);
    var s, t := Spelled(entries, name), Spelled(entries, name[n + 1..]);
    SpelledTail(entries, name);
    assert FirstLong(s) == n + 1 + FirstLong(s[n + 1..]);
  }

  lemma {:induction false} SpelledTail(entries: seq<Entry>, name: seq<Byte>)
    requires !Known(entries, name) && FirstLabel(name) < |name|
    ensures var n := FirstLabel(name);
      var s, t := Spelled(entries, name), Spelled(entries, name[n + 1..]);
      |s| == n + 1 + |t| && FirstLabel(s) == n && s[n + 1..] == t
  {
    hide Known, FirstLabel;
    var n := FirstLabel(name);
    var s, t := Spelled(entries, name), Spelled(entries, name[n + 1..]);
    assert |s| == n + 1 + |t|;
    if |s| < |name| {
      FirstOfPrefix(name, |s|);
    }
    assert s[n + 1..] == t;
  }

  /** The last label, that no dot ends. */
  lemma {:induction false} LastLabelEncoded(entries: seq<Entry>, start: nat, room: nat, name: seq<Byte>)
    requires !Known(entries, name) && FirstLabel(name) == |name| <= MAX_LABEL && |name| + 1 <= room
    ensures EncodedIn(entries, start, room, name) ==
      if name == [] then Encoded(start + 1) else if |name| + 2 <= room then Encoded(start + |name| + 2) else ZeroOverrun
  {
  }

  lemma {:induction false} KnownEncoded(entries: seq<Entry>, start: nat, room: nat, name: seq<Byte>)
    requires Known(entries, name)
    ensures EncodedIn(entries, start, room, name) == if room >= 2 then Encoded(start + 2) else NoRoom
  {
    assert name[..0] == [];
  }

  lemma {:induction false} LongLabelEncoded(entries: seq<Entry>, start: nat, room: nat, name: seq<Byte>)
    requires !Known(entries, name) && FirstLabel(name) > MAX_LABEL
    ensures EncodedIn(entries, start, room, name) == LabelTooLong
  {
    var s := Spelled(entries, name);
    if |s| < |name| {
      FirstOfPrefix(name, |s|);
    }
  }

  lemma {:induction false} NoRoomEncoded(entries: seq<Entry>, start: nat, room: nat, name: seq<Byte>)
    requires !Known(entries, name) && FirstLabel(name) <= MAX_LABEL && FirstLabel(name) + 1 > room
    ensures EncodedIn(entries, start, room, name) == NoRoom
  {
    var n := FirstLabel(name);
    var s := Spelled(entries, name);
    LongMeansUnfit(s);
    if n < |name| {
      SpelledOff(entries, name);
    }
  }

  // ---------- what a caller can tell beforehand ----------

  /** The name, or a part of it behind a dot, starts at `i`. */
  ghost predicate SuffixAt(name: seq<Byte>, i: int) {
    0 <= i <= |name| && (i == 0 || name[i - 1] == DOT)
  }

  ghost predicate NoSuffixKnown(entries: seq<Entry>, name: seq<Byte>) {
    forall i :: SuffixAt(name, i) ==> !Known(entries, name[i..])
  }

  lemma {:induction false} SuffixBehind(name: seq<Byte>, i: int)
    requires FirstLabel(name) < |name|
    ensures var n := FirstLabel(name);
      SuffixAt(name, i) && i != 0 ==> i > n && SuffixAt(name[n + 1..], i - n - 1) && name[i..] == name[n + 1..][i - n - 1..]
    ensures var n := FirstLabel(name);
      SuffixAt(name[n + 1..], i - n - 1) ==> SuffixAt(name, i) && name[i..] == name[n + 1..][i - n - 1..]
  {
  }

  /** `KnownFrom` is the first suffix that the table knows. */
  lemma {:induction false} KnownFromIsFirst(entries: seq<Entry>, name: seq<Byte>)
    ensures var k := KnownFrom(entries, name);
      && (k <= |name| ==> SuffixAt(name, k) && Known(entries, name[k..]))
      && (forall i :: SuffixAt(name, i) && i < k ==> !Known(entries, name[i..]))
  {
    hide Known, KnownFrom;
    KnownThere(entries, name);
    forall i | SuffixAt(name, i) && i < KnownFrom(entries, name)
      ensures !Known(entries, name[i..])
    {
      UnknownBefore(entries, name, i);
    }
  }

  lemma {:induction false} KnownThere(entries: seq<Entry>, name: seq<Byte>)
    ensures var k := KnownFrom(entries, name); k <= |name| ==> SuffixAt(name, k) && Known(entries, name[k..])
  {
    hide Known, FirstLabel;
    assert name[0..] == name;
    var n := FirstLabel(name);
    if !Known(entries, name) && n < |name| {
      KnownThere(entries, name[n + 1..]);
      SuffixBehind(name, KnownFrom(entries, name));
    }
  }

  lemma {:induction false} UnknownBefore(entries: seq<Entry>, name: seq<Byte>, i: int)
    requires SuffixAt(name, i) && i < KnownFrom(entries, name)
    ensures !Known(entries, name[i..])
    decreases |name|
  {
    hide Known, FirstLabel, SuffixAt;
    assert name[0..] == name;
    var n := FirstLabel(name);
    if n == |name| {
      OnlyWhole(name, i);
    } else if i > 0 {
      SuffixBehind(name, i);
      UnknownBefore(entries, name[n + 1..], i - n - 1);
    } else {
      assert i == 0 by { StartsWithin(name, i); }
    }
  }

  lemma {:induction false} StartsWithin(name: seq<Byte>, i: int)
    requires SuffixAt(name, i)
    ensures i >= 0
  {
  }

  lemma {:induction false} OnlyWhole(name: seq<Byte>, i: int)
    requires FirstLabel(name) == |name| && SuffixAt(name, i)
    ensures i == 0
  {
  }

  lemma {:induction false} NoneKnown(entries: seq<Entry>, name: seq<Byte>)
    ensures KnownFrom(entries, name) > |name| <==> NoSuffixKnown(entries, name)
  {
    KnownFromIsFirst(entries, name);
  }

  /** When the final zero does not fit, and the original stores it behind the buffer: exactly when a
      name of the right size, with labels of the right size and the last one not empty, of which the
      table knows no part, would fill the buffer to its last byte. */
  lemma {:induction false} ZeroOverrunExactly(entries: seq<Entry>, start: nat, len: nat, name: seq<Byte>)
    requires start <= len
    ensures Outcome(entries, start, len, name) == ZeroOverrun <==>
      |name| <= MAX_NAME && LabelsFit(name) && EndsInLabel(name) && NoSuffixKnown(entries, name) && start + |name| + 1 == len
  {
    hide Known, LabelsFit, NoSuffixKnown;
    NoneKnown(entries, name);
  }

  /** When the name is encoded: exactly when the part to spell out has labels of the right size, and it
      fits together with the pointer or the final zero. */
  lemma {:induction false} EncodedExactly(entries: seq<Entry>, start: nat, len: nat, name: seq<Byte>)
    requires start <= len
    ensures Outcome(entries, start, len, name).Encoded? <==>
      |name| <= MAX_NAME && LabelsFit(Spelled(entries, name)) && start + Size(entries, name) <= len
  {
    hide LabelsFit, Spelled, Size;
  }

  /** When a label is found to be too long: exactly when there is one in that part, and the labels
      before it fit. */
  lemma {:induction false} LabelTooLongExactly(entries: seq<Entry>, start: nat, len: nat, name: seq<Byte>)
    requires start <= len
    ensures Outcome(entries, start, len, name) == LabelTooLong <==>
      |name| <= MAX_NAME && !LabelsFit(Spelled(entries, name)) && start + FirstLong(Spelled(entries, name)) <= len
  {
    hide LabelsFit, Spelled, FirstLong;
  }

  /** When there is no room: exactly when the name is too long as a whole, or the labels do not fit up to
      one that is too long, or the encoding does not fit and it is not just the final zero. */
  lemma {:induction false} NoRoomExactly(entries: seq<Entry>, start: nat, len: nat, name: seq<Byte>)
    requires start <= len
    ensures var spelled := Spelled(entries, name);
      Outcome(entries, start, len, name) == NoRoom <==>
        || |name| > MAX_NAME
        || (!LabelsFit(spelled) && start + FirstLong(spelled) > len)
        || (LabelsFit(spelled) && start + Size(entries, name) > len
            && !(NoSuffixKnown(entries, name) && EndsInLabel(name) && start + |name| + 1 == len))
  {
    hide Known, LabelsFit, NoSuffixKnown, FirstLong, EndsInLabel;
    NoneKnown(entries, name);
    if |name| <= MAX_NAME {
      ZeroOverrunExactly(entries, start, len, name);
    }
  }

  /** Without a table everything is spelled out. */
  lemma {:induction false} WithoutTable(start: nat, len: nat, name: seq<Byte>)
    requires start <= len
    ensures var r, all := Outcome([], start, len, name), if EndsInLabel(name) then |name| + 2 else |name| + 1;
      && (r.Encoded? <==> |name| <= MAX_NAME && LabelsFit(name) && start + all <= len)
      && (r.Encoded? ==> r.end == start + all)
      && (r == ZeroOverrun <==> |name| <= MAX_NAME && LabelsFit(name) && EndsInLabel(name) && start + |name| + 1 == len)
      && (r == LabelTooLong <==> |name| <= MAX_NAME && !LabelsFit(name) && start + FirstLong(name) <= len)
      && (r == NoRoom <==> |name| > MAX_NAME || (if LabelsFit(name) then start + |name| + 1 > len else start + FirstLong(name) > len))
  {
    hide LabelsFit, FirstLong;
    NoneKnown([], name);
    assert NoSuffixKnown([], name);
  }

  /** A name with labels of the right size surely is encoded where there is room for the longest form. */
  lemma {:induction false} EncodedWithRoom(entries: seq<Entry>, start: nat, len: nat, name: seq<Byte>)
    requires |name| <= MAX_NAME && LabelsFit(name) && start + |name| + 2 <= len
    ensures Outcome(entries, start, len, name).Encoded? && Outcome(entries, start, len, name).end <= start + |name| + 2
  {
    SpelledFits(entries, name);
    hide LabelsFit, Spelled;
  }

  lemma {:induction false} SpelledFits(entries: seq<Entry>, name: seq<Byte>)
    requires LabelsFit(name)
    ensures LabelsFit(Spelled(entries, name))
  {
    hide Known, Spelled, FirstLabel;
    var n := FirstLabel(name);
    if Known(entries, name) || n == |name| {
      SpelledAtOnce(entries, name);
    } else {
      SpelledTail(entries, name);
      SpelledFits(entries, name[n + 1..]);
    }
  }

  lemma {:induction false} SpelledAtOnce(entries: seq<Entry>, name: seq<Byte>)
    requires Known(entries, name) || FirstLabel(name) == |name|
    ensures Spelled(entries, name) == [] || Spelled(entries, name) == name
    ensures LabelsFit([])
  {
    hide Known;
    assert name[..0] == [] && name[..|name|] == name;
  }

  /** A name of one letter does it, in the last two bytes of a buffer. */
  lemma {:induction false} ZeroOverrunHappens(len: nat, letter: Byte)
    requires len >= 2 && letter != DOT
    ensures Outcome([], len - 2, len, [letter]) == ZeroOverrun
  {
    assert [letter][1..] == [];
    WithoutTable(len - 2, len, [letter]);
  }

  // ---------- what enters the compression table ----------

  /** The entries made for `name`, which is written from `j` on into a buffer of `len` bytes with the
      help of `entries`: one for every label that is spelled out. */
  ghost function NewEntries(entries: seq<Entry>, j: nat, len: nat, name: seq<Byte>): seq<Entry>
    decreases |name|
  {
    var n := FirstLabel(name);
    if Known(entries, name) || n > MAX_LABEL || j + n + 1 > len then []
    else [Entry(name, j)] + if n == |name| then [] else NewEntries(entries, j + n + 1, len, name[n + 1..])
  }

  /** A table to which entries are added until it is full. */
  ghost function Taken(entries: seq<Entry>, more: seq<Entry>): seq<Entry>
    decreases |more|
  {
    if more == [] then entries else Taken(if |entries| == MAX_LABELS then entries else entries + [more[0]], more[1..])
  }

  /** The table after writing a name. */
  ghost function Remembered(entries: seq<Entry>, start: nat, len: nat, name: seq<Byte>): seq<Entry> {
    if |name| > MAX_NAME then entries else Taken(entries, NewEntries(entries, start, len, name))
  }

  lemma {:induction false} TakenNone(before: seq<Entry>, now: seq<Entry>, j: nat, len: nat, name: seq<Byte>)
    requires Known(before, name) || FirstLabel(name) > MAX_LABEL || j + FirstLabel(name) + 1 > len
    ensures Taken(now, NewEntries(before, j, len, name)) == now
  {
    hide Known, FirstLabel;
  }

  lemma {:induction false} TakenOne(before: seq<Entry>, now: seq<Entry>, j: nat, len: nat, name: seq<Byte>, more: seq<Entry>)
    requires !Known(before, name) && FirstLabel(name) <= MAX_LABEL && j + FirstLabel(name) + 1 <= len
    requires more == if |now| == MAX_LABELS then [] else [Entry(name, j)]
    ensures var n := FirstLabel(name);
      Taken(now, NewEntries(before, j, len, name))
        == if n == |name| then now + more else Taken(now + more, NewEntries(before, j + n + 1, len, name[n + 1..]))
  {
    hide Known, FirstLabel, NewEntries;
    var n := FirstLabel(name);
    var tail := if n == |name| then [] else NewEntries(before, j + n + 1, len, name[n + 1..]);
    NewEntriesCons(before, j, len, name);
    TakenCons(now, Entry(name, j), tail);
    assert now + [] == now;
  }

  lemma {:induction false} NewEntriesCons(entries: seq<Entry>, j: nat, len: nat, name: seq<Byte>)
    requires !Known(entries, name) && FirstLabel(name) <= MAX_LABEL && j + FirstLabel(name) + 1 <= len
    ensures var n := FirstLabel(name);
      NewEntries(entries, j, len, name)
        == [Entry(name, j)] + if n == |name| then [] else NewEntries(entries, j + n + 1, len, name[n + 1..])
  {
    hide Known, FirstLabel;
  }

  lemma {:induction false} TakenCons(now: seq<Entry>, e: Entry, tail: seq<Entry>)
    ensures Taken(now, [e] + tail) == Taken(if |now| == MAX_LABELS then now else now + [e], tail)
    ensures Taken(now, []) == now
  {
    assert ([e] + tail)[1..] == tail;
  }

  /** A label of the part to spell out starts at `i`, no label up to it is too long, and it fits. */
  ghost predicate SpelledAt(entries: seq<Entry>, j: nat, len: nat, name: seq<Byte>, i: int) {
    && SuffixAt(name, i) && i < KnownFrom(entries, name) && i < FirstLong(name)
    && j + i + FirstLabel(name[i..]) + 1 <= len
  }

  lemma {:induction false} SpelledFirst(entries: seq<Entry>, j: nat, len: nat, name: seq<Byte>)
    ensures SpelledAt(entries, j, len, name, 0) <==>
      !Known(entries, name) && FirstLabel(name) <= MAX_LABEL && j + FirstLabel(name) + 1 <= len
    ensures !SpelledAt(entries, j, len, name, 0) || FirstLabel(name) == |name| ==>
      forall i :: SpelledAt(entries, j, len, name, i) ==> i == 0 && SpelledAt(entries, j, len, name, 0)
  {
    hide Known;
    assert name[0..] == name;
    forall i | SpelledAt(entries, j, len, name, i) && (!SpelledAt(entries, j, len, name, 0) || FirstLabel(name) == |name|)
      ensures i == 0
    {
      hide KnownFrom, FirstLong;
      if FirstLabel(name) == |name| {
        OnlyWhole(name, i);
      } else {
        SuffixBehind(name, i);
      }
    }
  }

  lemma {:induction false} SpelledBehind(entries: seq<Entry>, j: nat, len: nat, name: seq<Byte>, i: int)
    requires SpelledAt(entries, j, len, name, 0) && FirstLabel(name) < |name|
    ensures var n := FirstLabel(name);
      SpelledAt(entries, j, len, name, i) <==> i == 0 || SpelledAt(entries, j + n + 1, len, name[n + 1..], i - n - 1)
  {
    hide Known, FirstLabel;
    SpelledFirst(entries, j, len, name);
    SuffixBehind(name, i);
    hide SuffixAt;
  }

  /** The entry is one for such a label. */
  ghost predicate IsSpelled(entries: seq<Entry>, j: nat, len: nat, name: seq<Byte>, e: Entry) {
    SpelledAt(entries, j, len, name, e.pos - j) && e.v == name[e.pos - j..]
  }

  lemma {:induction false} EntryFirst(entries: seq<Entry>, j: nat, len: nat, name: seq<Byte>, e: Entry)
    requires !SpelledAt(entries, j, len, name, 0) || FirstLabel(name) == |name|
    ensures IsSpelled(entries, j, len, name, e) <==> SpelledAt(entries, j, len, name, 0) && e == Entry(name, j)
  {
    SpelledFirst(entries, j, len, name);
    hide Known, FirstLabel, KnownFrom, FirstLong, SuffixAt;
    assert name[0..] == name;
  }

  lemma {:induction false} EntryBehind(entries: seq<Entry>, j: nat, len: nat, name: seq<Byte>, e: Entry)
    requires SpelledAt(entries, j, len, name, 0) && FirstLabel(name) < |name|
    ensures var n := FirstLabel(name);
      IsSpelled(entries, j, len, name, e) <==> e == Entry(name, j) || IsSpelled(entries, j + n + 1, len, name[n + 1..], e)
  {
    hide Known, FirstLabel, KnownFrom, FirstLong;
    var n := FirstLabel(name);
    var i := e.pos - j;
    SpelledBehind(entries, j, len, name, i);
    if i == 0 {
      assert name[0..] == name;
    } else if SpelledAt(entries, j, len, name, i) {
      SuffixBehind(name, i);
    }
  }

  lemma {:induction false} PlacesBehind(entries: seq<Entry>, j: nat, len: nat, name: seq<Byte>, all: seq<Entry>)
    requires forall e <- all :: IsSpelled(entries, j, len, name, e)
    ensures forall a :: 0 <= a < |all| ==> all[a].pos >= j
  {
    forall a | 0 <= a < |all|
      ensures all[a].pos >= j
    {
      assert all[a] in all;
    }
  }

  ghost predicate InOrder(entries: seq<Entry>) {
    forall a, b :: 0 <= a < b < |entries| ==> entries[a].pos < entries[b].pos
  }

  lemma {:induction false} Ascending(j: nat, behind: seq<Entry>, k: nat, name: seq<Byte>)
    requires j < k && (forall a :: 0 <= a < |behind| ==> behind[a].pos >= k) && InOrder(behind)
    ensures InOrder([Entry(name, j)] + behind)
  {
  }

  /** Exactly the labels that are spelled out enter the table, each with the name that starts there, in
      the order of their places. */
  lemma {:induction false} NewEntriesAre(entries: seq<Entry>, j: nat, len: nat, name: seq<Byte>)
    ensures forall e :: e in NewEntries(entries, j, len, name) <==> IsSpelled(entries, j, len, name, e)
    ensures InOrder(NewEntries(entries, j, len, name))
    decreases |name|
  {
    SpelledFirst(entries, j, len, name);
    hide Known, FirstLabel, IsSpelled, SpelledAt;
    var n := FirstLabel(name);
    var all := NewEntries(entries, j, len, name);
    if SpelledAt(entries, j, len, name, 0) && n < |name| {
      var rest := name[n + 1..];
      var behind := NewEntries(entries, j + n + 1, len, rest);
      NewEntriesAre(entries, j + n + 1, len, rest);
      assert all == [Entry(name, j)] + behind;
      forall e: Entry
        ensures e in all <==> IsSpelled(entries, j, len, name, e)
      {
        EntryBehind(entries, j, len, name, e);
      }
      PlacesBehind(entries, j + n + 1, len, rest, behind);
      Ascending(j, behind, j + n + 1, name);
    } else {
      forall e: Entry
        ensures e in all <==> IsSpelled(entries, j, len, name, e)
      {
        EntryFirst(entries, j, len, name, e);
      }
    }
  }

  /** The table keeps its entries and takes the new ones, in order, as far as there is room. */
  lemma {:induction false} TakenIs(entries: seq<Entry>, more: seq<Entry>)
    requires |entries| <= MAX_LABELS
    ensures var room := MAX_LABELS - |entries|;
      Taken(entries, more) == entries + if |more| <= room then more else more[..room]
    decreases |more|
  {
    if more == [] {
      assert entries + [] == entries;
    } else if |entries| == MAX_LABELS {
      TakenIs(entries, more[1..]);
      assert more[1..][..0] == [] == more[..0];
    } else {
      var next := entries + [more[0]];
      TakenIs(next, more[1..]);
      var room := MAX_LABELS - |entries|;
      assert more == [more[0]] + more[1..];
      if |more| > room {
        assert more[..room] == [more[0]] + more[1..][..room - 1];
      }
    }
  }

  /** A name that has been written is known, if the table had room for it. */
  lemma {:induction false} WrittenIsKnown(entries: seq<Entry>, start: nat, len: nat, name: seq<Byte>)
    requires start <= len && Outcome(entries, start, len, name).Encoded? && |entries| < MAX_LABELS
    ensures Known(Remembered(entries, start, len, name), name) && |Remembered(entries, start, len, name)| <= MAX_LABELS
  {
    hide Known, FirstLabel, EncodedIn;
    var more := NewEntries(entries, start, len, name);
    TakenIs(entries, more);
    var after := Remembered(entries, start, len, name);
    if Known(entries, name) {
      KnownLonger(entries, after, name);
    } else {
      FirstIsSpelled(entries, start, len, name);
      NewEntriesCons(entries, start, len, name);
      assert more[0] == Entry(name, start) && after[|entries|] == more[0];
      KnownAt(after, |entries|, name);
    }
  }

  lemma {:induction false} KnownLonger(a: seq<Entry>, b: seq<Entry>, name: seq<Byte>)
    requires a <= b && Known(a, name)
    ensures Known(b, name)
  {
    var e :| e in a && e.v == name;
    assert e in b;
  }

  lemma {:induction false} KnownAt(entries: seq<Entry>, i: nat, name: seq<Byte>)
    requires i < |entries| && entries[i].v == name
    ensures Known(entries, name)
  {
    assert entries[i] in entries;
  }

  /** An encoded name that was not known has a first label of the right size that fits. */
  lemma {:induction false} FirstIsSpelled(entries: seq<Entry>, start: nat, len: nat, name: seq<Byte>)
    requires start <= len && Outcome(entries, start, len, name).Encoded? && !Known(entries, name)
    ensures FirstLabel(name) <= MAX_LABEL && start + FirstLabel(name) + 1 <= len
  {
    hide Known, EncodedIn;
    if FirstLabel(name) > MAX_LABEL {
      LongLabelEncoded(entries, start, len - start, name);
    } else if start + FirstLabel(name) + 1 > len {
      NoRoomEncoded(entries, start, len - start, name);
    }
  }

  /** Then writing it again, wherever two bytes are left, takes exactly two bytes. */
  lemma {:induction false} WrittenAgain(entries: seq<Entry>, start: nat, len: nat, name: seq<Byte>, at: nat, len2: nat)
    requires start <= len && Outcome(entries, start, len, name).Encoded? && |entries| < MAX_LABELS && at + 2 <= len2
    ensures Outcome(Remembered(entries, start, len, name), at, len2, name) == Encoded(at + 2)
  {
    WrittenIsKnown(entries, start, len, name);
    KnownEncoded(Remembered(entries, start, len, name), at, len2 - at, name);
  }
}
