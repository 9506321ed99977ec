/** Sets of I/O events, pending changes to them, and the table that turns a change into one
    epoll operation. */
module EpollTable {

  /** A set of the event kinds EV_READ, EV_WRITE and EV_CLOSED. */
  datatype Mask = Mask(read: bool, write: bool, close: bool) {
    predicate IsEmpty() {
      !read && !write && !close
    }

    function Or(m: Mask): Mask {
      Mask(read || m.read, write || m.write, close || m.close)
    }

    function And(m: Mask): Mask {
      Mask(read && m.read, write && m.write, close && m.close)
    }

    function Minus(m: Mask): Mask {
      Mask(read && !m.read, write && !m.write, close && !m.close)
    }

    predicate Within(m: Mask) {
      (read ==> m.read) && (write ==> m.write) && (close ==> m.close)
    }

    predicate Disjoint(m: Mask) {
      !(read && m.read) && !(write && m.write) && !(close && m.close)
    }
  }

  const NO_EVENTS := Mask(false, false, false)

  /** The change to one kind of event: none, EV_CHANGE_ADD or EV_CHANGE_DEL, with EV_CHANGE_ET. */
  datatype Chg = Keep | Add(et: bool) | Del(et: bool) {
    predicate HasEt() {
      (Add? || Del?) && et
    }

    function Bits(): nat {
      match this case Keep => 0 case Add(_) => 1 case Del(_) => 2
    }
  }

  /** struct event_change */
  datatype Change = Change(fd: int, oldEvents: Mask, read: Chg, write: Chg, close: Chg) {
    function Adds(): Mask {
      Mask(read.Add?, write.Add?, close.Add?)
    }

    function Dels(): Mask {
      Mask(read.Del?, write.Del?, close.Del?)
    }

    /** The events that the change asks for. */
    function Target(): Mask {
      oldEvents.Minus(Dels()).Or(Adds())
    }

    predicate IsNop() {
      read.Keep? && write.Keep? && close.Keep?
    }

    /** EPOLL_OP_TABLE_INDEX */
    function Index(): (i: nat)
      ensures i < 512
    {
      close.Bits() + 4 * read.Bits() + 16 * write.Bits() + OldBits(oldEvents)
    }
  }

  function OldBits(m: Mask): nat {
    (if m.read then 64 else 0) + (if m.write then 128 else 0) + (if m.close then 256 else 0)
  }

  datatype CtlOp = NoOp | CtlAdd | CtlDel | CtlMod | Impossible

  datatype Operation = Operation(op: CtlOp, events: Mask)

  // ---------- the table ----------

  /* epoll_op_table, one block for each set of old events. A row has the read changes none, add,
     del and the impossible add+del, with four close changes each; the rows are the write changes.
     The tens digit is the operation: 1 ADD, 2 DEL, 3 MOD, 9 for an impossible change. The units
     are the events: 1 EPOLLIN, 2 EPOLLOUT, 4 EPOLLRDHUP. */

  const OLD_NONE: seq<seq<nat>> := [
    [ 0, 14, 24, 90, 11, 15, 11, 90, 21, 14, 25, 90, 90, 90, 90, 90],
    [12, 16, 12, 90, 13, 17, 13, 90, 12, 16, 12, 90, 90, 90, 90, 90],
    [22, 14, 26, 90, 11, 15, 11, 90, 23, 14, 27, 90, 90, 90, 90, 90],
    [90, 90, 90, 90, 90, 90, 90, 90, 90, 90, 90, 90, 90, 90, 90, 90]
  ]

  const OLD_R: seq<seq<nat>> := [
    [ 0, 35, 31, 90, 31, 35, 31, 90, 21, 34, 25, 90, 90, 90, 90, 90],
    [33, 37, 33, 90, 33, 37, 33, 90, 32, 36, 32, 90, 90, 90, 90, 90],
    [31, 35, 31, 90, 31, 35, 31, 90, 23, 34, 27, 90, 90, 90, 90, 90],
    [90, 90, 90, 90, 90, 90, 90, 90, 90, 90, 90, 90, 90, 90, 90, 90]
  ]

  const OLD_W: seq<seq<nat>> := [
    [ 0, 36, 32, 90, 33, 37, 33, 90, 32, 36, 32, 90, 90, 90, 90, 90],
    [32, 36, 32, 90, 33, 37, 33, 90, 32, 36, 32, 90, 90, 90, 90, 90],
    [22, 34, 26, 90, 31, 35, 31, 90, 23, 34, 27, 90, 90, 90, 90, 90],
    [90, 90, 90, 90, 90, 90, 90, 90, 90, 90, 90, 90, 90, 90, 90, 90]
  ]

  const OLD_WR: seq<seq<nat>> := [
    [ 0, 37, 33, 90, 33, 37, 33, 90, 32, 36, 32, 90, 90, 90, 90, 90],
    [33, 37, 33, 90, 33, 37, 33, 90, 32, 36, 32, 90, 90, 90, 90, 90],
    [31, 35, 31, 90, 31, 35, 31, 90, 23, 34, 27, 90, 90, 90, 90, 90],
    [90, 90, 90, 90, 90, 90, 90, 90, 90, 90, 90, 90, 90, 90, 90, 90]
  ]

  const OLD_C: seq<seq<nat>> := [
    [ 0, 34, 24, 90, 35, 35, 31, 90, 34, 34, 25, 90, 90, 90, 90, 90],
    [36, 36, 32, 90, 37, 37, 33, 90, 36, 36, 32, 90, 90, 90, 90, 90],
    [34, 34, 26, 90, 35, 35, 31, 90, 34, 34, 27, 90, 90, 90, 90, 90],
    [90, 90, 90, 90, 90, 90, 90, 90, 90, 90, 90, 90, 90, 90, 90, 90]
  ]

  const OLD_CR: seq<seq<nat>> := [
    [ 0, 35, 31, 90, 35, 35, 31, 90, 34, 34, 25, 90, 90, 90, 90, 90],
    [37, 37, 33, 90, 37, 37, 33, 90, 36, 36, 32, 90, 90, 90, 90, 90],
    [35, 35, 31, 90, 35, 35, 31, 90, 34, 34, 27, 90, 90, 90, 90, 90],
    [90, 90, 90, 90, 90, 90, 90, 90, 90, 90, 90, 90, 90, 90, 90, 90]
  ]

  const OLD_CW: seq<seq<nat>> := [
    [ 0, 36, 32, 90, 37, 37, 33, 90, 36, 36, 32, 90, 90, 90, 90, 90],
    [36, 36, 32, 90, 37, 37, 33, 90, 36, 36, 32, 90, 90, 90, 90, 90],
    [34, 34, 26, 90, 35, 35, 31, 90, 34, 34, 27, 90, 90, 90, 90, 90],
    [90, 90, 90, 90, 90, 90, 90, 90, 90, 90, 90, 90, 90, 90, 90, 90]
  ]

  const OLD_CWR: seq<seq<nat>> := [
    [ 0, 37, 33, 90, 37, 37, 33, 90, 36, 36, 32, 90, 90, 90, 90, 90],
    [37, 37, 33, 90, 37, 37, 33, 90, 36, 36, 32, 90, 90, 90, 90, 90],
    [35, 35, 31, 90, 35, 35, 31, 90, 34, 34, 27, 90, 90, 90, 90, 90],
    [90, 90, 90, 90, 90, 90, 90, 90, 90, 90, 90, 90, 90, 90, 90, 90]
  ]

  function Block(b: nat): (r: seq<seq<nat>>)
    requires b < 8
    ensures |r| == 4 && |r[0]| == |r[1]| == |r[2]| == |r[3]| == 16
  {
    match b
    case 0 => OLD_NONE
    case 1 => OLD_R
    case 2 => OLD_W
    case 3 => OLD_WR
    case 4 => OLD_C
    case 5 => OLD_CR
    case 6 => OLD_CW
    case _ => OLD_CWR
  }

  function Decode(code: nat): Operation {
    Operation(
      match code / 10 case 0 => NoOp case 1 => CtlAdd case 2 => CtlDel case 3 => CtlMod case _ => Impossible,
      Mask(code % 10 % 2 == 1, code % 10 / 2 % 2 == 1, code % 10 / 4 % 2 == 1))
  }

  function TableEntry(index: nat): Operation
    requires index < 512
  {
    Decode(Block(index / 64)[index / 16 % 4][index % 16])
  }

  // ---------- the rule ----------

  /** The documented rule, for change bits 0 (none), 1 (add), 2 (del) or 3 (impossible): any add
      asks for the remaining and the new events, by MOD if there were some and else by ADD; deletes
      alone are a MOD to what remains, or a DEL naming what goes. */
  function Rule(before: Mask, read: nat, write: nat, close: nat): Operation {
    var adds := Mask(read == 1, write == 1, close == 1);
    var dels := Mask(read == 2, write == 2, close == 2);
    if read == 3 || write == 3 || close == 3 then Operation(Impossible, NO_EVENTS)
    else if !adds.IsEmpty() then
      Operation(if before.IsEmpty() then CtlAdd else CtlMod, before.Minus(dels).Or(adds))
    else if dels.IsEmpty() then Operation(NoOp, NO_EVENTS)
    else if before.Minus(dels).IsEmpty() then Operation(CtlDel, before.Or(dels))
    else Operation(CtlMod, before.Minus(dels))
  }

  function OldOf(b: nat): Mask {
    Mask(b % 2 == 1, b / 2 % 2 == 1, b / 4 % 2 == 1)
  }

  function Encode(o: Operation): nat {
    (match o.op case NoOp => 0 case CtlAdd => 10 case CtlDel => 20 case CtlMod => 30 case Impossible => 90)
    + (if o.events.read then 1 else 0) + (if o.events.write then 2 else 0) + (if o.events.close then 4 else 0)
  }

  lemma {:induction false} DecodeEncode(o: Operation)
    ensures Decode(Encode(o)) == o
  {
  }

  lemma {:induction false} Blocks01(b: nat, read: nat, write: nat, close: nat)
    requires 0 <= b < 2 && read < 4 && write < 4 && close < 4
    ensures Block(b)[write][close + 4 * read] == Encode(Rule(OldOf(b), read, write, close))
  {
    if b == 0 {
    } else {
    }
  }

  lemma {:induction false} Blocks23(b: nat, read: nat, write: nat, close: nat)
    requires 2 <= b < 4 && read < 4 && write < 4 && close < 4
    ensures Block(b)[write][close + 4 * read] == Encode(Rule(OldOf(b), read, write, close))
  {
    if b == 2 {
    } else {
    }
  }

  lemma {:induction false} Blocks45(b: nat, read: nat, write: nat, close: nat)
    requires 4 <= b < 6 && read < 4 && write < 4 && close < 4
    ensures Block(b)[write][close + 4 * read] == Encode(Rule(OldOf(b), read, write, close))
  {
    if b == 4 {
    } else {
    }
  }

  lemma {:induction false} Blocks67(b: nat, read: nat, write: nat, close: nat)
    requires 6 <= b < 8 && read < 4 && write < 4 && close < 4
    ensures Block(b)[write][close + 4 * read] == Encode(Rule(OldOf(b), read, write, close))
  {
    if b == 6 {
    } else {
    }
  }

  /** All 512 entries of the table are what the rule says. */
  lemma {:induction false} TableFollowsRule(index: nat)
    requires index < 512
    ensures TableEntry(index) == Rule(OldOf(index / 64), index / 4 % 4, index / 16 % 4, index % 4)
  {
    hide Rule, Block, Encode, Decode, OldOf;
    var b, read, write, close := index / 64, index / 4 % 4, index / 16 % 4, index % 4;
    assert close + 4 * read == index % 16;
    if b < 2 {
      Blocks01(b, read, write, close);
    } else if b < 4 {
      Blocks23(b, read, write, close);
    } else if b < 6 {
      Blocks45(b, read, write, close);
    } else {
      Blocks67(b, read, write, close);
    }
    DecodeEncode(Rule(OldOf(b), read, write, close));
  }

  lemma {:induction false} OldBitsRoundTrip(m: Mask)
    ensures OldBits(m) % 64 == 0 && OldOf(OldBits(m) / 64) == m
  {
  }

  /** A change finds its own row. */
  lemma {:induction false} Lookup(c: Change)
    ensures TableEntry(c.Index()) == Rule(c.oldEvents, c.read.Bits(), c.write.Bits(), c.close.Bits())
  {
    hide Rule, TableEntry;
    TableFollowsRule(c.Index());
    OldBitsRoundTrip(c.oldEvents);
    IndexParts(c.Index(), OldBits(c.oldEvents), c.read.Bits(), c.write.Bits(), c.close.Bits());
  }

  lemma {:induction false} IndexParts(i: nat, before: nat, read: nat, write: nat, close: nat)
    requires before % 64 == 0 && read < 4 && write < 4 && close < 4
    requires i == close + 4 * read + 16 * write + before
    ensures i / 64 == before / 64 && i / 4 % 4 == read && i / 16 % 4 == write && i % 4 == close
  {
    var b := before / 64;
    assert i == 4 * (read + 4 * write + 16 * b) + close;
    assert i == 16 * (write + 4 * b) + (close + 4 * read);
  }

  /** What the table makes of a change: nothing if nothing changes or nothing is left to ask for,
      else the operation that leads from the old events to the wanted ones. */
  lemma {:induction false} TableMeansTarget(c: Change)
    ensures var o := TableEntry(c.Index());
      && o.op != Impossible
      && (o.events.IsEmpty() <==> o.op == NoOp) && (o.op == NoOp <==> c.IsNop())
      && (o.op == CtlDel ==> c.Target().IsEmpty())
      && (o.op == CtlAdd || o.op == CtlMod ==> o.events == c.Target() && !c.Target().IsEmpty())
      && (o.op == CtlAdd ==> c.oldEvents.IsEmpty()) && (o.op == CtlMod ==> !c.oldEvents.IsEmpty())
  {
    Lookup(c);
  }
}
