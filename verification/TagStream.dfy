/** Streams of tagged data as byte strings: what each way of reading them yields and leaves. */
module TagStream {
  import opened Bytes
  import opened Wrappers
  import opened TagFormat

  const I32: nat := 0x8000_0000
  const INT_NIBBLES: nat := 8
  const INT64_NIBBLES: nat := 16

  /** What a reader got out of the front of the buffer, if anything, and what it has left there. */
  datatype Parsed<+T> = Parsed(value: Option<T>, rest: seq<Byte>)

  datatype Header = Header(tag: nat, len: int)

  /** A 32-bit length returned as an int. */
  function ToInt(len: nat): int {
    if len < I32 then len else len - U32
  }

  /** The tagged form of a payload. */
  ghost function Tagged(tag: nat, payload: seq<Byte>): seq<Byte>
    requires |payload| < U32
  {
    DigitsOfU32(|payload|);
    TagBytes(tag) + IntBytes(|payload|) + payload
  }

  // ---------- reading ----------

  /** evtag_unmarshal_header */
  ghost function ReadHeader(s: seq<Byte>): (r: Parsed<Header>)
    ensures r.value.Some? && r.value.value.len >= 0 ==> r.value.value.len <= |r.rest|
  {
    match DecodeTag(s)
    case None => Parsed(None, s)
    case Some(t) =>
      var s1 := s[t.len..];
      match DecodeInt(s1, INT_NIBBLES)
      case None => Parsed(None, s1)
      case Some(l) =>
        var s2 := s1[l.len..];
        if |s2| < l.number || ToInt(l.number) == -1 then Parsed(None, s2) else Parsed(Some(Header(t.number, ToInt(l.number))), s2)
  }

  /** An int as a size_t: a negative one is huge. */
  function ToSize(len: int): int {
    if len < 0 then 0x1_0000_0000_0000_0000 + len else len
  }

  /** evbuffer_drain with a length that was an int */
  ghost function Drained(s: seq<Byte>, len: int): seq<Byte> {
    if 0 <= ToSize(len) <= |s| then s[ToSize(len)..] else []
  }

  /** evtag_consume */
  ghost function ReadConsume(s: seq<Byte>): Parsed<()> {
    var h := ReadHeader(s);
    if h.value == None then Parsed(None, h.rest) else Parsed(Some(()), Drained(h.rest, h.value.value.len))
  }

  datatype Payload = Payload(tag: nat, data: seq<Byte>)

  /** evtag_unmarshal, into a buffer that takes the payload */
  ghost function ReadPayload(s: seq<Byte>): Parsed<Payload> {
    var h := ReadHeader(s);
    if h.value == None || h.value.value.len < 0 then Parsed(None, h.rest)
    else
      var len := h.value.value.len;
      Parsed(Some(Payload(h.value.value.tag, h.rest[..len])), h.rest[len..])
  }

  /** evtag_unmarshal_int and evtag_unmarshal_int64: the integer may be shorter than the payload. */
  ghost function ReadInt(s: seq<Byte>, needTag: nat, maxNibbles: nat): Parsed<Decoded> {
    match DecodeTag(s)
    case None => Parsed(None, s)
    case Some(t) =>
      var s1 := s[t.len..];
      if t.number != needTag then Parsed(None, s1)
      else
        match DecodeInt(s1, INT_NIBBLES)
        case None => Parsed(None, s1)
        case Some(l) =>
          var s2 := s1[l.len..];
          if |s2| < l.number then Parsed(None, s2)
          else
            match DecodeInt(s2, maxNibbles)
            case None => Parsed(None, s2[l.number..])
            case Some(d) => Parsed(if d.len > l.number then None else Some(d), s2[l.number..])
  }

  /** evtag_unmarshal_fixed */
  ghost function ReadFixed(s: seq<Byte>, needTag: nat, len: nat): Parsed<seq<Byte>> {
    var h := ReadHeader(s);
    if h.value == None || h.value.value.tag != needTag || h.value.value.len != len then Parsed(None, h.rest)
    else Parsed(Some(h.rest[..len]), h.rest[len..])
  }

  /** evtag_unmarshal_string: for a negative length there is no memory. */
  ghost function ReadString(s: seq<Byte>, needTag: nat): Parsed<seq<Byte>> {
    var h := ReadHeader(s);
    if h.value == None || h.value.value.tag != needTag || h.value.value.len < 0 then Parsed(None, h.rest)
    else Parsed(Some(h.rest[..h.value.value.len]), h.rest[h.value.value.len..])
  }

  datatype Time = Time(sec: nat, usec: nat)

  /** The two integers of a timeval at the front of `s`, and how long they are. */
  ghost function DecodeTime(s: seq<Byte>): Option<(Time, nat)> {
    match DecodeInt(s, INT_NIBBLES)
    case None => None
    case Some(a) =>
      match DecodeInt(s[a.len..], INT_NIBBLES)
      case None => None
      case Some(b) => Some((Time(a.number, b.number), a.len + b.len))
  }

  /** evtag_unmarshal_timeval: the payload is gone whether or not it is a timeval. */
  ghost function ReadTime(s: seq<Byte>, needTag: nat): Parsed<Time> {
    var h := ReadHeader(s);
    if h.value == None then Parsed(None, h.rest)
    else
      var t := DecodeTime(h.rest);
      Parsed(if h.value.value.tag == needTag && t.Some? && t.value.1 <= h.value.value.len then Some(t.value.0) else None,
        Drained(h.rest, h.value.value.len))
  }

  /** evtag_peek_length: the length with its header, as a 32-bit number. */
  ghost function PeekedLength(s: seq<Byte>): Option<nat> {
    match DecodeTag(s)
    case None => None
    case Some(t) =>
      match DecodeInt(s[t.len..], INT_NIBBLES)
      case None => None
      case Some(l) => Some((l.number + l.len + t.len) % U32)
  }

  /** evtag_payload_length: the length alone, whether or not the payload is there. */
  ghost function PayloadLen(s: seq<Byte>): Option<nat> {
    match DecodeTag(s)
    case None => None
    case Some(t) =>
      match DecodeInt(s[t.len..], INT_NIBBLES)
      case None => None
      case Some(l) => Some(l.number)
  }

  // ---------- reading what was written ----------

  lemma {:induction false} HeaderOfTagged(tag: nat, payload: seq<Byte>, rest: seq<Byte>)
    requires tag < U32 && |payload| < U32
    ensures var s := Tagged(tag, payload) + rest;
      && DecodeTag(s) == Some(Decoded(tag, |TagBytes(tag)|))
      && |TagBytes(tag)| <= |s|
      && DecodeInt(s[|TagBytes(tag)|..], INT_NIBBLES) == (DigitsOfU32(|payload|); Some(Decoded(|payload|, |IntBytes(|payload|)|)))
      && s[|TagBytes(tag)|..][(DigitsOfU32(|payload|); |IntBytes(|payload|)|)..] == payload + rest
  {
    DigitsOfU32(|payload|);
    var a, b := TagBytes(tag), IntBytes(|payload|);
    var s := Tagged(tag, payload) + rest;
    assert s == a + (b + payload + rest);
    TagRoundTrip(tag, b + payload + rest);
    assert s[|a|..] == b + (payload + rest);
    IntRoundTrip(|payload|, INT_NIBBLES, payload + rest);
    assert s[|a|..][|b|..] == payload + rest;
  }

  lemma {:induction false} PayloadRoundTrip(tag: nat, payload: seq<Byte>, rest: seq<Byte>)
    requires tag < U32 && |payload| < I32
    ensures ReadHeader(Tagged(tag, payload) + rest) == Parsed(Some(Header(tag, |payload|)), payload + rest)
    ensures ReadPayload(Tagged(tag, payload) + rest) == Parsed(Some(Payload(tag, payload)), rest)
    ensures ReadFixed(Tagged(tag, payload) + rest, tag, |payload|) == Parsed(Some(payload), rest)
    ensures ReadString(Tagged(tag, payload) + rest, tag) == Parsed(Some(payload), rest)
    ensures ReadConsume(Tagged(tag, payload) + rest) == Parsed(Some(()), rest)
  {
    HeaderOfTagged(tag, payload, rest);
    assert (payload + rest)[..|payload|] == payload && (payload + rest)[|payload|..] == rest;
  }

  lemma {:induction false} IntItemRoundTrip(tag: nat, n: nat, maxNibbles: nat, rest: seq<Byte>)
    requires tag < U32 && Digits(n) <= maxNibbles <= 16
    ensures ReadInt(Tagged(tag, IntBytes(n)) + rest, tag, maxNibbles) == Parsed(Some(Decoded(n, |IntBytes(n)|)), rest)
  {
    HeaderOfTagged(tag, IntBytes(n), rest);
    IntRoundTrip(n, maxNibbles, rest);
    assert (IntBytes(n) + rest)[|IntBytes(n)|..] == rest;
  }

  ghost function TimeBytes(t: Time): (r: seq<Byte>)
    requires t.sec < U32 && t.usec < U32
    ensures |r| <= 18
  {
    DigitsOfU32(t.sec);
    DigitsOfU32(t.usec);
    IntBytes(t.sec) + IntBytes(t.usec)
  }

  lemma {:induction false} TimeDecodes(t: Time, rest: seq<Byte>)
    requires t.sec < U32 && t.usec < U32
    ensures DecodeTime(TimeBytes(t) + rest) == Some((t, |TimeBytes(t)|))
  {
    hide DecodeInt, IntBytes;
    DigitsOfU32(t.sec);
    DigitsOfU32(t.usec);
    var a, b := IntBytes(t.sec), IntBytes(t.usec);
    assert a + b + rest == a + (b + rest) && (a + (b + rest))[|a|..] == b + rest;
    IntRoundTrip(t.sec, INT_NIBBLES, b + rest);
    IntRoundTrip(t.usec, INT_NIBBLES, rest);
  }

  lemma {:induction false} TimeRoundTrip(tag: nat, t: Time, rest: seq<Byte>)
    requires tag < U32 && t.sec < U32 && t.usec < U32
    ensures ReadTime(Tagged(tag, TimeBytes(t)) + rest, tag) == Parsed(Some(t), rest)
  {
    hide TimeBytes, Tagged, ReadHeader, DecodeTime;
    PayloadRoundTrip(tag, TimeBytes(t), rest);
    TimeDecodes(t, rest);
    assert (TimeBytes(t) + rest)[|TimeBytes(t)|..] == rest;
  }

  // ---------- whole streams ----------

  datatype Item = Data(tag: nat, payload: seq<Byte>) | Int32(tag: nat, n: nat) | Int64(tag: nat, n: nat) | Timeval(tag: nat, time: Time) {
    ghost predicate Ok() {
      && tag < U32
      && match this
         case Data(_, p) => |p| < I32
         case Int32(_, n) => n < U32
         case Int64(_, n) => n < U64
         case Timeval(_, t) => t.sec < U32 && t.usec < U32
    }

    ghost function Encoding(): seq<Byte>
      requires Ok()
    {
      match this
      case Data(_, p) => Tagged(tag, p)
      case Int32(_, n) => DigitsOfU32(n); Tagged(tag, IntBytes(n))
      case Int64(_, n) => DigitsOfU32(n); Tagged(tag, IntBytes(n))
      case Timeval(_, t) => Tagged(tag, TimeBytes(t))
    }
  }

  /** Reading an item of the same kind and with the same tag as `like`. */
  ghost function ReadLike(s: seq<Byte>, like: Item): Parsed<Item> {
    match like
    case Data(tag, _) =>
      var r := ReadPayload(s);
      Parsed(if r.value.Some? then Some(Data(r.value.value.tag, r.value.value.data)) else None, r.rest)
    case Int32(tag, _) =>
      var r := ReadInt(s, tag, INT_NIBBLES);
      Parsed(if r.value.Some? then Some(Int32(tag, r.value.value.number)) else None, r.rest)
    case Int64(tag, _) =>
      var r := ReadInt(s, tag, INT64_NIBBLES);
      Parsed(if r.value.Some? then Some(Int64(tag, r.value.value.number)) else None, r.rest)
    case Timeval(tag, _) =>
      var r := ReadTime(s, tag);
      Parsed(if r.value.Some? then Some(Timeval(tag, r.value.value)) else None, r.rest)
  }

  lemma {:induction false} ItemRoundTrip(item: Item, rest: seq<Byte>)
    requires item.Ok()
    ensures ReadLike(item.Encoding() + rest, item) == Parsed(Some(item), rest)
  {
    match item
    case Data(tag, p) => PayloadRoundTrip(tag, p, rest);
    case Int32(tag, n) => DigitsOfU32(n); IntItemRoundTrip(tag, n, INT_NIBBLES, rest);
    case Int64(tag, n) => DigitsOfU32(n); IntItemRoundTrip(tag, n, INT64_NIBBLES, rest);
    case Timeval(tag, t) => TimeRoundTrip(tag, t, rest);
  }

  ghost function StreamBytes(items: seq<Item>): seq<Byte>
    requires forall item <- items :: item.Ok()
  {
    if items == [] then [] else items[0].Encoding() + StreamBytes(items[1..])
  }

  /** Reading one item after the other. */
  ghost function ReadStream(s: seq<Byte>, like: seq<Item>): Parsed<seq<Item>> {
    if like == [] then Parsed(Some([]), s)
    else
      var first := ReadLike(s, like[0]);
      if first.value == None then Parsed(None, first.rest)
      else
        var others := ReadStream(first.rest, like[1..]);
        Parsed(if others.value == None then None else Some([first.value.value] + others.value.value), others.rest)
  }

  /** A stream of items reads back as it was written, and what follows it is left alone. */
  lemma {:induction false} StreamRoundTrip(items: seq<Item>, rest: seq<Byte>)
    requires forall item <- items :: item.Ok()
    ensures ReadStream(StreamBytes(items) + rest, items) == Parsed(Some(items), rest)
  {
    if items == [] {
      assert StreamBytes(items) + rest == rest;
    } else {
      var tail := StreamBytes(items[1..]) + rest;
      assert StreamBytes(items) + rest == items[0].Encoding() + tail;
      ItemRoundTrip(items[0], tail);
      StreamRoundTrip(items[1..], rest);
      assert [items[0]] + items[1..] == items;
    }
  }

  /** evtag_peek_length is what evtag_consume takes away, as long as the payload is shorter than 2^31
      bytes; beyond that, only if the item is all there is and its length fits 32 bits. */
  lemma {:induction false} PeekIsConsume(s: seq<Byte>)
    requires ReadConsume(s).value.Some? && |s| < 0x8000_0000_0000_0000
    ensures PeekedLength(s).Some? && DecodeTag(s).Some?
    ensures var t := DecodeTag(s).value;
      var l := DecodeInt(s[t.len..], INT_NIBBLES).value;
      |s| - |ReadConsume(s).rest| == PeekedLength(s).value <==>
        l.number < I32 || (|s| == t.len + l.len + l.number && |s| < U32)
  {
    hide DecodeTagAt, DecodeInt, Power16;
    var t := DecodeTag(s).value;
    var l := DecodeInt(s[t.len..], INT_NIBBLES).value;
    TagIsShort(s, 0);
    IntIsShort(s[t.len..], INT_NIBBLES);
    Power16Of8();
    PeekedAndDrained(|s|, t.len, l.len, l.number);
  }

  lemma {:induction false} Power16Of8()
    ensures Power16(INT_NIBBLES) == U32
  {
    assert Power16(4) == 0x1_0000;
  }

  /** A length of `number` behind `t + l` bytes, in a buffer of `size` bytes: what drains is what the
      32-bit sum says. */
  lemma {:induction false} PeekedAndDrained(size: nat, t: nat, l: nat, number: nat)
    requires t <= 5 && l <= 5 && number < U32 && t + l + number <= size < 0x8000_0000_0000_0000
    ensures var rest := size - t - l;
      var drained := if 0 <= ToSize(ToInt(number)) <= rest then ToSize(ToInt(number)) else rest;
      t + l + drained == (number + l + t) % U32 <==> number < I32 || (size == t + l + number && size < U32)
  {
  }

  lemma {:induction false} TagIsShort(s: seq<Byte>, i: nat)
    ensures DecodeTagAt(s, i).Some? ==> i <= 4 && DecodeTagAt(s, i).value.len <= 5 - i
    decreases |s| - i
  {
    if i < |s| && i <= 4 {
      TagIsShort(s, i + 1);
    }
  }

  lemma {:induction false} IntIsShort(s: seq<Byte>, maxNibbles: nat)
    ensures DecodeInt(s, maxNibbles).Some? ==> DecodeInt(s, maxNibbles).value.len <= maxNibbles / 2 + 1
    ensures DecodeInt(s, maxNibbles).Some? ==> DecodeInt(s, maxNibbles).value.number < Power16(maxNibbles)
  {
    if DecodeInt(s, maxNibbles).Some? {
      var k := s[0] / 16 + 1;
      ValueIsSmall(s, 0, k);
      PowerGrows(k, maxNibbles);
    }
  }

  lemma {:induction false} PowerGrows(j: nat, k: nat)
    requires j <= k
    ensures Power16(j) <= Power16(k)
  {
    if j < k {
      PowerGrows(j, k - 1);
    }
  }

  lemma {:induction false} ValueIsSmall(s: seq<Byte>, m: nat, k: nat)
    requires m <= k && k / 2 < |s|
    ensures Value(s, m, k) < Power16(k - m)
    decreases k - m
  {
    if m < k {
      ValueIsSmall(s, m + 1, k);
    }
  }
}
