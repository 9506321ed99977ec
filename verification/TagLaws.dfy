/** What the readers of tagged data accept, what they say no to, and what they leave behind then. */
module TagLaws {
  import opened Bytes
  import opened Division
  import opened Wrappers
  import opened TagFormat
  import opened TagStream

  /** At the front of `s` there are a tag and a length, `h` bytes of header in all. */
  ghost predicate Framed(s: seq<Byte>, tag: nat, length: nat, h: nat) {
    && DecodeTag(s).Some? && DecodeTag(s).value.number == tag
    && var t := DecodeTag(s).value.len;
      t <= h && DecodeInt(s[t..], INT_NIBBLES) == Some(Decoded(length, h - t))
  }

  /** And the whole payload is there. */
  ghost predicate Whole(s: seq<Byte>, tag: nat, length: nat, h: nat) {
    Framed(s, tag, length, h) && h + length <= |s|
  }

  /** The header is determined by the bytes, and it is there. */
  lemma {:induction false} FramedOnce(s: seq<Byte>, tag: nat, length: nat, h: nat)
    requires Framed(s, tag, length, h)
    ensures h <= |s| && s[DecodeTag(s).value.len..][h - DecodeTag(s).value.len..] == s[h..] && length < U32
    ensures forall tag2: nat, length2: nat, h2: nat :: Framed(s, tag2, length2, h2) ==> tag2 == tag && length2 == length && h2 == h
  {
    hide DecodeTagAt, DecodeInt;
    var t := DecodeTag(s).value.len;
    IntIsShort(s[t..], INT_NIBBLES);
    Power16Of8();
  }

  /** evtag_unmarshal_header: a whole item, unless its length reads as -1. */
  lemma {:induction false} HeaderExactly(s: seq<Byte>, tag: nat, length: nat, h: nat)
    requires Framed(s, tag, length, h)
    ensures h <= |s|
    ensures ReadHeader(s)
      == if h + length <= |s| && ToInt(length) != -1 then Parsed(Some(Header(tag, ToInt(length))), s[h..]) else Parsed(None, s[h..])
  {
    FramedOnce(s, tag, length, h);
    hide DecodeTagAt, DecodeInt;
  }

  lemma {:induction false} HeaderIsFramed(s: seq<Byte>)
    requires ReadHeader(s).value.Some?
    ensures exists length: nat, h: nat ::
      Whole(s, ReadHeader(s).value.value.tag, length, h) && ToInt(length) == ReadHeader(s).value.value.len
  {
    hide DecodeTagAt, DecodeInt;
    var t := DecodeTag(s).value;
    var l := DecodeInt(s[t.len..], INT_NIBBLES).value;
    assert Whole(s, t.number, l.number, t.len + l.len);
  }

  // ---------- integers ----------

  /** evtag_unmarshal_int accepts exactly a whole item with the tag asked for whose payload starts with
      an integer, and takes the item away in any case once it is whole. */
  lemma {:induction false} IntExactly(s: seq<Byte>, tag: nat, length: nat, h: nat, needTag: nat, maxNibbles: nat)
    requires Framed(s, tag, length, h)
    ensures h <= |s|
    ensures var r, d := ReadInt(s, needTag, maxNibbles), DecodeInt(s[h..], maxNibbles);
      && (r.value.Some? <==> tag == needTag && h + length <= |s| && d.Some? && d.value.len <= length)
      && (r.value.Some? ==> r.value == d)
      && (tag == needTag ==> r.rest == if h + length <= |s| then s[h + length..] else s[h..])
  {
    FramedOnce(s, tag, length, h);
    hide DecodeTagAt, DecodeInt;
    if h + length <= |s| {
      CutPayload(s, h, length);
    }
  }

  /** With another tag it fails, and exactly the tag is gone. */
  lemma {:induction false} IntOtherTag(s: seq<Byte>, needTag: nat, maxNibbles: nat)
    ensures var t, r := DecodeTag(s), ReadInt(s, needTag, maxNibbles);
      && (r.value.Some? ==> t.Some? && t.value.number == needTag)
      && (t == None ==> r == Parsed(None, s))
      && (t.Some? && t.value.number != needTag ==> r == Parsed(None, s[t.value.len..]))
  {
    hide DecodeTagAt, DecodeInt;
  }

  // ---------- payloads ----------

  /** evtag_unmarshal_fixed accepts exactly a whole item of this tag and length. */
  lemma {:induction false} FixedExactly(s: seq<Byte>, needTag: nat, len: nat)
    ensures var r := ReadFixed(s, needTag, len);
      (r.value.Some? <==> len < I32 && exists h: nat :: Whole(s, needTag, len, h))
      && forall h: nat :: len < I32 && Whole(s, needTag, len, h) ==> r == Parsed(Some(s[h..h + len]), s[h + len..])
  {
    hide DecodeTagAt, DecodeInt;
    forall h: nat | len < I32 && Whole(s, needTag, len, h)
      ensures ReadFixed(s, needTag, len) == Parsed(Some(s[h..h + len]), s[h + len..])
    {
      HeaderExactly(s, needTag, len, h);
      CutPayload(s, h, len);
    }
    if ReadFixed(s, needTag, len).value.Some? {
      HeaderIsFramed(s);
      var length: nat, h: nat :| Whole(s, ReadHeader(s).value.value.tag, length, h) && ToInt(length) == ReadHeader(s).value.value.len;
      FramedOnce(s, ReadHeader(s).value.value.tag, length, h);
    }
  }

  /** evtag_unmarshal_string accepts exactly a whole item of this tag, of any length below 2^31. */
  lemma {:induction false} StringExactly(s: seq<Byte>, needTag: nat)
    ensures var r := ReadString(s, needTag);
      (r.value.Some? <==> exists length: nat, h: nat :: length < I32 && Whole(s, needTag, length, h))
      && forall length: nat, h: nat :: length < I32 && Whole(s, needTag, length, h) ==>
           r == Parsed(Some(s[h..h + length]), s[h + length..])
  {
    hide DecodeTagAt, DecodeInt;
    forall length: nat, h: nat | length < I32 && Whole(s, needTag, length, h)
      ensures ReadString(s, needTag) == Parsed(Some(s[h..h + length]), s[h + length..])
    {
      HeaderExactly(s, needTag, length, h);
      CutPayload(s, h, length);
    }
    if ReadString(s, needTag).value.Some? {
      HeaderIsFramed(s);
      var length: nat, h: nat :| Whole(s, ReadHeader(s).value.value.tag, length, h) && ToInt(length) == ReadHeader(s).value.value.len;
      FramedOnce(s, ReadHeader(s).value.value.tag, length, h);
    }
  }

  lemma CutPayload(s: seq<Byte>, h: nat, n: nat)
    requires h + n <= |s|
    ensures s[h..][..n] == s[h..h + n] && s[h..][n..] == s[h + n..]
  {
  }

  /** With another tag both fail: of a whole item the payload is left. */
  lemma {:induction false} PayloadOtherTag(s: seq<Byte>, tag: nat, length: nat, h: nat, needTag: nat, len: nat)
    requires Framed(s, tag, length, h) && tag != needTag
    ensures h <= |s| && ReadFixed(s, needTag, len) == Parsed(None, s[h..]) && ReadString(s, needTag) == Parsed(None, s[h..])
  {
    HeaderExactly(s, tag, length, h);
  }

  /** evtag_unmarshal takes any whole item of less than 2^31 bytes. */
  lemma {:induction false} PayloadExactly(s: seq<Byte>, tag: nat, length: nat, h: nat)
    requires Framed(s, tag, length, h)
    ensures h <= |s|
    ensures ReadPayload(s)
      == if h + length <= |s| && length < I32 then Parsed(Some(Payload(tag, s[h..h + length])), s[h + length..]) else Parsed(None, s[h..])
  {
    HeaderExactly(s, tag, length, h);
    FramedOnce(s, tag, length, h);
    if h + length <= |s| {
      CutPayload(s, h, length);
    }
  }

  /** evtag_consume takes it away, but from 2^31 bytes on everything goes. The lengths that can be peeked
      at are those of the header and the payload, whether it is there or not. */
  lemma {:induction false} ConsumeExactly(s: seq<Byte>, tag: nat, length: nat, h: nat)
    requires Framed(s, tag, length, h) && |s| < 0x8000_0000_0000_0000
    ensures h <= |s|
    ensures ReadConsume(s)
      == if h + length <= |s| && length != U32 - 1 then Parsed(Some(()), if length < I32 then s[h + length..] else [])
         else Parsed(None, s[h..])
    ensures PayloadLen(s) == Some(length) && PeekedLength(s) == Some((h + length) % U32)
  {
    HeaderExactly(s, tag, length, h);
    FramedOnce(s, tag, length, h);
    if h + length <= |s| {
      CutPayload(s, h, length);
    }
  }

  // ---------- times ----------

  /** evtag_unmarshal_timeval accepts exactly a whole item of this tag that starts with two integers,
      within its length. */
  lemma {:induction false} TimeExactly(s: seq<Byte>, tag: nat, length: nat, h: nat, needTag: nat)
    requires Framed(s, tag, length, h)
    ensures h <= |s|
    ensures var r, t := ReadTime(s, needTag), DecodeTime(s[h..]);
      && (r.value.Some? <==> tag == needTag && h + length <= |s| && t.Some? && t.value.1 <= length < I32)
      && (r.value.Some? ==> r.value.value == t.value.0)
      && (h + length <= |s| && length < I32 ==> r.rest == s[h + length..])
      && (h + length > |s| ==> r.rest == s[h..])
  {
    HeaderExactly(s, tag, length, h);
    FramedOnce(s, tag, length, h);
    hide DecodeTagAt, DecodeInt, DecodeTime, ReadHeader;
    if h + length <= |s| {
      CutPayload(s, h, length);
    }
  }

  /** Without a header nothing is read; what is left is what its reader leaves. */
  lemma {:induction false} NoHeader(s: seq<Byte>, needTag: nat, len: nat)
    requires forall tag: nat, length: nat, h: nat :: !Framed(s, tag, length, h)
    ensures var left := if DecodeTag(s) == None then s else s[DecodeTag(s).value.len..];
      && ReadHeader(s) == Parsed(None, left)
      && ReadFixed(s, needTag, len) == Parsed(None, left) && ReadString(s, needTag) == Parsed(None, left)
      && ReadTime(s, needTag) == Parsed(None, left) && forall maxNibbles :: ReadInt(s, needTag, maxNibbles) == Parsed(None, left)
  {
    hide DecodeInt;
    if DecodeTag(s).Some? {
      var t := DecodeTag(s).value;
      var l := DecodeInt(s[t.len..], INT_NIBBLES);
      assert l.Some? ==> Framed(s, t.number, l.value.number, t.len + l.value.len);
    }
  }

  // ---------- the bytes themselves ----------

  /** Byte `i` of an integer: in its low half digit `2 * i`, in its high half the digit before, or in the
      first byte the number of digits less one. */
  lemma {:induction false} IntByteIs(n: nat, i: nat)
    requires Digits(n) <= 16 && i < |IntBytes(n)|
    ensures Power16(2 * i) > 0 && (i > 0 ==> Power16(2 * i - 1) > 0)
    ensures IntBytes(n)[i] % 16 == n / Power16(2 * i) % 16
    ensures IntBytes(n)[i] / 16 == if i == 0 then Digits(n) - 1 else n / Power16(2 * i - 1) % 16
    ensures |IntBytes(n)| == Digits(n) / 2 + 1 && n < Power16(Digits(n)) && (Digits(n) > 1 ==> n >= Power16(Digits(n) - 1))
  {
    hide Shift, Power16, Digits;
    ShiftIs(n, 2 * i);
    if i > 0 {
      ShiftIs(n, 2 * i - 1);
    }
    Highest(n);
  }

  lemma {:induction false} Highest(n: nat)
    ensures n < Power16(Digits(n)) && (Digits(n) > 1 ==> n >= Power16(Digits(n) - 1))
  {
    DigitsBound(n, Digits(n));
    if Digits(n) > 1 {
      DigitsBound(n, Digits(n) - 1);
    }
  }

  lemma {:induction false} ShiftIs(n: nat, m: nat)
    ensures Power16(m) > 0 && Shift(n, m) == n / Power16(m)
  {
    PowerIsPositive(m);
    if m > 0 {
      ShiftIs(n / 16, m - 1);
      DivideTwice(n, 16, Power16(m - 1));
    }
  }

  /** Byte `i` of a tag: seven bits from bit `7 * i` on, and whether another byte follows. */
  lemma {:induction false} TagByteIs(tag: nat, i: nat)
    requires i < |TagBytes(tag)|
    ensures TagBytes(tag)[i] % 128 == tag / Power128(i) % 128
    ensures TagBytes(tag)[i] >= 128 <==> i + 1 < |TagBytes(tag)|
    ensures tag / Power128(i) < 128 <==> i + 1 == |TagBytes(tag)|
  {
    var bytes := TagBytes(tag);
    if i > 0 {
      assert bytes == [tag % 128 + 128] + TagBytes(tag / 128);
      assert bytes[i] == TagBytes(tag / 128)[i - 1];
      TagByteIs(tag / 128, i - 1);
      DivideTwice(tag, 128, Power128(i - 1));
    } else {
      assert Power128(0) == 1;
    }
  }
}
