/** Tagged data in evbuffers: the evtag_marshal and evtag_unmarshal functions. */
module Tagging {
  import opened Bytes
  import opened Wrappers
  import opened EvBufferCore
  import opened EvBufferAdd
  import opened EvBufferDrain
  import opened EvBufferMove
  import opened EvBufferPullup
  import opened TagFormat
  import opened TagStream

  /** The longest header: five bytes of tag and five of length. */
  const MAX_HEADER: nat := 10

  /** The buffer takes `n` more bytes at its end. */
  ghost predicate Takes(buf: EvBuffer, n: nat)
    reads buf
  {
    !buf.freeze_end && buf.total_len + n <= SIZE_MAX && n <= CHAIN_MAX - CHAIN_SIZE
  }

  twostate lemma FreshByIndex(buf: EvBuffer)
    requires OnlyFreshChains(buf)
    ensures forall i :: 0 <= i < |buf.chains| ==> buf.chains[i] in old(buf.chains) || fresh(buf.chains[i])
  {
    assert forall i :: 0 <= i < |buf.chains| ==> buf.chains[i] in buf.chains;
  }

  // ---------- writing ----------

  /** evbuffer_add */
  method Append(buf: EvBuffer, data: seq<Byte>) returns (r: int)
    requires buf.Valid()
    modifies buf, buf.chains
    ensures buf.Valid() && OnlyFreshChains(buf) && SameSettings(buf)
    ensures r == if old(Takes(buf, |data|)) then 0 else -1
    ensures buf.Contents() == old(buf.Contents()) + (if r == 0 then data else [])
    ensures r == 0 ==> buf.total_len == old(buf.total_len) + |data|
    ensures forall i :: 0 <= i < |buf.chains| ==> buf.chains[i] in old(buf.chains) || fresh(buf.chains[i])
  {
    hide Flat, EvBuffer.Linked;
    r := Add(buf, data);
    FreshByIndex(buf);
  }

  /** One evbuffer_add of the marshalling functions, which do not look at its result. */
  method Put(buf: EvBuffer, data: seq<Byte>)
    requires buf.Valid()
    modifies buf, buf.chains
    ensures buf.Valid() && OnlyFreshChains(buf) && SameSettings(buf)
    ensures old(Takes(buf, |data|)) ==> buf.Contents() == old(buf.Contents()) + data && buf.total_len == old(buf.total_len) + |data|
    ensures forall i :: 0 <= i < |buf.chains| ==> buf.chains[i] in old(buf.chains) || fresh(buf.chains[i])
  {
    hide Flat, EvBuffer.Linked;
    var r := Append(buf, data);
  }

  /** The bytes of one integer of an unsigned type. */
  method IntData(n: nat, width: nat) returns (bytes: seq<Byte>)
    requires 0 < Digits(n) <= 2 * width <= 16
    ensures bytes == IntBytes(n)
  {
    var data := new Byte[width + 1];
    var len := EncodeIntInternal(data, 0, width, n);
    bytes := data[..len];
    assert data[0..0 + len] == data[..len];
  }

  lemma {:induction false} TagFits(tag: nat)
    requires tag < U32
    ensures |TagBytes(tag)| <= 5
  {
    TagRoundTrip(tag, []);
    TagIsShort(TagBytes(tag) + [], 0);
  }

  /** evtag_marshal */
  method Marshal(buf: EvBuffer, tag: nat, payload: seq<Byte>)
    requires buf.Valid() && tag < U32 && |payload| < U32
    modifies buf, buf.chains
    ensures buf.Valid() && OnlyFreshChains(buf) && SameSettings(buf)
    ensures old(Takes(buf, |payload| + MAX_HEADER)) ==> buf.Contents() == old(buf.Contents()) + Tagged(tag, payload)
  {
    hide Flat, EvBuffer.Linked, IntBytes, TagBytes;
    TagFits(tag);
    DigitsOfU32(|payload|);
    var t := EncodeTag(tag);
    var l := IntData(|payload|, 4);
    Assoc(old(buf.Contents()), t + l, payload);
    PutBoth(buf, t, l);
    Put(buf, payload);
  }

  /** Tag and length, added one after the other. */
  method PutBoth(buf: EvBuffer, t: seq<Byte>, l: seq<Byte>)
    requires buf.Valid()
    modifies buf, buf.chains
    ensures buf.Valid() && OnlyFreshChains(buf) && SameSettings(buf)
    ensures old(Takes(buf, |t| + |l|)) ==>
      buf.Contents() == old(buf.Contents()) + (t + l) && buf.total_len == old(buf.total_len) + |t| + |l|
    ensures forall i :: 0 <= i < |buf.chains| ==> buf.chains[i] in old(buf.chains) || fresh(buf.chains[i])
  {
    hide Flat, EvBuffer.Linked;
    Assoc(old(buf.Contents()), t, l);
    Put(buf, t);
    Put(buf, l);
    FreshByIndex(buf);
  }

  /** evtag_marshal_int and, with a width of eight bytes, evtag_marshal_int64 */
  method MarshalInt(buf: EvBuffer, tag: nat, n: nat, width: nat)
    requires buf.Valid() && tag < U32 && Digits(n) <= 2 * width <= 16
    modifies buf, buf.chains
    ensures buf.Valid() && OnlyFreshChains(buf) && SameSettings(buf)
    ensures old(Takes(buf, 9 + MAX_HEADER)) ==> buf.Contents() == old(buf.Contents()) + Tagged(tag, IntBytes(n))
  {
    hide Flat, EvBuffer.Linked;
    var data := IntData(n, width);
    Marshal(buf, tag, data);
  }

  /** evtag_marshal_timeval: two integers in one array of ten bytes. The fields lose what does not fit
      32 bits. */
  method MarshalTimeval(buf: EvBuffer, tag: nat, sec: int, usec: int)
    requires buf.Valid() && tag < U32
    modifies buf, buf.chains
    ensures buf.Valid() && OnlyFreshChains(buf) && SameSettings(buf)
    ensures old(Takes(buf, 10 + MAX_HEADER)) ==>
      buf.Contents() == old(buf.Contents()) + Tagged(tag, TimeBytes(Time(sec % U32, usec % U32)))
  {
    hide Flat, EvBuffer.Linked, IntBytes;
    var data := new Byte[10];
    var len := EncodeTimeval(data, sec % U32, usec % U32);
    Marshal(buf, tag, data[..len]);
  }

  /** The two numbers of a time, one behind the other. */
  method EncodeTimeval(data: array<Byte>, sec: nat, usec: nat) returns (len: nat)
    requires data.Length == 10 && sec < U32 && usec < U32
    modifies data
    ensures len <= 10 && data[..len] == TimeBytes(Time(sec, usec))
  {
    hide IntBytes;
    DigitsOfU32(sec);
    DigitsOfU32(usec);
    var first := EncodeIntInternal(data, 0, 4, sec);
    ghost var start := data[..first];
    assert start == data[0..0 + first];
    var second := EncodeIntInternal(data, first, 4, usec);
    assert data[..first + second] == start + data[first..first + second];
    len := first + second;
  }

  /** evtag_marshal_buffer: the payload moves over from another buffer. */
  method MarshalBuffer(buf: EvBuffer, tag: nat, data: EvBuffer)
    requires buf.Valid() && data.Valid() && tag < U32 && buf != data && Disjoint(buf, data)
    modifies buf, data, buf.chains, data.chains
    ensures buf.Valid() && data.Valid()
    ensures old(Takes(buf, MAX_HEADER)) && !data.freeze_start && old(data.total_len) < U32 ==>
      && buf.Contents() == old(buf.Contents()) + Tagged(tag, old(data.Contents()))
      && data.Contents() == []
  {
    hide Flat, EvBuffer.Linked, IntBytes, TagBytes;
    TagFits(tag);
    DigitsOfU32(data.total_len % U32);
    var t := EncodeTag(tag);
    var l := IntData(data.total_len % U32, 4);
    Assoc(old(buf.Contents()), t + l, data.Contents());
    PutBoth(buf, t, l);
    assert Disjoint(buf, data);
    var r := AddBuffer(buf, data);
  }

  // ---------- reading ----------

  /** The first `n` bytes of the first chunk end where its memory ends. */
  ghost predicate FillsFirst(buf: EvBuffer, n: nat)
    reads buf, buf.first
  {
    buf.first != null && buf.first.misalign + n == |buf.first.buffer|
  }

  /** evbuffer_pullup of a few bytes, and those bytes. `atEnd` says that no memory follows them. */
  method Fetch(buf: EvBuffer, n: nat) returns (data: Option<seq<Byte>>, ghost atEnd: bool)
    requires buf.Valid() && n <= CHAIN_MAX - CHAIN_SIZE
    modifies buf, buf.chains
    ensures buf.Valid() && OnlyFreshChains(buf) && SameSettings(buf)
    ensures buf.Contents() == old(buf.Contents()) && buf.total_len == old(buf.total_len)
    ensures data == if n == 0 || n > |buf.Contents()| then None else Some(buf.Contents()[..n])
    ensures data.Some? && n <= 5 ==> (atEnd <==> old(FillsFirst(buf, n)))
    ensures forall i :: 0 <= i < |buf.chains| ==> buf.chains[i] in old(buf.chains) || fresh(buf.chains[i])
  {
    hide Flat, EvBuffer.Linked;
    NonEmptyFirst(buf);
    var chain := Pullup(buf, n);
    FreshByIndex(buf);
    data := if chain == null then None else Some(chain.buffer[chain.misalign..chain.misalign + n]);
    atEnd := chain != null && chain.misalign + n == |chain.buffer|;
  }

  lemma {:induction false} NonEmptyFirst(buf: EvBuffer)
    requires buf.Valid()
    ensures |buf.Contents()| == buf.total_len && (buf.total_len > 0 ==> buf.first != null)
  {
  }

  /** decode_tag_internal. `beyond` says that it reads a byte behind the memory of a chunk: exactly when
      it looks at a sixth byte, and the five that it asked for end where the memory of the first chunk
      ends. */
  method DecodeTagInternal(buf: EvBuffer, dodrain: bool) returns (r: int, tag: nat, ghost beyond: bool)
    requires buf.Valid()
    modifies buf, buf.chains
    ensures buf.Valid() && OnlyFreshChains(buf) && SameSettings(buf)
    ensures r == -1 || 0 < r <= |old(buf.Contents())|
    ensures DecodeTag(old(buf.Contents())) == if r == -1 then None else Some(Decoded(tag, r))
    ensures beyond <==> ReadsSixth(old(buf.Contents())) && old(FillsFirst(buf, 5))
    ensures !dodrain || !buf.freeze_start ==> buf.Contents() == if r != -1 && dodrain then old(buf.Contents())[r..] else old(buf.Contents())
    ensures forall i :: 0 <= i < |buf.chains| ==> buf.chains[i] in old(buf.chains) || fresh(buf.chains[i])
  {
    hide Flat, EvBuffer.Linked, DecodeTagAt, FillsFirst;
    ghost var s := buf.Contents();
    var len := buf.total_len;
    var data, atEnd := Fetch(buf, if len < 5 then len else 5);
    if data == None {
      NoTag(s);
      return -1, 0, false;
    }
    var ok, number, count, sixth := DecodeTagLoop(data.value, len, s);
    beyond := sixth && atEnd;
    if !ok {
      return -1, 0, beyond;
    }
    if dodrain {
      DrainSilently(buf, count);
    }
    r, tag := count, number;
  }

  lemma NoTag(s: seq<Byte>)
    ensures s == [] ==> DecodeTag(s) == None
  {
  }

  /** evbuffer_drain by a caller that does not look at its result. */
  method DrainSilently(buf: EvBuffer, n: nat)
    requires buf.Valid()
    modifies buf, buf.chains
    ensures buf.Valid() && OnlyFreshChains(buf) && SameSettings(buf)
    ensures !buf.freeze_start ==> buf.Contents() == if n <= |old(buf.Contents())| then old(buf.Contents())[n..] else []
    ensures forall i :: 0 <= i < |buf.chains| ==> buf.chains[i] in old(buf.chains) || fresh(buf.chains[i])
  {
    hide Flat, EvBuffer.Linked;
    var r := Drain(buf, n);
    FreshByIndex(buf);
  }

  /** DECODE_INT_INTERNAL: the integer at `offset`, which stays where it is. */
  method DecodeIntInternal(buf: EvBuffer, offset: nat, maxNibbles: nat) returns (r: int, number: nat)
    requires buf.Valid() && offset <= 32 && maxNibbles <= 16
    modifies buf, buf.chains
    ensures buf.Valid() && OnlyFreshChains(buf) && SameSettings(buf) && buf.Contents() == old(buf.Contents())
    ensures r == -1 || (r > 0 && offset + r <= |buf.Contents()|)
    ensures (if offset > |buf.Contents()| then None else DecodeInt(buf.Contents()[offset..], maxNibbles))
      == if r == -1 then None else Some(Decoded(number, r))
    ensures forall i :: 0 <= i < |buf.chains| ==> buf.chains[i] in old(buf.chains) || fresh(buf.chains[i])
  {
    hide Flat, EvBuffer.Linked, Value;
    ghost var s := buf.Contents();
    var len := buf.total_len - offset;
    if len <= 0 {
      return -1, 0;
    }
    var head, headEnd := Fetch(buf, offset + 1);
    assert head.value[offset] == s[offset..][0];
    var nibbles := head.value[offset] / 16 + 1;
    if nibbles > maxNibbles || nibbles / 2 + 1 > len {
      return -1, 0;
    }
    len := nibbles / 2 + 1;
    var data, atEnd := Fetch(buf, offset + len);
    number := DecodeDigits(data.value[offset..], nibbles);
    assert data.value[offset..] == s[offset..][..len];
    ValueOfPrefix(s[offset..][..len], s[offset..], 0, nibbles);
    r := len;
  }

  lemma {:induction false} ValueOfPrefix(p: seq<Byte>, q: seq<Byte>, m: nat, k: nat)
    requires p <= q && m <= k && k / 2 < |p|
    ensures Value(p, m, k) == Value(q, m, k)
    decreases k - m
  {
    if m < k {
      ValueOfPrefix(p, q, m + 1, k);
    }
  }

  lemma TagLenBound(s: seq<Byte>)
    ensures DecodeTag(s).Some? ==> DecodeTag(s).value.len <= 5
  {
    TagIsShort(s, 0);
  }

  /** evtag_peek_length */
  method PeekLength(buf: EvBuffer) returns (r: int, length: nat)
    requires buf.Valid()
    modifies buf, buf.chains
    ensures buf.Valid() && OnlyFreshChains(buf) && SameSettings(buf)
    ensures buf.Contents() == old(buf.Contents()) && (r == 0 || r == -1)
    ensures PeekedLength(buf.Contents()) == if r == -1 then None else Some(length)
  {
    hide Flat, EvBuffer.Linked, DecodeTag, DecodeInt;
    var len, tag, beyond := DecodeTagInternal(buf, false);
    if len == -1 {
      return -1, 0;
    }
    TagLenBound(buf.Contents());
    var res, number := DecodeIntInternal(buf, len, INT_NIBBLES);
    if res == -1 {
      return -1, 0;
    }
    r, length := 0, (number + res + len) % U32;
  }

  /** evtag_payload_length */
  method PayloadLength(buf: EvBuffer) returns (r: int, length: nat)
    requires buf.Valid()
    modifies buf, buf.chains
    ensures buf.Valid() && OnlyFreshChains(buf) && SameSettings(buf)
    ensures buf.Contents() == old(buf.Contents()) && (r == 0 || r == -1)
    ensures PayloadLen(buf.Contents()) == if r == -1 then None else Some(length)
  {
    hide Flat, EvBuffer.Linked, DecodeTag, DecodeInt;
    var len, tag, beyond := DecodeTagInternal(buf, false);
    if len == -1 {
      return -1, 0;
    }
    TagLenBound(buf.Contents());
    var res, number := DecodeIntInternal(buf, len, INT_NIBBLES);
    if res == -1 {
      return -1, 0;
    }
    r, length := 0, number;
  }

  lemma SmallInt(s: seq<Byte>)
    ensures DecodeInt(s, INT_NIBBLES).Some? ==> DecodeInt(s, INT_NIBBLES).value.number < U32
  {
    IntIsShort(s, INT_NIBBLES);
    assert Power16(4) == 0x1_0000 && Power16(8) == U32;
  }

  /** evtag_decode_int, which drains the integer */
  method DecodeIntAndDrain(buf: EvBuffer) returns (r: int, number: nat)
    requires buf.Valid()
    modifies buf, buf.chains
    ensures buf.Valid() && OnlyFreshChains(buf) && SameSettings(buf)
    ensures forall i :: 0 <= i < |buf.chains| ==> buf.chains[i] in old(buf.chains) || fresh(buf.chains[i])
    ensures (r == 0 || r == -1) && number < U32
    ensures var d := DecodeInt(old(buf.Contents()), INT_NIBBLES);
      && (r == -1 <==> d == None) && (r == 0 ==> number == d.value.number)
      && (!buf.freeze_start ==> buf.Contents() == if r == 0 then old(buf.Contents())[d.value.len..] else old(buf.Contents()))
  {
    hide Flat, EvBuffer.Linked, DecodeInt;
    assert buf.Contents()[0..] == buf.Contents();
    SmallInt(buf.Contents());
    var res;
    res, number := DecodeIntInternal(buf, 0, INT_NIBBLES);
    if res != -1 {
      DrainSilently(buf, res);
      FreshByIndex(buf);
    }
    r := if res == -1 then -1 else 0;
    number := if res == -1 then 0 else number;
  }

  /** evtag_unmarshal_header */
  method UnmarshalHeader(buf: EvBuffer) returns (r: int, tag: nat)
    requires buf.Valid()
    modifies buf, buf.chains
    ensures -0x8000_0000 <= r <= buf.total_len && r < I32
    ensures buf.Valid() && OnlyFreshChains(buf) && SameSettings(buf)
    ensures forall i :: 0 <= i < |buf.chains| ==> buf.chains[i] in old(buf.chains) || fresh(buf.chains[i])
    ensures !buf.freeze_start ==>
      var h := ReadHeader(old(buf.Contents()));
      && h.value == (if r == -1 then None else Some(Header(tag, r)))
      && buf.Contents() == h.rest
  {
    hide Flat, EvBuffer.Linked, DecodeTag, DecodeInt;
    var t;
    ghost var beyond;
    t, tag, beyond := DecodeTagInternal(buf, true);
    if t == -1 {
      return -1, 0;
    }
    var d, len := DecodeIntAndDrain(buf);
    FreshByIndex(buf);
    if d == -1 {
      return -1, tag;
    }
    if buf.total_len < len {
      return -1, tag;
    }
    r := ToInt(len);
  }

  /** evtag_consume */
  method Consume(buf: EvBuffer) returns (r: int)
    requires buf.Valid()
    modifies buf, buf.chains
    ensures buf.Valid() && OnlyFreshChains(buf) && SameSettings(buf)
    ensures !buf.freeze_start ==>
      var c := ReadConsume(old(buf.Contents()));
      r == (if c.value == None then -1 else 0) && buf.Contents() == c.rest
  {
    hide Flat, EvBuffer.Linked, ReadHeader;
    var len, tag := UnmarshalHeader(buf);
    if len == -1 {
      return -1;
    }
    DrainInt(buf, len);
    FreshByIndex(buf);
    r := 0;
  }

  /** evbuffer_drain with a length of type int, which becomes a size_t. */
  method DrainInt(buf: EvBuffer, len: int)
    requires buf.Valid() && ToSize(len) >= 0
    modifies buf, buf.chains
    ensures buf.Valid() && OnlyFreshChains(buf) && SameSettings(buf)
    ensures !buf.freeze_start ==> buf.Contents() == Drained(old(buf.Contents()), len)
    ensures forall i :: 0 <= i < |buf.chains| ==> buf.chains[i] in old(buf.chains) || fresh(buf.chains[i])
  {
    hide Flat, EvBuffer.Linked;
    DrainSilently(buf, ToSize(len));
  }

  /** evbuffer_add of the first `len` bytes of `src` to `dst`, and evbuffer_drain of them. */
  method MovePayload(src: EvBuffer, dst: EvBuffer, len: nat) returns (r: int)
    requires src.Valid() && dst.Valid() && src != dst && Disjoint(src, dst) && len <= src.total_len && len < I32
    modifies src, dst, src.chains, dst.chains
    ensures src.Valid() && dst.Valid() && SameSettings(src)
    ensures old(Takes(dst, len)) ==> r == len && dst.Contents() == old(dst.Contents()) + old(src.Contents())[..len]
    ensures old(Takes(dst, len)) && !src.freeze_start ==> src.Contents() == old(src.Contents())[len..]
    ensures !old(Takes(dst, len)) ==> r == -1 && dst.Contents() == old(dst.Contents()) && src.Contents() == old(src.Contents())
  {
    hide Flat, EvBuffer.Linked;
    var data, atEnd := Fetch(src, len);
    assert Disjoint(src, dst);
    var bytes := if data == None then [] else data.value;
    assert bytes == src.Contents()[..len];
    var added := Append(dst, bytes);
    assert Disjoint(src, dst);
    if added == -1 {
      return -1;
    }
    DrainSilently(src, len);
    r := len;
  }

  /** evtag_unmarshal: the payload is appended to `dst`. If `dst` does not take it, the payload stays,
      but the header is gone. */
  method Unmarshal(src: EvBuffer, dst: EvBuffer) returns (r: int, tag: nat)
    requires src.Valid() && dst.Valid() && src != dst && Disjoint(src, dst)
    modifies src, dst, src.chains, dst.chains
    ensures src.Valid() && dst.Valid()
    ensures !src.freeze_start ==>
      var p := ReadPayload(old(src.Contents()));
      if p.value == None then r == -1 && src.Contents() == p.rest && dst.Contents() == old(dst.Contents())
      else if old(Takes(dst, |p.value.value.data|)) then
        && r == |p.value.value.data| && tag == p.value.value.tag
        && src.Contents() == p.rest && dst.Contents() == old(dst.Contents()) + p.value.value.data
      else r == -1 && src.Contents() == p.value.value.data + p.rest && dst.Contents() == old(dst.Contents())
  {
    hide Flat, EvBuffer.Linked, ReadHeader;
    r, tag := UnmarshalHeader(src);
    if r == -1 {
      return;
    }
    assert Disjoint(src, dst);
    if r < 0 {
      // As a length for evbuffer_add, this is more than any buffer takes.
      return -1, tag;
    }
    r := MovePayload(src, dst, r);
  }

  /** evtag_unmarshal_int and, with 16 nibbles, evtag_unmarshal_int64 */
  method UnmarshalInt(buf: EvBuffer, needTag: nat, maxNibbles: nat) returns (r: int, number: nat)
    requires buf.Valid() && maxNibbles <= 16
    modifies buf, buf.chains
    ensures buf.Valid() && OnlyFreshChains(buf) && SameSettings(buf)
    ensures !buf.freeze_start ==>
      var p := ReadInt(old(buf.Contents()), needTag, maxNibbles);
      && (r == -1 <==> p.value == None) && (p.value.Some? ==> p.value.value == Decoded(number, if r < 0 then 0 else r))
      && buf.Contents() == p.rest
  {
    hide Flat, EvBuffer.Linked, DecodeTag, DecodeInt;
    number := 0;
    var t, tag, beyond := DecodeTagInternal(buf, true);
    if t == -1 {
      return -1, 0;
    }
    if needTag != tag {
      return -1, 0;
    }
    var d, len := DecodeIntAndDrain(buf);
    FreshByIndex(buf);
    if d == -1 {
      return -1, 0;
    }
    if buf.total_len < len {
      return -1, 0;
    }
    r, number := IntPayload(buf, len, maxNibbles);
  }

  /** The last part of evtag_unmarshal_int: the integer is decoded from all there is, and then its
      payload is drained. */
  method IntPayload(buf: EvBuffer, len: nat, maxNibbles: nat) returns (r: int, number: nat)
    requires buf.Valid() && maxNibbles <= 16 && len <= buf.total_len
    modifies buf, buf.chains
    ensures buf.Valid() && OnlyFreshChains(buf) && SameSettings(buf)
    ensures var d := DecodeInt(old(buf.Contents()), maxNibbles);
      (if d.Some? && d.value.len <= len then d else None) == if r <= 0 then None else Some(Decoded(number, r))
    ensures r > 0 || r == -1
    ensures !buf.freeze_start ==> buf.Contents() == old(buf.Contents())[len..]
    ensures forall i :: 0 <= i < |buf.chains| ==> buf.chains[i] in old(buf.chains) || fresh(buf.chains[i])
  {
    hide Flat, EvBuffer.Linked, DecodeInt;
    assert buf.Contents()[0..] == buf.Contents();
    r, number := DecodeIntInternal(buf, 0, maxNibbles);
    DrainSilently(buf, len);
    FreshByIndex(buf);
    if r < 0 || r > len {
      r := -1;
    }
  }

  /** evtag_unmarshal_fixed */
  method UnmarshalFixed(buf: EvBuffer, needTag: nat, len: nat) returns (r: int, data: seq<Byte>)
    requires buf.Valid()
    modifies buf, buf.chains
    ensures buf.Valid() && OnlyFreshChains(buf) && SameSettings(buf)
    ensures !buf.freeze_start ==>
      var p := ReadFixed(old(buf.Contents()), needTag, len);
      && r == (if p.value == None then -1 else 0) && (r == 0 ==> data == p.value.value) && buf.Contents() == p.rest
  {
    hide Flat, EvBuffer.Linked, ReadHeader;
    var tagLen, tag := UnmarshalHeader(buf);
    if tagLen < 0 || tag != needTag || tagLen != len {
      return -1, [];
    }
    var n;
    n, data := Remove(buf, tagLen);
    FreshByIndex(buf);
    r := 0;
  }

  /** evtag_unmarshal_string */
  method UnmarshalString(buf: EvBuffer, needTag: nat) returns (r: int, data: seq<Byte>)
    requires buf.Valid()
    modifies buf, buf.chains
    ensures buf.Valid() && OnlyFreshChains(buf) && SameSettings(buf)
    ensures !buf.freeze_start ==>
      var p := ReadString(old(buf.Contents()), needTag);
      && r == (if p.value == None then -1 else 0) && (r == 0 ==> data == p.value.value) && buf.Contents() == p.rest
  {
    hide Flat, EvBuffer.Linked, ReadHeader;
    var tagLen, tag := UnmarshalHeader(buf);
    if tagLen < 0 || tag != needTag {
      return -1, [];
    }
    var n;
    n, data := Remove(buf, tagLen);
    FreshByIndex(buf);
    r := 0;
  }

  /** evtag_unmarshal_timeval */
  method UnmarshalTimeval(buf: EvBuffer, needTag: nat) returns (r: int, time: Time)
    requires buf.Valid()
    modifies buf, buf.chains
    ensures buf.Valid() && OnlyFreshChains(buf) && SameSettings(buf)
    ensures !buf.freeze_start ==>
      var p := ReadTime(old(buf.Contents()), needTag);
      && r == (if p.value == None then -1 else 0) && (r == 0 ==> time == p.value.value) && buf.Contents() == p.rest
  {
    hide Flat, EvBuffer.Linked, ReadHeader, DecodeTime;
    time := Time(0, 0);
    var len, tag := UnmarshalHeader(buf);
    if len == -1 {
      return -1, time;
    }
    r := -1;
    if tag == needTag {
      var n;
      n, time := PeekTime(buf);
      FreshByIndex(buf);
      if n != -1 && n <= len {
        r := 0;
      }
    }
    DrainInt(buf, len);
    FreshByIndex(buf);
  }

  /** The two integers that evtag_unmarshal_timeval decodes. */
  method PeekTime(buf: EvBuffer) returns (n: int, time: Time)
    requires buf.Valid()
    modifies buf, buf.chains
    ensures buf.Valid() && OnlyFreshChains(buf) && SameSettings(buf)
    ensures buf.Contents() == old(buf.Contents()) && (n == -1 || n >= 0)
    ensures DecodeTime(buf.Contents()) == if n == -1 then None else Some((time, n))
    ensures forall i :: 0 <= i < |buf.chains| ==> buf.chains[i] in old(buf.chains) || fresh(buf.chains[i])
  {
    hide Flat, EvBuffer.Linked, DecodeInt;
    time := Time(0, 0);
    assert buf.Contents()[0..] == buf.Contents();
    IntIsShort(buf.Contents(), INT_NIBBLES);
    var offset, sec := DecodeIntInternal(buf, 0, INT_NIBBLES);
    if offset == -1 {
      return -1, time;
    }
    var offset2, usec := DecodeIntInternal(buf, offset, INT_NIBBLES);
    FreshByIndex(buf);
    if offset2 == -1 {
      return -1, time;
    }
    n, time := offset + offset2, Time(sec, usec);
  }
}
