/** The wire format of tagged data: integers by nibbles, tags by groups of seven bits. */
module TagFormat {
  import opened Bytes
  import opened Wrappers

  const U32: nat := 0x1_0000_0000
  const U64: nat := 0x1_0000_0000_0000_0000

  // ---------- integers by nibbles ----------

  /** `n` without its `m` lowest hexadecimal digits. */
  ghost function Shift(n: nat, m: nat): nat {
    if m == 0 then n else Shift(n / 16, m - 1)
  }

  ghost function Digit(n: nat, m: nat): (d: nat)
    ensures d < 16
  {
    Shift(n, m) % 16
  }

  /** The number of hexadecimal digits, at least one. */
  ghost function Digits(n: nat): (k: nat)
    ensures k >= 1
  {
    if n < 16 then 1 else 1 + Digits(n / 16)
  }

  /** The encoding of `n`: the number of digits less one in the high nibble of the first byte, then
      the digits from the lowest, low and high nibbles of the following bytes in between. */
  ghost function IntBytes(n: nat): (bytes: seq<Byte>)
    requires Digits(n) <= 16
    ensures |bytes| == Digits(n) / 2 + 1 <= 9
  {
    seq(Digits(n) / 2 + 1, i requires 0 <= i <= Digits(n) / 2 =>
      (if i == 0 then Digits(n) - 1 else Digit(n, 2 * i - 1)) * 16 + Digit(n, 2 * i))
  }

  /** Digit `m` of an encoding. */
  function Nibble(data: seq<Byte>, m: nat): (d: nat)
    requires (m + 1) / 2 < |data|
    ensures d < 16
  {
    if m % 2 == 0 then data[m / 2] % 16 else data[(m + 1) / 2] / 16
  }

  /** Digits `m` to `k - 1` of an encoding as a number. */
  ghost function Value(data: seq<Byte>, m: nat, k: nat): nat
    requires m <= k && k / 2 < |data|
    decreases k - m
  {
    if m == k then 0 else Nibble(data, m) + 16 * Value(data, m + 1, k)
  }

  datatype Decoded = Decoded(number: nat, len: nat)

  /** The integer at the front of `data`, of at most `maxNibbles` digits. */
  ghost function DecodeInt(data: seq<Byte>, maxNibbles: nat): (r: Option<Decoded>)
    ensures r.Some? ==> 0 < r.value.len <= |data|
  {
    if data == [] then None
    else
      var k := data[0] / 16 + 1;
      if k > maxNibbles || k / 2 + 1 > |data| then None else Some(Decoded(Value(data, 0, k), k / 2 + 1))
  }

  lemma {:induction false} ShiftStep(n: nat, m: nat)
    ensures Shift(n, m + 1) == Shift(n, m) / 16
  {
    if m > 0 {
      ShiftStep(n / 16, m - 1);
    }
  }

  lemma {:induction false} ShiftAll(n: nat)
    ensures Shift(n, Digits(n)) == 0
  {
    if n >= 16 {
      ShiftAll(n / 16);
    }
  }

  lemma {:induction false} ShiftSome(n: nat, m: nat)
    requires m < Digits(n)
    ensures Shift(n, m) > 0 || n == 0
  {
    if m > 0 {
      ShiftSome(n / 16, m - 1);
    }
  }

  lemma {:induction false} NibbleOfIntBytes(n: nat, data: seq<Byte>, m: nat)
    requires Digits(n) <= 16 && IntBytes(n) <= data && m < Digits(n)
    ensures (m + 1) / 2 < |data| && Nibble(data, m) == Digit(n, m)
  {
    var i := (m + 1) / 2;
    assert data[i] == IntBytes(n)[i];
    if m % 2 == 0 {
      assert m == 2 * i;
    } else {
      assert m == 2 * i - 1;
    }
  }

  lemma {:induction false} ValueOfIntBytes(n: nat, data: seq<Byte>, m: nat)
    requires Digits(n) <= 16 && IntBytes(n) <= data && m <= Digits(n)
    ensures Value(data, m, Digits(n)) == Shift(n, m)
    decreases Digits(n) - m
  {
    if m == Digits(n) {
      ShiftAll(n);
    } else {
      NibbleOfIntBytes(n, data, m);
      ShiftStep(n, m);
      ValueOfIntBytes(n, data, m + 1);
    }
  }

  /** An encoded integer decodes to itself, whatever follows it. */
  lemma {:induction false} IntRoundTrip(n: nat, maxNibbles: nat, rest: seq<Byte>)
    requires Digits(n) <= maxNibbles <= 16
    ensures DecodeInt(IntBytes(n) + rest, maxNibbles) == Some(Decoded(n, |IntBytes(n)|))
  {
    var data := IntBytes(n) + rest;
    assert data[0] == IntBytes(n)[0] && data[0] / 16 == Digits(n) - 1;
    ValueOfIntBytes(n, data, 0);
  }

  lemma {:induction false} DigitsOfU32(n: nat)
    ensures Digits(n) <= 8 <==> n < U32
    ensures Digits(n) <= 16 <==> n < U64
  {
    DigitsBound(n, 8);
    DigitsBound(n, 16);
    assert Power16(4) == 0x1_0000 && Power16(8) == U32;
    assert Power16(12) == 0x1_0000_0000_0000;
  }

  ghost function Power16(k: nat): nat {
    if k == 0 then 1 else 16 * Power16(k - 1)
  }

  lemma {:induction false} DigitsBound(n: nat, k: nat)
    requires k > 0
    ensures Digits(n) <= k <==> n < Power16(k)
  {
    if k > 1 && n >= 16 {
      DigitsBound(n / 16, k - 1);
    } else {
      PowerIsPositive(k - 1);
    }
  }

  lemma {:induction false} PowerIsPositive(k: nat)
    ensures Power16(k) >= 1
  {
    if k > 0 {
      PowerIsPositive(k - 1);
    }
  }

  /** Halfway through encoding: the lowest `m` digits are in place, the other nibbles are zero. */
  ghost predicate Encoding(d: seq<Byte>, n: nat, m: nat) {
    && (forall i :: 0 <= i < |d| ==> d[i] % 16 == if 2 * i < m then Digit(n, 2 * i) else 0)
    && (forall i :: 0 <= i < |d| ==> d[i] / 16 == if i > 0 && 2 * i - 1 < m then Digit(n, 2 * i - 1) else 0)
  }

  /** A byte with a new low nibble ... */
  function LowNibble(b: Byte, digit: nat): (r: Byte)
    requires digit < 16
    ensures r % 16 == digit && r / 16 == b / 16
  {
    b / 16 * 16 + digit
  }

  /** ... and with a new high one. */
  function HighNibble(b: Byte, digit: nat): (r: Byte)
    requires digit < 16
    ensures r % 16 == b % 16 && r / 16 == digit
  {
    b % 16 + digit * 16
  }

  lemma {:induction false} DigitPut(d: seq<Byte>, n: nat, off: nat)
    requires off > 0 && off / 2 < |d| && Encoding(d, n, off - 1)
    ensures var h, digit := off / 2, Digit(n, off - 1);
      Encoding(d[h := if off % 2 == 1 then LowNibble(d[h], digit) else HighNibble(d[h], digit)], n, off)
  {
    hide Digit, LowNibble, HighNibble;
    assert off == 2 * (off / 2) + off % 2;
  }

  /** Puts digit `off - 1` in its nibble. */
  method PutDigit(data: array<Byte>, base: nat, ghost width: nat, ghost n: nat, off: nat, digit: nat)
    requires base + width < data.Length && off > 0 && off / 2 <= width
    requires Encoding(data[base..base + width + 1], n, off - 1) && digit == Digit(n, off - 1)
    modifies data
    ensures Encoding(data[base..base + width + 1], n, off)
    ensures forall i :: 0 <= i < data.Length && !(base <= i <= base + width) ==> data[i] == old(data[i])
  {
    hide Encoding, Digit, LowNibble, HighNibble;
    ghost var d := data[base..base + width + 1];
    DigitPut(d, n, off);
    var k := base + off / 2;
    if off % 2 == 1 {
      data[k] := LowNibble(data[k], digit);
    } else {
      data[k] := HighNibble(data[k], digit);
    }
    assert data[base..base + width + 1] == d[off / 2 := data[k]];
  }

  /** ENCODE_INT_INTERNAL, for an unsigned type of `width` bytes, writing from `base` on. */
  method EncodeIntInternal(data: array<Byte>, base: nat, width: nat, value: nat) returns (len: nat)
    requires base + width < data.Length && 0 < Digits(value) <= 2 * width <= 16
    modifies data
    ensures base + len <= data.Length && len <= width + 1 && data[base..base + len] == IntBytes(value)
    ensures forall i :: 0 <= i < data.Length && !(base <= i <= base + width) ==> data[i] == old(data[i])
  {
    hide Encoding, Digit, IntBytes;
    forall i | base <= i <= base + width {
      data[i] := 0;
    }
    var off, number := 1, value;
    StartEncoding(data[base..base + width + 1], value);
    while number > 0
      invariant 1 <= off && number == Shift(value, off - 1) && (number > 0 ==> off - 1 < Digits(value)) && off - 1 <= Digits(value)
      invariant Encoding(data[base..base + width + 1], value, off - 1)
      invariant value == 0 ==> off == 1
      invariant value > 0 && number == 0 ==> off - 1 == Digits(value)
      invariant forall i :: 0 <= i < data.Length && !(base <= i <= base + width) ==> data[i] == old(data[i])
      decreases number
    {
      DigitIs(value, off - 1);
      PutDigit(data, base, width, value, off, number % 16);
      ShiftStep(value, off - 1);
      ShiftAll(value);
      if off < Digits(value) {
        ShiftSome(value, off);
      }
      number := number / 16;
      off := off + 1;
    }
    var nibbles := if off > 2 then off - 2 else 0;
    len := (off + 1) / 2;
    ghost var d := data[base..base + width + 1];
    EncodingDone(d, value, off, len);
    assert data[base..base + len] == d[..len];
    data[base] := data[base] % 16 + nibbles * 16;
  }

  lemma DigitIs(n: nat, m: nat)
    ensures Digit(n, m) == Shift(n, m) % 16
  {
  }

  lemma {:induction false} StartEncoding(d: seq<Byte>, n: nat)
    requires forall i :: 0 <= i < |d| ==> d[i] == 0
    ensures Encoding(d, n, 0)
  {
  }

  lemma {:induction false} EncodingDone(d: seq<Byte>, n: nat, off: nat, len: nat)
    requires 0 < Digits(n) <= 2 * (|d| - 1) <= 16
    requires off - 1 == (if n == 0 then 0 else Digits(n)) && Encoding(d, n, off - 1) && len == (off + 1) / 2
    ensures len == |IntBytes(n)| <= |d|
    ensures IntBytes(n) == d[..len][0 := d[0] % 16 + (if off > 2 then off - 2 else 0) * 16]
  {
    hide Shift;
    var want, got := IntBytes(n), d[..len][0 := d[0] % 16 + (if off > 2 then off - 2 else 0) * 16];
    ZeroDigits(n);
    forall i | 0 <= i < len
      ensures got[i] == want[i]
    {
      NoDigit(n, 2 * i);
    }
  }

  lemma ZeroDigits(n: nat)
    ensures n == 0 ==> Digits(n) == 1 && Digit(n, 0) == 0
  {
  }

  /** There is nothing beyond the last digit. */
  lemma {:induction false} NoDigit(n: nat, m: nat)
    ensures m >= Digits(n) ==> Digit(n, m) == 0
  {
    if m >= Digits(n) {
      if m > Digits(n) {
        NoShift(n, m);
      } else {
        ShiftAll(n);
      }
    }
  }

  lemma {:induction false} NoShift(n: nat, m: nat)
    requires m >= Digits(n)
    ensures Shift(n, m) == 0
    decreases m
  {
    if m == Digits(n) {
      ShiftAll(n);
    } else {
      NoShift(n, m - 1);
      ShiftStep(n, m - 1);
    }
  }

  /** The loop of DECODE_INT_INTERNAL. */
  method DecodeDigits(data: seq<Byte>, k: nat) returns (number: nat)
    requires k / 2 < |data|
    ensures number == Value(data, 0, k)
  {
    number := 0;
    var nibbles := k;
    while nibbles > 0
      invariant 0 <= nibbles <= k && number == Value(data, nibbles, k)
    {
      number := number * 16;
      if nibbles % 2 == 1 {
        number := number + data[nibbles / 2] % 16;
      } else {
        number := number + data[nibbles / 2] / 16;
      }
      nibbles := nibbles - 1;
    }
  }

  // ---------- tags ----------

  ghost function TagBytes(tag: nat): (bytes: seq<Byte>)
    ensures |bytes| >= 1
  {
    if tag < 128 then [tag] else [tag % 128 + 128] + TagBytes(tag / 128)
  }

  /** The tag at `data[i..]`, of at most five bytes in all and 32 bits: what is left of it, shifted. */
  ghost function DecodeTagAt(data: seq<Byte>, i: nat): (r: Option<Decoded>)
    ensures r.Some? ==> 0 < r.value.len <= |data| - i
    decreases |data| - i
  {
    if i >= |data| || i > 4 || (i == 4 && data[i] % 128 > 15) then None
    else if data[i] < 128 then Some(Decoded(data[i], 1))
    else
      match DecodeTagAt(data, i + 1)
      case None => None
      case Some(d) => Some(Decoded(data[i] % 128 + 128 * d.number, d.len + 1))
  }

  ghost function DecodeTag(data: seq<Byte>): Option<Decoded> {
    DecodeTagAt(data, 0)
  }

  /** 128 to the `i`: the weight of the `i`-th group of bits. */
  ghost function Power128(i: nat): (r: nat)
    ensures r >= 1
  {
    if i == 0 then 1 else 128 * Power128(i - 1)
  }

  /** The bytes of a tag, wherever they are read from, decode to the tag. */
  lemma {:induction false} TagRoundTripAt(tag: nat, data: seq<Byte>, i: nat)
    requires i <= |data| && TagBytes(tag) <= data[i..] && (i <= 4 ==> tag < U32 / Power128(i)) && (i > 4 ==> false)
    ensures DecodeTagAt(data, i) == Some(Decoded(tag, |TagBytes(tag)|))
    decreases tag
  {
    var b := TagBytes(tag);
    assert data[i] == b[0];
    assert Power128(0) == 1 && Power128(1) == 128 && Power128(2) == 16384 && Power128(3) == 2097152 && Power128(4) == 268435456;
    if tag >= 128 {
      assert b[1..] == TagBytes(tag / 128);
      assert data[i + 1..] == data[i..][1..];
      TagRoundTripAt(tag / 128, data, i + 1);
    }
  }

  lemma {:induction false} TagRoundTrip(tag: nat, rest: seq<Byte>)
    requires tag < U32
    ensures DecodeTag(TagBytes(tag) + rest) == Some(Decoded(tag, |TagBytes(tag)|))
  {
    var data := TagBytes(tag) + rest;
    assert data[0..] == data;
    TagRoundTripAt(tag, data, 0);
  }

  /** evtag_encode_tag, as the bytes it appends. */
  method EncodeTag(tag: nat) returns (data: seq<Byte>)
    requires tag < U32
    ensures data == TagBytes(tag)
  {
    data := [];
    var t := tag;
    while true
      invariant data + TagBytes(t) == TagBytes(tag)
      decreases t
    {
      var lower := t % 128;
      var rest := t / 128;
      if rest != 0 {
        lower := lower + 128;
      }
      assert data + TagBytes(t) == data + [lower] + (if rest != 0 then TagBytes(rest) else []);
      data := data + [lower];
      if rest == 0 {
        break;
      }
      t := rest;
    }
  }

  /** `number` and `i` bytes, with what is decoded behind them. */
  ghost function Combined(number: nat, i: nat, rest: Option<Decoded>): Option<Decoded> {
    match rest
    case None => None
    case Some(d) => Some(Decoded(number + Power128(i) * d.number, i + d.len))
  }

  lemma {:induction false} CombineStep(data: seq<Byte>, number: nat, i: nat)
    requires i < |data| && i <= 4 && data[i] >= 128 && !(i == 4 && data[i] % 128 > 15)
    ensures Combined(number, i, DecodeTagAt(data, i)) ==
      Combined(number + data[i] % 128 * Power128(i), i + 1, DecodeTagAt(data, i + 1))
  {
    if DecodeTagAt(data, i + 1).Some? {
      var d, w, b := DecodeTagAt(data, i + 1).value, Power128(i), data[i] % 128;
      assert Power128(i + 1) == 128 * w;
      assert w * (b + 128 * d.number) == b * w + (128 * w) * d.number;
    }
  }

  lemma {:induction false} CombineLast(data: seq<Byte>, number: nat, i: nat)
    requires i < |data| && i <= 4 && data[i] < 128 && !(i == 4 && data[i] % 128 > 15)
    ensures Combined(number, i, DecodeTagAt(data, i)) == Some(Decoded(number + data[i] % 128 * Power128(i), i + 1))
  {
    assert data[i] % 128 == data[i];
    assert Power128(i) * data[i] == data[i] * Power128(i);
  }

  lemma {:induction false} CombineNone(data: seq<Byte>, number: nat, i: nat)
    requires i >= |data| || i > 4 || (i == 4 && data[i] % 128 > 15)
    ensures Combined(number, i, DecodeTagAt(data, i)) == None
  {
  }

  lemma {:induction false} CombineFirst(data: seq<Byte>)
    ensures DecodeTag(data) == Combined(0, 0, DecodeTagAt(data, 0)) && Power128(0) == 1
  {
  }

  /** Five bytes that do not end a tag, and make no number that is too large already, and a sixth one. */
  predicate ReadsSixth(s: seq<Byte>) {
    |s| > 5 && (forall i :: 0 <= i < 5 ==> s[i] >= 128) && s[4] % 128 <= 15
  }

  /** The loop of decode_tag_internal, over the first bytes of a buffer of `len` bytes. The original
      reads a sixth byte before it finds the tag too long; the value does not matter. */
  method DecodeTagLoop(data: seq<Byte>, len: nat, ghost all: seq<Byte>)
      returns (ok: bool, number: nat, count: nat, ghost sixth: bool)
    requires |all| == len && data == all[..if len < 5 then len else 5]
    ensures DecodeTag(all) == if ok then Some(Decoded(number, count)) else None
    ensures sixth <==> ReadsSixth(all)
  {
    hide DecodeTagAt, Combined, DecodeTag;
    number, count, sixth := 0, 0, false;
    var shift: nat, scale: nat := 0, 1;
    CombineFirst(all);
    while count < len
      invariant count <= |data| && shift == 7 * count && scale == Power128(count)
      invariant forall i :: 0 <= i < count ==> all[i] >= 128
      invariant count == 5 ==> all[4] % 128 <= 15
      invariant DecodeTag(all) == Combined(number, count, DecodeTagAt(all, count))
    {
      if shift > 28 {
        CombineNone(all, number, count);
        return false, 0, 0, true;
      }
      var lower: int := data[count];
      assert lower == all[count];
      if shift >= 28 && lower % 128 > 15 {
        CombineNone(all, number, count);
        return false, 0, 0, false;
      }
      if lower < 128 {
        CombineLast(all, number, count);
        return true, number + lower % 128 * scale, count + 1, false;
      }
      CombineStep(all, number, count);
      number := number + lower % 128 * scale;
      shift, scale := shift + 7, scale * 128;
      count := count + 1;
    }
    CombineNone(all, number, count);
    ok := false;
  }
}
