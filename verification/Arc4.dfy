/** The RC4 generator and the uniform numbers made from it. */
module Arc4 {
  import opened Bytes
  import opened Wrappers

  const U32: nat := 0x1_0000_0000

  // ---------- the state as a value ----------

  datatype Stream = Stream(i: Byte, j: Byte, s: seq<Byte>)

  /** Every byte occurs exactly once. */
  ghost predicate IsPermutation(s: seq<Byte>) {
    && |s| == 256
    && (forall i, j :: 0 <= i < j < 256 ==> s[i] != s[j])
    && (forall b :: 0 <= b < 256 ==> b in s)
  }

  /** Sums of unsigned chars. */
  function Plus(a: int, b: int): Byte {
    (a + b) % 256
  }

  function Minus(a: int, b: int): Byte {
    (a - b) % 256
  }

  lemma {:induction false} PlusMinus(a: Byte, b: int)
    ensures Minus(Plus(a, b), b) == a && Plus(Minus(a, b), b) == a
  {
    Remainder(a, b);
    Remainder(a, -b);
  }

  lemma {:induction false} Remainder(a: Byte, b: int)
    ensures ((a + b) % 256 - b) % 256 == a
  {
    var q := (a + b) / 256;
    assert a + b == 256 * q + (a + b) % 256;
    Multiple(a, -q);
  }

  lemma {:induction false} Multiple(a: Byte, q: int)
    ensures (a + 256 * q) % 256 == a
  {
  }

  lemma PlusNext(a: int, n: int)
    ensures Plus(Plus(a, n), 1) == Plus(a, n + 1)
  {
  }

  lemma PlusTurn(a: int, n: int)
    ensures Plus(a, n + 256) == Plus(a, n)
  {
  }

  function Swapped(s: seq<Byte>, i: Byte, j: Byte): (r: seq<Byte>)
    requires |s| == 256
    ensures |r| == 256
  {
    s[i := s[j]][j := s[i]]
  }

  lemma {:induction false} SwapKeepsPermutation(s: seq<Byte>, i: Byte, j: Byte)
    requires IsPermutation(s)
    ensures IsPermutation(Swapped(s, i, j))
  {
    var r := Swapped(s, i, j);
    forall b | 0 <= b < 256
      ensures b in r
    {
      assert b in s;
      var k: nat :| k < |s| && s[k] == b;
      assert r[if k == i then j else if k == j then i else k] == b;
    }
  }

  /** One step of arc4_getbyte. */
  function Stepped(x: Stream): (y: Stream)
    requires |x.s| == 256
    ensures |y.s| == 256
  {
    var i := Plus(x.i, 1);
    var j := Plus(x.j, x.s[i]);
    Stream(i, j, Swapped(x.s, i, j))
  }

  /** The byte that arc4_getbyte returns, from the state after its step. */
  function Output(y: Stream): Byte
    requires |y.s| == 256
  {
    y.s[Plus(y.s[y.i], y.s[y.j])]
  }

  /** Four bytes as a word, the first one highest. */
  function Word(a: int, b: int, c: int, d: int): int {
    a * 0x100_0000 + b * 0x1_0000 + c * 0x100 + d
  }

  /** The step can be undone: no two states lead to the same one. */
  function Undone(x: Stream): Stream
    requires |x.s| == 256
  {
    var s := Swapped(x.s, x.i, x.j);
    Stream(Minus(x.i, 1), Minus(x.j, s[x.i]), s)
  }

  lemma {:induction false} StepIsReversible(x: Stream)
    requires |x.s| == 256
    ensures Undone(Stepped(x)) == x && Stepped(Undone(x)) == x
  {
    hide Plus, Minus, Swapped;
    var i := Plus(x.i, 1);
    var j := Plus(x.j, x.s[i]);
    PlusMinus(x.i, 1);
    PlusMinus(x.j, x.s[i]);
    SwapTwice(x.s, i, j);
    SwapTwice(x.s, x.i, x.j);
    PlusMinus(x.j, Swapped(x.s, x.i, x.j)[x.i]);
  }

  lemma {:induction false} SwapTwice(s: seq<Byte>, i: Byte, j: Byte)
    requires |s| == 256
    ensures Swapped(Swapped(s, i, j), i, j) == s
  {
  }

  /** One round of arc4_addrandom. */
  function Mixed(x: Stream, d: Byte): Stream
    requires |x.s| == 256
  {
    var i := Plus(x.i, 1);
    var j := Plus(Plus(x.j, x.s[i]), d);
    Stream(i, j, Swapped(x.s, i, j))
  }

  ghost function MixedAll(x: Stream, dat: seq<Byte>, n: nat): (r: Stream)
    requires |x.s| == 256 && dat != []
    ensures |r.s| == 256
  {
    if n == 0 then x else Mixed(MixedAll(x, dat, n - 1), dat[(n - 1) % |dat|])
  }

  /** All of arc4_addrandom: the first 256 bytes of `dat`, repeated if there are fewer, permute the
      state once around. */
  ghost function Keyed(x: Stream, dat: seq<Byte>): (r: Stream)
    requires |x.s| == 256 && dat != []
    ensures |r.s| == 256
  {
    var i := Plus(x.i, 255);
    Stream(i, i, MixedAll(Stream(i, x.j, x.s), dat, 256).s)
  }

  /** What 256 rounds of keying do: round `n` exchanges the byte at `x.i + n` with the one at an index
      that moves on by this byte and by byte `n` of the key, which is repeated. */
  lemma {:induction false} KeySchedule(x: Stream, dat: seq<Byte>, n: nat)
    requires |x.s| == 256 && dat != [] && n < 256
    ensures var start := Stream(Plus(x.i, 255), x.j, x.s);
      var a, b := MixedAll(start, dat, n), MixedAll(start, dat, n + 1);
      && b.i == Plus(x.i, n) && b.j == Plus(Plus(a.j, a.s[b.i]), dat[n % |dat|])
      && b.s[b.i] == a.s[b.j] && b.s[b.j] == a.s[b.i]
      && (forall k :: 0 <= k < 256 && k != b.i && k != b.j ==> b.s[k] == a.s[k])
      && Keyed(x, dat) == Stream(start.i, start.i, MixedAll(start, dat, 256).s)
  {
    hide Mixed, Plus;
    var start := Stream(Plus(x.i, 255), x.j, x.s);
    MixedIndex(start, dat, n + 1);
    RoundIs(MixedAll(start, dat, n), dat[n % |dat|]);
    PlusPlus(x.i, 255, n + 1);
    PlusTurn(x.i, n);
  }

  lemma {:induction false} PlusPlus(a: Byte, b: nat, c: nat)
    ensures Plus(Plus(a, b), c) == Plus(a, b + c)
  {
    if c > 0 {
      PlusPlus(a, b, c - 1);
      PlusNext(a, b + c - 1);
      PlusNext(Plus(a, b), c - 1);
    }
  }

  lemma {:induction false} MixedIndex(x: Stream, dat: seq<Byte>, n: nat)
    requires |x.s| == 256 && dat != []
    ensures MixedAll(x, dat, n).i == Plus(x.i, n)
  {
    if n > 0 {
      hide Mixed;
      MixedIndex(x, dat, n - 1);
      RoundIs(MixedAll(x, dat, n - 1), dat[(n - 1) % |dat|]);
      PlusNext(x.i, n - 1);
    }
  }

  lemma {:induction false} RoundIs(a: Stream, d: Byte)
    requires |a.s| == 256
    ensures var b := Mixed(a, d);
      && b.i == Plus(a.i, 1) && b.j == Plus(Plus(a.j, a.s[b.i]), d)
      && b.s[b.i] == a.s[b.j] && b.s[b.j] == a.s[b.i]
      && (forall k :: 0 <= k < 256 && k != b.i && k != b.j ==> b.s[k] == a.s[k])
  {
  }

  /** Two keys that first differ at byte `k` lead to different states after that round. */
  lemma {:induction false} KeyMatters(x: Stream, a: seq<Byte>, b: seq<Byte>, k: nat)
    requires |x.s| == 256 && k < |a| && k < |b| && a[k] != b[k]
    requires forall n :: 0 <= n < k ==> a[n] == b[n]
    ensures MixedAll(x, a, k + 1).j != MixedAll(x, b, k + 1).j
  {
    hide Mixed;
    SameSoFar(x, a, b, k);
    Small(k, |a|);
    Small(k, |b|);
    DifferentRound(MixedAll(x, a, k), a[k], b[k]);
  }

  lemma {:induction false} DifferentRound(y: Stream, a: Byte, b: Byte)
    requires |y.s| == 256 && a != b
    ensures Mixed(y, a).j != Mixed(y, b).j
  {
    hide Plus, Minus, Swapped;
    var j := Plus(y.j, y.s[Plus(y.i, 1)]);
    PlusMinus(a, j);
    PlusMinus(b, j);
    PlusCommutes(a, j);
    PlusCommutes(b, j);
  }

  lemma PlusCommutes(a: int, b: int)
    ensures Plus(a, b) == Plus(b, a)
  {
  }

  lemma {:induction false} SameSoFar(x: Stream, a: seq<Byte>, b: seq<Byte>, k: nat)
    requires |x.s| == 256 && k <= |a| && k <= |b| && a != [] && b != []
    requires forall n :: 0 <= n < k ==> a[n] == b[n]
    ensures MixedAll(x, a, k) == MixedAll(x, b, k)
  {
    if k > 0 {
      hide Mixed;
      SameSoFar(x, a, b, k - 1);
      Small(k - 1, |a|);
      Small(k - 1, |b|);
    }
  }

  lemma {:induction false} Small(n: nat, m: nat)
    requires n < m
    ensures n % m == n
  {
  }

  /** Mixing loses nothing: with the same data, different states stay different. */
  lemma {:induction false} MixingIsReversible(x: Stream, y: Stream, dat: seq<Byte>, n: nat)
    requires |x.s| == 256 && |y.s| == 256 && dat != []
    requires MixedAll(x, dat, n) == MixedAll(y, dat, n)
    ensures x == y
  {
    if n > 0 {
      hide Mixed;
      RoundUndone(MixedAll(x, dat, n - 1), dat[(n - 1) % |dat|]);
      RoundUndone(MixedAll(y, dat, n - 1), dat[(n - 1) % |dat|]);
      MixingIsReversible(x, y, dat, n - 1);
    }
  }

  /** The state before a round of keying, from the one after it. */
  ghost function Unmixed(y: Stream, d: Byte): Stream
    requires |y.s| == 256
  {
    var s := Swapped(y.s, y.i, y.j);
    Stream(Minus(y.i, 1), Minus(Minus(y.j, d), s[y.i]), s)
  }

  lemma {:induction false} RoundUndone(x: Stream, d: Byte)
    requires |x.s| == 256
    ensures Unmixed(Mixed(x, d), d) == x
  {
    hide Plus, Minus, Swapped;
    var i := Plus(x.i, 1);
    var j := Plus(x.j, x.s[i]);
    PlusMinus(x.i, 1);
    PlusMinus(x.j, x.s[i]);
    PlusMinus(j, d);
    SwapTwice(x.s, i, Plus(j, d));
  }

  /** The byte that comes out of state `x`, told from the table before the exchange. */
  lemma {:induction false} OutputIs(x: Stream)
    requires |x.s| == 256
    ensures var i := Plus(x.i, 1);
      var j := Plus(x.j, x.s[i]);
      var k := Plus(x.s[i], x.s[j]);
      Output(Stepped(x)) == if k == i then x.s[j] else if k == j then x.s[i] else x.s[k]
  {
    hide Plus;
    var i := Plus(x.i, 1);
    var j := Plus(x.j, x.s[i]);
    assert Stepped(x).s[i] == x.s[j] && Stepped(x).s[j] == x.s[i];
    PlusCommutes(x.s[i], x.s[j]);
  }

  /** Every block of 256 bytes of `dat` in turn. */
  ghost function KeyedByBlocks(x: Stream, dat: seq<Byte>): (r: Stream)
    requires |x.s| == 256
    ensures |r.s| == 256
    decreases |dat|
  {
    if dat == [] then x
    else if |dat| <= 256 then Keyed(x, dat)
    else KeyedByBlocks(Keyed(x, dat), dat[256..])
  }

  /** Data in whole blocks may as well be mixed in separately, and a block alone is one keying. */
  lemma {:induction false} BlocksInTurn(x: Stream, a: seq<Byte>, b: seq<Byte>)
    requires |x.s| == 256 && |a| % 256 == 0
    ensures KeyedByBlocks(x, a + b) == KeyedByBlocks(KeyedByBlocks(x, a), b)
    ensures 0 < |b| <= 256 ==> KeyedByBlocks(x, b) == Keyed(x, b)
    decreases |a|
  {
    hide Keyed;
    if a == [] {
      assert a + b == b;
    } else if |a| == 256 {
      OneBlock(x, a, b);
    } else {
      assert (a + b)[256..] == a[256..] + b;
      OneBlock(x, a[..256], a[256..] + b);
      OneBlock(x, a[..256], a[256..]);
      assert a == a[..256] + a[256..] && a + b == a[..256] + (a[256..] + b);
      BlocksInTurn(KeyedByBlocks(x, a[..256]), a[256..], b);
    }
  }

  lemma {:induction false} OneBlock(x: Stream, a: seq<Byte>, b: seq<Byte>)
    requires |x.s| == 256 && |a| == 256
    ensures KeyedByBlocks(x, a + b) == KeyedByBlocks(KeyedByBlocks(x, a), b)
  {
    hide Keyed;
    KeyedPrefix(x, a, b);
    if b == [] {
      assert a + b == a;
    } else {
      assert (a + b)[256..] == b;
    }
  }

  /** Only the first 256 bytes count. */
  lemma {:induction false} KeyedPrefix(x: Stream, a: seq<Byte>, b: seq<Byte>)
    requires |x.s| == 256 && |a| == 256
    ensures Keyed(x, a + b) == Keyed(x, a)
  {
    hide Mixed;
    SameSoFar(Stream(Plus(x.i, 255), x.j, x.s), a + b, a, 256);
  }

  // ---------- the state in place ----------

  class Arc4Stream {
    var i: Byte
    var j: Byte
    const s: array<Byte>

    ghost predicate Valid()
      reads s
    {
      s.Length == 256 && IsPermutation(s[..])
    }

    ghost function Value(): Stream
      requires s.Length == 256
      reads this, s
    {
      Stream(i, j, s[..])
    }

    /** arc4_init */
    constructor ()
      ensures Valid() && fresh(s) && i == j == 0 && forall n :: 0 <= n < 256 ==> s[n] == n
    {
      i, j := 0, 0;
      s := new Byte[256](n requires 0 <= n < 256 => n);
      new;
      forall n: int | 0 <= n < 256
        ensures n in s[..]
      {
        assert s[..][n] == n;
      }
    }

    /** Exchanges two bytes, as arc4_getbyte and arc4_addrandom do. */
    method Swap(a: Byte, b: Byte)
      requires Valid()
      modifies s
      ensures Valid() && s[..] == Swapped(old(s[..]), a, b)
    {
      SwapKeepsPermutation(s[..], a, b);
      var sa := s[a];
      s[a] := s[b];
      s[b] := sa;
      assert s[..] == Swapped(old(s[..]), a, b);
    }

    /** arc4_getbyte */
    method GetByte() returns (r: Byte)
      requires Valid()
      modifies this, s
      ensures Valid() && Value() == Stepped(old(Value()))
      ensures r == Output(Value())
    {
      i := Plus(i, 1);
      j := Plus(j, s[i]);
      Swap(i, j);
      r := s[Plus(s[i], s[j])];
    }

    /** arc4_addrandom */
    method AddRandom(dat: seq<Byte>)
      requires Valid() && dat != []
      modifies this, s
      ensures Valid() && Value() == Keyed(old(Value()), dat)
    {
      hide IsPermutation, Plus;
      ghost var x := Stream(Plus(i, 255), j, s[..]);
      i := Plus(i, 255);
      for n := 0 to 256
        invariant Valid() && i == Plus(old(i), 255 + n)
        invariant Value() == MixedAll(x, dat, n)
      {
        PlusNext(old(i), 255 + n);
        i := Plus(i, 1);
        j := Plus(Plus(j, s[i]), dat[n % |dat|]);
        Swap(i, j);
      }
      PlusTurn(old(i), 255);
      j := i;
    }

    /** arc4random_addrandom, of an initialized stream: all blocks of the data go in. */
    method AddAllRandom(dat: seq<Byte>)
      requires Valid()
      modifies this, s
      ensures Valid() && Value() == KeyedByBlocks(old(Value()), dat)
    {
      hide IsPermutation, Keyed;
      var k := 0;
      while k < |dat|
        invariant Valid() && 0 <= k
        invariant KeyedByBlocks(Value(), if k < |dat| then dat[k..] else []) == KeyedByBlocks(old(Value()), dat)
        decreases |dat| - k
      {
        assert k + 256 < |dat| ==> dat[k..][256..] == dat[k + 256..];
        AddRandom(dat[k..]);
        k := k + 256;
      }
    }

    /** arc4_getword */
    method GetWord() returns (val: nat)
      requires Valid()
      modifies this, s
      ensures Valid() && val < U32
      ensures var x1 := Stepped(old(Value()));
        var x2 := Stepped(x1);
        var x3 := Stepped(x2);
        Value() == Stepped(x3) && val == Word(Output(x1), Output(x2), Output(x3), Output(Value()))
    {
      hide Stepped, IsPermutation, Output;
      var a := GetByte();
      var b := GetByte();
      var c := GetByte();
      var d := GetByte();
      val := Word(a, b, c, d);
    }
  }

  // ---------- uniform numbers ----------

  /** The smallest random word that is accepted, without 64-bit arithmetic: every operation is one on
      unsigned 32-bit numbers. */
  function MinAccepted(bound: nat): (min: nat)
    requires 2 <= bound < U32
  {
    if bound > 0x8000_0000 then (1 + (U32 - 1 - bound)) % U32
    else Complement(bound) % bound
  }

  /** (0xffffffff - bound * 2) + 1 */
  function Complement(bound: nat): nat {
    ((0xffff_ffff - bound * 2 % U32) % U32 + 1) % U32
  }

  lemma {:induction false} ComplementIs(bound: nat)
    requires 2 <= bound <= 0x8000_0000
    ensures Complement(bound) == if bound == 0x8000_0000 then 0 else U32 - 2 * bound
  {
  }

  /** In both branches it is 2^32 modulo the bound. */
  lemma {:induction false} MinIsRemainder(bound: nat)
    requires 2 <= bound < U32
    ensures MinAccepted(bound) == U32 % bound
  {
    if bound > 0x8000_0000 {
      LargeBound(bound);
    } else {
      hide Complement;
      ComplementIs(bound);
      if bound < 0x8000_0000 {
        WithoutTwo(bound);
      }
    }
  }

  lemma {:induction false} LargeBound(bound: nat)
    requires 0x8000_0000 < bound < U32
    ensures U32 % bound == U32 - bound && (1 + (U32 - 1 - bound)) % U32 == U32 - bound
  {
    RemainderIs(U32, bound, 1, U32 - bound);
  }

  /** (2^32 - 2x) modulo x is 2^32 modulo x. */
  lemma {:induction false} WithoutTwo(bound: nat)
    requires 2 <= bound < 0x8000_0000
    ensures (U32 - 2 * bound) % bound == U32 % bound
  {
    var x := U32 - 2 * bound;
    var q := x / bound;
    assert x == q * bound + x % bound;
    assert (q + 2) * bound == q * bound + 2 * bound;
    RemainderIs(U32, bound, q + 2, x % bound);
  }

  lemma {:induction false} RemainderIs(a: nat, b: nat, q: nat, r: nat)
    requires a == q * b + r && r < b
    ensures a % b == r && a / b == q
  {
    var p, t := a / b, a % b;
    assert a == p * b + t;
    MulGrows(p, q, b);
    MulGrows(q, p, b);
  }

  lemma MulGrows(p: nat, q: nat, b: nat)
    ensures p < q ==> p * b + b <= q * b
  {
    if p < q {
      assert (p + 1) * b <= q * b;
    }
  }

  lemma {:induction false} NextPeriod(a: nat, bound: nat)
    requires bound > 0
    ensures (a + bound) % bound == a % bound
  {
    var q := a / bound;
    assert a == q * bound + a % bound;
    assert (q + 1) * bound == q * bound + bound;
    RemainderIs(a + bound, bound, q + 1, a % bound);
  }

  /** How many of the `n` numbers from `a` on leave the remainder `k`. */
  ghost function CountResidue(a: nat, n: nat, bound: nat, k: nat): nat
    requires bound > 0
  {
    if n == 0 then 0 else CountResidue(a, n - 1, bound, k) + if (a + n - 1) % bound == k then 1 else 0
  }

  lemma {:induction false} CountSplit(a: nat, m: nat, n: nat, bound: nat, k: nat)
    requires bound > 0
    ensures CountResidue(a, m + n, bound, k) == CountResidue(a, m, bound, k) + CountResidue(a + m, n, bound, k)
  {
    if n > 0 {
      CountSplit(a, m, n - 1, bound, k);
      assert a + (m + n) - 1 == a + m + n - 1;
    }
  }

  lemma {:induction false} CountOne(a: nat, bound: nat, k: nat)
    requires bound > 0
    ensures CountResidue(a, 1, bound, k) == if a % bound == k then 1 else 0
  {
    assert CountResidue(a, 0, bound, k) == 0;
    assert a + 1 - 1 == a;
  }

  /** Moving the window of one period on by one loses and gains the same residue. */
  lemma {:induction false} OnePeriod(a: nat, bound: nat, k: nat)
    requires k < bound
    ensures CountResidue(a, bound, bound, k) == 1
  {
    if a == 0 {
      FirstPeriod(bound, bound, k);
    } else {
      OnePeriod(a - 1, bound, k);
      CountSplit(a - 1, 1, bound, bound, k);
      CountSplit(a - 1, bound, 1, bound, k);
      assert 1 + bound == bound + 1;
      NextPeriod(a - 1, bound);
      CountOne(a - 1, bound, k);
      CountOne(a - 1 + bound, bound, k);
    }
  }

  lemma {:induction false} FirstPeriod(n: nat, bound: nat, k: nat)
    requires n <= bound && k < bound
    ensures CountResidue(0, n, bound, k) == if k < n then 1 else 0
  {
    if n > 0 {
      FirstPeriod(n - 1, bound, k);
      RemainderIs(n - 1, bound, 0, n - 1);
      assert 0 + n - 1 == n - 1;
    }
  }

  lemma {:induction false} Periods(a: nat, q: nat, bound: nat, k: nat)
    requires k < bound
    ensures CountResidue(a, q * bound, bound, k) == q
  {
    if q > 0 {
      Periods(a, q - 1, bound, k);
      OnePeriod(a + (q - 1) * bound, bound, k);
      CountSplit(a, (q - 1) * bound, bound, bound, k);
      assert (q - 1) * bound + bound == q * bound;
    }
  }

  /** Of the accepted words, every number below the bound is the remainder of equally many. */
  lemma {:induction false} UniformIsUniform(bound: nat, k: nat)
    requires 2 <= bound < U32 && k < bound
    ensures CountResidue(MinAccepted(bound), U32 - MinAccepted(bound), bound, k) == U32 / bound
  {
    MinIsRemainder(bound);
    var q := U32 / bound;
    assert U32 - U32 % bound == q * bound;
    Periods(U32 % bound, q, bound, k);
  }

  /** arc4random_uniform, with the words it draws given: the first accepted one decides. */
  method Uniform(bound: nat, words: seq<nat>) returns (r: Option<nat>, ghost used: nat)
    requires bound < U32 && forall w <- words :: w < U32
    ensures bound < 2 ==> r == Some(0)
    ensures bound >= 2 && r.Some? ==> used < |words| && words[used] >= U32 % bound && r.value == words[used] % bound < bound
    ensures bound >= 2 ==> used <= |words| && (forall i :: 0 <= i < used ==> words[i] < U32 % bound)
    ensures bound >= 2 && r == None ==> used == |words|
  {
    used := 0;
    if bound < 2 {
      return Some(0), 0;
    }
    MinIsRemainder(bound);
    var min := MinAccepted(bound);
    for n := 0 to |words|
      invariant used == n && forall i :: 0 <= i < n ==> words[i] < min
    {
      if words[n] >= min {
        return Some(words[n] % bound), n;
      }
      used := n + 1;
    }
    r := None;
  }
}
