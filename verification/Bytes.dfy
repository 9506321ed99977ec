/** Byte strings. */
module Bytes {
  type Byte = x: int | 0 <= x < 256

  lemma Assoc<T>(a: seq<T>, b: seq<T>, c: seq<T>)
    ensures (a + b) + c == a + (b + c)
  {
  }

  lemma SliceSlice<T>(s: seq<T>, a: nat, b: nat, k: nat, l: nat)
    requires a <= b <= |s| && k <= l <= b - a
    ensures s[a..b][k..l] == s[a + k..a + l]
  {
    var t, u := s[a..b][k..l], s[a + k..a + l];
    forall i | 0 <= i < |t|
      ensures t[i] == u[i]
    {
      assert t[i] == s[a..b][k + i];
    }
  }
}
