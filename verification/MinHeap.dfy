/** The binary heap of timeouts. Every event in it knows its own index. */
module MinHeap {
  import opened Wrappers
  import opened Events

  function Parent(i: nat): (r: nat)
    requires i > 0
    ensures r < i
  {
    (i - 1) / 2
  }

  /** The times of the events, as they are now. */
  ghost predicate Times(t: map<Event, int>)
    reads t.Keys`timeout
  {
    forall e <- t.Keys :: t[e] == e.timeout.us
  }

  /** All events have a time. */
  ghost predicate Timed(t: map<Event, int>, p: seq<Event>) {
    forall i :: 0 <= i < |p| ==> p[i] in t
  }

  /** The event at `j` is not later than the one at `i`. */
  ghost predicate NotLater(t: map<Event, int>, p: seq<Event>, j: nat, i: nat)
    requires Timed(t, p) && j < |p| && i < |p|
  {
    t[p[j]] <= t[p[i]]
  }

  ghost predicate Heap(t: map<Event, int>, p: seq<Event>)
    requires Timed(t, p)
  {
    forall i {:trigger NotLater(t, p, Parent(i), i)} :: 0 < i < |p| ==> NotLater(t, p, Parent(i), i)
  }

  /** A heap, except that the event at `h` may be too early for its parent. */
  ghost predicate HeapButUp(t: map<Event, int>, p: seq<Event>, h: nat)
    requires Timed(t, p) && h < |p|
  {
    && (forall i {:trigger NotLater(t, p, Parent(i), i)} :: 0 < i < |p| && i != h ==> NotLater(t, p, Parent(i), i))
    && (forall i {:trigger NotLater(t, p, Parent(h), i)} :: 0 < i < |p| && h > 0 && Parent(i) == h ==> NotLater(t, p, Parent(h), i))
  }

  /** A heap, except that the event at `h` may be too late for its children. */
  ghost predicate HeapButDown(t: map<Event, int>, p: seq<Event>, h: nat)
    requires Timed(t, p) && h < |p|
  {
    && (forall i {:trigger NotLater(t, p, Parent(i), i)} :: 0 < i < |p| && Parent(i) != h ==> NotLater(t, p, Parent(i), i))
    && (forall i {:trigger NotLater(t, p, Parent(h), i)} :: 0 < i < |p| && h > 0 && Parent(i) == h ==> NotLater(t, p, Parent(h), i))
  }

  function Swapped(p: seq<Event>, i: nat, j: nat): (q: seq<Event>)
    requires i < |p| && j < |p|
    ensures |q| == |p|
  {
    p[i := p[j]][j := p[i]]
  }

  lemma {:induction false} UpStep(t: map<Event, int>, q: seq<Event>, h: nat)
    requires Timed(t, q) && 0 < h < |q| && HeapButUp(t, q, h) && t[q[Parent(h)]] > t[q[h]]
    ensures Timed(t, Swapped(q, h, Parent(h))) && HeapButUp(t, Swapped(q, h, Parent(h)), Parent(h))
  {
    var g := Parent(h);
    var r := Swapped(q, h, g);
    forall i | 0 < i < |r| && i != g
      ensures NotLater(t, r, Parent(i), i)
    {
      assert i == h || NotLater(t, q, Parent(i), i);
      assert Parent(i) == h ==> NotLater(t, q, Parent(h), i);
    }
    forall i | 0 < i < |r| && Parent(i) == g && g > 0
      ensures NotLater(t, r, Parent(g), i)
    {
      assert NotLater(t, q, Parent(g), g);
      assert i == h || NotLater(t, q, Parent(i), i);
    }
  }

  lemma {:induction false} DownStep(t: map<Event, int>, q: seq<Event>, h: nat, c: nat)
    requires Timed(t, q) && h < |q| && 0 < c < |q| && Parent(c) == h && HeapButDown(t, q, h)
    requires forall i {:trigger q[i]} :: 0 < i < |q| && Parent(i) == h ==> t[q[c]] <= t[q[i]]
    requires t[q[h]] > t[q[c]]
    ensures Timed(t, Swapped(q, h, c)) && HeapButDown(t, Swapped(q, h, c), c)
  {
    var r := Swapped(q, h, c);
    forall i | 0 < i < |r| && Parent(i) != c
      ensures NotLater(t, r, Parent(i), i)
    {
      if i == h {
        assert NotLater(t, q, Parent(h), c);
      } else if Parent(i) == h {
      } else {
        assert NotLater(t, q, Parent(i), i);
      }
    }
    forall i | 0 < i < |r| && Parent(i) == c && c > 0
      ensures NotLater(t, r, Parent(c), i)
    {
      assert NotLater(t, q, Parent(i), i);
    }
  }

  /** The top of a heap is the earliest event. */
  lemma {:induction false} TopIsEarliest(t: map<Event, int>, p: seq<Event>, i: nat)
    requires Timed(t, p) && Heap(t, p) && i < |p|
    ensures t[p[0]] <= t[p[i]]
  {
    if i > 0 {
      TopIsEarliest(t, p, Parent(i));
      assert NotLater(t, p, Parent(i), i);
    }
  }

  /** Putting another event in place of one: the heap may be wrong there in one direction only. */
  lemma {:induction false} ReplaceInHeap(t: map<Event, int>, p: seq<Event>, h: nat, e: Event)
    requires Timed(t, p) && Heap(t, p) && h < |p| && e in t
    ensures Timed(t, p[h := e])
    ensures h > 0 && t[p[Parent(h)]] > t[e] ==> HeapButUp(t, p[h := e], h)
    ensures !(h > 0 && t[p[Parent(h)]] > t[e]) ==> HeapButDown(t, p[h := e], h)
  {
    var q := p[h := e];
    forall i | 0 < i < |q| && Parent(i) == h && h > 0
      ensures NotLater(t, q, Parent(h), i)
    {
      assert NotLater(t, p, Parent(h), h) && NotLater(t, p, Parent(i), i);
    }
    forall i | 0 < i < |q| && i != h && Parent(i) != h
      ensures NotLater(t, q, Parent(i), i)
    {
      assert NotLater(t, p, Parent(i), i);
    }
    if h > 0 && t[p[Parent(h)]] > t[e] {
      forall i | 0 < i < |q| && Parent(i) == h
        ensures NotLater(t, q, Parent(i), i)
      {
        assert NotLater(t, p, Parent(h), h) && NotLater(t, p, Parent(i), i);
      }
    }
  }

  /** `e` is nowhere but perhaps at the hole. */
  ghost predicate Others(p: seq<Event>, h: nat, e: Event) {
    forall i :: 0 <= i < |p| && i != h ==> p[i] != e
  }

  /** A heap with another event behind its last one. */
  lemma {:induction false} HeapLonger(t: map<Event, int>, p: seq<Event>, e: Event)
    requires Timed(t, p) && Heap(t, p) && e in t
    ensures Timed(t, p + [e]) && HeapButUp(t, p + [e], |p|)
  {
    var q := p + [e];
    forall i | 0 < i < |q| && i != |p|
      ensures NotLater(t, q, Parent(i), i)
    {
      assert NotLater(t, p, Parent(i), i);
    }
  }

  /** A heap without its last event. */
  lemma {:induction false} HeapShorter(t: map<Event, int>, p: seq<Event>)
    requires Timed(t, p) && Heap(t, p) && p != []
    ensures Timed(t, p[..|p| - 1]) && Heap(t, p[..|p| - 1])
  {
    var q := p[..|p| - 1];
    forall i | 0 < i < |q|
      ensures NotLater(t, q, Parent(i), i)
    {
      assert NotLater(t, p, Parent(i), i);
    }
  }

  lemma {:induction false} UpDone(t: map<Event, int>, q: seq<Event>, h: nat)
    requires Timed(t, q) && h < |q| && HeapButUp(t, q, h) && (h > 0 ==> t[q[Parent(h)]] <= t[q[h]])
    ensures Heap(t, q)
  {
  }

  lemma {:induction false} DownDone(t: map<Event, int>, q: seq<Event>, h: nat)
    requires Timed(t, q) && h < |q| && HeapButDown(t, q, h)
    requires forall i {:trigger q[i]} :: 0 < i < |q| && Parent(i) == h ==> t[q[h]] <= t[q[i]]
    ensures Heap(t, q)
  {
  }

  ghost function Elems(p: seq<Event>): set<Event> {
    set e | e in p
  }

  lemma {:induction false} SwappedElems(p: seq<Event>, i: nat, j: nat)
    requires i < |p| && j < |p|
    ensures Elems(Swapped(p, i, j)) == Elems(p)
  {
    var q := Swapped(p, i, j);
    assert forall k :: 0 <= k < |p| ==> q[k] == p[if k == i then j else if k == j then i else k];
    assert forall k :: 0 <= k < |p| ==> p[k] == q[if k == i then j else if k == j then i else k];
  }

  /** Taking the last event off and putting it in place of event `i` leaves all events but that. */
  lemma {:induction false} ErasedElems(p: seq<Event>, i: nat)
    requires i < |p| && forall j, k :: 0 <= j < k < |p| ==> p[j] != p[k]
    ensures var init, last := p[..|p| - 1], p[|p| - 1];
      Elems(if i < |init| then init[i := last] else init) == Elems(p) - {p[i]}
  {
    var init, last := p[..|p| - 1], p[|p| - 1];
    var q := if i < |init| then init[i := last] else init;
    forall e | e in p && e != p[i]
      ensures e in q
    {
      var j: nat :| j < |p| && p[j] == e;
      assert if j < |init| then q[j] == e else q[i] == e;
    }
  }

  class EventHeap {
    var p: seq<Event>

    constructor ()
      ensures p == []
    {
      p := [];
    }

    /** Every event knows its index; so none is there twice. */
    ghost predicate Indexed()
      reads `p, p`minHeapIdx
    {
      forall i :: 0 <= i < |p| ==> p[i].minHeapIdx == i
    }

    ghost predicate Valid(t: map<Event, int>)
      reads `p, p`minHeapIdx
    {
      Indexed() && Timed(t, p) && Heap(t, p)
    }

    lemma {:induction false} SameTimes(t: map<Event, int>, u: map<Event, int>)
      requires Valid(t) && forall x <- p :: x in t ==> x in u && u[x] == t[x]
      ensures Valid(u)
    {
      assert forall i :: 0 <= i < |p| ==> p[i] in p;
      forall i | 0 < i < |p|
        ensures NotLater(u, p, Parent(i), i)
      {
        assert NotLater(t, p, Parent(i), i);
      }
    }

    /** Everywhere but at the hole, the events know their indices. */
    ghost predicate IndexedBut(h: nat)
      reads `p, p`minHeapIdx
    {
      forall i :: 0 <= i < |p| && i != h ==> p[i].minHeapIdx == i
    }

    /** Moves the event at `g` into the hole at `h`, and the hole to `g`. */
    method MoveHole(h: nat, g: nat, ghost e: Event)
      requires h < |p| && g < |p| && h != g && IndexedBut(h) && Others(p, h, e)
      modifies `p, {p[g]}`minHeapIdx
      ensures p == old(p)[h := old(p)[g]] && IndexedBut(g) && Others(p, g, e)
      ensures p[g := e] == Swapped(old(p)[h := e], h, g)
    {
      p := p[h := p[g]];
      p[h].minHeapIdx := h;
    }

    /** Puts `e` into the hole. */
    method FillHole(h: nat, e: Event)
      requires h < |p| && IndexedBut(h) && Others(p, h, e)
      modifies `p, e`minHeapIdx
      ensures p == old(p)[h := e] && Indexed()
    {
      p := p[h := e];
      e.minHeapIdx := h;
    }

    /** min_heap_shift_up_: puts `e` at the hole, or where the hole gets by moving parents down. */
    method ShiftUp(hole: nat, e: Event, ghost t: map<Event, int>)
      requires hole < |p| && IndexedBut(hole) && Others(p, hole, e)
      requires Times(t) && Timed(t, p[hole := e]) && HeapButUp(t, p[hole := e], hole)
      modifies `p, p`minHeapIdx, e`minHeapIdx
      ensures Valid(t) && Elems(p) == Elems(old(p)[hole := e])
    {
      hide Elems, HeapButUp, Heap;
      var h: nat := hole;
      ghost var before := p;
      assert forall i :: 0 <= i < |p| ==> p[i] in before;
      while h > 0 && p[Parent(h)].timeout.us > e.timeout.us
        invariant h < |p| == |before| && IndexedBut(h) && Others(p, h, e) && Times(t)
        invariant forall i :: 0 <= i < |p| && i != h ==> p[i] in before
        invariant Timed(t, p[h := e]) && HeapButUp(t, p[h := e], h)
        invariant Elems(p[h := e]) == Elems(before[hole := e])
      {
        var g := Parent(h);
        UpStep(t, p[h := e], h);
        SwappedElems(p[h := e], h, g);
        MoveHole(h, g, e);
        h := g;
      }
      UpDone(t, p[h := e], h);
      FillHole(h, e);
    }

    /** min_heap_shift_down_: puts `e` at the hole, or where the hole gets by moving the earlier
        children up. */
    method ShiftDown(hole: nat, e: Event, ghost t: map<Event, int>)
      requires hole < |p| && IndexedBut(hole) && Others(p, hole, e)
      requires Times(t) && Timed(t, p[hole := e]) && HeapButDown(t, p[hole := e], hole)
      modifies `p, p`minHeapIdx, e`minHeapIdx
      ensures Valid(t) && Elems(p) == Elems(old(p)[hole := e])
    {
      hide Elems, HeapButDown, Heap;
      var h: nat := hole;
      ghost var before := p;
      assert forall i :: 0 <= i < |p| ==> p[i] in before;
      while 2 * (h + 1) <= |p|
        invariant h < |p| == |before| && IndexedBut(h) && Others(p, h, e) && Times(t)
        invariant forall i :: 0 <= i < |p| && i != h ==> p[i] in before
        invariant Timed(t, p[h := e]) && HeapButDown(t, p[h := e], h)
        invariant Elems(p[h := e]) == Elems(before[hole := e])
        decreases |p| - h
      {
        var c := MinChild(h, e, t);
        if e.timeout.us <= p[c].timeout.us {
          break;
        }
        DownStep(t, p[h := e], h, c);
        SwappedElems(p[h := e], h, c);
        MoveHole(h, c, e);
        h := c;
      }
      DownDone(t, p[h := e], h);
      FillHole(h, e);
    }

    /** The earlier child of `h`. */
    method MinChild(h: nat, ghost e: Event, ghost t: map<Event, int>) returns (c: nat)
      requires 2 * (h + 1) <= |p| && Times(t) && Timed(t, p[h := e])
      ensures h < c < |p| && Parent(c) == h && p[c] in t && e in t
      ensures forall i {:trigger p[h := e][i]} :: 0 < i < |p| && Parent(i) == h ==> t[p[c]] <= t[p[h := e][i]]
    {
      c := 2 * (h + 1);
      ghost var q := p[h := e];
      assert q[h] == e && q[c - 1] == p[c - 1] && (c < |p| ==> q[c] == p[c]);
      if c == |p| || p[c].timeout.us > p[c - 1].timeout.us {
        c := c - 1;
      }
      forall i | 0 < i < |p| && Parent(i) == h
        ensures t[p[c]] <= t[p[h := e][i]]
      {
        assert i == 2 * h + 1 || i == 2 * h + 2;
        assert q[i] == p[i] && q[c] == p[c];
      }
    }

    /** min_heap_push_ */
    method Push(e: Event, ghost t: map<Event, int>)
      requires Times(t) && Valid(t) && e in t && e !in p
      modifies `p, p`minHeapIdx, e`minHeapIdx
      ensures Valid(t) && Elems(p) == Elems(old(p)) + {e}
    {
      hide Heap, HeapButUp;
      ghost var n := |p|;
      HeapLonger(t, p, e);
      p := p + [e];
      assert p[n := e] == p;
      ShiftUp(|p| - 1, e, t);
    }

    /** min_heap_top_ */
    method Top(ghost t: map<Event, int>) returns (e: Option<Event>)
      requires Valid(t)
      ensures e == None <==> p == []
      ensures e.Some? ==> e.value in p && e.value in t && forall x <- p :: x in t && t[e.value] <= t[x]
    {
      if |p| == 0 {
        return None;
      }
      e := Some(p[0]);
      forall x | x in p
        ensures x in t && t[p[0]] <= t[x]
      {
        var i: nat :| i < |p| && p[i] == x;
        TopIsEarliest(t, p, i);
      }
    }

    /** min_heap_erase_: the last event takes the place of `e`, and finds its own from there. When
        `e` is itself the last, the original writes it back behind the end; there is no such place
        here. */
    method Erase(e: Event, ghost t: map<Event, int>)
      requires Times(t) && Valid(t) && e in p
      modifies `p, p`minHeapIdx
      ensures Valid(t) && Elems(p) == Elems(old(p)) - {e} && e.minHeapIdx == -1
    {
      hide EventHeap.Valid, Elems;
      var i := IndexOf(e, t);
      ErasedElems(p, i);
      var last := DropLast(t);
      if i < |p| {
        PutLast(i, last, t);
      }
      Forget(e, t);
    }

    /** Every event of the heap knows where it is. */
    method IndexOf(e: Event, ghost t: map<Event, int>) returns (i: nat)
      requires Valid(t) && e in p
      ensures i < |p| && p[i] == e && forall j, k :: 0 <= j < k < |p| ==> p[j] != p[k]
    {
      i := e.minHeapIdx;
    }

    method DropLast(ghost t: map<Event, int>) returns (last: Event)
      requires Valid(t) && p != []
      modifies `p
      ensures Valid(t) && p == old(p)[..|old(p)| - 1] && last == old(p)[|old(p)| - 1] && last in t && last !in p
      ensures forall i :: 0 <= i < |p| ==> p[i] in old(p)
    {
      hide Heap;
      HeapShorter(t, p);
      last := p[|p| - 1];
      p := p[..|p| - 1];
    }

    method Forget(e: Event, ghost t: map<Event, int>)
      requires Valid(t) && e !in Elems(p)
      modifies e`minHeapIdx
      ensures Valid(t) && e.minHeapIdx == -1
    {
      assert forall i :: 0 <= i < |p| ==> p[i] in Elems(p);
      e.minHeapIdx := -1;
    }

    /** The event at `i` is replaced by `last`. */
    method PutLast(i: nat, last: Event, ghost t: map<Event, int>)
      requires Times(t) && Valid(t) && i < |p| && last in t && last !in p
      modifies `p, p`minHeapIdx, last`minHeapIdx
      ensures Valid(t) && Elems(p) == Elems(old(p)[i := last])
    {
      ReplaceInHeap(t, p, i, last);
      if i > 0 && p[Parent(i)].timeout.us > last.timeout.us {
        ShiftUp(i, last, t);
      } else {
        ShiftDown(i, last, t);
      }
    }
  }
}
