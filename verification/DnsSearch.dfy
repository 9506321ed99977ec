/** The resolver's search list: which names are tried for one request, and in which order. */
module DnsSearch {
  import opened Bytes
  import opened DnsNames
  import opened DnsText
  import opened Wrappers

  // ---------- the list of domains ----------

  /** struct search_domain */
  class SearchDomain {
    var next: SearchDomain?
    const name: seq<Byte>

    constructor (name: seq<Byte>, next: SearchDomain?)
      ensures this.name == name && this.next == next
    {
      this.name, this.next := name, next;
    }
  }

  /** The nodes of a list that starts at `head` and goes on to `tail`. */
  ghost predicate Linked(nodes: seq<SearchDomain>, head: SearchDomain?, tail: SearchDomain?)
    reads nodes`next
  {
    && head == (if nodes == [] then tail else nodes[0])
    && (forall i {:trigger nodes[i].next} :: 0 <= i < |nodes| ==> nodes[i].next == if i + 1 < |nodes| then nodes[i + 1] else tail)
    && (forall i, j :: 0 <= i < j < |nodes| ==> nodes[i] != nodes[j])
  }

  ghost function Names(nodes: seq<SearchDomain>): (r: seq<seq<Byte>>)
    ensures |r| == |nodes| && forall i :: 0 <= i < |r| ==> r[i] == nodes[i].name
  {
    seq(|nodes|, i requires 0 <= i < |nodes| => nodes[i].name)
  }

  ghost function Reversed<T>(s: seq<T>): (r: seq<T>)
    ensures |r| == |s| && forall i :: 0 <= i < |r| ==> r[i] == s[|s| - 1 - i]
  {
    seq(|s|, i requires 0 <= i < |s| => s[|s| - 1 - i])
  }

  lemma {:induction false} NamesReversed(nodes: seq<SearchDomain>)
    ensures Names(Reversed(nodes)) == Reversed(Names(nodes))
  {
  }

  /** A domain without the dots in front of it. */
  function Stripped(domain: seq<Byte>): seq<Byte> {
    if domain != [] && domain[0] == DOT then Stripped(domain[1..]) else domain
  }

  /** Only dots are lost, and all of them. */
  lemma {:induction false} StrippedIs(domain: seq<Byte>)
    ensures var r := Stripped(domain);
      && (r == [] || r[0] != DOT)
      && |r| <= |domain| && domain[|domain| - |r|..] == r && forall i :: 0 <= i < |domain| - |r| ==> domain[i] == DOT
  {
    if domain != [] && domain[0] == DOT {
      StrippedIs(domain[1..]);
      assert forall i :: 1 <= i < |domain| ==> domain[i] == domain[1..][i - 1];
    }
  }

  class SearchState {
    var ndots: int
    var numDomains: nat
    var head: SearchDomain?
    ghost var nodes: seq<SearchDomain>

    /** search_state_new */
    constructor ()
      ensures Valid() && Domains() == [] && ndots == 1 && fresh(this)
    {
      ndots, numDomains, head, nodes := 1, 0, null, [];
    }

    ghost predicate Valid()
      reads `head, `nodes, `numDomains, nodes`next
    {
      Linked(nodes, head, null) && numDomains == |nodes|
    }

    /** The domains in list order. */
    ghost function Domains(): seq<seq<Byte>>
      reads `nodes
    {
      Names(nodes)
    }

    /** search_postfix_add: to the front of the list */
    method PostfixAdd(domain: seq<Byte>)
      requires Valid()
      modifies `head, `nodes, `numDomains
      ensures Valid() && Domains() == [Stripped(domain)] + old(Domains())
      ensures fresh(nodes[0]) && nodes[1..] == old(nodes)
    {
      var d := domain;
      while d != [] && d[0] == DOT
        invariant Stripped(d) == Stripped(domain)
      {
        d := d[1..];
      }
      numDomains := numDomains + 1;
      var sdomain := new SearchDomain(d, head);
      head := sdomain;
      nodes := [sdomain] + nodes;
    }

    /** search_reverse, in place */
    method Reverse()
      requires Valid()
      modifies `head, `nodes, nodes`next
      ensures Valid() && Domains() == Reversed(old(Domains())) && numDomains == old(numDomains)
      ensures nodes == Reversed(old(nodes))
    {
      hide Names, Reversed;
      ghost var all := nodes;
      NamesReversed(all);
      ghost var n := 0;
      var cur, prev: SearchDomain? := head, null;
      while cur != null
        invariant 0 <= n <= |all| && nodes == all && |all| == numDomains
        invariant cur == if n < |all| then all[n] else null
        invariant prev == if n > 0 then all[n - 1] else null
        invariant forall i {:trigger all[i].next} :: n <= i < |all| ==> all[i].next == if i + 1 < |all| then all[i + 1] else null
        invariant forall i {:trigger all[i].next} :: 0 <= i < n ==> all[i].next == if i > 0 then all[i - 1] else null
        invariant forall i, j :: 0 <= i < j < |all| ==> all[i] != all[j]
        decreases |all| - n
      {
        var next := cur.next;
        cur.next := prev;
        prev := cur;
        cur := next;
        n := n + 1;
      }
      head := prev;
      nodes := Reversed(all);
    }
  }

  /** Reading a configuration: the domains are added one by one, and then the list is reversed. */
  method Configure(domains: seq<seq<Byte>>) returns (state: SearchState)
    ensures fresh(state) && fresh(state.nodes) && state.Valid() && |state.Domains()| == |domains|
    ensures forall i :: 0 <= i < |domains| ==> state.Domains()[i] == Stripped(domains[i])
  {
    hide SearchState.Valid, Names, Reversed, Stripped;
    state := new SearchState();
    for i := 0 to |domains|
      invariant fresh(state) && fresh(state.nodes) && state.Valid() && |state.nodes| == i
      invariant forall j :: 0 <= j < i ==> state.Domains()[j] == Stripped(domains[i - 1 - j])
    {
      ghost var before := state.Domains();
      state.PostfixAdd(domains[i]);
    }
    state.Reverse();
  }

  // ---------- the order of names ----------

  /** string_num_dots */
  method StringNumDots(s: seq<Byte>) returns (count: nat)
    ensures count == Dots(s) == multiset(s)[DOT]
  {
    DotsAre(s);
    count := 0;
    var k := 0;
    while k < |s|
      invariant 0 <= k <= |s| && count + Dots(s[k..]) == Dots(s)
    {
      if s[k] == DOT {
        count := count + 1;
      }
      assert s[k..][1..] == s[k + 1..];
      k := k + 1;
    }
  }

  ghost function Dots(s: seq<Byte>): nat {
    if s == [] then 0 else (if s[0] == DOT then 1 else 0) + Dots(s[1..])
  }

  lemma {:induction false} DotsAre(s: seq<Byte>)
    ensures Dots(s) == multiset(s)[DOT]
  {
    if s != [] {
      DotsAre(s[1..]);
      assert s == [s[0]] + s[1..];
    }
  }

  /** `name` in the search domain `domain`; there is none for an empty name. */
  function InDomain(name: seq<Byte>, domain: seq<Byte>): Option<seq<Byte>> {
    if name == [] then None else Some(name + (if name[|name| - 1] == DOT then [] else [DOT]) + domain)
  }

  /** What the name in a domain looks like: the name is in front, the domain behind, and a dot between
      them, which is the name's own if it ends in one. */
  lemma {:induction false} InDomainIs(name: seq<Byte>, domain: seq<Byte>)
    ensures InDomain(name, domain) == None <==> name == []
    ensures var r := InDomain(name, domain);
      r.Some? ==>
        && var n := |r.value| - |domain|;
        && n == |name| + (if name[|name| - 1] == DOT then 0 else 1)
        && r.value[..|name|] == name && r.value[n - 1] == DOT && r.value[n..] == domain
  {
    if name != [] {
      var dot := if name[|name| - 1] == DOT then [] else [DOT];
      assert InDomain(name, domain).value == (name + dot) + domain;
      assert (name + dot)[..|name|] == name;
    }
  }

  /** Sent in a query, it has the labels of the name and then those of the domain, unless the name
      already ends at an empty label of its own. */
  lemma {:induction false} LabelsInDomain(name: seq<Byte>, domain: seq<Byte>)
    requires name != []
    ensures Labels(InDomain(name, domain).value) == Labels(name) + (if Whole(name) then Labels(domain) else [])
  {
    hide Whole, Labels, FirstLabel;
    var n := FirstLabel(name);
    if n == 0 {
      DotFirst(name, domain);
    } else if n == |name| {
      OneLabel(name, domain);
    } else {
      WholeBehind(name);
      var first, rest := name[..n], name[n + 1..];
      MoreLabels(name, domain);
      LabelBehind(first, rest);
      assert name == first + [DOT] + rest;
      if rest == [] {
        LabelBehind(first, domain);
        NothingWhole();
      } else {
        LabelsInDomain(rest, domain);
        LabelBehind(first, InDomain(rest, domain).value);
      }
    }
  }

  lemma {:induction false} DotFirst(name: seq<Byte>, domain: seq<Byte>)
    requires name != [] && FirstLabel(name) == 0
    ensures Labels(InDomain(name, domain).value) == Labels(name) == [] && !Whole(name)
  {
    assert EmptyAt(name, 0);
  }

  lemma {:induction false} OneLabel(name: seq<Byte>, domain: seq<Byte>)
    requires 0 < FirstLabel(name) == |name|
    ensures Labels(InDomain(name, domain).value) == Labels(name) + Labels(domain) && Whole(name)
  {
    LabelBehind(name, domain);
  }

  lemma {:induction false} MoreLabels(name: seq<Byte>, domain: seq<Byte>)
    requires 0 < FirstLabel(name) < |name|
    ensures var n := FirstLabel(name);
      var rest := name[n + 1..];
      InDomain(name, domain).value == name[..n] + [DOT] + (if rest == [] then domain else InDomain(rest, domain).value)
  {
    var n := FirstLabel(name);
    var rest := name[n + 1..];
    var dot := if name[|name| - 1] == DOT then [] else [DOT];
    assert name == name[..n] + [DOT] + rest;
    assert rest != [] ==> rest[|rest| - 1] == name[|name| - 1];
    assert name + dot + domain == name[..n] + [DOT] + (rest + dot + domain);
  }

  lemma {:induction false} LabelBehind(first: seq<Byte>, rest: seq<Byte>)
    requires first != [] && DOT !in first
    ensures Labels(first + [DOT] + rest) == [first] + Labels(rest)
  {
    var s := first + [DOT] + rest;
    assert s[|first|] == DOT && forall i :: 0 <= i < |first| ==> s[i] == first[i];
    assert FirstLabel(s) == |first|;
    assert s[..|first|] == first && s[|first| + 1..] == rest;
  }

  lemma {:induction false} NothingWhole()
    ensures Whole([]) && Labels([]) == []
  {
  }

  /** All names to try: in each domain in turn, and the name itself before or after them. */
  ghost function Plan(domains: seq<seq<Byte>>, ndots: int, name: seq<Byte>): (r: seq<Option<seq<Byte>>>)
    ensures r != []
  {
    var searched := seq(|domains|, i requires 0 <= i < |domains| => InDomain(name, domains[i]));
    if domains == [] then [Some(name)]
    else if Dots(name) >= ndots then [Some(name)] + searched
    else searched + [Some(name)]
  }

  lemma {:induction false} PlanByIndex(domains: seq<seq<Byte>>, ndots: int, name: seq<Byte>)
    ensures var plan := Plan(domains, ndots, name);
      && |plan| == |domains| + 1
      && (domains == [] || Dots(name) >= ndots ==> plan[0] == Some(name))
      && (Dots(name) >= ndots ==> forall i :: 0 <= i < |domains| ==> plan[i + 1] == InDomain(name, domains[i]))
      && (Dots(name) < ndots ==> plan[|domains|] == Some(name))
      && (Dots(name) < ndots ==> forall i :: 0 <= i < |domains| ==> plan[i] == InDomain(name, domains[i]))
  {
    hide InDomain, Dots;
  }

  /** A request can be made for this name of the plan. */
  ghost predicate Asks(creates: seq<Byte> -> bool, name: Option<seq<Byte>>) {
    name.Some? && creates(name.value)
  }

  /** search_make_new: walks to the `n`-th domain. */
  method MakeNew(state: SearchState, n: nat, base: seq<Byte>) returns (name: Option<seq<Byte>>)
    requires state.Valid() && n < state.numDomains
    ensures name == InDomain(base, state.Domains()[n])
  {
    if |base| == 0 {
      return None;
    }
    var dom, left := state.head, n;
    ghost var k := 0;
    while left != 0
      invariant 0 <= k && k + left == n && dom == state.nodes[k]
    {
      dom := dom.next;
      left, k := left - 1, k + 1;
    }
    var dot := if base[|base| - 1] == DOT then [] else [DOT];
    name := Some(base + dot + dom.name);
  }

  /** The searching part of struct evdns_request. */
  class Handle {
    var searchIndex: int
    var searchState: SearchState?
    var searchOrigname: seq<Byte>

    constructor ()
      ensures searchState == null
    {
      searchIndex, searchState, searchOrigname := 0, null, [];
    }
  }

  /** search_request_new, when searching is not switched off by a flag. `creates` says for which names
      request_new makes a request. Returns the name asked for, if any. */
  method SearchRequestNew(state: SearchState, handle: Handle, name: seq<Byte>, creates: seq<Byte> -> bool)
      returns (asked: Option<seq<Byte>>)
    requires state.Valid() && handle.searchState == null
    modifies handle
    ensures var plan := Plan(state.Domains(), state.ndots, name);
      && asked == (if Asks(creates, plan[0]) then plan[0] else None)
      && (asked.Some? ==> AtStep(handle, state, name, 0))
  {
    hide Plan, InDomain, Dots;
    PlanByIndex(state.Domains(), state.ndots, name);
    if state.numDomains != 0 {
      var dots := StringNumDots(name);
      if dots >= state.ndots {
        if !creates(name) {
          return None;
        }
        asked := Some(name);
        handle.searchIndex := -1;
      } else {
        var newName := MakeNew(state, 0, name);
        if newName == None || !creates(newName.value) {
          return None;
        }
        asked := newName;
        handle.searchIndex := 0;
      }
      handle.searchOrigname := name;
      handle.searchState := state;
    } else {
      asked := if creates(name) then Some(name) else None;
    }
  }

  /** The request of `handle` is for name `k` of the plan. */
  ghost predicate AtStep(handle: Handle, state: SearchState, name: seq<Byte>, k: nat)
    reads handle, state
  {
    var plan := Plan(state.Domains(), state.ndots, name);
    && k < |plan|
    && if state.nodes == [] || (Dots(name) < state.ndots && k == |plan| - 1) then handle.searchState == null
       else
         && handle.searchState == state && handle.searchOrigname == name
         && handle.searchIndex == if Dots(name) >= state.ndots then k - 1 else k
  }

  /** search_try_next: the request has failed to find its name; the next one of the plan is asked for,
      unless there is none or no request can be made for it. */
  method SearchTryNext(state: SearchState, handle: Handle, name: seq<Byte>, creates: seq<Byte> -> bool, ghost k: nat)
      returns (asked: Option<seq<Byte>>)
    requires state.Valid() && AtStep(handle, state, name, k)
    modifies handle
    ensures var plan := Plan(state.Domains(), state.ndots, name);
      && asked == (if k + 1 < |plan| && Asks(creates, plan[k + 1]) then plan[k + 1] else None)
      && (asked.Some? ==> AtStep(handle, state, name, k + 1))
  {
    hide Plan, InDomain, Dots;
    PlanByIndex(state.Domains(), state.ndots, name);
    if handle.searchState == null {
      return None;
    }
    var s := handle.searchState;
    handle.searchIndex := handle.searchIndex + 1;
    if handle.searchIndex >= s.numDomains {
      var dots := StringNumDots(handle.searchOrigname);
      if dots < s.ndots {
        if creates(handle.searchOrigname) {
          asked := Some(handle.searchOrigname);
          handle.searchState := null;
          return;
        }
      }
      return None;
    }
    var newName := MakeNew(s, handle.searchIndex, handle.searchOrigname);
    if newName == None || !creates(newName.value) {
      return None;
    }
    asked := newName;
  }

  /** A whole search in which every name fails: exactly the plan is asked for, each name once and in
      order, up to the first for which no request can be made. */
  method SearchAll(state: SearchState, name: seq<Byte>, creates: seq<Byte> -> bool) returns (asked: seq<seq<Byte>>)
    requires state.Valid()
    ensures var plan := Plan(state.Domains(), state.ndots, name);
      && |asked| <= |plan|
      && (forall i :: 0 <= i < |asked| ==> plan[i] == Some(asked[i]) && creates(asked[i]))
      && (|asked| < |plan| ==> !Asks(creates, plan[|asked|]))
  {
    hide Plan, AtStep, SearchState.Valid;
    ghost var plan := Plan(state.Domains(), state.ndots, name);
    var handle := new Handle();
    var next := SearchRequestNew(state, handle, name, creates);
    asked := [];
    while next.Some?
      invariant |asked| <= |plan| && forall i :: 0 <= i < |asked| ==> plan[i] == Some(asked[i]) && creates(asked[i])
      invariant next.Some? ==> |asked| < |plan| && next == plan[|asked|] && AtStep(handle, state, name, |asked|) && creates(next.value)
      invariant next == None && |asked| < |plan| ==> !Asks(creates, plan[|asked|])
      invariant state.Valid()
      decreases |plan| - |asked|, if next.Some? then 1 else 0
    {
      ghost var k := |asked|;
      asked := asked + [next.value];
      next := SearchTryNext(state, handle, name, creates, k);
    }
  }
}
