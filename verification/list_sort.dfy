/** The bottom-up merge sort of adx_list.c, relinking nodes in place. */
module ListSort {
  import opened Common
  import opened MergeSpec
  import opened ListRing
  import opened Powers

  // ---- chains of next links, as values ----

  type Nexts = map<Link, Link?>

  ghost function First(s: seq<Link>): Link? {
    if s == [] then null else s[0]
  }

  /** Every node of s leads to its successor, the last one to end. */
  ghost predicate Chain(nx: Nexts, s: seq<Link>, end: Link?) {
    && Distinct(s)
    && (forall x <- s :: x in nx)
    && forall i {:trigger nx[s[i]]} :: 0 <= i < |s| ==> nx[s[i]] == if i == |s| - 1 then end else s[i + 1]
  }

  ghost predicate Disjoint(s: seq<Link>, t: seq<Link>) {
    forall x <- s :: x !in t
  }

  /** The state of a merge: out is linked up, a and b are what is left of the two lists. */
  ghost predicate Merging(nx: Nexts, out: seq<Link>, end: Link?, a: seq<Link>, b: seq<Link>) {
    && out != [] && Chain(nx, out, end) && Chain(nx, a, null) && Chain(nx, b, null)
    && Disjoint(out, a) && Disjoint(out, b) && Disjoint(a, b)
  }

  lemma ChainFrame(nx: Nexts, nx': Nexts, s: seq<Link>, end: Link?)
    requires Chain(nx, s, end) && forall x <- s :: x in nx' && x in nx && nx'[x] == nx[x]
    ensures Chain(nx', s, end)
  {}

  lemma DistinctSum<T>(s: seq<T>, t: seq<T>)
    ensures Distinct(s + t) <==> Distinct(s) && Distinct(t) && forall x <- s :: x !in t
  {
    var u := s + t;
    assert forall i {:trigger s[i]} :: 0 <= i < |s| ==> u[i] == s[i];
    assert forall i {:trigger t[i]} :: 0 <= i < |t| ==> u[|s| + i] == t[i];
    if Distinct(s) && Distinct(t) && forall x <- s :: x !in t {
      forall i, j | 0 <= i < j < |u| ensures u[i] != u[j] {
        if i < |s| && j >= |s| {
          assert s[i] in s && t[j - |s|] in t;
        }
      }
    }
  }

  /** A chain in two pieces: the first leads into the second. */
  lemma ChainSum(nx: Nexts, s: seq<Link>, t: seq<Link>, end: Link?)
    ensures Chain(nx, s + t, end) <==>
            Chain(nx, s, if t == [] then end else t[0]) && Chain(nx, t, end) && Disjoint(s, t)
  {
    var u, mid := s + t, if t == [] then end else t[0];
    DistinctSum(s, t);
    assert (forall x <- u :: x in nx) <==> (forall x <- s :: x in nx) && (forall x <- t :: x in nx);
    if forall x <- u :: x in nx {
      assert forall i {:trigger s[i]} :: 0 <= i < |s| ==> u[i] == s[i];
      assert forall i {:trigger t[i]} :: 0 <= i < |t| ==> u[|s| + i] == t[i];
      if Chain(nx, u, end) {
        forall i | 0 <= i < |s| ensures nx[s[i]] == if i == |s| - 1 then mid else s[i + 1] {
          assert nx[u[i]] == if i == |u| - 1 then end else u[i + 1];
        }
        forall i | 0 <= i < |t| ensures nx[t[i]] == if i == |t| - 1 then end else t[i + 1] {
          assert nx[u[|s| + i]] == if |s| + i == |u| - 1 then end else u[|s| + i + 1];
        }
      }
      if Chain(nx, s, mid) && Chain(nx, t, end) {
        forall i | 0 <= i < |u| ensures nx[u[i]] == if i == |u| - 1 then end else u[i + 1] {
          if i < |s| {
            assert nx[s[i]] == if i == |s| - 1 then mid else s[i + 1];
          } else {
            assert nx[t[i - |s|]] == if i - |s| == |t| - 1 then end else t[i - |s| + 1];
          }
        }
      }
    }
  }

  /** Writing the last link of a chain. */
  lemma ChainEnd(nx: Nexts, s: seq<Link>, end: Link?, end': Link?)
    requires Chain(nx, s, end) && s != []
    ensures Chain(nx[s[|s| - 1] := end'], s, end')
  {}

  lemma MergeStep(nx: Nexts, out: seq<Link>, end: Link?, a: seq<Link>, b: seq<Link>)
    requires Merging(nx, out, end, a, b) && a != []
    ensures Merging(nx[out[|out| - 1] := a[0]], out + [a[0]], First(a[1..]), a[1..], b)
  {
    var nx' := nx[out[|out| - 1] := a[0]];
    ChainEnd(nx, out, end, a[0]);
    ChainFrame(nx, nx', a, null);
    ChainFrame(nx, nx', b, null);
    assert a == [a[0]] + a[1..];
    hide Chain;
    ChainSum(nx', [a[0]], a[1..], null);
    ChainSum(nx', out, a, null);
    assert out + a == (out + [a[0]]) + a[1..];
    ChainSum(nx', out + [a[0]], a[1..], null);
    assert a[0] in a;
  }

  lemma Swap(nx: Nexts, out: seq<Link>, end: Link?, a: seq<Link>, b: seq<Link>)
    requires Merging(nx, out, end, a, b)
    ensures Merging(nx, out, end, b, a)
  {}

  lemma MergeEnd(nx: Nexts, out: seq<Link>, end: Link?, a: seq<Link>)
    requires Merging(nx, out, end, a, [])
    ensures Chain(nx[out[|out| - 1] := First(a)], out + a, null)
  {
    var nx' := nx[out[|out| - 1] := First(a)];
    ChainEnd(nx, out, end, First(a));
    ChainFrame(nx, nx', a, null);
    ChainSum(nx', out, a, null);
  }

  // ---- on the nodes ----

  ghost function NextOf(s: set<Link>): Nexts
    reads s`next
  {
    map x | x in s :: x.next
  }

  ghost function Elements(s: seq<Link>): set<Link> {
    set x | x in s
  }

  ghost predicate List(s: seq<Link>, p: Link?)
    reads s`next
  {
    p == First(s) && Chain(NextOf(Elements(s)), s, null)
  }

  lemma MoveElement(out: seq<Link>, a: seq<Link>)
    requires a != []
    ensures Elements(out + [a[0]]) + Elements(a[1..]) == Elements(out) + Elements(a) && a[0] in Elements(a)
  {
    assert a == [a[0]] + a[1..];
  }

  lemma MergedTake(cmp: (Link, Link) -> int, out: seq<Link>, a: seq<Link>, b: seq<Link>)
    requires out != [] && a != [] && b != []
    ensures out[1..] + Merged(cmp, a, b) == if cmp(a[0], b[0]) <= 0
              then (out + [a[0]])[1..] + Merged(cmp, a[1..], b)
              else (out + [b[0]])[1..] + Merged(cmp, a, b[1..])
  {
    var x := if cmp(a[0], b[0]) <= 0 then a[0] else b[0];
    assert (out + [x])[1..] == out[1..] + [x];
    MergedHead(cmp, a, b);
    hide Merged;
    TakeSum(out[1..], x, if cmp(a[0], b[0]) <= 0 then Merged(cmp, a[1..], b) else Merged(cmp, a, b[1..]));
  }

  lemma MergedHead(cmp: (Link, Link) -> int, a: seq<Link>, b: seq<Link>)
    requires a != [] && b != []
    ensures Merged(cmp, a, b) == if cmp(a[0], b[0]) <= 0 then [a[0]] + Merged(cmp, a[1..], b)
                                 else [b[0]] + Merged(cmp, a, b[1..])
  {}

  lemma TakeSum<T>(s: seq<T>, x: T, t: seq<T>)
    ensures s + ([x] + t) == (s + [x]) + t
  {}

  lemma MergedRest(cmp: (Link, Link) -> int, a: seq<Link>)
    ensures Merged(cmp, a, []) == a == Merged(cmp, [], a) && Elements([]) == {}
  {}

  /** Ghost side of a merge: what is linked up behind the node on the stack, and what is left. */
  datatype MergeState = MergeState(all: set<Link>, out: seq<Link>, a: seq<Link>, b: seq<Link>)

  /** What the loop of adx_list_merge keeps. */
  ghost predicate MergeLoop(cmp: (Link, Link) -> int, st: MergeState, head: Link, tail: Link, a: Link?, b: Link?,
                            whole: seq<Link>)
    reads st.all`next
  {
    && a == First(st.a) && b == First(st.b)
    && st.out != [] && st.out[0] == head && tail == st.out[|st.out| - 1] && tail in st.all
    && Merging(NextOf(st.all), st.out, tail.next, st.a, st.b)
    && Elements(st.out) + Elements(st.a) + Elements(st.b) == st.all
    && whole == st.out[1..] + Merged(cmp, st.a, st.b)
  }

  /** tail->next = a; a = a->next; tail = tail->next. */
  method Take(cmp: (Link, Link) -> int, tail: Link, x: Link, ghost all: set<Link>, ghost out: seq<Link>,
              ghost a: seq<Link>, ghost b: seq<Link>) returns (next: Link?)
    requires out != [] && tail == out[|out| - 1] && a != [] && x == a[0]
    requires tail in all && x in all && Merging(NextOf(all), out, tail.next, a, b)
    modifies tail`next
    ensures next == First(a[1..]) && x.next == next
    ensures Merging(NextOf(all), out + [x], x.next, a[1..], b)
  {
    ghost var nx := NextOf(all);
    MergeStep(nx, out, tail.next, a, b);
    assert nx[a[0]] == First(a[1..]);
    assert tail in out && x in a && tail != x;
    hide Merging, Chain;
    tail.next := x;
    next := x.next;
    assert NextOf(all) == nx[tail := x];
  }

  /** tail->next = a ?: b. */
  method LinkRest(cmp: (Link, Link) -> int, ghost head: Link, tail: Link, a: Link?, b: Link?, ghost st: MergeState,
                  ghost whole: seq<Link>) returns (ghost rest: seq<Link>)
    requires MergeLoop(cmp, st, head, tail, a, b, whole) && (a == null || b == null)
    modifies tail`next
    ensures rest == if a != null then st.a else st.b
    ensures st.out + rest == [head] + whole && Elements([head] + whole) == st.all
    ensures Chain(NextOf(st.all), [head] + whole, null)
  {
    hide Chain, Merged, Elements;
    ghost var nx := NextOf(st.all);
    rest := RestReady(cmp, head, tail, a, b, st, whole, nx);
    tail.next := if a != null then a else b;
    assert NextOf(st.all) == nx[tail := First(rest)];
  }

  /** Linking the remaining list finishes the whole. */
  lemma RestReady(cmp: (Link, Link) -> int, head: Link, tail: Link, a: Link?, b: Link?, st: MergeState, whole: seq<Link>,
                  nx: Nexts) returns (rest: seq<Link>)
    requires MergeLoop(cmp, st, head, tail, a, b, whole) && (a == null || b == null) && nx == NextOf(st.all)
    ensures rest == if a != null then st.a else st.b
    ensures st.out + rest == [head] + whole && Elements([head] + whole) == st.all && tail in st.all
    ensures First(rest) == if a != null then a else b
    ensures Chain(nx[tail := First(rest)], [head] + whole, null)
  {
    rest := if a != null then st.a else st.b;
    assert if a != null then st.b == [] else st.a == [];
    MergedRest(cmp, rest);
    if a == null {
      Swap(nx, st.out, tail.next, st.a, st.b);
    }
    MergeEnd(nx, st.out, tail.next, rest);
    assert st.out + rest == [head] + whole;
  }

  /** What lies behind the node on the stack. */
  lemma Behind(all: set<Link>, head: Link, whole: seq<Link>)
    requires Elements([head] + whole) == all && Chain(NextOf(all), [head] + whole, null)
    ensures List(whole, head.next)
  {
    assert ([head] + whole)[0] == head && head in all;
    assert NextOf(all)[([head] + whole)[0]] == First(whole);
    ChainSum(NextOf(all), [head], whole, null);
    assert forall x | x in whole :: x in [head] + whole;
    assert Elements(whole) <= all;
    ChainFrame(NextOf(all), NextOf(Elements(whole)), whole, null);
  }

  method TakeFirst(cmp: (Link, Link) -> int, ghost st: MergeState, ghost head: Link, tail: Link, a: Link, b: Link,
                   ghost whole: seq<Link>) returns (next: Link?, ghost st': MergeState)
    requires MergeLoop(cmp, st, head, tail, a, b, whole) && cmp(a, b) <= 0
    modifies tail`next
    ensures st'.out == st.out + [a] && a in st.all && a !in st.out
    ensures MergeLoop(cmp, st', head, a, next, b, whole) && st'.all == st.all && |st'.a| + |st'.b| < |st.a| + |st.b|
  {
    MergedTake(cmp, st.out, st.a, st.b);
    MoveElement(st.out, st.a);
    hide Merging, Merged, Elements, NextOf;
    next := Take(cmp, tail, a, st.all, st.out, st.a, st.b);
    st' := MergeState(st.all, st.out + [a], st.a[1..], st.b);
  }

  method TakeSecond(cmp: (Link, Link) -> int, ghost st: MergeState, ghost head: Link, tail: Link, a: Link, b: Link,
                    ghost whole: seq<Link>) returns (next: Link?, ghost st': MergeState)
    requires MergeLoop(cmp, st, head, tail, a, b, whole) && cmp(a, b) > 0
    modifies tail`next
    ensures st'.out == st.out + [b] && b in st.all && b !in st.out
    ensures MergeLoop(cmp, st', head, b, a, next, whole) && st'.all == st.all && |st'.a| + |st'.b| < |st.a| + |st.b|
  {
    MergedTake(cmp, st.out, st.a, st.b);
    MoveElement(st.out, st.b);
    Swap(NextOf(st.all), st.out, tail.next, st.a, st.b);
    hide Merging, Merged, Elements, NextOf;
    next := Take(cmp, tail, b, st.all, st.out, st.b, st.a);
    st' := MergeState(st.all, st.out + [b], st.a, st.b[1..]);
    Swap(NextOf(st.all), st'.out, b.next, st'.b, st'.a);
  }

  lemma MergeStart(cmp: (Link, Link) -> int, head: Link, a: Link?, b: Link?, sa: seq<Link>, sb: seq<Link>)
    requires List(sa, a) && List(sb, b) && Disjoint(sa, sb) && head !in sa && head !in sb
    ensures MergeLoop(cmp, MergeState({head} + Elements(sa) + Elements(sb), [head], sa, sb), head, head, a, b,
                      Merged(cmp, sa, sb))
  {
    var all := {head} + Elements(sa) + Elements(sb);
    ChainFrame(NextOf(Elements(sa)), NextOf(all), sa, null);
    ChainFrame(NextOf(Elements(sb)), NextOf(all), sb, null);
    assert Merging(NextOf(all), [head], head.next, sa, sb);
    assert Elements([head]) == {head};
  }

  method MergeFrom(cmp: (Link, Link) -> int, head: Link, first: Link?, second: Link?, ghost start: MergeState,
                   ghost whole: seq<Link>) returns (r: Link?)
    requires MergeLoop(cmp, start, head, head, first, second, whole)
    modifies start.all`next
    ensures List(whole, r)
  {
    assert head in start.all;
    hide MergeLoop, Merging, Merged, Elements, NextOf, List;
    var tail, a, b := head, first, second;
    ghost var st := start;
    while a != null && b != null
      invariant MergeLoop(cmp, st, head, tail, a, b, whole) && tail in st.all && st.all == start.all
      decreases |st.a| + |st.b|
    {
      var x: Link := if cmp(a, b) <= 0 then a else b;
      if cmp(a, b) <= 0 {
        a, st := TakeFirst(cmp, st, head, tail, x, b, whole);
      } else {
        b, st := TakeSecond(cmp, st, head, tail, a, x, whole);
      }
      tail := x;
    }
    ghost var rest := LinkRest(cmp, head, tail, a, b, st, whole);
    Behind(st.all, head, whole);
    r := head.next;
  }

  /** adx_list_merge. */
  method Merge(cmp: (Link, Link) -> int, first: Link?, second: Link?, ghost sa: seq<Link>, ghost sb: seq<Link>)
    returns (r: Link?)
    requires List(sa, first) && List(sb, second) && Disjoint(sa, sb)
    modifies sa`next, sb`next
    ensures List(Merged(cmp, sa, sb), r)
  {
    hide List, Disjoint, Merged, MergeLoop;
    var head := new Link();
    MergeStart(cmp, head, first, second, sa, sb);
    r := MergeFrom(cmp, head, first, second, MergeState({head} + Elements(sa) + Elements(sb), [head], sa, sb),
                   Merged(cmp, sa, sb));
  }

  // ---- the last merge, which also writes the back links ----

  /** Back links lead from each node to the one before it, up to position k. */
  ghost predicate Back(s: seq<Link>, k: int)
    reads s`prev
  {
    forall i {:trigger s[i].prev} :: 1 <= i <= k && i < |s| ==> s[i].prev == s[i - 1]
  }

  method SetBack(x: Link, tail: Link, ghost out: seq<Link>)
    requires out != [] && tail == out[|out| - 1] && x !in out && Back(out, |out|)
    modifies x`prev
    ensures Back(out + [x], |out| + 1)
  {
    x.prev := tail;
    ghost var u := out + [x];
    assert forall i {:trigger u[i].prev} :: 1 <= i < |out| ==> u[i] == out[i];
  }

  method RestoreLoop(cmp: (Link, Link) -> int, head: Link, first: Link?, second: Link?, ghost start: MergeState,
                     ghost whole: seq<Link>) returns (tail: Link, ghost k: nat)
    requires MergeLoop(cmp, start, head, head, first, second, whole) && start.out == [head]
    requires first != null || second != null
    modifies start.all
    ensures Chain(NextOf(start.all), [head] + whole, null) && Elements([head] + whole) == start.all
    ensures k < |whole| && tail == ([head] + whole)[k] && Back([head] + whole, k)
  {
    assert head in start.all;
    hide MergeLoop, Merging, Merged, Elements, NextOf, List, Chain, Back;
    var a, b := first, second;
    tail := head;
    ghost var st := start;
    while a != null && b != null
      invariant MergeLoop(cmp, st, head, tail, a, b, whole) && tail in st.all && st.all == start.all
      invariant a != null || b != null
      invariant Back(st.out, |st.out|)
      decreases |st.a| + |st.b|
    {
      var x: Link := if cmp(a, b) <= 0 then a else b;
      ghost var out := st.out;
      assert tail == out[|out| - 1] by { LastOut(cmp, st, head, tail, a, b, whole); }
      if cmp(a, b) <= 0 {
        a, st := TakeFirst(cmp, st, head, tail, x, b, whole);
      } else {
        b, st := TakeSecond(cmp, st, head, tail, a, x, whole);
      }
      SetBack(x, tail, out);
      tail := x;
    }
    LastOut(cmp, st, head, tail, a, b, whole);
    k := |st.out| - 1;
    ghost var rest := LinkRest(cmp, head, tail, a, b, st, whole);
    BackMore(st.out, rest);
  }

  lemma BackMore(out: seq<Link>, rest: seq<Link>)
    requires Back(out, |out|)
    ensures Back(out + rest, |out| - 1)
  {
    var u := out + rest;
    assert forall i {:trigger u[i].prev} :: 1 <= i < |out| ==> u[i] == out[i];
  }

  lemma LastOut(cmp: (Link, Link) -> int, st: MergeState, head: Link, tail: Link, a: Link?, b: Link?, whole: seq<Link>)
    requires MergeLoop(cmp, st, head, tail, a, b, whole)
    ensures st.out != [] && tail == st.out[|st.out| - 1]
    ensures a != null || b != null ==> st.a != [] || st.b != []
    ensures a != null ==> st.a != []
    ensures b != null ==> st.b != []
  {}

  method CloseRing(head: Link, tail: Link, ghost all: set<Link>, ghost whole: seq<Link>)
    requires Chain(NextOf(all), [head] + whole, null) && whole != []
    requires tail == whole[|whole| - 1] && Back([head] + whole, |whole|)
    modifies head, tail
    ensures IsRing(head, whole)
  {
    ghost var u := [head] + whole;
    ghost var n := |whole|;
    assert forall i {:trigger whole[i]} :: 0 <= i < n ==> u[i + 1] == whole[i];
    assert head.next == whole[0] by { assert head.next == NextOf(all)[u[0]]; }
    forall i | 0 <= i < n ensures whole[i].next == if i + 1 < n then whole[i + 1] else null {
      assert whole[i].next == NextOf(all)[u[i + 1]];
    }
    forall i | 0 <= i < n ensures whole[i].prev == if i > 0 then whole[i - 1] else head {
      assert u[i + 1].prev == u[i];
    }
    DistinctSum([head], whole);
    assert head in [head];
    hide Chain, Back;
    tail.next := head;
    head.prev := tail;
    assert forall i {:trigger whole[i]} :: 0 <= i < n - 1 ==> whole[i] != whole[n - 1];
  }

  method RestoreRest(head: Link, from: Link, ghost all: set<Link>, ghost whole: seq<Link>, ghost start: nat)
    requires Chain(NextOf(all), [head] + whole, null) && Elements([head] + whole) == all
    requires start < |whole| && from == ([head] + whole)[start] && Back([head] + whole, start)
    modifies all
    ensures IsRing(head, whole)
  {
    ghost var u := [head] + whole;
    var tail, more := from, true;
    ghost var k := start;
    while more
      invariant Chain(NextOf(all), u, null)
      invariant k < |u| && tail == u[k] && Back(u, k) && (more <==> k + 1 < |u|)
      decreases |u| - k
    {
      assert tail.next == NextOf(all)[u[k]];
      var x: Link := tail.next;
      x.prev := tail;
      tail, k := x, k + 1;
      assert tail.next == NextOf(all)[u[k]];
      more := tail.next != null;
    }
    CloseRing(head, tail, all, whole);
  }

  // ---- the whole sort ----

  /** The lists in slots k and up, the carried list and the rest of the input are chains. */
  ghost predicate Chains(nx: Nexts, runs: seq<seq<Link>>, k: nat, run: seq<Link>, rest: seq<Link>) {
    && (forall l :: k <= l < |runs| ==> Chain(nx, runs[l], null))
    && Chain(nx, run, null) && Chain(nx, rest, null)
  }

  ghost predicate Slots(part: array<Link?>, runs: seq<seq<Link>>, k: nat)
    reads part
  {
    |runs| == part.Length && forall l :: k <= l < |runs| ==> part[l] == First(runs[l])
  }

  lemma ToList(all: set<Link>, s: seq<Link>, p: Link?)
    requires Chain(NextOf(all), s, null) && p == First(s)
    ensures List(s, p) && Elements(s) <= all
  {
    ChainFrame(NextOf(all), NextOf(Elements(s)), s, null);
  }

  /** No node is in two of the lists. */
  lemma ApartAt(cmp: (Link, Link) -> int, all: set<Link>, runs: seq<seq<Link>>, run: seq<Link>, seen: seq<Link>, rest: seq<Link>, k: nat)
    requires Carrying(cmp, all, runs, run, seen) && Once(seen + rest) && k < |runs|
    ensures Disjoint(runs[k], run) && Disjoint(runs[k], rest) && Disjoint(run, rest)
    ensures forall l :: 0 <= l < |runs| && l != k ==> Disjoint(runs[k], runs[l])
    ensures forall l :: 0 <= l < |runs| ==> Disjoint(run, runs[l])
  {
    var held := Older(runs) + run;
    assert multiset(held) == multiset(seen);
    NotInBoth(seen, rest);
    assert forall x <- held :: x in multiset(seen);
    assert Once(held);
    SlotsApart(runs, run, k);
    forall x | x in runs[k] ensures x !in rest {
      InOlder(runs, k, x);
      assert x in held;
    }
    assert forall x <- run :: x in held;
    forall l | 0 <= l < |runs| ensures Disjoint(run, runs[l]) {
      SlotsApart(runs, run, l);
    }
  }

  method MergeSlot(cmp: (Link, Link) -> int, a: Link?, b: Link?, ghost all: set<Link>, ghost runs: seq<seq<Link>>, ghost k: nat,
                   ghost run: seq<Link>, ghost seen: seq<Link>, ghost rest: seq<Link>) returns (r: Link?)
    requires Preorder(cmp, all) && Carrying(cmp, all, runs, run, seen) && Once(seen + rest) && k < |runs|
    requires forall l :: 0 <= l < k ==> runs[l] == []
    requires Chains(NextOf(all), runs, k, run, rest) && a == First(runs[k]) && b == First(run)
    modifies all`next
    ensures var m := Merged(cmp, runs[k], run);
      && r == First(m) && Carrying(cmp, all, runs[k := []], m, seen)
      && Chains(NextOf(all), runs[k := []], k, m, rest)
  {
    hide Carrying, Preorder, Once, Older, Merged, List, Chain, Chains, Disjoint;
    ghost var nx, m := NextOf(all), Merged(cmp, runs[k], run);
    CarryOn(cmp, all, runs, run, seen, k);
    ApartAt(cmp, all, runs, run, seen, rest, k);
    SlotLists(all, runs, k, run, rest, a, b);
    r := Merge(cmp, a, b, runs[k], run);
    FromList(cmp, all, runs[k], run, r);
    assert forall x | x in all && x !in runs[k] && x !in run :: NextOf(all)[x] == nx[x];
    OthersKept(nx, NextOf(all), runs, k, run, rest, m);
  }

  lemma SlotLists(all: set<Link>, runs: seq<seq<Link>>, k: nat, run: seq<Link>, rest: seq<Link>, a: Link?, b: Link?)
    requires k < |runs| && Chains(NextOf(all), runs, k, run, rest) && a == First(runs[k]) && b == First(run)
    ensures List(runs[k], a) && List(run, b) && Elements(runs[k]) <= all && Elements(run) <= all
  {
    hide Chain;
    ToList(all, runs[k], a);
    ToList(all, run, b);
  }

  lemma OthersKept(nx: Nexts, nx': Nexts, runs: seq<seq<Link>>, k: nat, run: seq<Link>, rest: seq<Link>, m: seq<Link>)
    requires k < |runs| && Chains(nx, runs, k, run, rest) && Chain(nx', m, null) && nx.Keys == nx'.Keys
    requires forall x | x in nx && x !in runs[k] && x !in run :: nx'[x] == nx[x]
    requires Disjoint(runs[k], rest) && Disjoint(run, rest)
    requires forall l :: 0 <= l < |runs| && l != k ==> Disjoint(runs[k], runs[l])
    requires forall l :: 0 <= l < |runs| ==> Disjoint(run, runs[l])
    ensures Chains(nx', runs[k := []], k, m, rest)
  {
    forall l | k < l < |runs| ensures Chain(nx', runs[l], null) {
      ChainFrame(nx, nx', runs[l], null);
    }
    ChainFrame(nx, nx', rest, null);
  }

  lemma FromList(cmp: (Link, Link) -> int, all: set<Link>, a: seq<Link>, b: seq<Link>, r: Link?)
    requires List(Merged(cmp, a, b), r) && Elements(a) <= all && Elements(b) <= all
    ensures Chain(NextOf(all), Merged(cmp, a, b), null) && r == First(Merged(cmp, a, b))
  {
    MergedElements(cmp, a, b);
    var m := Merged(cmp, a, b);
    forall x | x in m ensures x in all {
      assert x in multiset(m);
      assert x in Elements(a) || x in Elements(b);
    }
    ChainFrame(NextOf(Elements(m)), NextOf(all), m, null);
  }

  /** Nothing above maxLev, and something at it once there is anything. */
  ghost predicate Topped(runs: seq<seq<Link>>, maxLev: nat) {
    && maxLev < |runs| && (|runs| > 1 ==> maxLev + 1 < |runs|)
    && (forall l :: maxLev < l < |runs| ==> runs[l] == [])
    && (runs[maxLev] == [] ==> maxLev == 0)
  }

  /** Every slot is empty or holds exactly 2^l nodes. */
  ghost predicate PowerRuns(runs: seq<seq<Link>>) {
    forall l :: 0 <= l < |runs| ==> runs[l] == [] || |runs[l]| == Pow2(l)
  }

  lemma RunSize(cmp: (Link, Link) -> int, all: set<Link>, runs: seq<seq<Link>>, run: seq<Link>, seen: seq<Link>)
    requires Carrying(cmp, all, runs, run, seen)
    ensures |run| <= |seen|
  {
    assert |multiset(Older(runs) + run)| == |multiset(seen)|;
  }

  /** The ghost side of inserting one node: the slots, the carried list, what came before and after. */
  datatype Carry = Carry(all: set<Link>, runs: seq<seq<Link>>, run: seq<Link>, seen: seq<Link>, rest: seq<Link>)

  ghost predicate Held(cmp: (Link, Link) -> int, part: array<Link?>, st: Carry)
    reads part, st.all`next
  {
    && Preorder(cmp, st.all) && Carrying(cmp, st.all, st.runs, st.run, st.seen) && Once(st.seen + st.rest)
    && Slots(part, st.runs, 0) && Chains(NextOf(st.all), st.runs, 0, st.run, st.rest)
  }

  /** The slots below lev have been merged into the carried list, the others are as in runs0. */
  ghost predicate CarriedTo(st: Carry, lev: nat, runs0: seq<seq<Link>>) {
    && lev < |st.runs| == |runs0| && st.run != []
    && (forall l :: 0 <= l < lev ==> st.runs[l] == [] && runs0[l] != [])
    && (forall l :: lev <= l < |st.runs| ==> st.runs[l] == runs0[l])
    && (PowerRuns(runs0) ==> PowerRuns(st.runs) && |st.run| == Pow2(lev))
  }

  method CarryStep(cmp: (Link, Link) -> int, part: array<Link?>, lev: nat, cur: Link, ghost st: Carry, ghost runs0: seq<seq<Link>>)
    returns (r: Link?, ghost st': Carry)
    requires Held(cmp, part, st) && cur == First(st.run) && CarriedTo(st, lev, runs0)
    requires st.runs[lev] != [] && lev + 1 < part.Length
    modifies part, st.all`next
    ensures Held(cmp, part, st') && r == First(st'.run) && CarriedTo(st', lev + 1, runs0)
    ensures st'.all == st.all && st'.seen == st.seen && st'.rest == st.rest
  {
    hide Preorder, Carrying, Once, Chain, Merged;
    MergedElements(cmp, st.runs[lev], st.run);
    r := MergeSlot(cmp, part[lev], cur, st.all, st.runs, lev, st.run, st.seen, st.rest);
    part[lev] := null;
    st' := st.(runs := st.runs[lev := []], run := Merged(cmp, st.runs[lev], st.run));
  }

  /** for (lev = 0; part[lev]; lev++): merges the full slots from 0 up into the new node. */
  method CarryUp(cmp: (Link, Link) -> int, part: array<Link?>, node: Link, ghost start: Carry)
    returns (lev: nat, cur: Link?, ghost st: Carry)
    requires Held(cmp, part, start) && start.run == [node] && part.Length > 0 && start.runs[part.Length - 1] == []
    modifies part, start.all`next
    ensures Held(cmp, part, st) && cur == First(st.run) && CarriedTo(st, lev, start.runs) && start.runs[lev] == []
    ensures st.all == start.all && st.seen == start.seen && st.rest == start.rest
  {
    lev, cur, st := 0, node, start;
    hide Preorder, Carrying, Once, Chain, Chains;
    while part[lev] != null
      invariant Held(cmp, part, st) && cur == First(st.run) && CarriedTo(st, lev, start.runs)
      invariant st.all == start.all && st.seen == start.seen && st.rest == start.rest
      decreases part.Length - lev
    {
      cur, st := CarryStep(cmp, part, lev, cur, st, start.runs);
      lev := lev + 1;
    }
  }

  /** One round of the first loop of adx_list_sort. */
  method AddNode(cmp: (Link, Link) -> int, part: array<Link?>, node: Link, maxLev: nat, ghost start: Carry)
    returns (maxLev': nat, ghost st: Carry, ghost clipped: bool)
    requires Held(cmp, part, start) && start.run == [node]
    requires Topped(start.runs, maxLev) && (part.Length == 1 ==> start.runs[0] == [])
    modifies part, start.all`next
    ensures Held(cmp, part, st) && st == start.(runs := st.runs, run := [])
    ensures Topped(st.runs, maxLev') && st.runs[maxLev'] != []
    ensures PowerRuns(start.runs) ==> if clipped then |st.seen| >= Pow2(part.Length - 1) else PowerRuns(st.runs)
  {
    hide Preorder, Carrying, Once, Chain;
    var lev, cur;
    maxLev' := maxLev;
    lev, cur, st := CarryUp(cmp, part, node, start);
    RunSize(cmp, st.all, st.runs, st.run, st.seen);
    clipped := false;
    if lev > maxLev' {
      if lev >= part.Length - 1 {
        clipped := true;
        lev := lev - 1;
      }
      maxLev' := lev;
    }
    PutRun(cmp, st.all, st.runs, st.run, st.seen, lev);
    part[lev] := cur;
    EmptyChain(NextOf(st.all));
    st := st.(runs := st.runs[lev := st.run], run := []);
  }

  lemma EmptyChain(nx: Nexts)
    ensures Chain(nx, [], null)
  {}

  lemma DistinctIsOnce(s: seq<Link>)
    requires Distinct(s)
    ensures Once(s)
    decreases |s|
  {
    if s != [] {
      DistinctSum([s[0]], s[1..]);
      assert s == [s[0]] + s[1..];
      DistinctIsOnce(s[1..]);
      assert s[0] in [s[0]];
      assert multiset(s) == multiset{s[0]} + multiset(s[1..]);
    }
  }

  /** cur = list; list = list->next; cur->next = NULL. */
  lemma Detach(cmp: (Link, Link) -> int, nx: Nexts, st: Carry)
    requires Carrying(cmp, st.all, st.runs, [], st.seen) && Once(st.seen + st.rest) && st.rest != []
    requires Chains(nx, st.runs, 0, [], st.rest) && nx.Keys == st.all
    ensures var x, rest := st.rest[0], st.rest[1..];
      && nx[x] == First(rest)
      && Carrying(cmp, st.all, st.runs, [x], st.seen + [x]) && Once(st.seen + [x] + rest)
      && Chains(nx[x := null], st.runs, 0, [x], rest)
  {
    var x, rest := st.rest[0], st.rest[1..];
    assert st.rest == [x] + rest;
    assert st.seen + [x] + rest == st.seen + st.rest;
    assert nx[st.rest[0]] == First(rest);
    ChainSum(nx, [x], rest, null);
    assert x in [x];
    PickUp(cmp, st.all, st.runs, st.seen, x);
    NotInBoth(st.seen, st.rest);
    ChainFrame(nx, nx[x := null], rest, null);
    forall l | 0 <= l < |st.runs| ensures Chain(nx[x := null], st.runs[l], null) {
      forall y | y in st.runs[l] ensures y in st.seen {
        InOlder(st.runs, l, y);
        assert y in multiset(Older(st.runs) + []);
      }
      ChainFrame(nx, nx[x := null], st.runs[l], null);
    }
  }

  /** for (lev = 0; lev < max_lev; lev++): all slots but the highest into one list. */
  method MergeSlots(cmp: (Link, Link) -> int, part: array<Link?>, maxLev: nat, ghost start: Carry)
    returns (list: Link?, ghost runs: seq<seq<Link>>, ghost run: seq<Link>)
    requires Held(cmp, part, start) && start.run == [] && start.rest == [] && Topped(start.runs, maxLev)
    modifies start.all`next
    ensures Carrying(cmp, start.all, runs, run, start.seen) && list == First(run) && |runs| == |start.runs|
    ensures Chains(NextOf(start.all), runs, maxLev, run, [])
    ensures forall l :: 0 <= l < |runs| && l != maxLev ==> runs[l] == []
    ensures runs[maxLev] == start.runs[maxLev]
  {
    list, runs, run := null, start.runs, [];
    assert start.seen + [] == start.seen;
    hide Preorder, Carrying, Once, Chain;
    for lev := 0 to maxLev
      invariant Carrying(cmp, start.all, runs, run, start.seen) && list == First(run) && |runs| == |start.runs|
      invariant Chains(NextOf(start.all), runs, lev, run, [])
      invariant forall l :: 0 <= l < lev ==> runs[l] == []
      invariant forall l :: lev <= l < |runs| ==> runs[l] == start.runs[l]
      modifies start.all`next
    {
      if part[lev] != null {
        list := MergeSlot(cmp, part[lev], list, start.all, runs, lev, run, start.seen, []);
        run := Merged(cmp, runs[lev], run);
        runs := runs[lev := []];
      }
    }
  }

  method TakeNext(cmp: (Link, Link) -> int, part: array<Link?>, cur: Link, ghost start: Carry)
    returns (list: Link?, ghost st: Carry)
    requires Held(cmp, part, start) && start.run == [] && start.rest != [] && cur == start.rest[0] && cur in start.all
    modifies cur`next
    ensures Held(cmp, part, st) && list == First(st.rest)
    ensures st == start.(run := [cur], seen := start.seen + [cur], rest := start.rest[1..])
  {
    ghost var nx := NextOf(start.all);
    Detach(cmp, nx, start);
    hide Preorder, Carrying, Once, Chain, Chains;
    list := cur.next;
    cur.next := null;
    assert NextOf(start.all) == nx[cur := null];
    st := start.(run := [cur], seen := start.seen + [cur], rest := start.rest[1..]);
  }

  /** What the first loop of adx_list_sort keeps. */
  ghost predicate Collecting(cmp: (Link, Link) -> int, part: array<Link?>, maxLev: nat, st: Carry, nodes: seq<Link>)
    reads part, st.all`next
  {
    && Held(cmp, part, st) && st.run == [] && st.seen + st.rest == nodes && Topped(st.runs, maxLev)
    && if st.seen == [] then forall l :: 0 <= l < |st.runs| ==> st.runs[l] == [] else st.runs[maxLev] != []
  }

  method CollectOne(cmp: (Link, Link) -> int, part: array<Link?>, cur: Link, maxLev: nat, ghost start: Carry, ghost nodes: seq<Link>)
    returns (list: Link?, maxLev': nat, ghost st: Carry, ghost clipped: bool)
    requires Collecting(cmp, part, maxLev, start, nodes) && start.rest != [] && cur == start.rest[0] && cur in start.all
    requires part.Length == 1 ==> |nodes| == 1
    modifies part, start.all`next
    ensures Collecting(cmp, part, maxLev', st, nodes) && list == First(st.rest) && st.all == start.all
    ensures st.rest == start.rest[1..]
    ensures PowerRuns(start.runs) ==> if clipped then |nodes| >= Pow2(part.Length - 1) else PowerRuns(st.runs)
  {
    assert start.rest == [cur] + start.rest[1..];
    TakeSum(start.seen, cur, start.rest[1..]);
    hide Held, PowerRuns, Pow2, NextOf, Topped;
    list, st := TakeNext(cmp, part, cur, start);
    maxLev', st, clipped := AddNode(cmp, part, cur, maxLev, st);
  }

  /** The first loop of adx_list_sort. */
  method Collect(cmp: (Link, Link) -> int, part: array<Link?>, first: Link?, ghost start: Carry)
    returns (maxLev: nat, ghost st: Carry, ghost clipped: bool)
    requires Collecting(cmp, part, 0, start, start.rest) && start.seen == [] && first == First(start.rest)
    requires start.rest != [] && Elements(start.rest) == start.all && (part.Length == 1 ==> |start.rest| == 1)
    requires PowerRuns(start.runs)
    modifies part, start.all`next
    ensures Collecting(cmp, part, maxLev, st, start.rest) && st.rest == [] && st.all == start.all
    ensures maxLev < |st.runs| && st.runs[maxLev] != [] && Carrying(cmp, st.all, st.runs, [], start.rest)
    ensures clipped ==> |start.rest| >= Pow2(part.Length - 1)
    ensures !clipped ==> PowerRuns(st.runs)
  {
    var list := first;
    maxLev, st, clipped := 0, start, false;
    hide Collecting, PowerRuns, Pow2;
    while list != null
      invariant Collecting(cmp, part, maxLev, st, start.rest) && list == First(st.rest) && st.all == start.all
      invariant forall x <- st.rest :: x in st.all
      invariant clipped ==> |start.rest| >= Pow2(part.Length - 1)
      invariant !clipped ==> PowerRuns(st.runs)
      decreases |st.rest|
    {
      ghost var more;
      assert st.rest[0] in st.rest;
      list, maxLev, st, more := CollectOne(cmp, part, list, maxLev, st, start.rest);
      clipped := clipped || more;
    }
    CollectedAll(cmp, part, maxLev, st, start.rest);
  }

  lemma CollectedAll(cmp: (Link, Link) -> int, part: array<Link?>, maxLev: nat, st: Carry, nodes: seq<Link>)
    requires Collecting(cmp, part, maxLev, st, nodes) && st.rest == [] && nodes != []
    ensures maxLev < |st.runs| && st.runs[maxLev] != [] && Carrying(cmp, st.all, st.runs, [], nodes)
  {
    assert st.seen + [] == st.seen;
  }

  /** adx_list_merge_and_restore_back_links. */
  method MergeAndRestore(cmp: (Link, Link) -> int, head: Link, first: Link?, second: Link?, ghost sa: seq<Link>, ghost sb: seq<Link>)
    requires List(sa, first) && List(sb, second) && Disjoint(sa, sb) && head !in sa && head !in sb
    requires first != null || second != null
    modifies head, sa, sb
    ensures IsRing(head, Merged(cmp, sa, sb))
  {
    ghost var start := MergeState({head} + Elements(sa) + Elements(sb), [head], sa, sb);
    MergeStart(cmp, head, first, second, sa, sb);
    hide List, Chain, MergeLoop, Merged, Back;
    ghost var k;
    var tail;
    tail, k := RestoreLoop(cmp, head, first, second, start, Merged(cmp, sa, sb));
    RestoreRest(head, tail, start.all, Merged(cmp, sa, sb), k);
  }

  /** The null that adx_list_sort puts at the end opens the ring. */
  lemma Opened(head: Link, nodes: seq<Link>, nx: Nexts)
    requires IsRing(head, nodes) && nodes != [] && nx == NextOf(Elements(nodes))
    ensures Chain(nx[nodes[|nodes| - 1] := null], nodes, null) && head.prev == nodes[|nodes| - 1]
  {
    forall i | 0 <= i < |nodes| - 1 ensures nx[nodes[i]] == nodes[i + 1] {
      assert nodes[i].next == After(head, nodes, i);
    }
  }

  lemma NoRuns(n: nat) returns (runs: seq<seq<Link>>)
    ensures |runs| == n && (forall l :: 0 <= l < n ==> runs[l] == []) && Older(runs) == [] && PowerRuns(runs)
  {
    runs := seq(n, _ => []);
    OlderOfEmpty(runs);
  }

  /** part[] cleared and the ring opened. */
  lemma Starting(cmp: (Link, Link) -> int, part: array<Link?>, nodes: seq<Link>, runs: seq<seq<Link>>)
    requires Preorder(cmp, Elements(nodes)) && Distinct(nodes) && Chain(NextOf(Elements(nodes)), nodes, null)
    requires |runs| == part.Length > 0 && (forall l :: 0 <= l < |runs| ==> runs[l] == []) && Older(runs) == []
    requires forall l :: 0 <= l < part.Length ==> part[l] == null
    ensures Collecting(cmp, part, 0, Carry(Elements(nodes), runs, [], [], nodes), nodes)
  {
    DistinctIsOnce(nodes);
    assert [] + nodes == nodes;
    assert Older(runs) + [] == [];
  }

  /** Before the last merge: two disjoint lists whose merge is the result. */
  lemma LastTwo(cmp: (Link, Link) -> int, all: set<Link>, runs: seq<seq<Link>>, k: nat, run: seq<Link>, nodes: seq<Link>)
    requires Preorder(cmp, all) && Carrying(cmp, all, runs, run, nodes) && Once(nodes) && k < |runs|
    requires forall l :: 0 <= l < |runs| && l != k ==> runs[l] == []
    requires Chains(NextOf(all), runs, k, run, [])
    ensures var m := Merged(cmp, runs[k], run); Sorted(cmp, m) && Stable(cmp, all, m, nodes)
    ensures Disjoint(runs[k], run) && List(runs[k], First(runs[k])) && List(run, First(run))
    ensures Elements(runs[k]) <= all && Elements(run) <= all
  {
    hide Preorder, Chain, Merged, Older;
    CarryOn(cmp, all, runs, run, nodes, k);
    AllCarried(cmp, all, runs[k := []], Merged(cmp, runs[k], run), nodes);
    OnceAndEmpty(nodes);
    ApartAt(cmp, all, runs, run, nodes, [], k);
    ToList(all, runs[k], First(runs[k]));
    ToList(all, run, First(run));
  }

  lemma OnceAndEmpty(nodes: seq<Link>)
    requires Once(nodes)
    ensures Once(nodes + [])
  {
    assert nodes + [] == nodes;
  }

  /** The second loop of adx_list_sort and the final merge. */
  method Combine(cmp: (Link, Link) -> int, head: Link, part: array<Link?>, maxLev: nat, ghost st: Carry, ghost nodes: seq<Link>)
    returns (ghost sorted: seq<Link>)
    requires Collecting(cmp, part, maxLev, st, nodes) && st.rest == [] && nodes != []
    requires maxLev < |st.runs| && st.runs[maxLev] != []
    requires head !in nodes && st.all == Elements(nodes)
    modifies head, st.all
    ensures IsRing(head, sorted) && Sorted(cmp, sorted) && Stable(cmp, st.all, sorted, nodes)
  {
    hide Preorder, Chain, Merged, Older, Carrying, Stable, Sorted, Once, List, IsRing, Chains, Held, Slots, Topped, Elements,
      Collecting;
    CombineReady(cmp, head, part, maxLev, st, nodes);
    ghost var runs, run;
    var list;
    list, runs, run := MergeSlots(cmp, part, maxLev, st);
    LastTwo(cmp, st.all, runs, maxLev, run, nodes);
    InElements(runs[maxLev], run, st.all);
    sorted := Merged(cmp, runs[maxLev], run);
    MergeAndRestore(cmp, head, part[maxLev], list, runs[maxLev], run);
  }

  lemma CombineReady(cmp: (Link, Link) -> int, head: Link, part: array<Link?>, maxLev: nat, st: Carry, nodes: seq<Link>)
    requires Collecting(cmp, part, maxLev, st, nodes) && st.rest == [] && nodes != []
    requires maxLev < |st.runs| && head !in nodes && st.all == Elements(nodes)
    ensures Held(cmp, part, st) && st.run == [] && Topped(st.runs, maxLev) && st.seen == nodes
    ensures Preorder(cmp, st.all) && Once(nodes) && head !in st.all
    ensures |st.runs| == part.Length && part[maxLev] == First(st.runs[maxLev])
  {
    hide Preorder, Chain, Merged, Older, Carrying, Once, Chains;
    assert st.seen + [] == st.seen;
  }

  lemma InElements(a: seq<Link>, b: seq<Link>, all: set<Link>)
    requires Elements(a) <= all && Elements(b) <= all
    ensures forall x | x in a || x in b :: x in all
  {}

  /** Cuts the ring open. */
  method Open(cmp: (Link, Link) -> int, head: Link, part: array<Link?>, ghost nodes: seq<Link>) returns (list: Link?, ghost st: Carry)
    requires IsRing(head, nodes) && nodes != [] && Preorder(cmp, Elements(nodes)) && part.Length > 0
    requires forall l :: 0 <= l < part.Length ==> part[l] == null
    modifies Elements(nodes)
    ensures Collecting(cmp, part, 0, st, nodes) && st.rest == nodes && st.seen == [] && list == First(st.rest)
    ensures st.all == Elements(nodes) && PowerRuns(st.runs)
  {
    ghost var all := Elements(nodes);
    ghost var nx := NextOf(all);
    ghost var runs := NoRuns(part.Length);
    Opened(head, nodes, nx);
    var last: Link := head.prev;
    last.next := null;
    assert NextOf(all) == nx[last := null];
    Starting(cmp, part, nodes, runs);
    list, st := head.next, Carry(all, runs, [], [], nodes);
  }

  /** adx_list_sort on a non-empty list with part[] cleared. */
  method SortNodes(cmp: (Link, Link) -> int, head: Link, part: array<Link?>, ghost nodes: seq<Link>, ghost all: set<Link>)
    returns (ghost sorted: seq<Link>, ghost clipped: bool, ghost slots: seq<seq<Link>>)
    requires IsRing(head, nodes) && nodes != [] && all == Elements(nodes) && Preorder(cmp, all)
    requires part.Length >= 1 && (part.Length == 1 ==> |nodes| == 1)
    requires forall l :: 0 <= l < part.Length ==> part[l] == null
    modifies part, head, all
    ensures IsRing(head, sorted) && Sorted(cmp, sorted) && Stable(cmp, all, sorted, nodes)
    ensures clipped ==> |nodes| >= Pow2(part.Length - 1)
    ensures Carrying(cmp, all, slots, [], nodes) && (!clipped ==> PowerRuns(slots))
  {
    hide Preorder, Collecting, PowerRuns, Sorted, Stable, Pow2, Topped, Elements, Carrying;
    var list, maxLev;
    ghost var st;
    assert head !in nodes;
    list, st := Open(cmp, head, part, nodes);
    maxLev, st, clipped := Collect(cmp, part, list, st);
    slots := st.runs;
    sorted := Combine(cmp, head, part, maxLev, st, nodes);
  }

  /** adx_list_sort; clipped tells whether the clipping branch was ever taken, slots what part[] held in the end. */
  method Sort(cmp: (Link, Link) -> int, ring: Ring, size: nat) returns (ghost clipped: bool, ghost slots: seq<seq<Link>>)
    requires ring.Valid() && Preorder(cmp, Elements(ring.nodes))
    requires size >= 1 && (size == 1 ==> |ring.nodes| <= 1)
    modifies ring`nodes, ring.head, ring.nodes
    ensures ring.Valid()
    ensures Sorted(cmp, ring.nodes) && Stable(cmp, Elements(old(ring.nodes)), ring.nodes, old(ring.nodes))
    ensures |old(ring.nodes)| < Pow2(size - 1) ==> !clipped
    ensures Carrying(cmp, Elements(old(ring.nodes)), slots, [], old(ring.nodes))
    ensures !clipped ==> PowerRuns(slots)
  {
    hide Preorder, PowerRuns, Sorted, Stable, Pow2, IsRing, Carrying;
    clipped, slots := false, [];
    var isEmpty := ring.Empty();
    if isEmpty {
      NothingToSort(cmp);
      return;
    }
    var part := new Link?[size](_ => null);
    ghost var sorted;
    sorted, clipped, slots := SortNodes(cmp, ring.head, part, ring.nodes, Elements(ring.nodes));
    ring.nodes := sorted;
  }

  lemma NothingToSort(cmp: (Link, Link) -> int)
    ensures Sorted(cmp, []) && PowerRuns([]) && forall dom: set<Link> :: Stable(cmp, dom, [], []) && Carrying(cmp, dom, [], [], [])
  {}

  /** The size passed by the cache, child_total + 1, always suffices. */
  lemma CallerSize(childTotal: nat, nodes: seq<Link>)
    requires |nodes| == childTotal
    ensures |nodes| < Pow2((childTotal + 1) - 1)
  {
    BelowPow2(childTotal);
  }
}
