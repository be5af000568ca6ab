/** What a stable merge sort of adx_list.c computes, on sequences. */
module MergeSpec {
  import opened Common

  /** cmp orders the elements of dom: any two compare, and not above is transitive. */
  ghost predicate Preorder<T>(cmp: (T, T) -> int, dom: set<T>) {
    && (forall a, b | a in dom && b in dom :: cmp(a, b) <= 0 || cmp(b, a) <= 0)
    && (forall a, b, c | a in dom && b in dom && c in dom :: cmp(a, b) <= 0 && cmp(b, c) <= 0 ==> cmp(a, c) <= 0)
  }

  ghost predicate Within<T>(dom: set<T>, s: seq<T>) {
    forall x <- s :: x in dom
  }

  ghost predicate Sorted<T>(cmp: (T, T) -> int, s: seq<T>) {
    forall i, j :: 0 <= i < j < |s| ==> cmp(s[i], s[j]) <= 0
  }

  predicate Same<T>(cmp: (T, T) -> int, a: T, b: T) {
    cmp(a, b) <= 0 && cmp(b, a) <= 0
  }

  /** The elements that compare equal to x, in the order they occur. */
  function Class<T>(cmp: (T, T) -> int, s: seq<T>, x: T): seq<T> {
    if s == [] then []
    else (if Same(cmp, s[0], x) then [s[0]] else []) + Class(cmp, s[1..], x)
  }

  /** Same elements, and equal ones in the same order. */
  ghost predicate Stable<T>(cmp: (T, T) -> int, dom: set<T>, s: seq<T>, t: seq<T>) {
    multiset(s) == multiset(t) && forall x | x in dom :: Class(cmp, s, x) == Class(cmp, t, x)
  }

  /** adx_list_merge: the first list goes first when equal. */
  function Merged<T>(cmp: (T, T) -> int, a: seq<T>, b: seq<T>): seq<T> {
    if a == [] then b
    else if b == [] then a
    else if cmp(a[0], b[0]) <= 0 then [a[0]] + Merged(cmp, a[1..], b)
    else [b[0]] + Merged(cmp, a, b[1..])
  }

  lemma {:induction false} ClassOfSum<T>(cmp: (T, T) -> int, s: seq<T>, t: seq<T>, x: T)
    ensures Class(cmp, s + t, x) == Class(cmp, s, x) + Class(cmp, t, x)
  {
    if s == [] {
      assert s + t == t;
    } else {
      assert (s + t)[1..] == s[1..] + t;
      ClassFirst(cmp, s, x);
      ClassFirst(cmp, s + t, x);
      ClassOfSum(cmp, s[1..], t, x);
      hide Class;
      Sum(if Same(cmp, s[0], x) then [s[0]] else [], Class(cmp, s[1..], x), Class(cmp, t, x));
    }
  }

  lemma ClassFirst<T>(cmp: (T, T) -> int, s: seq<T>, x: T)
    requires s != []
    ensures Class(cmp, s, x) == (if Same(cmp, s[0], x) then [s[0]] else []) + Class(cmp, s[1..], x)
  {}

  lemma {:induction false} NoneOf<T>(cmp: (T, T) -> int, s: seq<T>, x: T)
    requires forall y <- s :: !Same(cmp, y, x)
    ensures Class(cmp, s, x) == []
  {
    if s != [] {
      NoneOf(cmp, s[1..], x);
    }
  }

  lemma {:induction false} MergedElements<T>(cmp: (T, T) -> int, a: seq<T>, b: seq<T>)
    ensures multiset(Merged(cmp, a, b)) == multiset(a) + multiset(b)
    ensures |Merged(cmp, a, b)| == |a| + |b|
  {
    if a != [] && b != [] {
      if cmp(a[0], b[0]) <= 0 {
        MergedElements(cmp, a[1..], b);
        assert a == [a[0]] + a[1..];
      } else {
        MergedElements(cmp, a, b[1..]);
        assert b == [b[0]] + b[1..];
      }
    }
  }

  /** What is not above the first of a sorted list is not above any of it. */
  lemma BelowFirst<T>(cmp: (T, T) -> int, dom: set<T>, x: T, s: seq<T>)
    requires Preorder(cmp, dom) && Sorted(cmp, s) && s != [] && cmp(x, s[0]) <= 0
    requires x in dom && Within(dom, s)
    ensures forall y <- s :: cmp(x, y) <= 0
  {
    forall y | y in s ensures cmp(x, y) <= 0 {
      var i :| 0 <= i < |s| && s[i] == y;
      assert cmp(s[0], s[i]) <= 0;
    }
  }

  lemma RestSorted<T>(cmp: (T, T) -> int, dom: set<T>, s: seq<T>)
    requires Preorder(cmp, dom) && Sorted(cmp, s) && s != [] && Within(dom, s)
    ensures Sorted(cmp, s[1..]) && cmp(s[0], s[0]) <= 0
  {}

  lemma Total<T>(cmp: (T, T) -> int, dom: set<T>, a: T, b: T)
    requires Preorder(cmp, dom) && a in dom && b in dom
    ensures cmp(a, b) <= 0 || cmp(b, a) <= 0
  {}

  lemma SortedCons<T>(cmp: (T, T) -> int, x: T, s: seq<T>)
    requires Sorted(cmp, s) && forall y <- s :: cmp(x, y) <= 0
    ensures Sorted(cmp, [x] + s)
  {
    var u := [x] + s;
    forall i, j | 0 <= i < j < |u| ensures cmp(u[i], u[j]) <= 0 {
      assert u[j] == s[j - 1] && u[j] in s;
      assert i > 0 ==> u[i] == s[i - 1];
    }
  }

  lemma {:induction false} MergedSorted<T>(cmp: (T, T) -> int, dom: set<T>, a: seq<T>, b: seq<T>)
    requires Preorder(cmp, dom) && Sorted(cmp, a) && Sorted(cmp, b) && Within(dom, a) && Within(dom, b)
    ensures Sorted(cmp, Merged(cmp, a, b))
  {
    if a != [] && b != [] {
      hide Preorder, Sorted;
      var (x, a', b') := if cmp(a[0], b[0]) <= 0 then (a[0], a[1..], b) else (b[0], a, b[1..]);
      Total(cmp, dom, a[0], b[0]);
      RestSorted(cmp, dom, a);
      RestSorted(cmp, dom, b);
      MergedSorted(cmp, dom, a', b');
      MergedElements(cmp, a', b');
      BelowFirst(cmp, dom, x, a);
      BelowFirst(cmp, dom, x, b);
      forall y | y in Merged(cmp, a', b') ensures cmp(x, y) <= 0 {
        assert y in multiset(a') + multiset(b');
      }
      SortedCons(cmp, x, Merged(cmp, a', b'));
    }
  }

  lemma {:induction false} MergedClass<T>(cmp: (T, T) -> int, dom: set<T>, a: seq<T>, b: seq<T>, x: T)
    requires Preorder(cmp, dom) && Sorted(cmp, a) && Within(dom, a) && Within(dom, b) && x in dom
    ensures Class(cmp, Merged(cmp, a, b), x) == Class(cmp, a, x) + Class(cmp, b, x)
  {
    if a != [] && b != [] {
      if cmp(a[0], b[0]) <= 0 {
        MergedClass(cmp, dom, a[1..], b, x);
      } else {
        MergedClass(cmp, dom, a, b[1..], x);
        if Same(cmp, b[0], x) {
          forall y | y in a ensures !Same(cmp, y, x) {
            assert cmp(a[0], y) <= 0;
            assert cmp(y, b[0]) > 0 && cmp(x, b[0]) <= 0;
          }
          NoneOf(cmp, a, x);
        }
      }
    }
  }

  /** A stable merge of two sorted runs. */
  lemma MergeIsStable<T>(cmp: (T, T) -> int, dom: set<T>, a: seq<T>, b: seq<T>)
    requires Preorder(cmp, dom) && Sorted(cmp, a) && Sorted(cmp, b) && Within(dom, a) && Within(dom, b)
    ensures Sorted(cmp, Merged(cmp, a, b)) && Stable(cmp, dom, Merged(cmp, a, b), a + b)
    ensures Within(dom, Merged(cmp, a, b))
  {
    forall x | x in Merged(cmp, a, b) ensures x in dom {
      MergedElements(cmp, a, b);
      assert x in multiset(a) + multiset(b);
    }
    MergedSorted(cmp, dom, a, b);
    MergedElements(cmp, a, b);
    forall x | x in dom ensures Class(cmp, Merged(cmp, a, b), x) == Class(cmp, a + b, x) {
      MergedClass(cmp, dom, a, b, x);
      ClassOfSum(cmp, a, b, x);
    }
  }

  lemma StableSum<T>(cmp: (T, T) -> int, dom: set<T>, a: seq<T>, a': seq<T>, b: seq<T>, b': seq<T>)
    requires Stable(cmp, dom, a, a') && Stable(cmp, dom, b, b')
    ensures Stable(cmp, dom, a + b, a' + b')
  {
    forall x | x in dom ensures Class(cmp, a + b, x) == Class(cmp, a' + b', x) {
      ClassOfSum(cmp, a, b, x);
      ClassOfSum(cmp, a', b', x);
    }
  }

  // ---- the runs held in part[] ----

  /** All runs, the higher slots first: their elements are older. */
  function Older<T>(runs: seq<seq<T>>): seq<T> {
    if runs == [] then [] else Older(runs[1..]) + runs[0]
  }

  lemma {:induction false} OlderSplit<T>(runs: seq<seq<T>>, k: nat)
    requires k <= |runs|
    ensures Older(runs) == Older(runs[k..]) + Older(runs[..k])
  {
    if k == 0 {
      assert runs[..0] == [] && runs[0..] == runs;
      assert Older(runs) + [] == Older(runs);
    } else {
      OlderSplit(runs[1..], k - 1);
      assert runs[1..][k - 1..] == runs[k..] && runs[..k][1..] == runs[1..][..k - 1];
    }
  }

  lemma {:induction false} OlderOfEmpty<T>(runs: seq<seq<T>>)
    requires forall i :: 0 <= i < |runs| ==> runs[i] == []
    ensures Older(runs) == []
  {
    if runs != [] {
      assert runs[0] == [];
      OlderOfEmpty(runs[1..]);
    }
  }

  /** Slot k among the others. */
  lemma OlderAt<T>(runs: seq<seq<T>>, k: nat)
    requires k < |runs|
    ensures Older(runs) == Older(runs[k + 1..]) + runs[k] + Older(runs[..k])
  {
    OlderSplit(runs, k);
    assert runs[k..][1..] == runs[k + 1..];
  }

  lemma {:induction false} InOlder<T>(runs: seq<seq<T>>, k: nat, x: T)
    requires k < |runs| && x in runs[k]
    ensures x in Older(runs)
  {
    if k > 0 {
      InOlder(runs[1..], k - 1, x);
    }
  }

  ghost predicate Once<T>(s: seq<T>) {
    forall x <- s :: multiset(s)[x] <= 1
  }

  lemma NotInBoth<T>(s: seq<T>, t: seq<T>)
    requires Once(s + t)
    ensures forall x <- s :: x !in t
    ensures Once(s) && Once(t)
  {
    assert multiset(s + t) == multiset(s) + multiset(t);
    forall x | x in s + t ensures multiset(s)[x] <= 1 && multiset(t)[x] <= 1 {
      assert multiset(s + t)[x] <= 1;
    }
    forall x | x in s ensures x !in t {
      assert multiset(s + t)[x] <= 1;
    }
  }

  lemma SlotsDiffer<T>(runs: seq<seq<T>>, lo: nat, hi: nat)
    requires lo < hi < |runs| && Once(Older(runs))
    ensures forall x <- runs[hi] :: x !in runs[lo]
  {
    OlderAt(runs, hi);
    NotInBoth(Older(runs[hi + 1..]) + runs[hi], Older(runs[..hi]));
    forall x | x in runs[hi] ensures x !in runs[lo] {
      if x in runs[lo] {
        InOlder(runs[..hi], lo, x);
      }
    }
  }

  /** With no element twice, no two slots and no slot and the carried run share one. */
  lemma SlotsApart<T>(runs: seq<seq<T>>, run: seq<T>, k: nat)
    requires k < |runs| && Once(Older(runs) + run)
    ensures forall x <- runs[k] :: x !in run
    ensures forall l, x :: 0 <= l < |runs| && l != k && x in runs[k] ==> x !in runs[l]
  {
    NotInBoth(Older(runs), run);
    forall x | x in runs[k] ensures x !in run {
      InOlder(runs, k, x);
    }
    forall l | 0 <= l < |runs| && l != k ensures forall x <- runs[k] :: x !in runs[l] {
      SlotsDiffer(runs, if l < k then l else k, if l < k then k else l);
    }
  }

  /** What the slots and the carried run hold of the elements seen so far. */
  ghost predicate Carrying<T>(cmp: (T, T) -> int, dom: set<T>, runs: seq<seq<T>>, run: seq<T>, seen: seq<T>) {
    && Stable(cmp, dom, Older(runs) + run, seen) && Sorted(cmp, run) && Within(dom, run)
    && forall l :: 0 <= l < |runs| ==> Sorted(cmp, runs[l]) && Within(dom, runs[l])
  }

  /** All slots below k are empty: only k and the ones above count. */
  lemma SetSlot<T>(runs: seq<seq<T>>, k: nat, v: seq<T>)
    requires k < |runs| && forall l :: 0 <= l < k ==> runs[l] == []
    ensures Older(runs[k := v]) == Older(runs[k + 1..]) + v
  {
    var runs' := runs[k := v];
    OlderAt(runs', k);
    OlderOfEmpty(runs'[..k]);
    assert runs'[k + 1..] == runs[k + 1..];
    assert Older(runs[k + 1..]) + v + [] == Older(runs[k + 1..]) + v;
  }

  lemma StableSelf<T>(cmp: (T, T) -> int, dom: set<T>, s: seq<T>)
    ensures Stable(cmp, dom, s, s)
  {}

  lemma StableTrans<T>(cmp: (T, T) -> int, dom: set<T>, s: seq<T>, t: seq<T>, u: seq<T>)
    requires Stable(cmp, dom, s, t) && Stable(cmp, dom, t, u)
    ensures Stable(cmp, dom, s, u)
  {}

  lemma StableStep<T>(cmp: (T, T) -> int, dom: set<T>, above: seq<T>, r: seq<T>, run: seq<T>, m: seq<T>, seen: seq<T>)
    requires Stable(cmp, dom, above + r + run, seen) && Stable(cmp, dom, m, r + run)
    ensures Stable(cmp, dom, above + [] + m, seen)
  {
    hide Stable;
    assert above + [] + m == above + m;
    assert above + r + run == above + (r + run);
    StableSelf(cmp, dom, above);
    StableSum(cmp, dom, above, above, m, r + run);
    StableTrans(cmp, dom, above + m, above + (r + run), seen);
  }

  lemma EmptyRun<T>(cmp: (T, T) -> int, dom: set<T>)
    ensures Sorted(cmp, []) && Within(dom, [])
  {}

  /** Merging the lowest slot in use into the carried run. */
  lemma CarryOn<T>(cmp: (T, T) -> int, dom: set<T>, runs: seq<seq<T>>, run: seq<T>, seen: seq<T>, k: nat)
    requires Preorder(cmp, dom) && Carrying(cmp, dom, runs, run, seen) && k < |runs|
    requires forall l :: 0 <= l < k ==> runs[l] == []
    ensures Carrying(cmp, dom, runs[k := []], Merged(cmp, runs[k], run), seen)
  {
    hide Preorder, Stable, Within, Sorted, Older, Merged;
    EmptyRun(cmp, dom);
    SetSlot(runs, k, []);
    SetSlot(runs, k, runs[k]);
    assert runs[k := runs[k]] == runs;
    MergeIsStable(cmp, dom, runs[k], run);
    StableStep(cmp, dom, Older(runs[k + 1..]), runs[k], run, Merged(cmp, runs[k], run), seen);
  }

  lemma EmptyBetween<T>(s: seq<T>, t: seq<T>)
    ensures s + t + [] == s + [] + t
  {}

  /** Putting the carried run into an empty slot below which all are empty. */
  lemma PutRun<T>(cmp: (T, T) -> int, dom: set<T>, runs: seq<seq<T>>, run: seq<T>, seen: seq<T>, k: nat)
    requires Carrying(cmp, dom, runs, run, seen) && k < |runs|
    requires forall l :: 0 <= l <= k ==> runs[l] == []
    ensures Carrying(cmp, dom, runs[k := run], [], seen)
  {
    hide Stable, Sorted, Older, Within;
    EmptyRun(cmp, dom);
    SetSlot(runs, k, []);
    SetSlot(runs, k, run);
    assert runs[k := []] == runs;
    EmptyBetween(Older(runs[k + 1..]), run);
  }

  /** The next element becomes the carried run. */
  lemma PickUp<T>(cmp: (T, T) -> int, dom: set<T>, runs: seq<seq<T>>, seen: seq<T>, x: T)
    requires Carrying(cmp, dom, runs, [], seen) && x in dom
    ensures Carrying(cmp, dom, runs, [x], seen + [x])
  {
    assert Sorted(cmp, [x]) && Within(dom, [x]);
    hide Stable, Sorted, Within, Older;
    assert Older(runs) + [] == Older(runs);
    StableSelf(cmp, dom, [x]);
    StableSum(cmp, dom, Older(runs), seen, [x], [x]);
  }

  /** Once all slots are empty the carried run is the result. */
  lemma AllCarried<T>(cmp: (T, T) -> int, dom: set<T>, runs: seq<seq<T>>, run: seq<T>, seen: seq<T>)
    requires Carrying(cmp, dom, runs, run, seen) && forall l :: 0 <= l < |runs| ==> runs[l] == []
    ensures Sorted(cmp, run) && Stable(cmp, dom, run, seen)
  {
    OlderOfEmpty(runs);
    assert [] + run == run;
  }
}
