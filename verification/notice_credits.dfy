/** Exactly which notices count, told from the notices and the flags at the start. */
module NoticeCredits {
  import opened NoticeTracker

  /** The i-th notice is of this kind and key, and the store takes its flags. */
  predicate Comes(ns: seq<Notice>, key: Key, kind: Kind, i: int) {
    0 <= i < |ns| && ns[i].key == key && ns[i].kind == kind && ns[i].stored
  }

  ghost predicate ComesBefore(ns: seq<Notice>, key: Key, kind: Kind, n: int) {
    exists i :: i < n && Comes(ns, key, kind, i)
  }

  /** A notice that counts if none before it did: a click needs an impression before it, in this run or earlier. */
  ghost predicate Counts(f: Flags, ns: seq<Notice>, key: Key, kind: Kind, i: int) {
    Comes(ns, key, kind, i) && (kind.Click? ==> f.show || ComesBefore(ns, key, Impression, i))
  }

  ghost predicate First(f: Flags, ns: seq<Notice>, key: Key, kind: Kind, i: int) {
    Counts(f, ns, key, kind, i) && forall j :: 0 <= j < i ==> !Counts(f, ns, key, kind, j)
  }

  /** The credits of one key and kind. */
  function Of(log: seq<Notice>, key: Key, kind: Kind): seq<Notice> {
    if log == [] then [] else (if log[0].key == key && log[0].kind == kind then [log[0]] else []) + Of(log[1..], key, kind)
  }

  /** What one notice does to the flags of a key. */
  function NextFlags(f: Flags, n: Notice, key: Key): Flags {
    if n.key != key || !n.stored then f
    else match n.kind
         case Win => Flags(true, f.show, f.click)
         case Impression => Flags(f.price, true, f.click)
         case Click => if f.show then Flags(f.price, f.show, true) else f
         case Other => f
  }

  lemma StepOnFlags(route: int -> Place, s: Store, n: Notice)
    ensures Step(route, s, n).flags.Keys == s.flags.Keys
    ensures forall key :: key in s.flags ==> Step(route, s, n).flags[key] == NextFlags(s.flags[key], n, key)
  {
    StepFlags(route, s, n);
    hide Step;
  }

  /** The first notice and the rest. */
  lemma CountsLater(f: Flags, ns: seq<Notice>, key: Key, kind: Kind, i: int)
    requires ns != [] && i >= 1
    ensures Counts(f, ns, key, kind, i) <==> Counts(NextFlags(f, ns[0], key), ns[1..], key, kind, i - 1)
  {
    var rest := ns[1..];
    if kind.Click? {
      if ComesBefore(ns, key, Impression, i) {
        var j :| j < i && Comes(ns, key, Impression, j);
        assert j > 0 ==> Comes(rest, key, Impression, j - 1);
      }
      if ComesBefore(rest, key, Impression, i - 1) {
        var j :| j < i - 1 && Comes(rest, key, Impression, j);
        assert Comes(ns, key, Impression, j + 1);
      }
      assert Comes(ns, key, Impression, 0) ==> ComesBefore(ns, key, Impression, i);
    }
  }

  lemma CountsNow(f: Flags, ns: seq<Notice>, key: Key, kind: Kind)
    requires ns != []
    ensures Counts(f, ns, key, kind, 0) <==>
            ns[0].key == key && ns[0].kind == kind && ns[0].stored && (kind.Click? ==> f.show)
  {}

  ghost predicate AnyCounts(f: Flags, ns: seq<Notice>, key: Key, kind: Kind) {
    exists i :: Counts(f, ns, key, kind, i)
  }

  /** Whether any notice counts depends on the first one and the rest. */
  lemma SomeLater(f: Flags, ns: seq<Notice>, key: Key, kind: Kind)
    requires ns != []
    ensures AnyCounts(f, ns, key, kind) <==>
            Counts(f, ns, key, kind, 0) || AnyCounts(NextFlags(f, ns[0], key), ns[1..], key, kind)
  {
    var rest, g := ns[1..], NextFlags(f, ns[0], key);
    if AnyCounts(f, ns, key, kind) {
      var i :| Counts(f, ns, key, kind, i);
      if i >= 1 {
        CountsLater(f, ns, key, kind, i);
      }
    }
    if AnyCounts(g, rest, key, kind) {
      var i :| Counts(g, rest, key, kind, i);
      CountsLater(f, ns, key, kind, i + 1);
    }
  }

  /** Over any run: no key appears or goes, and a bit is set at the end exactly if it was set or a notice counted. */
  lemma {:induction false} FlagsAfter(route: int -> Place, s: Store, ns: seq<Notice>, key: Key, kind: Kind)
    requires key in s.flags && !kind.Other?
    ensures Run(route, s, ns).flags.Keys == s.flags.Keys
    ensures Bit(Run(route, s, ns).flags[key], kind) <==> Bit(s.flags[key], kind) || AnyCounts(s.flags[key], ns, key, kind)
    decreases |ns|
  {
    var f := s.flags[key];
    if ns == [] {
      assert forall i :: !Counts(f, ns, key, kind, i);
    } else {
      StepOnFlags(route, s, ns[0]);
      FlagsAfter(route, Step(route, s, ns[0]), ns[1..], key, kind);
      CountsNow(f, ns, key, kind);
      SomeLater(f, ns, key, kind);
      hide Step, AnyCounts, Counts;
    }
  }

  /** Over any run, of the notices of a key and kind whose bit is unset exactly one is credited if any counts,
      namely the first that does, and none otherwise or if the bit is set. */
  lemma {:induction false} FirstIsCredited(route: int -> Place, s: Store, ns: seq<Notice>, key: Key, kind: Kind)
    requires key in s.flags && !kind.Other?
    ensures var f, credits := s.flags[key], Of(Credited(route, s, ns), key, kind);
            && (Bit(f, kind) || !AnyCounts(f, ns, key, kind) ==> credits == [])
            && forall i :: !Bit(f, kind) && First(f, ns, key, kind, i) ==> credits == [ns[i]]
    decreases |ns|
  {
    var f := s.flags[key];
    if ns == [] {
      assert forall i :: !First(f, ns, key, kind, i);
    } else {
      var t, rest := Step(route, s, ns[0]), ns[1..];
      var g := t.flags[key];
      StepOnFlags(route, s, ns[0]);
      FirstIsCredited(route, t, rest, key, kind);
      CountsNow(f, ns, key, kind);
      SomeLater(f, ns, key, kind);
      OneMoreCredit(route, s, ns, key, kind);
      forall i | !Bit(f, kind) && First(f, ns, key, kind, i)
        ensures Of(Credited(route, s, ns), key, kind) == [ns[i]]
      {
        FirstLater(f, ns, key, kind, i);
        assert i > 0 ==> ns[i] == rest[i - 1];
        hide Counts, AnyCounts, Of, Credited, Step;
      }
      hide Step, AnyCounts, Counts, Credited, Of, First;
    }
  }

  /** The credits of a run are that of its first notice, if it counts, and those of the rest. */
  lemma OneMoreCredit(route: int -> Place, s: Store, ns: seq<Notice>, key: Key, kind: Kind)
    requires ns != [] && key in s.flags && !kind.Other?
    ensures Of(Credited(route, s, ns), key, kind) ==
            (if !Bit(s.flags[key], kind) && Counts(s.flags[key], ns, key, kind, 0) then [ns[0]] else []) +
            Of(Credited(route, Step(route, s, ns[0]), ns[1..]), key, kind)
  {
    var rest := Credited(route, Step(route, s, ns[0]), ns[1..]);
    CountsNow(s.flags[key], ns, key, kind);
    assert ([ns[0]] + rest)[1..] == rest;
    hide Step, Counts;
  }

  lemma FirstLater(f: Flags, ns: seq<Notice>, key: Key, kind: Kind, i: int)
    requires ns != [] && First(f, ns, key, kind, i)
    ensures i >= 0 && (i == 0 <==> Counts(f, ns, key, kind, 0))
    ensures i >= 1 ==> First(NextFlags(f, ns[0], key), ns[1..], key, kind, i - 1)
  {
    if i >= 1 {
      CountsLater(f, ns, key, kind, i);
      forall j | 0 <= j < i - 1 ensures !Counts(NextFlags(f, ns[0], key), ns[1..], key, kind, j) {
        CountsLater(f, ns, key, kind, j + 1);
      }
    }
    hide Counts;
  }

  /** If any notice counts, one is the first. */
  lemma {:induction false} SomeFirst(f: Flags, ns: seq<Notice>, key: Key, kind: Kind, i: int) returns (k: int)
    requires Counts(f, ns, key, kind, i)
    ensures First(f, ns, key, kind, k)
    decreases i
  {
    if First(f, ns, key, kind, i) {
      k := i;
    } else {
      var j :| 0 <= j < i && Counts(f, ns, key, kind, j);
      k := SomeFirst(f, ns, key, kind, j);
    }
  }

  /** What a notice that does not count is reported with. */
  lemma Verdicts(flags: map<Key, Flags>, n: Notice)
    ensures var v := Judge(flags, n);
            && (v.KeyMissing? <==> n.key !in flags)
            && (n.key in flags ==>
                  var f := flags[n.key];
                  && (v.RepeatedWin? <==> n.kind.Win? && f.price)
                  && (v.RepeatedClick? <==> (n.kind.Impression? && f.show) || (n.kind.Click? && (!f.show || f.click)))
                  && (v.StoreFailed? <==> !n.kind.Other? && !n.stored && !v.RepeatedWin? && !v.RepeatedClick?))
  {}

  // ---- costs ----

  /** The costs of the credited impressions and clicks of a place, of all days or of one. */
  function CostOf(route: int -> Place, log: seq<Notice>, at: Place, span: Span): nat {
    if log == [] then 0
    else
      var n := log[0];
      CostOf(route, log[1..], at, span) +
      if (n.kind.Impression? || n.kind.Click?) && route(n.mapid) == at && (span == Ever || span == On(n.day)) then n.cost else 0
  }

  /** Over any run a policy's cost grows by exactly those. */
  lemma {:induction false} CostsAddUp(route: int -> Place, s: Store, ns: seq<Notice>, c: int, p: int, span: Span)
    ensures PolicyTally(Run(route, s, ns), c, p, span).cost ==
            PolicyTally(s, c, p, span).cost + CostOf(route, Credited(route, s, ns), Place(c, p), span)
    decreases |ns|
  {
    if ns != [] {
      var n, t := ns[0], Step(route, s, ns[0]);
      CostsAddUp(route, t, ns[1..], c, p, span);
      StepCost(route, s, n, c, p, span);
      var rest := Credited(route, t, ns[1..]);
      assert ([n] + rest)[1..] == rest;
      hide Step, PolicyTally;
    }
  }

  lemma StepCost(route: int -> Place, s: Store, n: Notice, c: int, p: int, span: Span)
    ensures PolicyTally(Step(route, s, n), c, p, span).cost == PolicyTally(s, c, p, span).cost +
            if Judge(s.flags, n).Valid? && (n.kind.Impression? || n.kind.Click?) && route(n.mapid) == Place(c, p) &&
               (span == Ever || span == On(n.day))
            then n.cost else 0
  {}
}
