/** The counters of single days: what they count, and when the clicks of a day stay within its impressions. */
module DailyCounts {
  import opened NoticeTracker

  /** The keys credited with this kind of notice on this day, at this place. */
  function KeysOn(route: int -> Place, log: seq<Notice>, at: Place, kind: Kind, day: int): set<Key> {
    set n | n in log && n.kind == kind && n.day == day && route(n.mapid) == at :: n.key
  }

  lemma StepDay(route: int -> Place, s: Store, n: Notice, c: int, p: int, day: int)
    ensures PolicyTally(Step(route, s, n), c, p, On(day)) ==
            if Judge(s.flags, n).Valid? && (n.kind.Impression? || n.kind.Click?) &&
               route(n.mapid) == Place(c, p) && n.day == day
            then Added(PolicyTally(s, c, p, On(day)), n) else PolicyTally(s, c, p, On(day))
  {}

  /** One more credit, of a key that is not credited with this kind later on. */
  lemma OneMoreKey(route: int -> Place, n: Notice, rest: seq<Notice>, at: Place, kind: Kind, day: int)
    requires forall i :: 0 <= i < |rest| ==> rest[i].key != n.key || rest[i].kind != n.kind
    ensures |KeysOn(route, [n] + rest, at, kind, day)| == |KeysOn(route, rest, at, kind, day)| +
            if n.kind == kind && n.day == day && route(n.mapid) == at then 1 else 0
  {
    KeysCons(route, n, rest, at, kind, day);
    assert n.kind == kind ==> n.key !in KeysOn(route, rest, at, kind, day);
  }

  lemma KeysCons(route: int -> Place, n: Notice, rest: seq<Notice>, at: Place, kind: Kind, day: int)
    ensures KeysOn(route, [n] + rest, at, kind, day) == KeysOn(route, rest, at, kind, day) +
            if n.kind == kind && n.day == day && route(n.mapid) == at then {n.key} else {}
  {
    var log := [n] + rest;
    assert log[0] == n && log[1..] == rest;
    forall m ensures m in log <==> m == n || m in rest {
      if m in log {
        var i :| 0 <= i < |log| && log[i] == m;
        assert i > 0 ==> rest[i - 1] == m;
      }
    }
  }

  /** Over any run the counters of a day grow by the numbers of keys credited on that day. */
  lemma {:induction false} DayTallies(route: int -> Place, s: Store, ns: seq<Notice>, c: int, p: int, day: int)
    ensures var log := Credited(route, s, ns);
            var before, after := PolicyTally(s, c, p, On(day)), PolicyTally(Run(route, s, ns), c, p, On(day));
            && after.imp == before.imp + |KeysOn(route, log, Place(c, p), Impression, day)|
            && after.clk == before.clk + |KeysOn(route, log, Place(c, p), Click, day)|
    decreases |ns|
  {
    hide PolicyTally, Proper;
    var at := Place(c, p);
    if ns == [] {
      assert KeysOn(route, [], at, Impression, day) == {} == KeysOn(route, [], at, Click, day);
    } else {
      var n, t := ns[0], Step(route, s, ns[0]);
      var rest := Credited(route, t, ns[1..]);
      DayTallies(route, t, ns[1..], c, p, day);
      StepDay(route, s, n, c, p, day);
      if Judge(s.flags, n).Valid? && !n.kind.Other? {
        NotAgain(route, s, n, ns[1..]);
        OneMoreKey(route, n, rest, at, Impression, day);
        OneMoreKey(route, n, rest, at, Click, day);
      }
      hide KeysOn, Step;
    }
  }

  lemma NotAgain(route: int -> Place, s: Store, n: Notice, ns: seq<Notice>)
    requires Judge(s.flags, n).Valid? && !n.kind.Other?
    ensures var rest := Credited(route, Step(route, s, n), ns);
            forall i :: 0 <= i < |rest| ==> rest[i].key != n.key || rest[i].kind != n.kind
  {
    CreditedOnce(route, Step(route, s, n), ns);
    StepFlags(route, s, n);
    hide Step, Credited;
  }

  /** The keys clicked on this day whose impression was credited on another one. */
  function ShownElsewhere(route: int -> Place, log: seq<Notice>, at: Place, day: int): set<Key> {
    set n, m | n in log && m in log && n.kind.Click? && n.day == day && route(n.mapid) == at &&
               m.kind.Impression? && m.key == n.key && m.day != day :: n.key
  }

  lemma {:induction false} CreditedCame(route: int -> Place, s: Store, ns: seq<Notice>)
    ensures forall n :: n in Credited(route, s, ns) ==> n in ns
    decreases |ns|
  {
    if ns != [] {
      CreditedCame(route, Step(route, s, ns[0]), ns[1..]);
    }
  }

  predicate Unflagged(s: Store) {
    s.campaigns == map[] && s.policies == map[] && forall k :: k in s.flags ==> s.flags[k] == Flags(false, false, false)
  }

  predicate FixedPlaces(route: int -> Place, place: Key -> Place, ns: seq<Notice>) {
    forall i :: 0 <= i < |ns| ==> place(ns[i].key) == route(ns[i].mapid)
  }

  /** A key clicked but not shown on a day was shown on another. */
  lemma ClickedOnly(route: int -> Place, place: Key -> Place, s: Store, ns: seq<Notice>, at: Place, day: int)
    requires Unflagged(s) && FixedPlaces(route, place, ns)
    ensures var log := Credited(route, s, ns);
            KeysOn(route, log, at, Click, day) - KeysOn(route, log, at, Impression, day) ==
            ShownElsewhere(route, log, at, day)
  {
    var log := Credited(route, s, ns);
    CreditedCame(route, s, ns);
    CreditedOnce(route, s, ns);
    hide Credited;
    forall n | n in log && n.kind.Click? && n.day == day && route(n.mapid) == at
      ensures exists m :: m in log && m.kind.Impression? && m.key == n.key && route(m.mapid) == at
    {
      assert n in ns && place(n.key) == route(n.mapid);
      var m := ItsImpression(s.flags, log, n);
      assert m in ns && place(m.key) == route(m.mapid);
    }
    forall n, m | n in log && m in log && n.kind.Impression? && m.kind.Impression? && n.key == m.key ensures n == m {
      OnlyOne(s.flags, log, n, m);
    }
    hide Proper, Unflagged, FixedPlaces;
  }

  lemma ItsImpression(flags: map<Key, Flags>, log: seq<Notice>, n: Notice) returns (m: Notice)
    requires Proper(flags, log) && n in log && n.kind.Click? && (n.key in flags ==> !flags[n.key].show)
    ensures m in log && m.kind.Impression? && m.key == n.key
  {
    var j :| 0 <= j < |log| && log[j] == n;
    assert Unset(flags, log[j]) && Shown(log[..j], n.key);
    var i :| 0 <= i < j && log[..j][i].key == n.key && log[..j][i].kind.Impression?;
    m := log[i];
  }

  lemma OnlyOne(flags: map<Key, Flags>, log: seq<Notice>, l: Notice, m: Notice)
    requires Proper(flags, log) && l in log && m in log && l.key == m.key && l.kind == m.kind
    ensures l == m
  {
    var i :| 0 <= i < |log| && log[i] == l;
    var j :| 0 <= j < |log| && log[j] == m;
    assert i == j;
  }

  lemma Compare<T>(a: set<T>, b: set<T>)
    ensures |a| <= |b| <==> |a - b| <= |b - a|
  {
    assert a == (a - b) + a * b && b == (b - a) + a * b;
  }

  /** From a store without counters and flags, with one place for each key: the counters of a day are the
      numbers of keys shown and clicked on it, and its clicks are within its impressions if and only if
      the keys clicked on it and shown on another day are no more than those shown on it and not clicked. */
  lemma DailyClicksExactly(route: int -> Place, place: Key -> Place, s: Store, ns: seq<Notice>, c: int, p: int, day: int)
    requires Unflagged(s) && FixedPlaces(route, place, ns)
    ensures var log, t, at := Credited(route, s, ns), PolicyTally(Run(route, s, ns), c, p, On(day)), Place(c, p);
            var shown, clicked := KeysOn(route, log, at, Impression, day), KeysOn(route, log, at, Click, day);
            && t.imp == |shown| && t.clk == |clicked|
            && (t.clk <= t.imp <==> |ShownElsewhere(route, log, at, day)| <= |shown - clicked|)
  {
    var log, at := Credited(route, s, ns), Place(c, p);
    assert PolicyTally(s, c, p, On(day)) == Zero();
    hide PolicyTally, Credited, KeysOn, ShownElsewhere, Run;
    DayTallies(route, s, ns, c, p, day);
    ClickedOnly(route, place, s, ns, at, day);
    Compare(KeysOn(route, log, at, Click, day), KeysOn(route, log, at, Impression, day));
  }

  /** Every click comes on the day of its key's impression. */
  predicate SameDay(ns: seq<Notice>) {
    forall n, m :: n in ns && m in ns && n.kind.Click? && m.kind.Impression? && n.key == m.key ==> n.day == m.day
  }

  /** Then clicks stay within impressions on every day, for every policy and every campaign. */
  lemma DailyClicksWithin(route: int -> Place, place: Key -> Place, s: Store, ns: seq<Notice>)
    requires Unflagged(s) && FixedPlaces(route, place, ns) && SameDay(ns)
    ensures var t := Run(route, s, ns);
            && (forall c, p, day :: PolicyTally(t, c, p, On(day)).clk <= PolicyTally(t, c, p, On(day)).imp)
            && forall c, day :: CampaignTally(t, c, On(day)).clk <= CampaignTally(t, c, On(day)).imp
  {
    var t := Run(route, s, ns);
    forall c, p, day ensures PolicyTally(t, c, p, On(day)).clk <= PolicyTally(t, c, p, On(day)).imp {
      NoneElsewhere(route, s, ns, Place(c, p), day);
      DailyClicksExactly(route, place, s, ns, c, p, day);
    }
    FreshStore(s, place);
    RunConserves(route, s, ns);
    forall c, day ensures CampaignTally(t, c, On(day)).clk <= CampaignTally(t, c, On(day)).imp {
      CampaignWithin(t, c, day);
    }
  }

  lemma NoneElsewhere(route: int -> Place, s: Store, ns: seq<Notice>, at: Place, day: int)
    requires SameDay(ns)
    ensures ShownElsewhere(route, Credited(route, s, ns), at, day) == {}
  {
    CreditedCame(route, s, ns);
    hide Credited;
  }

  lemma CampaignWithin(t: Store, c: int, day: int)
    requires Conserved(t)
    requires forall p :: PolicyTally(t, c, p, On(day)).clk <= PolicyTally(t, c, p, On(day)).imp
    ensures CampaignTally(t, c, On(day)).clk <= CampaignTally(t, c, On(day)).imp
  {
    assert Summed(t, c, On(day), Clk) && Summed(t, c, On(day), Imp);
    SumAtMost(PoliciesOf(t, c, On(day)), ColumnOf(t, c, On(day), Clk), ColumnOf(t, c, On(day), Imp));
  }

  /** An impression on one day and its click on any other: a day with a click and no impression. */
  lemma DailyClicksMayExceed(route: int -> Place, s: Store, key: Key, mapid: int, c: int, p: int,
                             shown: int, clicked: int, price: nat, cost: nat)
    requires route(mapid) == Place(c, p) && shown != clicked
    requires key in s.flags && s.flags[key] == Flags(false, false, false) && PolicyTally(s, c, p, On(clicked)) == Zero()
    ensures var t := Run(route, s, [Notice(key, Impression, mapid, shown, price, true),
                                    Notice(key, Click, mapid, clicked, cost, true)]);
            PolicyTally(t, c, p, On(clicked)) == Tally(0, 1, cost)
  {
    var i, k := Notice(key, Impression, mapid, shown, price, true), Notice(key, Click, mapid, clicked, cost, true);
    StepDay(route, s, i, c, p, clicked);
    StepFlags(route, s, i);
    StepDay(route, Step(route, s, i), k, c, p, clicked);
    assert [i, k][1..] == [k] && [k][1..] == [];
    hide Step, PolicyTally;
    assert Run(route, Step(route, s, i), [k]) == Run(route, Step(route, Step(route, s, i), k), []);
    assert Run(route, s, [i, k]) == Step(route, Step(route, s, i), k);
  }
}
