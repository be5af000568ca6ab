/** Which notices count, and the campaign and policy counters they drive. */
module NoticeTracker {
  /** What the store keeps the flags under. */
  type Key = string

  function FlagKey(bid: string, impid: string, advid: string): Key {
    "dsp_id_flag_" + bid + "_" + impid + "_" + advid
  }

  /** Bids and impressions without an underscore are told apart. */
  lemma KeysTellApart(bid: string, impid: string, advid: string, bid': string, impid': string, advid': string)
    requires '_' !in bid && '_' !in impid && '_' !in bid' && '_' !in impid'
    ensures FlagKey(bid, impid, advid) == FlagKey(bid', impid', advid') <==> (bid, impid, advid) == (bid', impid', advid')
  {
    if FlagKey(bid, impid, advid) == FlagKey(bid', impid', advid') {
      var s, t := bid + "_" + impid + "_" + advid, bid' + "_" + impid' + "_" + advid';
      assert FlagKey(bid, impid, advid)[12..] == s && FlagKey(bid', impid', advid')[12..] == t;
      assert s == bid + "_" + (impid + "_" + advid) && t == bid' + "_" + (impid' + "_" + advid');
      FirstPart(bid, impid + "_" + advid, bid', impid' + "_" + advid');
      assert impid + "_" + advid == impid + "_" + (advid) && impid' + "_" + advid' == impid' + "_" + (advid');
      FirstPart(impid, advid, impid', advid');
    }
  }

  lemma FirstPart(a: string, s: string, b: string, t: string)
    requires '_' !in a && '_' !in b && a + "_" + s == b + "_" + t
    ensures a == b && s == t
  {
    var u := a + "_" + s;
    assert u[|a|] == '_' && u[|b|] == '_';
    assert forall i :: 0 <= i < |a| ==> u[i] == a[i] && a[i] != '_';
    assert forall i :: 0 <= i < |b| ==> u[i] == b[i] && b[i] != '_';
    assert |a| == |b|;
    assert u[..|a|] == a && u[..|b|] == b && u[|a| + 1..] == s && u[|b| + 1..] == t;
  }

  /** With underscores, different bids and impressions can share their flags. */
  lemma KeysMayMeet(bid: string, x: string, impid: string, advid: string)
    ensures FlagKey(bid + "_" + x, impid, advid) == FlagKey(bid, x + "_" + impid, advid)
  {
    var head, tail := "dsp_id_flag_" + bid + "_" + x, "_" + impid + "_" + advid;
    assert FlagKey(bid + "_" + x, impid, advid) == head + tail;
  }

  datatype Kind = Win | Impression | Click | Other

  /** The bits DSP_FLAG_PRICE, DSP_FLAG_SHOW and DSP_FLAG_CLICK. */
  datatype Flags = Flags(price: bool, show: bool, click: bool)

  /** cost is the price in hundredths that the price processing found for the notice; stored tells
      whether the store accepted the new flags. */
  datatype Notice = Notice(key: Key, kind: Kind, mapid: int, day: int, cost: nat, stored: bool)

  /** The dump: campaign and policy of a mapid. */
  datatype Place = Place(campaign: int, policy: int) | Nowhere

  datatype Verdict = Valid | KeyMissing | RepeatedWin | RepeatedClick | StoreFailed

  datatype Tally = Tally(imp: nat, clk: nat, cost: nat)

  /** All days together, or one day. */
  datatype Span = Ever | On(day: int)

  /** The parts of the store that notices read and write. */
  datatype Store = Store(flags: map<Key, Flags>, campaigns: map<(int, Span), Tally>,
                         policies: map<(int, int, Span), Tally>)

  function Bit(f: Flags, k: Kind): bool {
    match k
    case Win => f.price
    case Impression => f.show
    case Click => f.click
    case Other => true
  }

  function Raise(f: Flags, k: Kind): Flags {
    match k
    case Win => Flags(true, f.show, f.click)
    case Impression => Flags(f.price, true, f.click)
    case Click => Flags(f.price, f.show, true)
    case Other => f
  }

  /** Whether the notice is valid (iv == 1), and if not why (ic). */
  function Judge(flags: map<Key, Flags>, n: Notice): Verdict {
    if n.key !in flags then KeyMissing
    else
      var f := flags[n.key];
      match n.kind
      case Other => Valid
      case Win => if f.price then RepeatedWin else if n.stored then Valid else StoreFailed
      case Impression => if f.show then RepeatedClick else if n.stored then Valid else StoreFailed
      case Click => if !f.show || f.click then RepeatedClick else if n.stored then Valid else StoreFailed
  }

  function Zero(): Tally {
    Tally(0, 0, 0)
  }

  /** A missing counter is zero. */
  function CampaignTally(s: Store, c: int, span: Span): Tally {
    if (c, span) in s.campaigns then s.campaigns[(c, span)] else Zero()
  }

  function PolicyTally(s: Store, c: int, p: int, span: Span): Tally {
    if (c, p, span) in s.policies then s.policies[(c, p, span)] else Zero()
  }

  function Added(t: Tally, n: Notice): Tally {
    Tally(t.imp + if n.kind.Impression? then 1 else 0, t.clk + if n.kind.Click? then 1 else 0, t.cost + n.cost)
  }

  function AddCampaign(s: Store, c: int, span: Span, n: Notice): Store {
    s.(campaigns := s.campaigns[(c, span) := Added(CampaignTally(s, c, span), n)])
  }

  function AddPolicy(s: Store, c: int, p: int, span: Span, n: Notice): Store {
    s.(policies := s.policies[(c, p, span) := Added(PolicyTally(s, c, p, span), n)])
  }

  /** adx_dsp_control_count for a valid impression or click */
  function Count(s: Store, at: Place, n: Notice): Store {
    match at
    case Nowhere => s
    case Place(c, p) =>
      AddPolicy(AddCampaign(AddPolicy(AddCampaign(s, c, Ever, n), c, p, Ever, n), c, On(n.day), n), c, p, On(n.day), n)
  }

  /** One notice. */
  function Step(route: int -> Place, s: Store, n: Notice): Store {
    if !Judge(s.flags, n).Valid? then s
    else
      var marked := if n.kind.Other? then s else s.(flags := s.flags[n.key := Raise(s.flags[n.key], n.kind)]);
      if n.kind.Impression? || n.kind.Click? then Count(marked, route(n.mapid), n) else marked
  }

  function Run(route: int -> Place, s: Store, ns: seq<Notice>): Store
    decreases |ns|
  {
    if ns == [] then s else Run(route, Step(route, s, ns[0]), ns[1..])
  }

  // ---- each key is credited at most once per kind, and a click after its impression ----

  /** The valid notices of a run, in order. */
  function Credited(route: int -> Place, s: Store, ns: seq<Notice>): seq<Notice>
    decreases |ns|
  {
    if ns == [] then []
    else
      var rest := Credited(route, Step(route, s, ns[0]), ns[1..]);
      if Judge(s.flags, ns[0]).Valid? && !ns[0].kind.Other? then [ns[0]] + rest else rest
  }

  lemma StepFlags(route: int -> Place, s: Store, n: Notice)
    ensures Step(route, s, n).flags == if Judge(s.flags, n).Valid? && !n.kind.Other?
                                       then s.flags[n.key := Raise(s.flags[n.key], n.kind)] else s.flags
  {}

  predicate Unset(flags: map<Key, Flags>, n: Notice) {
    n.key in flags && !n.kind.Other? && !Bit(flags[n.key], n.kind)
  }

  /** The credits of a run that starts with these flags: new, each once, and clicks behind their impressions. */
  predicate Proper(flags: map<Key, Flags>, log: seq<Notice>) {
    && (forall i :: 0 <= i < |log| ==> Unset(flags, log[i]))
    && (forall i, j :: 0 <= i < j < |log| ==> log[i].key != log[j].key || log[i].kind != log[j].kind)
    && forall j :: 0 <= j < |log| && log[j].kind.Click? ==> flags[log[j].key].show || Shown(log[..j], log[j].key)
  }

  predicate Shown(log: seq<Notice>, key: Key) {
    exists i :: 0 <= i < |log| && log[i].key == key && log[i].kind.Impression?
  }

  lemma ProperCons(flags: map<Key, Flags>, n: Notice, rest: seq<Notice>)
    requires Unset(flags, n) && (n.kind.Click? ==> flags[n.key].show)
    requires Proper(flags[n.key := Raise(flags[n.key], n.kind)], rest)
    ensures Proper(flags, [n] + rest)
  {
    var log, after := [n] + rest, flags[n.key := Raise(flags[n.key], n.kind)];
    assert forall k :: 0 < k < |log| ==> log[k] == rest[k - 1];
    forall i | 0 <= i < |log| ensures Unset(flags, log[i]) && (i > 0 ==> log[i].key != n.key || log[i].kind != n.kind) {
      if i > 0 {
        assert Unset(after, rest[i - 1]);
      }
    }
    forall j | 0 < j < |log| && log[j].kind.Click?
      ensures flags[log[j].key].show || Shown(log[..j], log[j].key)
    {
      var key := log[j].key;
      if n.kind.Impression? && n.key == key {
        assert log[..j][0] == n;
      } else if !flags[key].show {
        assert Unset(after, rest[j - 1]) && Shown(rest[..j - 1], key);
        var i :| 0 <= i < j - 1 && rest[i].key == key && rest[i].kind.Impression?;
        assert log[..j][i + 1] == rest[i];
      }
    }
  }

  /** Over any run each key is credited at most one win, one impression and one click, and a click
      only when its impression came before it. */
  lemma {:induction false} CreditedOnce(route: int -> Place, s: Store, ns: seq<Notice>)
    ensures Proper(s.flags, Credited(route, s, ns))
    decreases |ns|
  {
    if ns != [] {
      var n := ns[0];
      StepFlags(route, s, n);
      CreditedOnce(route, Step(route, s, n), ns[1..]);
      if Judge(s.flags, n).Valid? && !n.kind.Other? {
        ProperCons(s.flags, n, Credited(route, Step(route, s, n), ns[1..]));
      }
    }
  }

  // ---- the counters ----

  ghost function Any<T>(s: set<T>): (x: T)
    requires s != {}
    ensures x in s
  {
    var x :| x in s; x
  }

  ghost function SumOver(ps: set<int>, f: int -> nat): nat
    decreases |ps|
  {
    if ps == {} then 0 else f(Any(ps)) + SumOver(ps - {Any(ps)}, f)
  }

  lemma {:induction false} SumTake(ps: set<int>, f: int -> nat, q: int)
    requires q in ps
    ensures SumOver(ps, f) == f(q) + SumOver(ps - {q}, f)
    decreases |ps|
  {
    var p := Any(ps);
    if p != q {
      SumTake(ps - {p}, f, q);
      SumTake(ps - {q}, f, p);
      assert ps - {p} - {q} == ps - {q} - {p};
    }
  }

  lemma {:induction false} SumSame(ps: set<int>, f: int -> nat, g: int -> nat)
    requires forall p :: p in ps ==> f(p) == g(p)
    ensures SumOver(ps, f) == SumOver(ps, g)
    decreases |ps|
  {
    if ps != {} {
      var p := Any(ps);
      SumSame(ps - {p}, f, g);
      SumTake(ps, g, p);
    }
  }

  /** One summand more. */
  lemma SumAdds(ps: set<int>, qs: set<int>, f: int -> nat, g: int -> nat, q: int, d: nat)
    requires qs == ps + {q} && g(q) == f(q) + d && (q !in ps ==> f(q) == 0)
    requires forall p :: p != q ==> f(p) == g(p)
    ensures SumOver(qs, g) == SumOver(ps, f) + d
  {
    SumTake(qs, g, q);
    SumSame(qs - {q}, f, g);
    if q in ps {
      SumTake(ps, f, q);
      assert qs - {q} == ps - {q};
    } else {
      assert qs - {q} == ps;
    }
  }

  lemma {:induction false} SumAtMost(ps: set<int>, f: int -> nat, g: int -> nat)
    requires forall p :: p in ps ==> f(p) <= g(p)
    ensures SumOver(ps, f) <= SumOver(ps, g)
    decreases |ps|
  {
    if ps != {} {
      var p := Any(ps);
      SumAtMost(ps - {p}, f, g);
      SumTake(ps, g, p);
    }
  }

  function PoliciesOf(s: Store, c: int, span: Span): set<int> {
    set k | k in s.policies && k.0 == c && k.2 == span :: k.1
  }

  datatype Column = Imp | Clk | Cost

  function Value(t: Tally, column: Column): nat {
    match column
    case Imp => t.imp
    case Clk => t.clk
    case Cost => t.cost
  }

  function ColumnOf(s: Store, c: int, span: Span, column: Column): int -> nat {
    (p: int) => Value(PolicyTally(s, c, p, span), column)
  }

  /** One counter of a campaign is the sum over its policies. */
  ghost predicate Summed(s: Store, c: int, span: Span, column: Column) {
    Value(CampaignTally(s, c, span), column) == SumOver(PoliciesOf(s, c, span), ColumnOf(s, c, span, column))
  }

  /** Every campaign counter, of all days and of each day, is the sum over the policies. */
  ghost predicate Conserved(s: Store) {
    forall c, span, column :: Summed(s, c, span, column)
  }

  lemma TouchedSpan(s: Store, t: Store, c: int, p: int, span: Span, n: Notice, column: Column)
    requires Summed(s, c, span, column) && t == AddPolicy(AddCampaign(s, c, span, n), c, p, span, n)
    ensures Summed(t, c, span, column)
  {
    assert PoliciesOf(t, c, span) == PoliciesOf(s, c, span) + {p} by {
      assert (c, p, span) in t.policies;
      assert forall q :: q in PoliciesOf(s, c, span) ==> (c, q, span) in t.policies;
    }
    SumAdds(PoliciesOf(s, c, span), PoliciesOf(t, c, span), ColumnOf(s, c, span, column),
            ColumnOf(t, c, span, column), p, Value(Added(Zero(), n), column));
  }

  lemma UntouchedSpan(s: Store, t: Store, c: int, p: int, span: Span, n: Notice, d: int, other: Span, column: Column)
    requires Summed(s, d, other, column) && t == AddPolicy(AddCampaign(s, c, span, n), c, p, span, n)
    requires d != c || other != span
    ensures Summed(t, d, other, column)
  {
    assert PoliciesOf(t, d, other) == PoliciesOf(s, d, other) by {
      assert forall q :: (d, q, other) in t.policies <==> (d, q, other) in s.policies;
    }
    SumSame(PoliciesOf(s, d, other), ColumnOf(s, d, other, column), ColumnOf(t, d, other, column));
  }

  lemma CountOneSpan(s: Store, c: int, p: int, span: Span, n: Notice)
    requires Conserved(s)
    ensures Conserved(AddPolicy(AddCampaign(s, c, span, n), c, p, span, n))
  {
    hide Summed;
    var t := AddPolicy(AddCampaign(s, c, span, n), c, p, span, n);
    forall d, other, column ensures Summed(t, d, other, column) {
      assert Summed(s, d, other, column);
      if d == c && other == span {
        TouchedSpan(s, t, c, p, span, n, column);
      } else {
        UntouchedSpan(s, t, c, p, span, n, d, other, column);
      }
    }
  }

  lemma StepConserves(route: int -> Place, s: Store, n: Notice)
    requires Conserved(s)
    ensures Conserved(Step(route, s, n))
  {
    if Judge(s.flags, n).Valid? && !n.kind.Other? {
      var marked := s.(flags := s.flags[n.key := Raise(s.flags[n.key], n.kind)]);
      SameCounters(s, marked);
      match route(n.mapid) {
        case Nowhere =>
        case Place(c, p) =>
          CountOneSpan(marked, c, p, Ever, n);
          CountOneSpan(AddPolicy(AddCampaign(marked, c, Ever, n), c, p, Ever, n), c, p, On(n.day), n);
      }
    }
  }

  lemma SameCounters(s: Store, t: Store)
    requires Conserved(s) && s.campaigns == t.campaigns && s.policies == t.policies
    ensures Conserved(t)
  {
    forall c, span, column ensures Summed(t, c, span, column) {
      assert Summed(s, c, span, column);
      SumSame(PoliciesOf(s, c, span), ColumnOf(s, c, span, column), ColumnOf(t, c, span, column));
    }
  }

  /** Over any run the campaign counters stay the sums of the policy counters. */
  lemma {:induction false} RunConserves(route: int -> Place, s: Store, ns: seq<Notice>)
    requires Conserved(s)
    ensures Conserved(Run(route, s, ns))
    decreases |ns|
  {
    hide Conserved, Step;
    if ns != [] {
      StepConserves(route, s, ns[0]);
      RunConserves(route, Step(route, s, ns[0]), ns[1..]);
    }
  }

  // ---- clicks never exceed impressions ----

  /** The keys of a policy whose flags have this bit. */
  function KeysWith(s: Store, place: Key -> Place, at: Place, kind: Kind): set<Key> {
    set k | k in s.flags && place(k) == at && Bit(s.flags[k], kind)
  }

  /** The counters of all days count the keys, and clicked keys have been shown. */
  ghost predicate Counted(s: Store, place: Key -> Place) {
    && (forall k :: k in s.flags && s.flags[k].click ==> s.flags[k].show)
    && forall c, p ::
         && PolicyTally(s, c, p, Ever).imp == |KeysWith(s, place, Place(c, p), Impression)|
         && PolicyTally(s, c, p, Ever).clk == |KeysWith(s, place, Place(c, p), Click)|
  }

  lemma KeysAfter(s: Store, t: Store, place: Key -> Place, key: Key, kind: Kind, at: Place, k: Kind)
    requires key in s.flags && t.flags == s.flags[key := Raise(s.flags[key], kind)] && !kind.Other? && !k.Other?
    requires !Bit(s.flags[key], kind)
    ensures |KeysWith(t, place, at, k)| == |KeysWith(s, place, at, k)| + if k == kind && place(key) == at then 1 else 0
  {
    if k == kind && place(key) == at {
      assert KeysWith(t, place, at, k) == KeysWith(s, place, at, k) + {key};
    } else {
      assert KeysWith(t, place, at, k) == KeysWith(s, place, at, k);
    }
  }

  lemma StepCounts(route: int -> Place, place: Key -> Place, s: Store, n: Notice)
    requires Counted(s, place) && place(n.key) == route(n.mapid)
    ensures Counted(Step(route, s, n), place)
  {
    var t := Step(route, s, n);
    if Judge(s.flags, n).Valid? && !n.kind.Other? {
      StepFlags(route, s, n);
      forall c, p
        ensures PolicyTally(t, c, p, Ever).imp == |KeysWith(t, place, Place(c, p), Impression)|
        ensures PolicyTally(t, c, p, Ever).clk == |KeysWith(t, place, Place(c, p), Click)|
      {
        KeysAfter(s, t, place, n.key, n.kind, Place(c, p), Impression);
        KeysAfter(s, t, place, n.key, n.kind, Place(c, p), Click);
        StepTally(route, s, n, c, p);
      }
    }
  }

  lemma StepTally(route: int -> Place, s: Store, n: Notice, c: int, p: int)
    requires Judge(s.flags, n).Valid? && !n.kind.Other?
    ensures PolicyTally(Step(route, s, n), c, p, Ever) ==
            if !n.kind.Win? && route(n.mapid) == Place(c, p) then Added(PolicyTally(s, c, p, Ever), n)
            else PolicyTally(s, c, p, Ever)
  {}

  /** Over any run in which the notices of a key name one place, the counters of all days equal the
      numbers of keys shown and clicked, so clicks never exceed impressions, for policies and campaigns. */
  lemma {:induction false} RunCounts(route: int -> Place, place: Key -> Place, s: Store, ns: seq<Notice>)
    requires Counted(s, place) && Conserved(s)
    requires forall i :: 0 <= i < |ns| ==> place(ns[i].key) == route(ns[i].mapid)
    ensures var t := Run(route, s, ns);
            && Counted(t, place)
            && (forall c, p :: PolicyTally(t, c, p, Ever).clk <= PolicyTally(t, c, p, Ever).imp)
            && forall c :: CampaignTally(t, c, Ever).clk <= CampaignTally(t, c, Ever).imp
    decreases |ns|
  {
    if ns == [] {
      ClicksWithin(s, place);
    } else {
      hide Counted, Conserved, Step;
      StepCounts(route, place, s, ns[0]);
      StepConserves(route, s, ns[0]);
      RunCounts(route, place, Step(route, s, ns[0]), ns[1..]);
    }
  }

  lemma {:induction false} SmallerSet<T>(a: set<T>, b: set<T>)
    requires a <= b
    ensures |a| <= |b|
  {
    assert b == a + (b - a);
  }

  lemma ClicksWithin(s: Store, place: Key -> Place)
    requires Counted(s, place) && Conserved(s)
    ensures forall c, p :: PolicyTally(s, c, p, Ever).clk <= PolicyTally(s, c, p, Ever).imp
    ensures forall c :: CampaignTally(s, c, Ever).clk <= CampaignTally(s, c, Ever).imp
  {
    forall c, p ensures PolicyTally(s, c, p, Ever).clk <= PolicyTally(s, c, p, Ever).imp {
      SmallerSet(KeysWith(s, place, Place(c, p), Click), KeysWith(s, place, Place(c, p), Impression));
    }
    forall c ensures CampaignTally(s, c, Ever).clk <= CampaignTally(s, c, Ever).imp {
      assert Summed(s, c, Ever, Clk) && Summed(s, c, Ever, Imp);
      SumAtMost(PoliciesOf(s, c, Ever), ColumnOf(s, c, Ever, Clk), ColumnOf(s, c, Ever, Imp));
    }
  }

  /** A store without counters and with nothing flagged, as the bidders leave it. */
  lemma FreshStore(s: Store, place: Key -> Place)
    requires s.campaigns == map[] && s.policies == map[]
    requires forall k :: k in s.flags ==> s.flags[k] == Flags(false, false, false)
    ensures Conserved(s) && Counted(s, place)
  {
    forall c, span, column ensures Summed(s, c, span, column) {
      assert PoliciesOf(s, c, span) == {};
    }
    forall c, p, kind: Kind | !kind.Other? ensures KeysWith(s, place, Place(c, p), kind) == {} {
    }
  }

  /** The store, updated in place. */
  class Redis {
    var flags: map<Key, Flags>
    var campaigns: map<(int, Span), Tally>
    var policies: map<(int, int, Span), Tally>

    ghost function Whole(): Store
      reads this
    {
      Store(flags, campaigns, policies)
    }

    /** HINCRBY of one campaign hash, and the matching policy fields. */
    method CountSpan(c: int, p: int, span: Span, n: Notice)
      modifies this`campaigns, this`policies
      ensures Whole() == old(AddPolicy(AddCampaign(Whole(), c, span, n), c, p, span, n))
    {
      var t := if (c, span) in campaigns then campaigns[(c, span)] else Tally(0, 0, 0);
      var u := if (c, p, span) in policies then policies[(c, p, span)] else Tally(0, 0, 0);
      if n.kind.Impression? {
        t, u := Tally(t.imp + 1, t.clk, t.cost), Tally(u.imp + 1, u.clk, u.cost);
      }
      if n.kind.Click? {
        t, u := Tally(t.imp, t.clk + 1, t.cost), Tally(u.imp, u.clk + 1, u.cost);
      }
      if n.cost != 0 {
        t, u := Tally(t.imp, t.clk, t.cost + n.cost), Tally(u.imp, u.clk, u.cost + n.cost);
      }
      campaigns := campaigns[(c, span) := t];
      policies := policies[(c, p, span) := u];
    }

    /** adx_tracker from the reading of the flags on. */
    method Track(route: int -> Place, n: Notice) returns (verdict: Verdict)
      modifies this
      ensures verdict == Judge(old(flags), n)
      ensures Whole() == Step(route, old(Whole()), n)
    {
      if n.key !in flags {
        return KeyMissing;
      }
      var f := flags[n.key];
      verdict := Valid;
      match n.kind {
        case Win =>
          if f.price {
            verdict := RepeatedWin;
          } else if n.stored {
            flags := flags[n.key := f.(price := true)];
          } else {
            verdict := StoreFailed;
          }
        case Impression =>
          if f.show {
            verdict := RepeatedClick;
          } else if n.stored {
            flags := flags[n.key := f.(show := true)];
          } else {
            verdict := StoreFailed;
          }
        case Click =>
          if !f.show || f.click {
            verdict := RepeatedClick;
          } else if n.stored {
            flags := flags[n.key := f.(click := true)];
          } else {
            verdict := StoreFailed;
          }
        case Other =>
      }
      if verdict.Valid? && (n.kind.Impression? || n.kind.Click?) {
        match route(n.mapid) {
          case Nowhere =>
          case Place(c, p) =>
            CountSpan(c, p, Ever, n);
            CountSpan(c, p, On(n.day), n);
        }
      }
    }
  }
}
