/** Daily caps and uniform delivery of a policy: adx_dsp_control_kpi_policy and the ten-minute counters. */
module Pacing {
  /** Seconds since midnight. */
  type Clock = t: int | 0 <= t < 86400

  function Hour(t: Clock): int {
    t / 3600
  }

  function Minute(t: Clock): int {
    t / 60 % 60
  }

  function Second(t: Clock): int {
    t % 60
  }

  /** get_time_sec_today_end, which leaves out the seconds. */
  function SecTodayEnd(t: Clock): int {
    (23 - Hour(t)) * 3600 + (60 - Minute(t)) * 60
  }

  function SecHourEnd(t: Clock): int {
    (60 - Minute(t)) * 60 - Second(t)
  }

  function Sec10MinEnd(t: Clock): int {
    600 - (Minute(t) % 10 * 60 + Second(t))
  }

  /** Ten-minute segments of the day, 0 to 143. */
  function Segment(t: int): int {
    t / 600
  }

  /** Where the three pauses end. */
  lemma PauseEnds(t: Clock)
    ensures t + SecTodayEnd(t) == 86400 + Second(t)
    ensures t + SecHourEnd(t) == (Hour(t) + 1) * 3600
    ensures t + Sec10MinEnd(t) == (Segment(t) + 1) * 600
    ensures Segment(t) == Hour(t) * 6 + Minute(t) / 10 && Segment(t) % 6 == Minute(t) / 10
  {
    var q := t / 60;
    var h, m, s := q / 60, q % 60, t % 60;
    var d, u := m / 10, m % 10;
    assert t == q * 60 + s && q == h * 60 + m && m == d * 10 + u;
    Quotients(t, 3600, h, m * 60 + s);
    Quotients(t, 600, h * 6 + d, u * 60 + s);
    Quotients(h * 6 + d, 6, h, d);
  }

  lemma Quotients(t: nat, k: nat, q: nat, r: nat)
    requires k > 0 && r < k && t == q * k + r
    ensures t / k == q && t % k == r
  {
    var a, b := t / k, t % k;
    assert t == a * k + b && 0 <= b < k;
    if a < q {
      TimesMonotone(a + 1, q, k);
    } else if q < a {
      TimesMonotone(q + 1, a, k);
    }
  }

  /** adx_except_ceil: the least integer not below x / y, and 0 for a zero y. */
  function ExceptCeil(x: int, y: int): (r: int)
    ensures y > 0 ==> (r - 1) * y < x <= r * y
    ensures y < 0 ==> r * y <= x < (r - 1) * y
  {
    if y == 0 then 0 else if y > 0 then -((-x) / y) else -(x / -y)
  }

  /** Targets of 0 and -1 mean no limit. */
  function Target(n: int): int {
    if n == 0 then -1 else n
  }

  /** The day's settings of a policy; allowed holds the permitted hours. */
  datatype Control = Control(dayimp: int, dayclk: int, daybudget: int, uniform: bool, autobid: bool, allowed: set<int>)

  datatype Counts = Counts(impDay: int, clkDay: int, costDay: int, imp10m: int, clk10m: int)

  /** setex pause_policy with this many seconds and this reason; hand tells whether automatic bidding is notified. */
  datatype Decision = GoOn | Pause(seconds: int, reason: int, hand: bool)

  /** Permitted hours from this one on. */
  function HoursFrom(allowed: set<int>, h: int): (r: nat)
    ensures r <= if h < 24 then 24 - h else 0
    decreases 24 - h
  {
    if h >= 24 then 0 else (if h in allowed then 1 else 0) + HoursFrom(allowed, h + 1)
  }

  /** The usable segments left, this one included, less two to spare, but at least one. */
  function Slots(c: Control, t: Clock): (r: int)
    ensures 1 <= r <= 142
  {
    var n := HoursFrom(c.allowed, Hour(t) + 1) * 6 + (6 - Minute(t) / 10);
    if n > 2 then n - 2 else 1
  }

  function Reached(c: Control, imp: bool, clk: bool): bool {
    if Target(c.dayimp) == -1 then clk else if Target(c.dayclk) == -1 then imp else imp && clk
  }

  function Decide(c: Control, k: Counts, t: Clock): Decision {
    var dayimp, dayclk, daybudget := Target(c.dayimp), Target(c.dayclk), Target(c.daybudget);
    if dayimp == -1 && dayclk == -1 then GoOn
    else if Reached(c, k.impDay >= dayimp, k.clkDay >= dayclk) then Pause(SecTodayEnd(t), 21, false)
    else if daybudget != -1 && Quotient(k.costDay, 1000) >= daybudget * 100 then Pause(SecTodayEnd(t), 22, false)
    else if Hour(t) !in c.allowed then Pause(SecHourEnd(t), 24, false)
    else if !c.uniform && !c.autobid then GoOn
    else if Reached(c, k.imp10m >= ExceptCeil(dayimp - k.impDay, Slots(c, t)),
                       k.clk10m >= ExceptCeil(dayclk - k.clkDay, Slots(c, t)))
    then Pause(Sec10MinEnd(t), 23, c.autobid)
    else GoOn
  }

  /** Division in C. */
  function Quotient(x: int, y: int): int
    requires y > 0
  {
    if x >= 0 then x / y else -((-x) / y)
  }

  /** adx_dsp_control_kpi_policy */
  method KpiPolicy(c: Control, k: Counts, t: Clock) returns (d: Decision)
    ensures d == Decide(c, k, t)
  {
    hide ExceptCeil, Quotient;
    var dayimp := if c.dayimp != 0 then c.dayimp else -1;
    var dayclk := if c.dayclk != 0 then c.dayclk else -1;
    if dayimp == -1 && dayclk == -1 {
      return GoOn;
    } else if dayimp == -1 {
      if k.clkDay >= dayclk {
        return Pause(SecTodayEnd(t), 21, false);
      }
    } else if dayclk == -1 {
      if k.impDay >= dayimp {
        return Pause(SecTodayEnd(t), 21, false);
      }
    } else {
      if k.impDay >= dayimp && k.clkDay >= dayclk {
        return Pause(SecTodayEnd(t), 21, false);
      }
    }
    var daybudget := if c.daybudget != 0 then c.daybudget else -1;
    if daybudget != -1 && Quotient(k.costDay, 1000) >= daybudget * 100 {
      return Pause(SecTodayEnd(t), 22, false);
    }
    if Hour(t) !in c.allowed {
      return Pause(SecHourEnd(t), 24, false);
    }
    if !c.uniform && !c.autobid {
      return GoOn;
    }
    var surplusImp, surplusClk := dayimp - k.impDay, dayclk - k.clkDay;
    var hours := 0;
    for i := Hour(t) + 1 to 24
      invariant hours + HoursFrom(c.allowed, i) == HoursFrom(c.allowed, Hour(t) + 1)
    {
      if i in c.allowed {
        hours := hours + 1;
      }
    }
    var slots := hours * 6 + (6 - Minute(t) / 10);
    if slots > 2 {
      slots := slots - 2;
    } else {
      slots := 1;
    }
    var quotaImp, quotaClk := ExceptCeil(surplusImp, slots), ExceptCeil(surplusClk, slots);
    if dayimp == -1 {
      if k.clk10m >= quotaClk {
        return Pause(Sec10MinEnd(t), 23, c.autobid);
      }
    } else if dayclk == -1 {
      if k.imp10m >= quotaImp {
        return Pause(Sec10MinEnd(t), 23, c.autobid);
      }
    } else {
      if k.imp10m >= quotaImp && k.clk10m >= quotaClk {
        return Pause(Sec10MinEnd(t), 23, c.autobid);
      }
    }
    d := GoOn;
  }

  // ---- the quota of a segment, which shrinks as it is used ----

  lemma TimesMonotone(a: int, b: int, y: int)
    requires a <= b && y >= 0
    ensures a * y <= b * y
  {
    assert (b - a) * y >= 0;
    assert (b - a) * y == b * y - a * y;
  }

  lemma CeilAtMost(x: int, y: int, k: int)
    requires y > 0
    ensures ExceptCeil(x, y) <= k <==> x <= k * y
  {
    var r := ExceptCeil(x, y);
    hide ExceptCeil;
    if r <= k {
      TimesMonotone(r, k, y);
    } else {
      TimesMonotone(k, r - 1, y);
    }
  }

  /** With left to go at the start of a segment and n slots, the k-th of the segment is the last exactly when
      k reaches left / (n + 1) rounded up. */
  lemma QuotaIsMet(left: int, n: int, k: int)
    requires n >= 1
    ensures k >= ExceptCeil(left - k, n) <==> k >= ExceptCeil(left, n + 1)
  {
    CeilAtMost(left - k, n, k);
    CeilAtMost(left, n + 1, k);
    assert k * (n + 1) == k * n + k;
  }

  /** For a policy limited by impressions alone, the decision after the k-th impression of a segment. */
  lemma SegmentQuota(c: Control, t: Clock, start: int, k: int, counts: Counts)
    requires Target(c.dayclk) == -1 && Target(c.dayimp) == c.dayimp && c.dayimp != -1
    requires counts.impDay == start + k && counts.imp10m == k && start + k < c.dayimp
    requires Target(c.daybudget) == -1 && Hour(t) in c.allowed && (c.uniform || c.autobid)
    ensures Decide(c, counts, t) == if k >= ExceptCeil(c.dayimp - start, Slots(c, t) + 1)
                                    then Pause(Sec10MinEnd(t), 23, c.autobid) else GoOn
  {
    QuotaIsMet(c.dayimp - start, Slots(c, t), k);
  }

  // ---- ten-minute counters: one key per position in the hour, kept for half an hour ----

  /** HINCRBY and EXPIRE on dsp10minutecounter; until says when it vanishes. */
  datatype Counter = Counter(count: nat, until: int)

  const TTL := 1800

  function Touch(counters: map<int, Counter>, t: int): map<int, Counter> {
    counters[Segment(t) % 6 := Counter(Live(counters, t) + 1, t + TTL)]
  }

  /** What HGET would return at time t for its segment. */
  function Live(counters: map<int, Counter>, t: int): nat {
    var i := Segment(t) % 6;
    if i in counters && t < counters[i].until then counters[i].count else 0
  }

  predicate Sorted(ts: seq<int>) {
    forall i, j :: 0 <= i <= j < |ts| ==> 0 <= ts[i] <= ts[j]
  }

  function After(ts: seq<int>): map<int, Counter> {
    if ts == [] then map[] else Touch(After(ts[..|ts| - 1]), ts[|ts| - 1])
  }

  /** How many of these fall in a segment. */
  function InSegment(ts: seq<int>, segment: int): nat {
    if ts == [] then 0
    else InSegment(ts[..|ts| - 1], segment) + if Segment(ts[|ts| - 1]) == segment then 1 else 0
  }

  lemma {:induction false} NoneLater(ts: seq<int>, segment: int)
    requires Sorted(ts) && (ts != [] ==> Segment(ts[|ts| - 1]) < segment)
    ensures InSegment(ts, segment) == 0
    decreases |ts|
  {
    if ts != [] {
      var front := ts[..|ts| - 1];
      if front != [] {
        assert front[|front| - 1] <= ts[|ts| - 1];
      }
      NoneLater(front, segment);
    }
  }

  /** A segment's counter counts that segment alone: it has expired before its position comes again. */
  lemma {:induction false} LiveCounts(ts: seq<int>, t: int)
    requires Sorted(ts + [t])
    ensures Live(After(ts), t) == InSegment(ts, Segment(t))
    decreases |ts|
  {
    if ts != [] {
      var n := |ts| - 1;
      var front, u := ts[..n], ts[n];
      var all := ts + [t];
      assert 0 <= all[n] <= all[n + 1];
      assert forall i :: 0 <= i <= n ==> all[i] == ts[i];
      assert Sorted(ts) by {
        assert forall i, j :: 0 <= i <= j <= n ==> 0 <= all[i] <= all[j];
      }
      assert Sorted(front + [t]) by {
        assert forall i :: 0 <= i < n ==> (front + [t])[i] == all[i];
        assert forall i, j :: 0 <= i <= j < n ==> 0 <= all[i] <= all[j];
        assert forall i :: 0 <= i < n ==> 0 <= all[i] <= all[n + 1];
      }
      assert front + [u] == ts;
      LiveCounts(front, u);
      LiveCounts(front, t);
      if Segment(u) != Segment(t) && Segment(u) % 6 == Segment(t) % 6 {
        Apart(u, t);
        NoneLater(ts, Segment(t));
      }
    }
  }

  lemma Apart(u: int, t: int)
    requires 0 <= u <= t && Segment(u) != Segment(t) && Segment(u) % 6 == Segment(t) % 6
    ensures Segment(u) < Segment(t) && t >= u + TTL
  {
    var a, b := Segment(u), Segment(t);
    assert a < b && b - a >= 6;
    assert u < (a + 1) * 600 && b * 600 <= t;
  }

  // ---- a day of deliveries ----

  /** An impression, with what the other counters show. */
  datatype Event = Event(t: Clock, clkDay: int, costDay: int)

  /** The impressions delivered today and the end of the pause. */
  datatype Day = Day(times: seq<int>, pausedUntil: int)

  function CountsAt(d: Day, e: Event): Counts {
    Counts(|d.times| + 1, e.clkDay, e.costDay, Live(After(d.times), e.t) + 1, 0)
  }

  function Deliver(c: Control, d: Day, e: Event): Day {
    match Decide(c, CountsAt(d, e), e.t)
    case GoOn => Day(d.times + [e.t], d.pausedUntil)
    case Pause(seconds, _, _) => Day(d.times + [e.t], e.t + seconds)
  }

  /** In order, and never while paused. */
  predicate Legal(c: Control, d: Day, es: seq<Event>)
    decreases |es|
  {
    es != [] ==>
      && d.pausedUntil <= es[0].t && (d.times != [] ==> d.times[|d.times| - 1] <= es[0].t)
      && Legal(c, Deliver(c, d, es[0]), es[1..])
  }

  function Delivered(c: Control, d: Day, es: seq<Event>): Day
    decreases |es|
  {
    if es == [] then d else Delivered(c, Deliver(c, d, es[0]), es[1..])
  }

  predicate ImpressionsOnly(c: Control) {
    c.dayimp > 0 && Target(c.dayclk) == -1
  }

  /** Within the target, and paused past midnight once it is reached. */
  predicate Capped(c: Control, d: Day) {
    |d.times| <= c.dayimp && (|d.times| == c.dayimp ==> d.pausedUntil >= 86400)
  }

  /** Over any run without deliveries during a pause the day's total never exceeds the target. */
  lemma {:induction false} NeverOver(c: Control, d: Day, es: seq<Event>)
    requires ImpressionsOnly(c) && Capped(c, d) && Legal(c, d, es)
    ensures |Delivered(c, d, es).times| <= c.dayimp
    decreases |es|
  {
    if es != [] {
      PauseEnds(es[0].t);
      hide SecTodayEnd, SecHourEnd, Sec10MinEnd, Slots, ExceptCeil, Second;
      assert 0 <= Second(es[0].t) by {
        SecondsPositive(es[0].t);
      }
      NeverOver(c, Deliver(c, d, es[0]), es[1..]);
    }
  }

  lemma SecondsPositive(t: Clock)
    ensures 0 <= Second(t) < 60
  {}

  function Before(ts: seq<int>, segment: int): nat {
    if ts == [] then 0 else Before(ts[..|ts| - 1], segment) + if Segment(ts[|ts| - 1]) < segment then 1 else 0
  }

  /** The usable segments from this one on, less two to spare. */
  function SlotsAt(c: Control, segment: int): (r: int)
    requires 0 <= segment < 144
    ensures r >= 1
  {
    var n := HoursFrom(c.allowed, segment / 6 + 1) * 6 + (6 - segment % 6);
    if n > 2 then n - 2 else 1
  }

  lemma SlotsOfSegment(c: Control, t: Clock)
    ensures 0 <= Segment(t) < 144 && Slots(c, t) == SlotsAt(c, Segment(t)) && Segment(t) / 6 == Hour(t)
  {
    PauseEnds(t);
  }

  /** How many impressions a segment may take, given how many came before it. */
  function Quota(c: Control, ts: seq<int>, segment: int): int
    requires 0 <= segment < 144
  {
    ExceptCeil(c.dayimp - Before(ts, segment), SlotsAt(c, segment) + 1)
  }

  predicate Paced(c: Control) {
    ImpressionsOnly(c) && Target(c.daybudget) == -1 && (c.uniform || c.autobid)
  }

  /** No more than its quota, and over once it has that. */
  predicate SegmentOk(c: Control, d: Day, g: int)
    requires 0 <= g < 144
  {
    var n := InSegment(d.times, g);
    n > 0 ==> n <= Quota(c, d.times, g) && (n == Quota(c, d.times, g) ==> d.pausedUntil >= (g + 1) * 600)
  }

  predicate WithinQuotas(c: Control, d: Day) {
    && Sorted(d.times) && (forall i :: 0 <= i < |d.times| ==> d.times[i] < 86400)
    && forall g :: 0 <= g < 144 && g / 6 in c.allowed ==> SegmentOk(c, d, g)
  }

  lemma OneMore(ts: seq<int>, t: int, g: int)
    ensures InSegment(ts + [t], g) == InSegment(ts, g) + if Segment(t) == g then 1 else 0
    ensures Before(ts + [t], g) == Before(ts, g) + if Segment(t) < g then 1 else 0
  {
    assert (ts + [t])[..|ts|] == ts;
  }

  lemma {:induction false} AllUpTo(ts: seq<int>, g: int)
    requires Sorted(ts) && (ts != [] ==> Segment(ts[|ts| - 1]) <= g)
    ensures Before(ts, g) + InSegment(ts, g) == |ts|
    decreases |ts|
  {
    if ts != [] {
      var front := ts[..|ts| - 1];
      if front != [] {
        assert front[|front| - 1] <= ts[|ts| - 1];
      }
      AllUpTo(front, g);
    }
  }

  lemma SortedAppend(ts: seq<int>, t: int)
    requires Sorted(ts) && 0 <= t && (ts != [] ==> ts[|ts| - 1] <= t)
    ensures Sorted(ts + [t])
  {}

  lemma SegmentMonotone(u: int, t: int)
    requires u <= t
    ensures Segment(u) <= Segment(t) && Segment(t) * 600 <= t < (Segment(t) + 1) * 600
  {}

  /** The arithmetic of a moment of the day. */
  lemma Moment(t: Clock)
    ensures 0 <= Segment(t) < 144 && Segment(t) * 600 <= t < (Segment(t) + 1) * 600 && Segment(t) / 6 == Hour(t)
    ensures t + SecTodayEnd(t) >= 86400 && t + Sec10MinEnd(t) == (Segment(t) + 1) * 600 && SecHourEnd(t) > 0
  {
    PauseEnds(t);
    SecondsPositive(t);
  }

  lemma DayStop(c: Control, k: Counts, t: Clock)
    requires ImpressionsOnly(c) && k.impDay >= c.dayimp
    ensures Decide(c, k, t) == Pause(SecTodayEnd(t), 21, false)
  {}

  lemma PausesForward(c: Control, k: Counts, t: Clock)
    ensures Decide(c, k, t).Pause? ==> Decide(c, k, t).seconds > 0
  {
    Moment(t);
    hide Segment, SecTodayEnd, Sec10MinEnd, SecHourEnd, Slots, ExceptCeil, Quotient;
  }

  /** Before the delivery: the segment has room, and so has the day. */
  lemma RoomHere(c: Control, d: Day, e: Event)
    requires Paced(c) && Capped(c, d) && WithinQuotas(c, d) && Legal(c, d, [e]) && Hour(e.t) in c.allowed
    ensures var g := Segment(e.t);
            && 0 <= g < 144 && InSegment(d.times, g) < Quota(c, d.times, g)
            && Before(d.times, g) + InSegment(d.times, g) == |d.times| < c.dayimp
            && Live(After(d.times), e.t) == InSegment(d.times, g)
  {
    hide Segment, Hour, SecTodayEnd, Sec10MinEnd, SecHourEnd, Slots, SlotsAt, ExceptCeil, Decide, After, Live;
    var g, ts := Segment(e.t), d.times;
    Moment(e.t);
    assert SegmentOk(c, d, g);
    if ts != [] {
      SegmentMonotone(ts[|ts| - 1], e.t);
    }
    AllUpTo(ts, g);
    SortedAppend(ts, e.t);
    LiveCounts(ts, e.t);
    CeilAtMost(c.dayimp - Before(ts, g), SlotsAt(c, g) + 1, 0);
  }

  /** The segment of the delivery itself. */
  lemma DeliverHere(c: Control, d: Day, e: Event)
    requires Paced(c) && Capped(c, d) && WithinQuotas(c, d) && Legal(c, d, [e]) && Hour(e.t) in c.allowed
    ensures var g := Segment(e.t);
            && 0 <= g < 144
            && InSegment(d.times + [e.t], g) <= Quota(c, d.times, g)
            && (InSegment(d.times + [e.t], g) == Quota(c, d.times, g) ==> Deliver(c, d, e).pausedUntil >= (g + 1) * 600)
  {
    hide Segment, Hour, SecTodayEnd, Sec10MinEnd, SecHourEnd, Slots, SlotsAt, ExceptCeil, Decide, After, Live,
      WithinQuotas, Legal, Capped, InSegment, Before;
    RoomHere(c, d, e);
    var g, k := Segment(e.t), InSegment(d.times, Segment(e.t)) + 1;
    Moment(e.t);
    SlotsOfSegment(c, e.t);
    OneMore(d.times, e.t, g);
    if |d.times| + 1 >= c.dayimp {
      DayStop(c, CountsAt(d, e), e.t);
    } else {
      SegmentQuota(c, e.t, Before(d.times, g), k, CountsAt(d, e));
    }
  }

  lemma SegmentKept(c: Control, d: Day, e: Event, g: int)
    requires Paced(c) && Capped(c, d) && WithinQuotas(c, d) && Legal(c, d, [e])
    requires 0 <= g < 144 && g / 6 in c.allowed
    ensures SegmentOk(c, Deliver(c, d, e), g)
  {
    hide Hour, SecTodayEnd, Sec10MinEnd, SecHourEnd, Slots, SlotsAt, Decide, ExceptCeil, Segment, Live, After,
      InSegment, Before, Sorted;
    Moment(e.t);
    OneMore(d.times, e.t, g);
    PausesForward(c, CountsAt(d, e), e.t);
    assert SegmentOk(c, d, g);
    if g == Segment(e.t) {
      DeliverHere(c, d, e);
    } else if g > Segment(e.t) {
      SortedAppend(d.times, e.t);
      NoneLater(d.times + [e.t], g);
    } else {
      assert (g + 1) * 600 <= Segment(e.t) * 600;
    }
  }

  lemma DeliverWithinQuotas(c: Control, d: Day, e: Event)
    requires Paced(c) && Capped(c, d) && WithinQuotas(c, d) && Legal(c, d, [e])
    ensures WithinQuotas(c, Deliver(c, d, e))
  {
    SortedAppend(d.times, e.t);
    forall g | 0 <= g < 144 && g / 6 in c.allowed ensures SegmentOk(c, Deliver(c, d, e), g) {
      SegmentKept(c, d, e, g);
    }
    hide SegmentOk, Decide, Legal, Sorted;
  }

  lemma DeliverCapped(c: Control, d: Day, e: Event)
    requires ImpressionsOnly(c) && Capped(c, d) && Legal(c, d, [e])
    ensures Capped(c, Deliver(c, d, e))
  {
    hide Decide, SecTodayEnd;
    Moment(e.t);
    if |d.times| + 1 >= c.dayimp {
      DayStop(c, CountsAt(d, e), e.t);
    }
  }

  /** Over any run without deliveries during a pause, every permitted segment takes at most what is left
      at its start, divided by one more than its slots, rounded up. */
  lemma {:induction false} SegmentsWithinQuota(c: Control, d: Day, es: seq<Event>)
    requires Paced(c) && Capped(c, d) && WithinQuotas(c, d) && Legal(c, d, es)
    ensures WithinQuotas(c, Delivered(c, d, es)) && Capped(c, Delivered(c, d, es))
    decreases |es|
  {
    if es != [] {
      hide WithinQuotas, Capped, Deliver, Paced;
      OneEvent(c, d, es);
      DeliverWithinQuotas(c, d, es[0]);
      DeliverOneCapped(c, d, es[0]);
      SegmentsWithinQuota(c, Deliver(c, d, es[0]), es[1..]);
    }
  }

  lemma OneEvent(c: Control, d: Day, es: seq<Event>)
    requires es != [] && Legal(c, d, es)
    ensures Legal(c, d, [es[0]])
  {
    assert Legal(c, Deliver(c, d, es[0]), [es[0]][1..]);
  }

  lemma DeliverOneCapped(c: Control, d: Day, e: Event)
    requires Paced(c) && Capped(c, d) && Legal(c, d, [e])
    ensures Capped(c, Deliver(c, d, e))
  {
    DeliverCapped(c, d, e);
  }

  // ---- how much of a target unlimited traffic delivers ----

  /** What is left of it after this many last segments of the day, each filled to its quota. */
  function Undelivered(left: nat, segments: nat): nat
    decreases segments
  {
    if segments == 0 then left
    else
      var slots := if segments > 2 then segments - 2 else 1;
      var quota := ExceptCeil(left, slots + 1);
      Undelivered(if quota <= left then left - quota else 0, segments - 1)
  }

  lemma QuotaLeaves(left: nat, slots: nat)
    requires slots >= 1
    ensures var quota := ExceptCeil(left, slots + 1);
            0 <= quota <= left && (left - quota) * (slots + 1) <= left * slots
  {
    var quota := ExceptCeil(left, slots + 1);
    CeilAtMost(left, slots + 1, left);
    CeilAtMost(left, slots + 1, -1);
    assert left <= left * (slots + 1) by {
      TimesMonotone(1, slots + 1, left);
    }
    assert left <= quota * (slots + 1);
    assert (left - quota) * (slots + 1) == left * slots + left - quota * (slots + 1);
  }

  lemma HalfLeft(left: nat)
    ensures left - ExceptCeil(left, 2) == left / 2
  {}

  /** The last segments do not run at full speed: each of them stops half way, so of three or fewer
      segments the target is met exactly when less than 2, 4 or 8 was left. */
  lemma LastSegments(left: nat)
    ensures Undelivered(left, 1) == left / 2 && Undelivered(left, 2) == left / 4 && Undelivered(left, 3) == left / 8
    ensures Undelivered(left, 1) == 0 <==> left < 2
    ensures Undelivered(left, 2) == 0 <==> left < 4
    ensures Undelivered(left, 3) == 0 <==> left < 8
  {
    HalfLeft(left);
    HalfLeft(left / 2);
    HalfLeft(left / 2 / 2);
    hide ExceptCeil;
    assert Undelivered(left / 2 / 2, 1) == left / 2 / 2 / 2;
    assert Undelivered(left / 2, 2) == Undelivered(left / 2 / 2, 1);
    assert Undelivered(left, 3) == Undelivered(left / 2, 2);
  }

  /** With n >= 3 segments to go at most one part in 4 (n - 1) is never delivered. */
  lemma {:induction false} MostIsDelivered(left: nat, segments: nat)
    requires segments >= 3
    ensures Undelivered(left, segments) * (4 * (segments - 1)) <= left
    decreases segments
  {
    hide ExceptCeil;
    if segments == 3 {
      LastSegments(left);
    } else {
      var slots := segments - 2;
      var quota := ExceptCeil(left, slots + 1);
      QuotaLeaves(left, slots);
      MostIsDelivered(left - quota, segments - 1);
      Telescope(left, left - quota, slots, Undelivered(left - quota, segments - 1));
    }
  }

  lemma Telescope(left: nat, rest: nat, slots: nat, last: nat)
    requires slots >= 1 && rest * (slots + 1) <= left * slots && last * (4 * slots) <= rest
    ensures last * (4 * (slots + 1)) <= left
  {
    TimesMonotone(last * (4 * slots), rest, slots + 1);
    assert last * (4 * slots) * (slots + 1) == last * (4 * (slots + 1)) * slots;
    Cancel(last * (4 * (slots + 1)), left, slots);
  }

  lemma Cancel(a: int, b: int, y: int)
    requires y > 0 && a * y <= b * y
    ensures a <= b
  {
    if a > b {
      TimesMonotone(b + 1, a, y);
    }
  }
}
