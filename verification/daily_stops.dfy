/** What a policy's decisions mean over a whole day: when it is over, when it is not, and where a pause ends. */
module DailyStops {
  import opened Pacing

  // ---- the targets, from the settings alone ----

  /** 0 and -1 stand for no limit. */
  predicate Limits(n: int) {
    n != 0 && n != -1
  }

  predicate Limited(c: Control) {
    Limits(c.dayimp) || Limits(c.dayclk)
  }

  /** Every target there is has been met. */
  predicate Met(c: Control, k: Counts) {
    (Limits(c.dayimp) ==> k.impDay >= c.dayimp) && (Limits(c.dayclk) ==> k.clkDay >= c.dayclk)
  }

  /** Costs are in thousandths of the hundredth the budget counts. */
  predicate Spent(c: Control, k: Counts) {
    Limits(c.daybudget) && k.costDay / 1000 >= 100 * c.daybudget
  }

  /** The ten-minute segments that may still be used, the present one included. */
  function Usable(c: Control, t: Clock): set<int> {
    set g | Segment(t) <= g < 144 && (g / 6 == Hour(t) || g / 6 in c.allowed)
  }

  /** Two segments are spared, but one remains. */
  function Share(c: Control, t: Clock): int {
    if |Usable(c, t)| > 2 then |Usable(c, t)| - 2 else 1
  }

  /** This many segments with as many as the present one would be enough. */
  predicate SegmentMet(c: Control, k: Counts, t: Clock) {
    && (Limits(c.dayimp) ==> c.dayimp - k.impDay <= k.imp10m * Share(c, t))
    && (Limits(c.dayclk) ==> c.dayclk - k.clkDay <= k.clk10m * Share(c, t))
  }

  lemma {:induction false} HoursCounted(allowed: set<int>, h: int)
    ensures HoursFrom(allowed, h) == |set g | h <= g < 24 && g in allowed|
    decreases 24 - h
  {
    var hours := set g | h <= g < 24 && g in allowed;
    if h >= 24 {
      assert hours == {};
    } else {
      HoursCounted(allowed, h + 1);
      var later := set g | h + 1 <= g < 24 && g in allowed;
      assert hours == if h in allowed then later + {h} else later;
    }
  }

  /** The segments of the permitted hours from h on. */
  function SegmentsFrom(allowed: set<int>, h: int): set<int> {
    set g | h * 6 <= g < 144 && g / 6 in allowed
  }

  lemma {:induction false} SixPerHour(allowed: set<int>, h: int)
    requires 0 <= h <= 24
    ensures |SegmentsFrom(allowed, h)| == 6 * HoursFrom(allowed, h)
    decreases 24 - h
  {
    if h == 24 {
      assert SegmentsFrom(allowed, h) == {};
    } else {
      SixPerHour(allowed, h + 1);
      var now, later := if h in allowed then Range(6 * h, 6 * h + 6) else {}, SegmentsFrom(allowed, h + 1);
      forall g ensures g in SegmentsFrom(allowed, h) <==> g in now || g in later {
        HourOf(g, h);
      }
      assert SegmentsFrom(allowed, h) == now + later;
      assert now !! later;
    }
  }

  lemma HourOf(g: int, h: int)
    ensures g / 6 == h <==> 6 * h <= g < 6 * h + 6
  {}

  function Range(a: int, b: int): (r: set<int>)
    ensures forall g :: g in r <==> a <= g < b
    ensures |r| == if a <= b then b - a else 0
    decreases b - a
  {
    if a >= b then {} else Range(a, b - 1) + {b - 1}
  }

  /** The slots that are computed are the usable segments, counted. */
  lemma SlotsAreShare(c: Control, t: Clock)
    ensures Slots(c, t) == Share(c, t)
  {
    Moment(t);
    PauseEnds(t);
    var h, s := Hour(t), Segment(t);
    var now, later := Range(s, 6 * (h + 1)), SegmentsFrom(c.allowed, h + 1);
    forall g ensures g in Usable(c, t) <==> g in now || g in later {
      HourOf(g, h);
    }
    assert Usable(c, t) == now + later && now !! later;
    SixPerHour(c.allowed, h + 1);
    assert |Usable(c, t)| == 6 * (h + 1) - s + 6 * HoursFrom(c.allowed, h + 1);
    assert 6 * (h + 1) - s == 6 - Minute(t) / 10;
  }

  /** The whole decision, from targets, spending and usable segments. */
  lemma DecisionTable(c: Control, k: Counts, t: Clock)
    requires k.costDay >= 0
    ensures Decide(c, k, t) ==
            if !Limited(c) then GoOn
            else if Met(c, k) then Pause(86400 + Second(t) - t, 21, false)
            else if Spent(c, k) then Pause(86400 + Second(t) - t, 22, false)
            else if Hour(t) !in c.allowed then Pause((Hour(t) + 1) * 3600 - t, 24, false)
            else if (c.uniform || c.autobid) && SegmentMet(c, k, t) then Pause((Segment(t) + 1) * 600 - t, 23, c.autobid)
            else GoOn
  {
    PauseEnds(t);
    SlotsAreShare(c, t);
    CeilAtMost(c.dayimp - k.impDay, Slots(c, t), k.imp10m);
    CeilAtMost(c.dayclk - k.clkDay, Slots(c, t), k.clk10m);
    hide ExceptCeil, Slots, Share, SecTodayEnd, SecHourEnd, Sec10MinEnd, Hour, Minute, Second, Segment;
  }

  /** Over all hours the last segments have the slots that LastSegments and MostIsDelivered count with. */
  lemma LastSlots(c: Control, segments: int)
    requires 1 <= segments <= 144 && forall h :: (144 - segments) / 6 < h < 24 ==> h in c.allowed
    ensures SlotsAt(c, 144 - segments) == if segments > 2 then segments - 2 else 1
  {
    var g := 144 - segments;
    AllHours(c.allowed, g / 6 + 1);
    assert g == 6 * (g / 6) + g % 6;
    hide HoursFrom;
  }

  lemma AllHours(allowed: set<int>, h: int)
    requires 0 <= h <= 24 && forall g :: h <= g < 24 ==> g in allowed
    ensures HoursFrom(allowed, h) == 24 - h
  {
    hide HoursFrom;
    HoursCounted(allowed, h);
    assert (set g | h <= g < 24 && g in allowed) == Range(h, 24);
  }

  // ---- over a day ----

  /** An impression or click that was counted, and the counters after it. */
  datatype Counted = Counted(t: Clock, impression: bool, k: Counts)

  /** When the pause set last ends. */
  function PausedUntil(c: Control, run: seq<Counted>): int {
    if run == [] then 0
    else
      var last := run[|run| - 1];
      match Decide(c, last.k, last.t)
      case GoOn => PausedUntil(c, run[..|run| - 1])
      case Pause(seconds, _, _) => last.t + seconds
  }

  /** In order, with counters that grow, and no impression during a pause; clicks may come late. */
  predicate Legal(c: Control, run: seq<Counted>) {
    && (forall i, j :: 0 <= i <= j < |run| ==> InOrder(run[i], run[j]))
    && forall i :: 0 <= i < |run| && run[i].impression ==> PausedUntil(c, run[..i]) <= run[i].t
  }

  predicate InOrder(a: Counted, b: Counted) {
    && a.t <= b.t && a.k.impDay <= b.k.impDay && a.k.clkDay <= b.k.clkDay && 0 <= a.k.costDay <= b.k.costDay
  }

  /** Once every decision pauses at least that long, the pause lasts that long. */
  lemma {:induction false} Lasts(c: Control, run: seq<Counted>, i: nat, until: int)
    requires i < |run|
    requires forall l :: i <= l < |run| ==> PausesTo(c, run[l], until)
    ensures PausedUntil(c, run) >= until
    decreases |run|
  {
    var last := run[|run| - 1];
    assert PausesTo(c, last, until);
  }

  predicate PausesTo(c: Control, e: Counted, until: int) {
    Decide(c, e.k, e.t).Pause? && e.t + Decide(c, e.k, e.t).seconds >= until
  }

  /** Nothing is delivered for the rest of the day once all its targets are met or its budget is spent. */
  lemma DayIsOver(c: Control, run: seq<Counted>, i: nat, j: nat)
    requires Legal(c, run) && i < j < |run| && run[j].impression && Limited(c)
    ensures !Met(c, run[i].k) && !Spent(c, run[i].k)
  {
    if Met(c, run[i].k) || Spent(c, run[i].k) {
      var before := run[..j];
      forall l | i <= l < j ensures PausesTo(c, before[l], 86400) {
        assert InOrder(run[i], run[l]) && InOrder(run[l], run[l]);
        StaysOver(c, run[i].k, run[l].k);
        DecisionTable(c, run[l].k, run[l].t);
        SecondsPositive(run[l].t);
      }
      Lasts(c, before, i, 86400);
      assert false;
    }
  }

  lemma StaysOver(c: Control, a: Counts, b: Counts)
    requires a.impDay <= b.impDay && a.clkDay <= b.clkDay && 0 <= a.costDay <= b.costDay
    ensures Met(c, a) ==> Met(c, b)
    ensures Spent(c, a) ==> Spent(c, b)
  {
    assert a.costDay / 1000 <= b.costDay / 1000;
  }

  /** In an hour that is not permitted nothing is delivered after the first notice. */
  lemma ForbiddenHour(c: Control, run: seq<Counted>, i: nat, j: nat)
    requires Legal(c, run) && i < j < |run| && run[j].impression && Limited(c) && Hour(run[i].t) == Hour(run[j].t)
    ensures Hour(run[j].t) in c.allowed
  {
    var h := Hour(run[j].t);
    if h !in c.allowed {
      var before := run[..j];
      forall l | i <= l < j ensures PausesTo(c, before[l], (h + 1) * 3600) {
        assert InOrder(run[i], run[l]) && InOrder(run[l], run[j]) && InOrder(run[l], run[l]);
        SameHour(run[i].t, run[l].t, run[j].t);
        DecisionTable(c, run[l].k, run[l].t);
        SecondsPositive(run[l].t);
        HourEnds(run[l].t);
      }
      Lasts(c, before, i, (h + 1) * 3600);
      HourEnds(run[j].t);
      assert false;
    }
  }

  lemma SameHour(a: Clock, t: Clock, b: Clock)
    requires a <= t <= b && Hour(a) == Hour(b)
    ensures Hour(t) == Hour(a)
  {}

  lemma HourEnds(t: Clock)
    ensures t < (Hour(t) + 1) * 3600 <= 86400
  {}

  /** Before that, no pause goes beyond the hour in which it is set. */
  lemma {:induction false} NoEarlyStop(c: Control, run: seq<Counted>)
    requires run != [] && forall i, j :: 0 <= i <= j < |run| ==> InOrder(run[i], run[j])
    requires forall i :: 0 <= i < |run| ==> !Limited(c) || (!Met(c, run[i].k) && !Spent(c, run[i].k))
    ensures PausedUntil(c, run) <= (Hour(run[|run| - 1].t) + 1) * 3600
    decreases |run|
  {
    var n := |run| - 1;
    var last := run[n];
    assert InOrder(last, last);
    DecisionTable(c, last.k, last.t);
    WithinHour(last.t);
    if Decide(c, last.k, last.t).GoOn? && n > 0 {
      NoEarlyStop(c, run[..n]);
      assert InOrder(run[n - 1], last);
      HoursGrow(run[n - 1].t, last.t);
    }
    hide Hour;
  }

  lemma WithinHour(t: Clock)
    ensures 0 <= (Segment(t) + 1) * 600 <= (Hour(t) + 1) * 3600
  {
    Moment(t);
  }

  lemma HoursGrow(a: Clock, b: Clock)
    requires a <= b
    ensures (Hour(a) + 1) * 3600 <= (Hour(b) + 1) * 3600
  {}

  /** Without a target for impressions or clicks nothing ever stops the policy, whatever its budget and hours. */
  lemma {:induction false} NeverStopped(c: Control, run: seq<Counted>)
    requires !Limited(c)
    ensures PausedUntil(c, run) == 0
    decreases |run|
  {
    if run != [] {
      NeverStopped(c, run[..|run| - 1]);
    }
  }
}
