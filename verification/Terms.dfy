/** The terms of a pass, and the validator that refuses a contradiction at creation. */
module Terms {
  import opened Basics
  import opened Text

  datatype Direction = Entry | Exit
  datatype Period = Life | PerWindow

  /** ISO weekdays (1 = Monday .. 7 = Sunday) and minutes of the local day, half-open. */
  datatype Window = Window(days: set<int>, start: int, end: int)
  datatype Allowance = Allowance(count: int, per: Period)
  datatype GarageLanes = GarageLanes(garage: GarageId, lanes: set<string>)
  datatype Terms = Terms(validFrom: Option<Day>, validTo: Option<Day>, windows: seq<Window>, maxStay: Option<int>,
                         allowance: Option<Allowance>, directions: set<Direction>, lanes: Option<seq<GarageLanes>>)

  const END_OF_DAY := 1440

  function Weekday(day: Day): int {
    (day - 1) % 7 + 1
  }

  /** Day 1 is a Monday, and each day is followed by the next of the week. */
  lemma WeekdaysFollow(d: Day)
    ensures Weekday(1) == 1
    ensures Weekday(d + 1) == if Weekday(d) == 7 then 1 else Weekday(d) + 1
  {
  }

  /** None: every lane. A garage with no entry of its own: no lane at all. */
  function LanesAt(lanes: Option<seq<GarageLanes>>, g: GarageId): Option<set<string>> {
    if lanes.None? then None else Some(LanesIn(lanes.value, g))
  }

  function LanesIn(entries: seq<GarageLanes>, g: GarageId): set<string> {
    if entries == [] then {}
    else if entries[0].garage == g then entries[0].lanes
    else LanesIn(entries[1..], g)
  }

  // ------------------------------------------------------------- days that occur

  ghost predicate Occurs(from: Day, to: Day, weekday: int) {
    exists d :: from <= d <= to && Weekday(d) == weekday
  }

  /** Exactly the weekdays inside the range, although a week or more is not walked. */
  method DaysThatOccur(from: Day, to: Day) returns (out: set<int>)
    ensures forall w :: w in out <==> Occurs(from, to, w)
  {
    if to - from >= 6 {
      AWeekHasEveryDay(from, to);
      return {1, 2, 3, 4, 5, 6, 7};
    }
    out := {};
    var day := from;
    while day <= to
      invariant from <= day
      invariant day <= to + 1 || day == from
      invariant forall w :: w in out <==> Occurs(from, day - 1, w)
    {
      forall w ensures w in out + {Weekday(day)} <==> Occurs(from, day, w) {
        if Occurs(from, day, w) {
          var d :| from <= d <= day && Weekday(d) == w;
          assert d < day ==> Occurs(from, day - 1, w);
        }
        if Occurs(from, day - 1, w) {
          var d :| from <= d <= day - 1 && Weekday(d) == w;
        }
      }
      out := out + {Weekday(day)};
      day := day + 1;
    }
  }

  lemma AWeekHasEveryDay(from: Day, to: Day)
    requires to - from >= 6
    ensures forall w :: 1 <= w <= 7 <==> Occurs(from, to, w)
  {
    forall w | 1 <= w <= 7 ensures Occurs(from, to, w) {
      var d := from + (w - Weekday(from)) % 7;
      assert Weekday(d) == w;
    }
  }

  // ------------------------------------------------------------------ check_terms

  datatype TermsRefusal =
    | ValidToBeforeValidFrom | WindowHasNoDays | WindowDayUnknown | WindowMinuteOutOfRange
    | WindowEndsBeforeItStarts | WindowNeverOccurs | MaxStayNotPositive | AllowanceNotPositive
    | AllowancePerWindowWithoutWindows | NoDirections | LanesStatedButEmpty | LanesGarageRepeated
    | LaneNameBlank

  ghost predicate WindowOk(w: Window, from: Option<Day>, to: Option<Day>) {
    && w.days != {} && (forall d :: d in w.days ==> 1 <= d <= 7)
    && 0 <= w.start < w.end <= 24 * 60
    && (from.Some? && to.Some? ==> exists d :: d in w.days && Occurs(from.value, to.value, d))
  }

  ghost predicate LanesOk(entries: seq<GarageLanes>) {
    && entries != []
    && (forall i, j :: 0 <= i < j < |entries| ==> entries[i].garage != entries[j].garage)
    && (forall i :: 0 <= i < |entries| ==>
          entries[i].lanes != {} && forall lane :: lane in entries[i].lanes ==> !Blank(lane))
  }

  /** What a `Terms` value that could be constructed satisfies. */
  ghost predicate TermsOk(t: Terms) {
    && (t.validFrom.Some? && t.validTo.Some? ==> t.validFrom.value <= t.validTo.value)
    && (forall i :: 0 <= i < |t.windows| ==> WindowOk(t.windows[i], t.validFrom, t.validTo))
    && (t.maxStay.Some? ==> t.maxStay.value > 0)
    && (t.allowance.Some? ==>
          && t.allowance.value.count > 0 && (t.allowance.value.per == PerWindow ==> t.windows != []))
    && t.directions != {}
    && (t.lanes.Some? ==> LanesOk(t.lanes.value))
  }

  ghost predicate NamesDays(w: Window) {
    w.days != {} && forall d :: d in w.days ==> 1 <= d <= 7
  }

  /** What is wrong with a window, the first of it. */
  ghost predicate WindowFault(w: Window, from: Option<Day>, to: Option<Day>, why: TermsRefusal) {
    match why
    case WindowHasNoDays => w.days == {}
    case WindowDayUnknown => w.days != {} && !NamesDays(w)
    case WindowMinuteOutOfRange => NamesDays(w) && (w.start < 0 || 24 * 60 < w.start || w.end < 0 || 24 * 60 < w.end)
    case WindowEndsBeforeItStarts => NamesDays(w) && 0 <= w.end <= w.start <= 24 * 60
    case WindowNeverOccurs =>
      && WindowOk(w, None, None) && from.Some? && to.Some?
      && forall d :: d in w.days ==> !Occurs(from.value, to.value, d)
    case _ => false
  }

  method CheckWindow(w: Window, from: Option<Day>, to: Option<Day>) returns (no: Option<TermsRefusal>)
    ensures no.None? <==> WindowOk(w, from, to)
    ensures no.Some? ==> WindowFault(w, from, to, no.value)
  {
    if w.days == {} { return Some(WindowHasNoDays); }
    if exists d :: d in w.days && !(1 <= d <= 7) { return Some(WindowDayUnknown); }
    if !(0 <= w.start <= END_OF_DAY) || !(0 <= w.end <= END_OF_DAY) { return Some(WindowMinuteOutOfRange); }
    if w.end <= w.start { return Some(WindowEndsBeforeItStarts); }
    if from.Some? && to.Some? {
      var occurring := DaysThatOccur(from.value, to.value);
      if w.days * occurring == {} {
        assert forall d :: d in w.days ==> d !in w.days * occurring;
        return Some(WindowNeverOccurs);
      }
      var d :| d in w.days * occurring;
    }
    no := None;
  }

  /** What is wrong with the lanes, at an entry or between two. */
  ghost predicate LanesFault(entries: seq<GarageLanes>, why: TermsRefusal) {
    match why
    case LanesStatedButEmpty => entries == [] || exists k :: 0 <= k < |entries| && entries[k].lanes == {}
    case LanesGarageRepeated => exists i, j :: 0 <= i < j < |entries| && entries[i].garage == entries[j].garage
    case LaneNameBlank => exists k, lane :: 0 <= k < |entries| && lane in entries[k].lanes && Blank(lane)
    case _ => false
  }

  method CheckLanes(entries: seq<GarageLanes>) returns (no: Option<TermsRefusal>)
    ensures no.None? <==> LanesOk(entries)
    ensures no.Some? ==> LanesFault(entries, no.value)
  {
    if entries == [] { return Some(LanesStatedButEmpty); }
    var seen: set<GarageId> := {};
    for k := 0 to |entries|
      invariant forall g :: g in seen <==> exists i :: 0 <= i < k && entries[i].garage == g
      invariant forall i, j :: 0 <= i < j < k ==> entries[i].garage != entries[j].garage
      invariant forall i :: 0 <= i < k ==>
                  entries[i].lanes != {} && forall lane :: lane in entries[i].lanes ==> !Blank(lane)
    {
      var entry := entries[k];
      if entry.garage in seen { return Some(LanesGarageRepeated); }
      seen := seen + {entry.garage};
      if entry.lanes == {} { return Some(LanesStatedButEmpty); }
      if exists lane :: lane in entry.lanes && Blank(lane) { return Some(LaneNameBlank); }
    }
    no := None;
  }

  /** What is wrong with the terms, the first of it: validity, windows, stay, allowance,
      directions, lanes. */
  ghost predicate TermsFault(t: Terms, why: TermsRefusal) {
    var valid := t.validFrom.Some? && t.validTo.Some? ==> t.validFrom.value <= t.validTo.value;
    var open := valid && forall i :: 0 <= i < |t.windows| ==> WindowOk(t.windows[i], t.validFrom, t.validTo);
    var stays := open && (t.maxStay.Some? ==> 0 < t.maxStay.value);
    var counts := stays && (t.allowance.Some? ==> 0 < t.allowance.value.count);
    match why
    case ValidToBeforeValidFrom => !valid
    case MaxStayNotPositive => open && t.maxStay.Some? && t.maxStay.value <= 0
    case AllowanceNotPositive => stays && t.allowance.Some? && t.allowance.value.count <= 0
    case AllowancePerWindowWithoutWindows => counts && t.allowance.Some? && t.allowance.value.per == PerWindow && t.windows == []
    case NoDirections => counts && t.directions == {}
    case LanesStatedButEmpty => counts && t.directions != {} && t.lanes.Some? && LanesFault(t.lanes.value, why)
    case LanesGarageRepeated => counts && t.directions != {} && t.lanes.Some? && LanesFault(t.lanes.value, why)
    case LaneNameBlank => counts && t.directions != {} && t.lanes.Some? && LanesFault(t.lanes.value, why)
    case _ => valid && exists k :: FirstWindowFault(t, k, why)
  }

  ghost predicate FirstWindowFault(t: Terms, k: int, why: TermsRefusal) {
    && 0 <= k < |t.windows| && WindowFault(t.windows[k], t.validFrom, t.validTo, why)
    && forall i :: 0 <= i < k ==> WindowOk(t.windows[i], t.validFrom, t.validTo)
  }

  /** Terms are refused exactly when they contradict themselves, for the first way they do. */
  method CheckTerms(t: Terms) returns (no: Option<TermsRefusal>)
    ensures no.None? <==> TermsOk(t)
    ensures no.Some? ==> TermsFault(t, no.value)
  {
    if t.validFrom.Some? && t.validTo.Some? && t.validTo.value < t.validFrom.value {
      return Some(ValidToBeforeValidFrom);
    }
    for k := 0 to |t.windows|
      invariant forall i :: 0 <= i < k ==> WindowOk(t.windows[i], t.validFrom, t.validTo)
    {
      var window := CheckWindow(t.windows[k], t.validFrom, t.validTo);
      if window.Some? {
        assert FirstWindowFault(t, k, window.value);
        return window;
      }
    }
    if t.maxStay.Some? && t.maxStay.value <= 0 { return Some(MaxStayNotPositive); }
    if t.allowance.Some? {
      if t.allowance.value.count <= 0 { return Some(AllowanceNotPositive); }
      if t.allowance.value.per == PerWindow && t.windows == [] { return Some(AllowancePerWindowWithoutWindows); }
    }
    if t.directions == {} { return Some(NoDirections); }
    if t.lanes.Some? {
      no := CheckLanes(t.lanes.value);
      return;
    }
    no := None;
  }
}
