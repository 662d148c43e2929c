/** What the attendance figures have to do with each other, with the main-gate report and
    with the decisions the swipes came from. */
module AttendanceFacts {
  import opened Text
  import opened Sums
  import opened Attendance
  import opened AttendanceFolds
  import opened AttendanceCounts
  import opened AttendanceSummary
  import AntiPassback

  // ----- conservation -----

  function RowsOf(m: Summary): string -> int {
    (k: string) => if k in m.departments then m.departments[k].totalRows else 0
  }
  function NormalOf(m: Summary): string -> int {
    (k: string) => if k in m.departments then m.departments[k].normalRows else 0
  }
  function TimesOf(m: Summary): string -> int {
    (k: string) => if k in m.departments then m.departments[k].time else 0
  }
  function DaysOf(m: Summary): string -> int {
    (k: string) => if k in m.departments then m.departments[k].workDays else 0
  }

  lemma DepartmentsConserve(s: seq<Detail>, g: Detail -> int, f: string -> int)
    requires forall k :: k in Departments(s) ==> f(k) == Part(s, DepartmentOf, k, g)
    ensures SumSet(SummaryOf(s).departments.Keys, f) == Sum(s, g)
  {
    hide Part;
    assert SummaryOf(s).departments.Keys == Departments(s);
    Partition(s, Departments(s), DepartmentOf, g);
    SumSetSame(Departments(s), f, (k: string) => Part(s, DepartmentOf, k, g));
  }

  /** Every employee-day is normal or an anomaly, and the department figures add up to
      the global ones. */
  lemma FiguresConserve(s: seq<Detail>)
    ensures var m := SummaryOf(s);
      && m.normalRows + m.anomalyDays == m.totalRows == |s|
      && SumSet(m.departments.Keys, RowsOf(m)) == m.totalRows
      && SumSet(m.departments.Keys, NormalOf(m)) == m.normalRows
      && SumSet(m.departments.Keys, TimesOf(m)) == m.stayTime
      && SumSet(m.departments.Keys, DaysOf(m)) == m.stayCount
  {
    var m := SummaryOf(s);
    SumOnes(s, Row1);
    SumAdds(s, Normal1, Anomaly1, Row1);
    DepartmentsConserve(s, Row1, RowsOf(m));
    DepartmentsConserve(s, Normal1, NormalOf(m));
    DepartmentsConserve(s, StayTime, TimesOf(m));
    DepartmentsConserve(s, Stayed1, DaysOf(m));
  }

  function HeadCountOn(m: Summary): Day -> int { (day: Day) => if day in m.trend then |m.trend[day]| else 0 }

  lemma {:induction false} DayHeadCount(s: seq<Detail>, day: Day)
    requires forall i, j :: 0 <= i < j < |s| ==> s[i].key != s[j].key
    ensures Part(s, DayOf, day, Attended1) == |AttendeesOn(s, day)|
  {
    if s == [] {
      assert AttendeesOn(s, day) == {};
    } else {
      var front, d := s[..|s| - 1], s[|s| - 1];
      assert s == front + [d];
      DayHeadCount(front, day);
      DayNext(front, d, day);
      PartNext(front, d, DayOf, day, Attended1);
      hide Part;
      forall e | e in front && e.key.day == day && d.key.day == day ensures e.key.employee != d.key.employee {
        assert e.key != d.key;
      }
    }
  }

  lemma {:induction false} NoAttendance(s: seq<Detail>, day: Day)
    requires day !in AttendedDays(s)
    ensures Part(s, DayOf, day, Attended1) == 0
  {
    if s != [] {
      var front, d := s[..|s| - 1], s[|s| - 1];
      assert s == front + [d];
      NoAttendance(front, day);
      PartNext(front, d, DayOf, day, Attended1);
    }
  }

  /** The daily head counts of the trend add up to the attended employee-days, and the
      people of the period are exactly those of its days. */
  lemma TrendConserves(s: seq<Detail>)
    requires forall i, j :: 0 <= i < j < |s| ==> s[i].key != s[j].key
    ensures var m := SummaryOf(s);
      && SumSet(m.trend.Keys, HeadCountOn(m)) == m.attendedRows
      && (forall e :: e in m.attendees <==> exists day :: day in m.trend && e in m.trend[day])
  {
    var m := SummaryOf(s);
    var days := set d | d in s :: d.key.day;
    var parts := (day: Day) => Part(s, DayOf, day, Attended1);
    assert m.trend.Keys == AttendedDays(s);
    forall day | day in days ensures parts(day) == HeadCountOn(m)(day) {
      if day in AttendedDays(s) { DayHeadCount(s, day); } else { NoAttendance(s, day); }
    }
    Partition(s, days, DayOf, Attended1);
    SumSetSame(days, parts, HeadCountOn(m));
    SumSetKeep(days, m.trend.Keys, HeadCountOn(m));
    forall e | e in m.attendees ensures exists day :: day in m.trend && e in m.trend[day] {
      var d :| d in s && Attended(d) && d.key.employee == e;
      assert d.key.day in m.trend && e in AttendeesOn(s, d.key.day);
    }
  }

  lemma {:induction false} SumSetKeep<K>(keys: set<K>, kept: set<K>, f: K -> int)
    requires kept <= keys && forall k :: k in keys - kept ==> f(k) == 0
    ensures SumSet(keys, f) == SumSet(kept, f)
    decreases keys
  {
    if kept == {} {
      SumSetZero(keys, f);
    } else {
      var k :| k in kept;
      SumSetTake(keys, k, f);
      SumSetTake(kept, k, f);
      SumSetKeep(keys - {k}, kept - {k}, f);
    }
  }

  // ----- the main gate -----

  /** The rows the work-hour report reads: granted, at a gate that matches. */
  function AtGate(rows: seq<Row>, main: string -> bool): seq<Row> {
    if rows == [] then []
    else
      var r := rows[|rows| - 1];
      AtGate(rows[..|rows| - 1], main) + if r.decision == "GRANTED" && main(r.gate) then [r] else []
  }

  datatype Span = Span(firstIn: Option<int>, lastOut: Option<int>)

  function Look(daily: map<Key, Span>, k: Key): Span { if k in daily then daily[k] else Span(None, None) }

  ghost predicate Spans(rows: seq<Row>, daily: map<Key, Span>) {
    forall k {:trigger Look(daily, k)} :: Earliest(rows, k, Look(daily, k).firstIn)
        && Latest(rows, k, Look(daily, k).lastOut)
  }

  /** `_get_work_hour_summary_in_python` up to its list of completed days. */
  method CompletedDays(rows: seq<Row>, main: string -> bool) returns (hours: map<Key, int>)
    ensures forall k :: k in hours <==>
      exists t, u :: Earliest(AtGate(rows, main), k, Some(t)) && Latest(AtGate(rows, main), k, Some(u)) && t < u
    ensures forall k, t, u ::
      k in hours && Earliest(AtGate(rows, main), k, Some(t)) && Latest(AtGate(rows, main), k, Some(u)) ==>
        hours[k] == u - t
  {
    hide Earliest, Latest, Spans, HoursOf;
    var daily: map<Key, Span> := map[];
    NoSpans();
    for i := 0 to |rows|
      invariant Spans(AtGate(rows[..i], main), daily)
    {
      var row := rows[i];
      GateNext(rows, i, main);
      if row.decision != "GRANTED" || !main(row.gate) { continue; }
      var key := KeyOf(row);
      ghost var before := daily;
      var day := Look(daily, key);
      if row.direction == "IN" && (day.firstIn.None? || row.at < day.firstIn.value) {
        day := day.(firstIn := Some(row.at));
      }
      if row.direction == "OUT" && (day.lastOut.None? || row.at > day.lastOut.value) {
        day := day.(lastOut := Some(row.at));
      }
      daily := daily[key := day];
      SpansGrow(AtGate(rows[..i], main), row, before, daily);
    }
    assert rows[..|rows|] == rows;
    hours := HoursOf(daily);
    HoursRight(AtGate(rows, main), daily);
  }

  predicate Complete(day: Span) {
    day.firstIn.Some? && day.lastOut.Some? && day.firstIn.value < day.lastOut.value
  }

  lemma SpanHours(rows: seq<Row>, k: Key, day: Span)
    requires Earliest(rows, k, day.firstIn) && Latest(rows, k, day.lastOut)
    ensures Complete(day) <==> exists t, u :: Earliest(rows, k, Some(t)) && Latest(rows, k, Some(u)) && t < u
  {
    forall t, u | Earliest(rows, k, Some(t)) && Latest(rows, k, Some(u)) ensures day == Span(Some(t), Some(u)) {
      EarliestIsOne(rows, rows, k, Some(t), day.firstIn);
      LatestIsOne(rows, rows, k, Some(u), day.lastOut);
    }
    hide Earliest, Latest;
    if Complete(day) {
      assert Earliest(rows, k, Some(day.firstIn.value)) && Latest(rows, k, Some(day.lastOut.value));
    }
  }

  function HoursOf(daily: map<Key, Span>): map<Key, int> {
    map k | k in daily && Complete(daily[k]) :: daily[k].lastOut.value - daily[k].firstIn.value
  }

  lemma HoursRight(rows: seq<Row>, daily: map<Key, Span>)
    requires Spans(rows, daily)
    ensures forall k :: k in HoursOf(daily) <==>
      exists t, u :: Earliest(rows, k, Some(t)) && Latest(rows, k, Some(u)) && t < u
    ensures forall k, t, u ::
      k in HoursOf(daily) && Earliest(rows, k, Some(t)) && Latest(rows, k, Some(u)) ==> HoursOf(daily)[k] == u - t
  {
    hide Earliest, Latest, Spans;
    forall k ensures k in HoursOf(daily) <==>
      exists t, u :: Earliest(rows, k, Some(t)) && Latest(rows, k, Some(u)) && t < u {
      SpanAt(rows, daily, k);
      SpanHours(rows, k, Look(daily, k));
    }
    forall k, t, u | k in HoursOf(daily) && Earliest(rows, k, Some(t)) && Latest(rows, k, Some(u))
      ensures HoursOf(daily)[k] == u - t
    {
      SpanAt(rows, daily, k);
      EarliestIsOne(rows, rows, k, Some(t), Look(daily, k).firstIn);
      LatestIsOne(rows, rows, k, Some(u), Look(daily, k).lastOut);
    }
  }

  lemma NoSpans()
    ensures Spans([], map[])
  {
  }

  lemma SpanAt(rows: seq<Row>, daily: map<Key, Span>, k: Key)
    requires Spans(rows, daily)
    ensures Earliest(rows, k, Look(daily, k).firstIn) && Latest(rows, k, Look(daily, k).lastOut)
  {
  }

  lemma GateNext(rows: seq<Row>, i: nat, main: string -> bool)
    requires i < |rows|
    ensures var r := rows[i];
      && (r.decision == "GRANTED" && main(r.gate) ==> AtGate(rows[..i + 1], main) == AtGate(rows[..i], main) + [r])
      && (r.decision != "GRANTED" || !main(r.gate) ==> AtGate(rows[..i + 1], main) == AtGate(rows[..i], main))
  {
    assert rows[..i + 1][..i] == rows[..i];
  }

  lemma SpansGrow(rows: seq<Row>, r: Row, before: map<Key, Span>, after: map<Key, Span>)
    requires Spans(rows, before) && r.decision == "GRANTED"
    requires forall k :: k != KeyOf(r) ==> Look(after, k) == Look(before, k)
    requires var was, now := Look(before, KeyOf(r)), Look(after, KeyOf(r));
      && now.firstIn == (if r.direction == "IN" && (was.firstIn.None? || r.at < was.firstIn.value) then Some(r.at)
                         else was.firstIn)
      && now.lastOut == (if r.direction == "OUT" && (was.lastOut.None? || r.at > was.lastOut.value) then Some(r.at)
                         else was.lastOut)
    ensures Spans(rows + [r], after)
  {
    hide Earliest, Latest;
    forall k ensures Earliest(rows + [r], k, Look(after, k).firstIn) && Latest(rows + [r], k, Look(after, k).lastOut) {
      EarliestGrows(rows, r, k, Look(before, k).firstIn);
      LatestGrows(rows, r, k, Look(before, k).lastOut);
    }
  }

  lemma {:induction false} GateRows(rows: seq<Row>, main: string -> bool, r: Row)
    ensures r in AtGate(rows, main) <==> r in rows && r.decision == "GRANTED" && main(r.gate)
  {
    if rows != [] {
      GateRows(rows[..|rows| - 1], main, r);
      assert rows == rows[..|rows| - 1] + [rows[|rows| - 1]];
    }
  }

  /** A day completed at the main gate is a completed day of the report center, which
      counts at least as much time for it. */
  lemma MainGateWithinStay(rows: seq<Row>, main: string -> bool, k: Key, t: int, u: int, details: seq<Detail>)
    requires k.employee != "" && IsAttendance(Named(rows), details)
    requires Earliest(AtGate(rows, main), k, Some(t)) && Latest(AtGate(rows, main), k, Some(u)) && t < u
    ensures exists d :: d in details && d.key == k && Stayed(d) && StayTime(d) >= u - t
  {
    var first :| first in AtGate(rows, main) && GrantedIn(first, k) && first.at == t;
    var last :| last in AtGate(rows, main) && GrantedOut(last, k) && last.at == u;
    GateRows(rows, main, first);
    GateRows(rows, main, last);
    NamedIn(rows, first);
    NamedIn(rows, last);
    hide *;
    hide Describes;
    var d :| d in details && d.key == KeyOf(first);
    StayAtLeast(Named(rows), d, first, last);
  }

  /** A detail reaches from any granted IN of its day to any granted OUT. */
  lemma StayAtLeast(rows: seq<Row>, d: Detail, first: Row, last: Row)
    requires Describes(rows, d)
    requires first in rows && GrantedIn(first, d.key)
    requires last in rows && GrantedOut(last, d.key)
    ensures first.at < last.at ==> Stayed(d) && StayTime(d) >= last.at - first.at
  {
  }

  // ----- the decisions behind a day -----

  datatype Swiped = Swiped(direction: string, at: int, gate: string, department: string)

  /** The stored state after an employee's swipes of a day, no reset or expiry between. */
  function StateAfter(start: Option<string>, day: seq<Swiped>): Option<string> {
    if day == [] then start
    else AntiPassback.Decide(StateAfter(start, day[..|day| - 1]), day[|day| - 1].direction).1
  }

  /** The rows those swipes leave in the reports. */
  function RowsFor(k: Key, start: Option<string>, day: seq<Swiped>): seq<Row> {
    if day == [] then []
    else
      var front, last := day[..|day| - 1], day[|day| - 1];
      var granted := AntiPassback.Decide(StateAfter(start, front), last.direction).0.granted;
      RowsFor(k, start, front)
        + [Row(k.employee, last.department, last.gate, last.direction,
               if granted then "GRANTED" else "DENIED", last.at, k.day)]
  }

  /** Time the employee really spent inside: between two swipes the stored state stands. */
  function TimeInside(start: Option<string>, day: seq<Swiped>): int {
    if |day| < 2 then 0
    else
      var front := day[..|day| - 1];
      TimeInside(start, front)
        + if StateAfter(start, front) == Some("IN") then day[|day| - 1].at - front[|front| - 1].at else 0
  }

  /** Completed visits. */
  function Exits(rows: seq<Row>, k: Key): int {
    Sum(rows, (r: Row) => if GrantedOut(r, k) then 1 else 0)
  }

  ghost predicate HasGrant(rows: seq<Row>) { exists r :: r in rows && r.decision == "GRANTED" }

  ghost predicate Increasing(day: seq<Swiped>) { forall i, j :: 0 <= i < j < |day| ==> day[i].at < day[j].at }

  /** Where a day stands: nothing granted yet, inside, or outside after some visits. */
  ghost predicate Standing(exits: int, state: Option<string>, d: Detail, time: int, now: int) {
    if state == Some("IN") then
      && d.firstIn.Some? && d.firstIn.value <= now
      && (if exits == 0 then time == now - d.firstIn.value else exits > 0 && time < now - d.firstIn.value)
      && (d.lastOut.Some? ==> d.lastOut.value < now)
      && (d.lastOut.None? <==> exits == 0)
    else if exits == 0 then
      && (state == None || state == Some("OUT"))
      && d.firstIn == None && d.lastOut == None && time == 0
    else
      && state == Some("OUT") && exits > 0
      && d.firstIn.Some? && d.lastOut.Some? && d.firstIn.value < d.lastOut.value <= now
      && time <= d.lastOut.value - d.firstIn.value
      && (time == d.lastOut.value - d.firstIn.value <==> exits == 1)
  }

  /** One more decided swipe, later than those before. */
  lemma StandsNext(exits: int, state: Option<string>, d: Detail, time: int, now: int, row: Row)
    requires Standing(exits, state, d, time, now) && now < row.at
    requires KeyOf(row) == d.key
    requires var granted := AntiPassback.Decide(state, row.direction).0.granted;
      row.decision == if granted then "GRANTED" else "DENIED"
    ensures Standing(exits + (if GrantedOut(row, d.key) then 1 else 0),
                     AntiPassback.Decide(state, row.direction).1, Updated(d, row),
                     time + (if state == Some("IN") then row.at - now else 0), row.at)
    ensures row.decision == "GRANTED" ==> Updated(d, row).firstIn.Some?
    ensures d.firstIn.Some? ==> Updated(d, row).firstIn.Some?
  {
  }

  lemma {:induction false} DayStands(k: Key, start: Option<string>, day: seq<Swiped>) returns (d: Detail)
    requires Increasing(day) && day != []
    requires start == None || start == Some("OUT")
    ensures d.key == k && Agrees(RowsFor(k, start, day), d)
    ensures HasGrant(RowsFor(k, start, day)) ==> d.firstIn.Some?
    ensures Standing(Exits(RowsFor(k, start, day), k), StateAfter(start, day), d, TimeInside(start, day),
                     day[|day| - 1].at)
  {
    hide Agrees, Standing, Updated, RowsFor, StateAfter, TimeInside, Exits;
    hide AntiPassback.Decide;
    var front, last := day[..|day| - 1], day[|day| - 1];
    var rows := RowsFor(k, start, front);
    var row := OneMoreSwipe(k, start, day);
    ExitsNext(rows, row, k);
    var before := Detail(k, "-", None, None, 0);
    var now := last.at - 1;
    if front == [] {
      NoDayYet(k, start, now);
    } else {
      before := DayStands(k, start, front);
      now := front[|front| - 1].at;
    }
    RowAdded(rows, row, before);
    UpdatedKey(before, row);
    StandsNext(Exits(rows, k), StateAfter(start, front), before, TimeInside(start, front), now, row);
    d := Updated(before, row);
    assert RowsFor(k, start, day) == rows + [row];
    if HasGrant(rows + [row]) && row.decision != "GRANTED" { assert HasGrant(rows); }
  }

  /** What one more swipe adds to a day. */
  lemma OneMoreSwipe(k: Key, start: Option<string>, day: seq<Swiped>) returns (row: Row)
    requires day != []
    ensures var front := day[..|day| - 1];
      var decision := AntiPassback.Decide(StateAfter(start, front), row.direction);
      && RowsFor(k, start, day) == RowsFor(k, start, front) + [row]
      && KeyOf(row) == k && row.at == day[|day| - 1].at
      && row.decision == (if decision.0.granted then "GRANTED" else "DENIED")
      && StateAfter(start, day) == decision.1
      && (if front == [] then
            && StateAfter(start, front) == start && TimeInside(start, day) == 0 && TimeInside(start, front) == 0
            && RowsFor(k, start, front) == [] && Exits([], k) == 0
          else
            TimeInside(start, day) == TimeInside(start, front)
            + (if StateAfter(start, front) == Some("IN") then row.at - front[|front| - 1].at else 0))
  {
    row := RowsFor(k, start, day)[|RowsFor(k, start, day[..|day| - 1])|];
  }

  lemma NoDayYet(k: Key, start: Option<string>, now: int)
    requires start == None || start == Some("OUT")
    ensures Agrees([], Detail(k, "-", None, None, 0))
    ensures Standing(0, start, Detail(k, "-", None, None, 0), 0, now)
  {
  }

  lemma ExitsNext(rows: seq<Row>, row: Row, k: Key)
    ensures Exits(rows + [row], k) == Exits(rows, k) + if GrantedOut(row, k) then 1 else 0
  {
    assert (rows + [row])[..|rows|] == rows;
  }

  /** The rows of other employee-days do not matter. */
  lemma OwnRows(rows: seq<Row>, own: seq<Row>, d: Detail, e: Detail)
    requires d.key == e.key && Describes(rows, d) && Agrees(own, e)
    requires forall r :: KeyOf(r) == d.key ==> (r in rows <==> r in own)
    ensures d.firstIn == e.firstIn && d.lastOut == e.lastOut
  {
  }

  /** For an employee-day of decided swipes that begins and ends outside and has a grant,
      the report finds both ends, the time it reports is at least the time spent inside,
      and it is exactly that time if and only if there was one visit. */
  lemma StayCoversTimeInside(rows: seq<Row>, d: Detail, start: Option<string>, day: seq<Swiped>)
    requires Increasing(day)
    requires start == None || start == Some("OUT")
    requires StateAfter(start, day) != Some("IN")
    requires Describes(rows, d)
    requires forall r :: KeyOf(r) == d.key ==> (r in rows <==> r in RowsFor(d.key, start, day))
    requires HasGrant(RowsFor(d.key, start, day))
    ensures Stayed(d) && StayTime(d) >= TimeInside(start, day)
    ensures StayTime(d) == TimeInside(start, day) <==> Exits(RowsFor(d.key, start, day), d.key) == 1
  {
    var own := RowsFor(d.key, start, day);
    var e := DayStands(d.key, start, day);
    OwnRows(rows, own, d, e);
  }
}
