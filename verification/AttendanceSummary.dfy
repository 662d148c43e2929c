/** The figures of the report center: an order-free description, the server's and the
    client's ways of accumulating them. */
module AttendanceSummary {
  import opened Sums
  import opened Attendance
  import opened AttendanceCounts

  predicate Attended(d: Detail) { d.firstIn.Some? }
  predicate Normal(d: Detail) { d.firstIn.Some? && d.lastOut.Some? && d.denied == 0 }
  predicate Anomaly(d: Detail) { d.denied > 0 || d.firstIn.None? || d.lastOut.None? }
  predicate Stayed(d: Detail) { d.firstIn.Some? && d.lastOut.Some? && d.lastOut.value > d.firstIn.value }

  function One(b: bool): int { if b then 1 else 0 }
  function Row1(d: Detail): int { 1 }
  function Attended1(d: Detail): int { One(Attended(d)) }
  function Normal1(d: Detail): int { One(Normal(d)) }
  function Anomaly1(d: Detail): int { One(Anomaly(d)) }
  function Stayed1(d: Detail): int { One(Stayed(d)) }
  function StayTime(d: Detail): int { if Stayed(d) then d.lastOut.value - d.firstIn.value else 0 }
  function DepartmentOf(d: Detail): string { d.department }
  function DayOf(d: Detail): Day { d.key.day }

  // ----- the order-free description -----

  function Attendees(s: seq<Detail>): set<string> { set d | d in s && Attended(d) :: d.key.employee }
  function AttendeesOn(s: seq<Detail>, day: Day): set<string> {
    set d | d in s && Attended(d) && d.key.day == day :: d.key.employee
  }
  function StayersOf(s: seq<Detail>, k: string): set<string> {
    set d | d in s && Stayed(d) && d.department == k :: d.key.employee
  }
  function AttendedDays(s: seq<Detail>): set<Day> { set d | d in s && Attended(d) :: d.key.day }
  function Departments(s: seq<Detail>): set<string> { set d | d in s :: d.department }

  function StatOf(s: seq<Detail>, k: string): Stat {
    Stat(Part(s, DepartmentOf, k, StayTime), Part(s, DepartmentOf, k, Stayed1), StayersOf(s, k),
         Part(s, DepartmentOf, k, Row1), Part(s, DepartmentOf, k, Normal1))
  }
  function Trend(s: seq<Detail>): map<Day, set<string>> { map day | day in AttendedDays(s) :: AttendeesOn(s, day) }
  function Stats(s: seq<Detail>): map<string, Stat> { map k | k in Departments(s) :: StatOf(s, k) }

  function SummaryOf(s: seq<Detail>): Summary {
    Summary(Sum(s, Row1), Sum(s, Attended1), Sum(s, Normal1), Sum(s, Anomaly1), Sum(s, StayTime), Sum(s, Stayed1),
            Attendees(s), Trend(s), Stats(s))
  }

  lemma SetsPermuted(a: seq<Detail>, b: seq<Detail>)
    requires multiset(a) == multiset(b)
    ensures Attendees(a) == Attendees(b) && Trend(a) == Trend(b) && Departments(a) == Departments(b)
    ensures forall k :: StayersOf(a, k) == StayersOf(b, k)
  {
    assert forall d :: d in a <==> d in multiset(b);
    assert AttendedDays(a) == AttendedDays(b);
    forall day ensures AttendeesOn(a, day) == AttendeesOn(b, day) { }
  }

  /** The order of the employee-days does not matter. */
  lemma SummaryPermuted(a: seq<Detail>, b: seq<Detail>)
    requires multiset(a) == multiset(b)
    ensures SummaryOf(a) == SummaryOf(b)
  {
    SumPermuted(a, b, Row1);
    SumPermuted(a, b, Attended1);
    SumPermuted(a, b, Normal1);
    SumPermuted(a, b, Anomaly1);
    SumPermuted(a, b, StayTime);
    SumPermuted(a, b, Stayed1);
    SetsPermuted(a, b);
    forall k ensures StatOf(a, k) == StatOf(b, k) {
      PartPermuted(a, b, DepartmentOf, k, StayTime);
      PartPermuted(a, b, DepartmentOf, k, Stayed1);
      PartPermuted(a, b, DepartmentOf, k, Row1);
      PartPermuted(a, b, DepartmentOf, k, Normal1);
    }
  }

  // ----- the server's accumulation -----

  function NoStat(): Stat { Stat(0, 0, {}, 0, 0) }

  function StatWith(stat: Stat, d: Detail): Stat {
    Stat(stat.time + StayTime(d), stat.workDays + Stayed1(d),
         if Stayed(d) then stat.employees + {d.key.employee} else stat.employees,
         stat.totalRows + 1, stat.normalRows + Normal1(d))
  }

  lemma {:induction false} PartNone(s: seq<Detail>, k: string, g: Detail -> int)
    requires k !in Departments(s)
    ensures Part(s, DepartmentOf, k, g) == 0
  {
    if s != [] {
      assert s[|s| - 1] in s;
      PartNone(s[..|s| - 1], k, g);
    }
  }

  lemma StatNext(s: seq<Detail>, d: Detail, k: string)
    ensures StatOf(s + [d], k) == if d.department == k then StatWith(StatOf(s, k), d) else StatOf(s, k)
  {
    PartNext(s, d, DepartmentOf, k, StayTime);
    PartNext(s, d, DepartmentOf, k, Stayed1);
    PartNext(s, d, DepartmentOf, k, Row1);
    PartNext(s, d, DepartmentOf, k, Normal1);
    var more := s + [d];
    assert forall x :: x in more <==> x in s || x == d;
    hide Part;
    assert StayersOf(more, k) ==
      if Stayed(d) && d.department == k then StayersOf(s, k) + {d.key.employee} else StayersOf(s, k);
  }

  lemma StatNone(s: seq<Detail>, k: string)
    requires k !in Departments(s)
    ensures StatOf(s, k) == NoStat()
  {
    PartNone(s, k, StayTime);
    PartNone(s, k, Stayed1);
    PartNone(s, k, Row1);
    PartNone(s, k, Normal1);
  }

  lemma StatsNext(s: seq<Detail>, d: Detail)
    ensures Stats(s + [d])
        == Stats(s)[d.department := StatWith(if d.department in Stats(s) then Stats(s)[d.department] else NoStat(), d)]
  {
    hide StatOf, StatWith;
    var more := s + [d];
    assert forall x :: x in more <==> x in s || x == d;
    assert Departments(more) == Departments(s) + {d.department};
    forall k ensures StatOf(more, k) == if d.department == k then StatWith(StatOf(s, k), d) else StatOf(s, k) {
      StatNext(s, d, k);
    }
    if d.department !in Departments(s) { StatNone(s, d.department); }
  }

  lemma DayNext(s: seq<Detail>, d: Detail, day: Day)
    ensures AttendeesOn(s + [d], day) == AttendeesOn(s, day) +
      if Attended(d) && d.key.day == day then {d.key.employee} else {}
    ensures day in AttendedDays(s + [d]) <==> day in AttendedDays(s) || (Attended(d) && d.key.day == day)
    ensures day !in AttendedDays(s) ==> AttendeesOn(s, day) == {}
  {
    var more := s + [d];
    assert forall x :: x in more <==> x in s || x == d;
  }

  function OneMore(trend: map<Day, set<string>>, key: Key): map<Day, set<string>> {
    trend[key.day := (if key.day in trend then trend[key.day] else {}) + {key.employee}]
  }

  lemma TrendNext(s: seq<Detail>, d: Detail)
    ensures Trend(s + [d]) == if Attended(d) then OneMore(Trend(s), d.key) else Trend(s)
  {
    hide AttendeesOn, AttendedDays;
    forall day ensures day in Trend(s + [d]) <==> day in Trend(s) || (Attended(d) && d.key.day == day) {
      DayNext(s, d, day);
    }
    forall day | day in Trend(s + [d])
      ensures Trend(s + [d])[day] == (if Attended(d) then OneMore(Trend(s), d.key) else Trend(s))[day]
    {
      DayNext(s, d, day);
    }
  }

  lemma AttendeesNext(s: seq<Detail>, d: Detail)
    ensures Attendees(s + [d]) == Attendees(s) + if Attended(d) then {d.key.employee} else {}
  {
    var more := s + [d];
    assert forall x :: x in more <==> x in s || x == d;
  }

  lemma SumNext(s: seq<Detail>, d: Detail, g: Detail -> int)
    ensures Sum(s + [d], g) == Sum(s, g) + g(d)
  {
    assert (s + [d])[..|s|] == s;
  }

  /** The second loop of `_compute_report_center_attendance`. */
  method Accumulate(groups: seq<Detail>) returns (m: Summary)
    ensures m == SummaryOf(groups)
  {
    hide Trend, Stats, Sum, Attendees;
    m := Summary(0, 0, 0, 0, 0, 0, {}, map[], map[]);
    NoSummary();
    for i := 0 to |groups|
      invariant m == SummaryOf(groups[..i])
    {
      var group := groups[i];
      ghost var front := groups[..i];
      assert groups[..i + 1] == front + [group];
      AttendeesNext(front, group);
      TrendNext(front, group);
      StatsNext(front, group);
      SumNext(front, group, Row1);
      SumNext(front, group, Attended1);
      SumNext(front, group, Normal1);
      SumNext(front, group, Anomaly1);
      SumNext(front, group, StayTime);
      SumNext(front, group, Stayed1);

      m := m.(totalRows := m.totalRows + 1);
      if group.firstIn.Some? {
        var today := if group.key.day in m.trend then m.trend[group.key.day] else {};
        m := m.(attendedRows := m.attendedRows + 1, attendees := m.attendees + {group.key.employee},
                trend := m.trend[group.key.day := today + {group.key.employee}]);
      }
      if Normal(group) { m := m.(normalRows := m.normalRows + 1); }
      if Anomaly(group) { m := m.(anomalyDays := m.anomalyDays + 1); }
      var dept := if group.department in m.departments then m.departments[group.department] else NoStat();
      dept := dept.(totalRows := dept.totalRows + 1);
      if Normal(group) { dept := dept.(normalRows := dept.normalRows + 1); }
      if Stayed(group) {
        var work := group.lastOut.value - group.firstIn.value;
        m := m.(stayTime := m.stayTime + work, stayCount := m.stayCount + 1);
        dept := dept.(time := dept.time + work, workDays := dept.workDays + 1,
                      employees := dept.employees + {group.key.employee});
      }
      m := m.(departments := m.departments[group.department := dept]);
    }
    assert groups[..|groups|] == groups;
  }

  lemma NoSummary()
    ensures SummaryOf([]) == Summary(0, 0, 0, 0, 0, 0, {}, map[], map[])
  {
  }

  // ----- the client's accumulation -----

  function Filter(s: seq<Detail>, p: Detail -> bool): seq<Detail> {
    if s == [] then [] else Filter(s[..|s| - 1], p) + if p(s[|s| - 1]) then [s[|s| - 1]] else []
  }

  lemma {:induction false} FilterSum(s: seq<Detail>, p: Detail -> bool, g: Detail -> int, h: Detail -> int)
    requires forall d :: h(d) == if p(d) then g(d) else 0
    ensures Sum(Filter(s, p), g) == Sum(s, h)
  {
    if s != [] {
      FilterSum(s[..|s| - 1], p, g, h);
      SumAppend(Filter(s[..|s| - 1], p), if p(s[|s| - 1]) then [s[|s| - 1]] else [], g);
    }
  }

  lemma FilterCount(s: seq<Detail>, p: Detail -> bool, h: Detail -> int)
    requires forall d :: h(d) == One(p(d))
    ensures |Filter(s, p)| == Sum(s, h)
  {
    FilterSum(s, p, Row1, h);
    SumOnes(Filter(s, p), Row1);
  }

  lemma {:induction false} FilterIn(s: seq<Detail>, p: Detail -> bool, d: Detail)
    ensures d in Filter(s, p) <==> d in s && p(d)
  {
    if s != [] {
      FilterIn(s[..|s| - 1], p, d);
      assert s == s[..|s| - 1] + [s[|s| - 1]];
    }
  }

  /** Figures whose row counts come from `all` and whose times come from `stays`. */
  function Mixed(all: seq<Detail>, stays: seq<Detail>, k: string): Stat {
    StatOf(stays, k).(totalRows := Part(all, DepartmentOf, k, Row1), normalRows := Part(all, DepartmentOf, k, Normal1))
  }
  function Mixture(all: seq<Detail>, stays: seq<Detail>): map<string, Stat> {
    map k | k in Departments(all) :: Mixed(all, stays, k)
  }

  function Counted(stat: Stat, d: Detail): Stat {
    stat.(totalRows := stat.totalRows + 1, normalRows := stat.normalRows + Normal1(d))
  }
  function Timed(stat: Stat, d: Detail): Stat {
    stat.(time := stat.time + StayTime(d), workDays := stat.workDays + 1,
          employees := stat.employees + {d.key.employee})
  }

  lemma CountedNext(s: seq<Detail>, d: Detail)
    ensures Mixture(s + [d], [])
        == Mixture(s, [])[d.department := Counted(if d.department in Mixture(s, []) then Mixture(s, [])[d.department]
                                                  else NoStat(), d)]
  {
    assert forall x :: x in s + [d] <==> x in s || x == d;
    assert Departments(s + [d]) == Departments(s) + {d.department};
    hide Part, StatOf, Departments;
    forall k ensures Mixed(s + [d], [], k) ==
      if d.department == k then Counted(Mixed(s, [], k), d) else Mixed(s, [], k) {
      PartNext(s, d, DepartmentOf, k, Row1);
      PartNext(s, d, DepartmentOf, k, Normal1);
    }
    if d.department !in Departments(s) { StatNone(s, d.department); NothingMixed(s, d.department); }
  }

  lemma NothingMixed(s: seq<Detail>, k: string)
    requires k !in Departments(s)
    ensures Mixed(s, [], k) == NoStat()
  {
    StatNone(s, k);
    StatNone([], k);
  }

  lemma TimedNext(all: seq<Detail>, stays: seq<Detail>, d: Detail)
    requires Stayed(d) && d.department in Departments(all)
    ensures d.department in Mixture(all, stays)
    ensures Mixture(all, stays + [d])
        == Mixture(all, stays)[d.department := Timed(Mixture(all, stays)[d.department], d)]
  {
    hide Departments, StatOf, Part;
    forall k ensures Mixed(all, stays + [d], k) ==
      if d.department == k then Timed(Mixed(all, stays, k), d) else Mixed(all, stays, k) {
      StatNext(stays, d, k);
    }
  }

  /** Every department's times are those of its stays. */
  lemma MixtureIsStats(s: seq<Detail>)
    ensures Mixture(s, Filter(s, Stayed)) == Stats(s)
  {
    hide Departments;
    forall k ensures Mixed(s, Filter(s, Stayed), k) == StatOf(s, k) {
      FilterPart(s, k, StayTime);
      FilterPart(s, k, Stayed1);
      forall d ensures d in Filter(s, Stayed) <==> d in s && Stayed(d) { FilterIn(s, Stayed, d); }
      hide Part;
      assert StayersOf(Filter(s, Stayed), k) == StayersOf(s, k);
    }
  }

  lemma {:induction false} FilterPart(s: seq<Detail>, k: string, g: Detail -> int)
    requires forall d :: !Stayed(d) ==> g(d) == 0
    ensures Part(Filter(s, Stayed), DepartmentOf, k, g) == Part(s, DepartmentOf, k, g)
  {
    if s != [] {
      var front, d := s[..|s| - 1], s[|s| - 1];
      assert s == front + [d];
      FilterPart(front, k, g);
      PartNext(front, d, DepartmentOf, k, g);
      if Stayed(d) {
        PartNext(Filter(front, Stayed), d, DepartmentOf, k, g);
      } else {
        assert Filter(s, Stayed) == Filter(front, Stayed);
      }
    }
  }

  lemma NoMixture()
    ensures Mixture([], []) == map[]
  {
  }

  /** The two department loops of `buildHrMetrics`. */
  method DepartmentStayStats(rows: seq<Detail>, stayRows: seq<Detail>) returns (departments: map<string, Stat>)
    requires stayRows == Filter(rows, Stayed)
    ensures departments == Stats(rows)
  {
    hide Mixed, Filter, Departments, Stats, Mixture;
    departments := map[];
    NoMixture();
    for i := 0 to |rows|
      invariant departments == Mixture(rows[..i], [])
    {
      var row := rows[i];
      assert rows[..i + 1] == rows[..i] + [row];
      CountedNext(rows[..i], row);
      var stat := if row.department in departments then departments[row.department] else NoStat();
      stat := stat.(totalRows := stat.totalRows + 1);
      if Normal(row) { stat := stat.(normalRows := stat.normalRows + 1); }
      departments := departments[row.department := stat];
    }
    assert rows[..|rows|] == rows;
    for j := 0 to |stayRows|
      invariant departments == Mixture(rows, stayRows[..j])
    {
      var row := stayRows[j];
      assert stayRows[..j + 1] == stayRows[..j] + [row];
      FilterIn(rows, Stayed, row);
      DepartmentOccurs(rows, row);
      TimedNext(rows, stayRows[..j], row);
      var stat := if row.department in departments then departments[row.department] else NoStat();
      stat := stat.(time := stat.time + (row.lastOut.value - row.firstIn.value), workDays := stat.workDays + 1,
                    employees := stat.employees + {row.key.employee});
      departments := departments[row.department := stat];
    }
    assert stayRows[..|stayRows|] == stayRows;
    MixtureIsStats(rows);
  }

  lemma DepartmentOccurs(s: seq<Detail>, d: Detail)
    requires d in s
    ensures d.department in Departments(s)
  {
  }

  /** `buildDailyAttendanceTrend`. */
  method BuildDailyAttendanceTrend(rows: seq<Detail>) returns (byDate: map<Day, set<string>>)
    ensures byDate == Trend(rows)
  {
    hide Trend;
    byDate := map[];
    NoSummary();
    for i := 0 to |rows|
      invariant byDate == Trend(rows[..i])
    {
      var row := rows[i];
      assert rows[..i + 1] == rows[..i] + [row];
      TrendNext(rows[..i], row);
      if row.firstIn.None? { continue; }
      var employees := if row.key.day in byDate then byDate[row.key.day] else {};
      byDate := byDate[row.key.day := employees + {row.key.employee}];
    }
    assert rows[..|rows|] == rows;
  }

  /** `buildHrMetrics` and the trend chart, over the client's attendance rows. */
  method BuildHrMetrics(rows: seq<Detail>) returns (m: Summary)
    ensures m == SummaryOf(rows)
  {
    hide Filter, Sum, Stats, Trend;
    FilterCount(rows, Attended, Attended1);
    FilterCount(rows, Normal, Normal1);
    FilterCount(rows, Anomaly, Anomaly1);
    FilterCount(rows, Stayed, Stayed1);
    SumOnes(rows, Row1);
    FilterSum(rows, Stayed, StayTime, StayTime);
    forall d ensures d in Filter(rows, Attended) <==> d in rows && Attended(d) { FilterIn(rows, Attended, d); }
    var attended := Filter(rows, Attended);
    var stayRows := Filter(rows, Stayed);
    var departments := DepartmentStayStats(rows, stayRows);
    var trend := BuildDailyAttendanceTrend(rows);
    m := Summary(|rows|, |attended|, |Filter(rows, Normal)|, |Filter(rows, Anomaly)|, Sum(stayRows, StayTime),
                 |stayRows|, set d | d in attended :: d.key.employee, trend, departments);
  }
}
