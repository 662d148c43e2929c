/** The server's report and the browser's, what each counts of the rows it reads, and when
    the two agree. */
module AttendanceReports {
  import opened Text
  import opened Sums
  import opened Attendance
  import opened AttendanceFolds
  import opened AttendanceCounts
  import opened AttendanceSummary

  // ----- the figures count the rows -----

  lemma {:induction false} DenialsMean(rows: seq<Row>, k: Key)
    ensures Denials(rows, k) >= 0 && (Denials(rows, k) > 0 <==> k in WithDenied(rows))
  {
    if rows != [] {
      var front, last := rows[..|rows| - 1], rows[|rows| - 1];
      DenialsMean(front, k);
      assert rows == front + [last];
      assert k in WithDenied(rows) <==> k in WithDenied(front) || DeniedAt(last, k);
    }
  }

  lemma EndsMean(rows: seq<Row>, d: Detail)
    requires Earliest(rows, d.key, d.firstIn) && Latest(rows, d.key, d.lastOut)
    ensures Attended(d) <==> d.key in WithGranted(rows, "IN")
    ensures d.lastOut.Some? <==> d.key in WithGranted(rows, "OUT")
    ensures Stayed(d) <==> d.key in WithStay(rows)
    ensures Stayed(d) ==> IsLongest(rows, d.key, StayTime(d))
  {
    if d.firstIn.Some? && d.lastOut.Some? {
      var r :| r in rows && GrantedIn(r, d.key) && r.at == d.firstIn.value;
      var q :| q in rows && GrantedOut(q, d.key) && q.at == d.lastOut.value;
      if Stayed(d) { assert InThenOut(r, q); }
    }
  }

  /** What one employee-day says is said of it by the rows. */
  lemma DetailMeans(rows: seq<Row>, d: Detail)
    requires Describes(rows, d)
    ensures d.key in Occurring(rows)
    ensures Attended(d) <==> d.key in WithGranted(rows, "IN")
    ensures Normal(d) <==> d.key in Fine(rows)
    ensures Anomaly(d) <==> d.key in Odd(rows)
    ensures Stayed(d) <==> d.key in WithStay(rows)
    ensures StayTime(d) == if d.key in WithStay(rows) then Longest(rows)(d.key) else 0
    ensures forall department :: d.department == department <==> d.key in InDepartment(rows, department)
  {
    DenialsMean(rows, d.key);
    EndsMean(rows, d);
    if Stayed(d) { LongestIs(rows, d.key, StayTime(d)); }
    hide WithGranted, WithDenied, WithStay, Earliest, Latest, IsLongest, Longest, LastDepartment, Denials;
  }

  /** Adding up over the employee-days is adding up over their keys. */
  lemma {:induction false} SumIs(s: seq<Detail>, h: Detail -> int, keys: set<Key>, g: Key -> int)
    requires forall i, j :: 0 <= i < j < |s| ==> s[i].key != s[j].key
    requires forall d :: d in s ==> h(d) == if d.key in keys then g(d.key) else 0
    requires forall k :: k in keys ==> exists d :: d in s && d.key == k
    ensures Sum(s, h) == SumSet(keys, g)
  {
    hide SumSet;
    if s == [] {
      assert keys == {};
      SumSetZero({}, g);
    } else {
      var front, d := s[..|s| - 1], s[|s| - 1];
      assert forall x :: x in s <==> x in front || x == d by { assert s == front + [d]; }
      OtherKeys(s);
      assert forall i :: 0 <= i < |front| ==> front[i] == s[i];
      SumIs(front, h, keys - {d.key}, g);
      if d.key in keys { SumSetTake(keys, d.key, g); } else { assert keys - {d.key} == keys; }
    }
  }

  lemma OtherKeys(s: seq<Detail>)
    requires s != [] && forall i, j :: 0 <= i < j < |s| ==> s[i].key != s[j].key
    ensures forall x :: x in s[..|s| - 1] ==> x.key != s[|s| - 1].key
  {
  }

  lemma {:induction false} SumSetOnes(keys: set<Key>, g: Key -> int)
    requires forall k :: g(k) == 1
    ensures SumSet(keys, g) == |keys|
    decreases keys
  {
    if keys != {} {
      var k :| k in keys;
      SumSetTake(keys, k, g);
      SumSetOnes(keys - {k}, g);
    }
  }

  /** The employee-days' keys are those that occur. */
  lemma KeysOccur(rows: seq<Row>, s: seq<Detail>)
    requires IsAttendance(rows, s)
    ensures forall k :: k in Occurring(rows) <==> exists d :: d in s && d.key == k
  {
    hide Earliest, Latest, Denials, LastDepartment;
    forall d | d in s ensures d.key in Occurring(rows) { assert Describes(rows, d); }
  }

  /** Counting over the employee-days is counting keys, and adding up the same. */
  lemma CountIs(rows: seq<Row>, s: seq<Detail>, h: Detail -> int, keys: set<Key>)
    requires IsAttendance(rows, s) && keys <= Occurring(rows)
    requires forall d :: Describes(rows, d) ==> h(d) == One(d.key in keys)
    ensures Sum(s, h) == |keys|
  {
    KeysOccur(rows, s);
    hide Describes, Occurring, One, Sum, SumSet;
    OneIs();
    SumIs(s, h, keys, (k: Key) => 1);
    SumSetOnes(keys, (k: Key) => 1);
  }

  lemma OneIs()
    ensures One(true) == 1 && One(false) == 0
  {
  }

  lemma AddedIs(rows: seq<Row>, s: seq<Detail>, h: Detail -> int, keys: set<Key>, g: Key -> int)
    requires IsAttendance(rows, s) && keys <= Occurring(rows)
    requires forall d :: Describes(rows, d) ==> h(d) == if d.key in keys then g(d.key) else 0
    ensures Sum(s, h) == SumSet(keys, g)
  {
    KeysOccur(rows, s);
    hide Describes, Occurring, Sum, SumSet;
    SumIs(s, h, keys, g);
  }

  lemma AllOccur(rows: seq<Row>)
    ensures WithGranted(rows, "IN") <= Occurring(rows) && Fine(rows) <= Occurring(rows) && Odd(rows) <= Occurring(rows)
    ensures WithStay(rows) <= Occurring(rows)
    ensures forall department :: InDepartment(rows, department) <= Occurring(rows)
  {
  }

  lemma AllMean(rows: seq<Row>)
    ensures forall d :: Describes(rows, d) ==>
      && d.key in Occurring(rows) && (Attended(d) <==> d.key in WithGranted(rows, "IN"))
      && (Normal(d) <==> d.key in Fine(rows)) && (Anomaly(d) <==> d.key in Odd(rows))
      && (Stayed(d) <==> d.key in WithStay(rows))
      && StayTime(d) == if d.key in WithStay(rows) then Longest(rows)(d.key) else 0
    ensures forall d, department :: Describes(rows, d) ==>
      (d.department == department <==> d.key in InDepartment(rows, department))
  {
    forall d | Describes(rows, d)
      ensures d.key in Occurring(rows) && (Attended(d) <==> d.key in WithGranted(rows, "IN"))
      ensures (Normal(d) <==> d.key in Fine(rows)) && (Anomaly(d) <==> d.key in Odd(rows))
      ensures Stayed(d) <==> d.key in WithStay(rows)
      ensures StayTime(d) == if d.key in WithStay(rows) then Longest(rows)(d.key) else 0
      ensures forall department :: d.department == department <==> d.key in InDepartment(rows, department)
    {
      DetailMeans(rows, d);
    }
  }

  lemma GlobalCounts(rows: seq<Row>, s: seq<Detail>)
    requires IsAttendance(rows, s)
    ensures Sum(s, Row1) == |Occurring(rows)|
    ensures Sum(s, Attended1) == |WithGranted(rows, "IN")|
    ensures Sum(s, Normal1) == |Fine(rows)| && Sum(s, Anomaly1) == |Odd(rows)|
    ensures Sum(s, Stayed1) == |WithStay(rows)|
    ensures Sum(s, StayTime) == SumSet(WithStay(rows), Longest(rows))
  {
    AllOccur(rows);
    AllMean(rows);
    hide Describes, IsAttendance, Occurring, WithGranted, Fine, Odd, WithStay, Longest, Sum, SumSet, InDepartment;
    hide Attended, Normal, Anomaly, Stayed, StayTime;
    CountIs(rows, s, Row1, Occurring(rows));
    CountIs(rows, s, Attended1, WithGranted(rows, "IN"));
    CountIs(rows, s, Normal1, Fine(rows));
    CountIs(rows, s, Anomaly1, Odd(rows));
    CountIs(rows, s, Stayed1, WithStay(rows));
    AddedIs(rows, s, StayTime, WithStay(rows), Longest(rows));
  }

  lemma DepartmentCounts(rows: seq<Row>, s: seq<Detail>, department: string)
    requires IsAttendance(rows, s)
    ensures CountsDepartment(rows, department, StatOf(s, department))
  {
    var own := InDepartment(rows, department);
    AllOccur(rows);
    AllMean(rows);
    StayersAre(rows, s, department);
    hide Describes, IsAttendance, Occurring, WithGranted, Fine, Odd, WithStay, Longest, Sum, SumSet, InDepartment;
    hide Attended, Normal, Anomaly, Stayed, StayTime, StayersOf, EmployeesOf;
    PartCountIs(rows, s, department, Row1, own);
    PartCountIs(rows, s, department, Normal1, own * Fine(rows));
    PartCountIs(rows, s, department, Stayed1, own * WithStay(rows));
    PartIs(rows, s, department, StayTime, own * WithStay(rows), Longest(rows));
    hide Part;
  }

  lemma PartIs(rows: seq<Row>, s: seq<Detail>, department: string, f: Detail -> int, keys: set<Key>, g: Key -> int)
    requires IsAttendance(rows, s) && keys <= Occurring(rows)
    requires forall d :: Describes(rows, d) ==>
      (if d.department == department then f(d) else 0) == if d.key in keys then g(d.key) else 0
    ensures Part(s, DepartmentOf, department, f) == SumSet(keys, g)
  {
    var h := (d: Detail) => if DepartmentOf(d) == department then f(d) else 0;
    PartSum(s, DepartmentOf, department, f, h);
    hide Describes, IsAttendance, Occurring, Part, Sum, SumSet;
    forall d | Describes(rows, d) ensures h(d) == if d.key in keys then g(d.key) else 0 { }
    AddedIs(rows, s, h, keys, g);
  }

  lemma PartCountIs(rows: seq<Row>, s: seq<Detail>, department: string, f: Detail -> int, keys: set<Key>)
    requires IsAttendance(rows, s) && keys <= Occurring(rows)
    requires forall d :: Describes(rows, d) ==>
      (if d.department == department then f(d) else 0) == if d.key in keys then 1 else 0
    ensures Part(s, DepartmentOf, department, f) == |keys|
  {
    hide Describes, IsAttendance, Occurring, Part, SumSet;
    PartIs(rows, s, department, f, keys, (k: Key) => 1);
    SumSetOnes(keys, (k: Key) => 1);
  }

  lemma StayersAre(rows: seq<Row>, s: seq<Detail>, department: string)
    requires IsAttendance(rows, s)
    ensures StayersOf(s, department) == EmployeesOf(InDepartment(rows, department) * WithStay(rows))
    ensures department in Departments(s) <==> InDepartment(rows, department) != {}
  {
    AllOccur(rows);
    AllMean(rows);
    KeysOccur(rows, s);
    hide Describes, Occurring, WithGranted, Fine, Odd, WithStay, Longest, InDepartment, Stayed, StayTime, Attended;
    forall k | k in InDepartment(rows, department)
      ensures exists d :: d in s && d.key == k && d.department == department
    {
      var d :| d in s && d.key == k;
      assert Describes(rows, d);
    }
    forall d | d in s ensures Describes(rows, d) { }
  }

  lemma PeopleCount(rows: seq<Row>, s: seq<Detail>)
    requires IsAttendance(rows, s)
    ensures Attendees(s) == EmployeesOf(WithGranted(rows, "IN"))
    ensures forall day ::
      (if day in Trend(s) then Trend(s)[day] else {}) == EmployeesOn(WithGranted(rows, "IN"), day)
    ensures forall day :: day in Trend(s) ==> Trend(s)[day] != {}
  {
    AllOccur(rows);
    AllMean(rows);
    KeysOccur(rows, s);
    hide Describes, Occurring, WithGranted, Fine, Odd, WithStay, Longest, InDepartment, Stayed, StayTime, Attended;
    forall k | k in WithGranted(rows, "IN") ensures exists d :: d in s && Attended(d) && d.key == k {
      var d :| d in s && d.key == k;
      assert Describes(rows, d);
    }
    forall d | d in s ensures Describes(rows, d) { }
    assert Attendees(s) == EmployeesOf(WithGranted(rows, "IN"));
    forall day ensures AttendeesOn(s, day) == EmployeesOn(WithGranted(rows, "IN"), day) { }
    TrendIs(s);
  }

  lemma TrendIs(s: seq<Detail>)
    ensures forall day :: (if day in Trend(s) then Trend(s)[day] else {}) == AttendeesOn(s, day)
    ensures forall day :: day in Trend(s) ==> Trend(s)[day] != {}
  {
    forall day | day in Trend(s) ensures Trend(s)[day] != {} {
      var d :| d in s && Attended(d) && d.key.day == day;
      assert d.key.employee in AttendeesOn(s, day);
    }
    forall day | day !in Trend(s) ensures AttendeesOn(s, day) == {} { }
  }

  lemma DepartmentsCount(rows: seq<Row>, s: seq<Detail>)
    requires IsAttendance(rows, s)
    ensures CountsDepartments(rows, Stats(s))
  {
    hide IsAttendance, CountsDepartment, StatOf, InDepartment, Departments;
    forall department
      ensures department in Stats(s) <==> InDepartment(rows, department) != {}
      ensures department in Stats(s) ==> CountsDepartment(rows, department, Stats(s)[department])
    {
      DepartmentCounts(rows, s, department);
      StayersAre(rows, s, department);
    }
  }

  /** The figures made of the employee-days are those of the rows. */
  lemma SummaryCounts(rows: seq<Row>, s: seq<Detail>)
    requires IsAttendance(rows, s)
    ensures CountsRows(rows, SummaryOf(s))
  {
    hide IsAttendance, Occurring, WithGranted, Fine, Odd, WithStay, Longest, Sum, SumSet, Stats, Trend, Attendees;
    hide CountsDepartments, EmployeesOf, EmployeesOn;
    GlobalCounts(rows, s);
    PeopleCount(rows, s);
    DepartmentsCount(rows, s);
  }

  // ----- both reports -----

  /** The server's report over the rows of a window: it counts the rows with an employee. */
  method ServerReport(rows: seq<Row>) returns (m: Summary)
    ensures exists details :: IsAttendance(Named(rows), details) && m == SummaryOf(details)
    ensures CountsRows(Named(rows), m)
  {
    var groups := OnePass(rows);
    m := Accumulate(groups);
    SummaryCounts(Named(rows), groups);
  }

  /** The browser's report over the events it holds, whose times it keeps in milliseconds: it
      counts them all. */
  method ClientReport(events: seq<Row>) returns (m: Summary)
    ensures exists details :: IsAttendance(CutAll(events), details) && m == SummaryOf(details)
    ensures CountsRows(CutAll(events), m)
  {
    var details := BuildAttendanceDetails(CutAll(events));
    m := BuildHrMetrics(details);
    SummaryCounts(CutAll(events), details);
  }

  lemma {:induction false} AllNamed(rows: seq<Row>)
    requires forall r :: r in rows ==> r.employee != ""
    ensures Named(rows) == rows
  {
    if rows != [] {
      var front, last := rows[..|rows| - 1], rows[|rows| - 1];
      assert rows == front + [last] && last in rows;
      AllNamed(front);
      assert Named(rows) == Named(front) + [last];
    }
  }

  ghost predicate AllHaveEmployees(rows: seq<Row>) { forall r :: r in rows ==> r.employee != "" }

  /** Two readings of the same rows, one of them leaving out rows without an employee, give
      the same figures if and only if there are no such rows. */
  lemma SameIffNamed(rows: seq<Row>, events: seq<Row>, server: seq<Detail>, client: seq<Detail>)
    requires multiset(rows) == multiset(events) && OneDepartmentEach(rows)
    requires IsAttendance(Named(rows), server) && IsAttendance(events, client)
    ensures SummaryOf(server) == SummaryOf(client) <==> AllHaveEmployees(rows)
    ensures !AllHaveEmployees(rows) ==> |server| < |client|
  {
    SameRows(rows, events);
    if AllHaveEmployees(rows) {
      AllNamed(rows);
      SameAttendance(rows, events, server, client);
      SummaryPermuted(server, client);
    } else {
      ClientHasMore(rows, events, server, client);
      SumOnes(server, Row1);
      SumOnes(client, Row1);
    }
  }

  lemma {:induction false} CutNamed(rows: seq<Row>)
    ensures Named(CutAll(rows)) == CutAll(Named(rows))
    ensures AllHaveEmployees(CutAll(rows)) <==> AllHaveEmployees(rows)
  {
    if rows != [] {
      var front, last := rows[..|rows| - 1], rows[|rows| - 1];
      assert rows == front + [last];
      CutNamed(front);
      var cut := CutAll(front) + [CutRow(last)];
      assert cut[..|front|] == CutAll(front) && cut[|front|] == CutRow(last);
      if last.employee != "" {
        assert (Named(front) + [last])[..|Named(front)|] == Named(front);
      } else {
        assert Named(rows) == Named(front) && Named(cut) == Named(CutAll(front));
      }
    }
  }

  lemma {:induction false} CutPermuted(a: seq<Row>, x: Row)
    ensures multiset(CutAll(a))[x] == Sum(a, (r: Row) => One(CutRow(r) == x))
  {
    if a != [] { CutPermuted(a[..|a| - 1], x); }
  }

  lemma CutSame(rows: seq<Row>, events: seq<Row>)
    requires multiset(rows) == multiset(events)
    ensures multiset(CutAll(rows)) == multiset(CutAll(events))
  {
    forall x ensures multiset(CutAll(rows))[x] == multiset(CutAll(events))[x] {
      CutPermuted(rows, x);
      CutPermuted(events, x);
      SumPermuted(rows, events, (r: Row) => One(CutRow(r) == x));
    }
  }

  lemma CutDepartments(rows: seq<Row>)
    requires OneDepartmentEach(rows)
    ensures OneDepartmentEach(CutAll(rows))
  {
    forall r, q | r in CutAll(rows) && q in CutAll(rows) && r.employee == q.employee
      ensures r.department == q.department
    {
      CutIn(rows, r);
      CutIn(rows, q);
    }
  }

  ghost predicate WholeMilliseconds(rows: seq<Row>) { forall r :: r in rows ==> Cut(r.at) == r.at }

  /** In whatever orders the two read the rows, the browser's figures are those of the
      server's employee-days with their ends cut to milliseconds, if and only if every row
      has an employee. So they are the server's own if and only if moreover the cut changes
      no figure, and it changes none where times are whole milliseconds. */
  lemma ReportsAgree(rows: seq<Row>, events: seq<Row>, server: seq<Detail>, client: seq<Detail>)
    requires multiset(rows) == multiset(events) && OneDepartmentEach(rows)
    requires IsAttendance(Named(rows), server) && IsAttendance(CutAll(events), client)
    ensures SummaryOf(CutDetails(server)) == SummaryOf(client) <==> AllHaveEmployees(rows)
    ensures SummaryOf(server) == SummaryOf(client) <==>
            AllHaveEmployees(rows) && SummaryOf(CutDetails(server)) == SummaryOf(server)
    ensures WholeMilliseconds(rows) ==> (SummaryOf(server) == SummaryOf(client) <==> AllHaveEmployees(rows))
  {
    hide SummaryOf, IsAttendance, CutAll;
    CutSame(rows, events);
    CutDepartments(rows);
    CutNamed(rows);
    CutAttendance(Named(rows), server);
    SameIffNamed(CutAll(rows), CutAll(events), CutDetails(server), client);
    if !AllHaveEmployees(rows) { MoreRowsDiffer(server, client); }
    if WholeMilliseconds(rows) { WholeStays(rows, server); }
  }

  lemma MoreRowsDiffer(server: seq<Detail>, client: seq<Detail>)
    requires |server| < |client|
    ensures SummaryOf(server) != SummaryOf(client)
  {
    SumOnes(server, Row1);
    SumOnes(client, Row1);
  }

  lemma WholeStays(rows: seq<Row>, server: seq<Detail>)
    requires WholeMilliseconds(rows) && IsAttendance(Named(rows), server)
    ensures CutDetails(server) == server
  {
    hide Cut, Denials, LastDepartment;
    forall i | 0 <= i < |server| ensures CutDetail(server[i]) == server[i] {
      var d := server[i];
      assert d in server;
      assert Describes(Named(rows), d);
      forall r | r in Named(rows) ensures Cut(r.at) == r.at { NamedIn(rows, r); }
      assert CutTime(d.firstIn) == d.firstIn && CutTime(d.lastOut) == d.lastOut;
    }
  }

  /** An IN and an OUT within one millisecond are a stay for the server and none for the
      browser. */
  lemma FractionsDiffer(k: Key, department: string)
    ensures var d := Detail(k, department, Some(0), Some(500), 0);
      && Stayed(d) && StayTime(d) == 500 && !Stayed(CutDetail(d))
      && SummaryOf([d]).stayCount == 1 && SummaryOf(CutDetails([d])).stayCount == 0
  {
    var d := Detail(k, department, Some(0), Some(500), 0);
    assert CutDetails([d]) == [CutDetail(d)];
    SumNext([], d, Stayed1);
    SumNext([], CutDetail(d), Stayed1);
    assert [] + [d] == [d] && [] + [CutDetail(d)] == [CutDetail(d)];
  }

  function KeysOf(s: seq<Detail>): set<Key> { set d | d in s :: d.key }

  lemma {:induction false} KeysCounted(s: seq<Detail>)
    requires forall i, j :: 0 <= i < j < |s| ==> s[i].key != s[j].key
    ensures |KeysOf(s)| == |s|
  {
    if s != [] {
      var front, d := s[..|s| - 1], s[|s| - 1];
      assert s == front + [d];
      KeysCounted(front);
      assert KeysOf(s) == KeysOf(front) + {d.key};
      assert d.key !in KeysOf(front);
    }
  }

  lemma Fewer<T>(a: set<T>, b: set<T>)
    requires a < b
    ensures |a| < |b|
  {
    assert !(b <= a);
    var x :| x in b && x !in a;
    SubsetSize(a, b - {x});
  }

  /** The smallest example: one swipe of nobody. The browser reports one row, an anomaly,
      the server none. Neither the swipe handler nor the database would let a missing
      employee through; only a message from elsewhere with an empty employee id can. */
  lemma SwipeOfNobody(row: Row)
    requires row.employee == "" && row.decision == "DENIED"
    ensures var d := Detail(KeyOf(row), if row.department == "" then "-" else row.department, None, None, 1);
      && IsAttendance(Named([row]), []) && IsAttendance([row], [d])
      && SummaryOf([]).totalRows == 0 && SummaryOf([d]).totalRows == 1 == SummaryOf([d]).anomalyDays
  {
    hide Describes, Sum, Named;
    assert [] + [row] == [row];
    DescribesFirst([], row);
    NobodySkipped(row);
    var d := Detail(KeyOf(row), if row.department == "" then "-" else row.department, None, None, 1);
    NobodyUpdated(row);
    assert [] + [d] == [d];
    SumNext([], d, Row1);
    SumNext([], d, Anomaly1);
    NoSummary();
  }

  lemma NobodySkipped(row: Row)
    requires row.employee == ""
    ensures Named([row]) == []
  {
    assert [row][..0] == [];
    assert Named([row]) == Named([]) + [];
  }

  lemma NobodyUpdated(row: Row)
    requires row.decision == "DENIED"
    ensures Updated(Detail(KeyOf(row), "-", None, None, 0), row)
         == Detail(KeyOf(row), if row.department == "" then "-" else row.department, None, None, 1)
  {
  }

  /** A row without an employee gives the client an employee-day the server lacks. */
  lemma ClientHasMore(rows: seq<Row>, events: seq<Row>, server: seq<Detail>, client: seq<Detail>)
    requires forall r :: r in rows <==> r in events
    requires IsAttendance(Named(rows), server) && IsAttendance(events, client)
    requires !AllHaveEmployees(rows)
    ensures |server| < |client|
  {
    var odd :| odd in rows && odd.employee == "";
    forall d | d in server ensures d.key in KeysOf(client) && d.key.employee != "" {
      var r :| r in Named(rows) && KeyOf(r) == d.key;
      NamedIn(rows, r);
      var e :| e in client && e.key == KeyOf(r);
    }
    var e :| e in client && e.key == KeyOf(odd);
    assert KeyOf(odd) in KeysOf(client) && KeyOf(odd) !in KeysOf(server);
    KeysCounted(server);
    KeysCounted(client);
    Fewer(KeysOf(server), KeysOf(client));
  }
}
