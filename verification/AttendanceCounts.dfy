/** What the figures of a report are, said of the rows alone: how many employee-days have a
    granted IN, a granted OUT, a denial, and how long it is from an IN to an OUT. */
module AttendanceCounts {
  import opened Sums
  import opened Attendance

  /** Figures of one department. `time` is in microseconds, before any division or
      rounding. */
  datatype Stat = Stat(time: int, workDays: int, employees: set<string>, totalRows: int, normalRows: int)

  datatype Summary = Summary(
    totalRows: int,
    attendedRows: int,
    normalRows: int,
    anomalyDays: int,
    stayTime: int,
    stayCount: int,
    attendees: set<string>,
    trend: map<Day, set<string>>,
    departments: map<string, Stat>)

  /** The employee-days that occur. */
  ghost function Occurring(rows: seq<Row>): set<Key> { set r | r in rows :: KeyOf(r) }

  /** Those with a granted swipe in the direction. */
  ghost function WithGranted(rows: seq<Row>, direction: string): set<Key> {
    set r | r in rows && r.decision == "GRANTED" && r.direction == direction :: KeyOf(r)
  }

  ghost function WithDenied(rows: seq<Row>): set<Key> { set r | r in rows && r.decision == "DENIED" :: KeyOf(r) }

  /** Those with a granted IN, a granted OUT and no denial. */
  ghost function Fine(rows: seq<Row>): set<Key> {
    WithGranted(rows, "IN") * WithGranted(rows, "OUT") - WithDenied(rows)
  }

  /** Those that lack a granted IN or a granted OUT, or have a denial. */
  ghost function Odd(rows: seq<Row>): set<Key> {
    (Occurring(rows) - WithGranted(rows, "IN")) + (Occurring(rows) - WithGranted(rows, "OUT")) + WithDenied(rows)
  }

  /** A granted IN and a later granted OUT of one employee and day. */
  predicate InThenOut(r: Row, q: Row) {
    && KeyOf(r) == KeyOf(q) && r.decision == q.decision == "GRANTED" && r.direction == "IN" && q.direction == "OUT"
    && r.at < q.at
  }

  ghost function WithStay(rows: seq<Row>): set<Key> {
    set r, q | r in rows && q in rows && InThenOut(r, q) :: KeyOf(r)
  }

  /** The longest time from an IN to an OUT of the day. */
  ghost predicate IsLongest(rows: seq<Row>, k: Key, time: int) {
    && (exists r, q :: r in rows && q in rows && KeyOf(r) == k && InThenOut(r, q) && q.at - r.at == time)
    && (forall r, q :: r in rows && q in rows && KeyOf(r) == k && InThenOut(r, q) ==> q.at - r.at <= time)
  }

  ghost function Longest(rows: seq<Row>): Key -> int {
    (k: Key) => if time :| IsLongest(rows, k, time) then time else 0
  }

  lemma LongestIs(rows: seq<Row>, k: Key, time: int)
    requires IsLongest(rows, k, time)
    ensures Longest(rows)(k) == time
  {
  }

  /** The employee-days of a department. */
  ghost function InDepartment(rows: seq<Row>, department: string): set<Key> {
    set k | k in Occurring(rows) && LastDepartment(rows, k) == department
  }

  ghost function EmployeesOf(keys: set<Key>): set<string> { set k | k in keys :: k.employee }
  ghost function EmployeesOn(keys: set<Key>, day: Day): set<string> { set k | k in keys && k.day == day :: k.employee }

  /** The figures of a department are those of its employee-days. */
  ghost predicate CountsDepartment(rows: seq<Row>, department: string, stat: Stat) {
    var own := InDepartment(rows, department);
    && stat.totalRows == |own|
    && stat.normalRows == |own * Fine(rows)|
    && stat.workDays == |own * WithStay(rows)|
    && stat.employees == EmployeesOf(own * WithStay(rows))
    && stat.time == SumSet(own * WithStay(rows), Longest(rows))
  }

  /** A day is attended if it has a granted IN; normal if it has a granted IN, a granted OUT
      and no denial; an anomaly if it lacks one of the two or has a denial; and a stay if an
      OUT comes after an IN, as long as the longest time between the two. */
  ghost predicate CountsRows(rows: seq<Row>, m: Summary) {
    && m.totalRows == |Occurring(rows)|
    && m.attendedRows == |WithGranted(rows, "IN")|
    && m.normalRows == |Fine(rows)|
    && m.anomalyDays == |Odd(rows)|
    && m.stayCount == |WithStay(rows)|
    && m.stayTime == SumSet(WithStay(rows), Longest(rows))
    && m.attendees == EmployeesOf(WithGranted(rows, "IN"))
    && (forall day :: (if day in m.trend then m.trend[day] else {}) == EmployeesOn(WithGranted(rows, "IN"), day))
    && (forall day :: day in m.trend ==> m.trend[day] != {})
    && CountsDepartments(rows, m.departments)
  }

  ghost predicate CountsDepartments(rows: seq<Row>, departments: map<string, Stat>) {
    && (forall department :: department in departments <==> InDepartment(rows, department) != {})
    && (forall department :: department in departments ==>
          CountsDepartment(rows, department, departments[department]))
  }
}
