/** Attendance per employee and day: the server's one-pass minimum and maximum, and the
    client's group, sort and pick. Both are proved against the same order-free
    description, so they agree although they read the events in opposite orders. */
module Attendance {
  import opened Text
  import opened Sums

  type Day = int

  /** An access event as the reports read it; `at` is in microseconds, `day` its local date. An empty
      department stands for a missing one. */
  datatype Row = Row(employee: string, department: string, gate: string, direction: string, decision: string,
                     at: int, day: Day)

  /** A time as the browser's `Date` keeps it: microseconds are cut off to milliseconds. */
  function Cut(at: int): int { at / 1000 * 1000 }

  function CutRow(r: Row): Row { r.(at := Cut(r.at)) }

  function CutAll(rows: seq<Row>): (r: seq<Row>)
    ensures |r| == |rows|
  {
    if rows == [] then [] else CutAll(rows[..|rows| - 1]) + [CutRow(rows[|rows| - 1])]
  }

  datatype Key = Key(employee: string, day: Day)

  /** One employee-day. */
  datatype Detail = Detail(key: Key, department: string, firstIn: Option<int>, lastOut: Option<int>, denied: nat)

  function KeyOf(r: Row): Key { Key(r.employee, r.day) }

  predicate GrantedIn(r: Row, k: Key) { KeyOf(r) == k && r.decision == "GRANTED" && r.direction == "IN" }
  predicate GrantedOut(r: Row, k: Key) { KeyOf(r) == k && r.decision == "GRANTED" && r.direction == "OUT" }
  predicate DeniedAt(r: Row, k: Key) { KeyOf(r) == k && r.decision == "DENIED" }

  // ----- what an employee-day is, whatever the order of the rows -----

  ghost predicate Earliest(rows: seq<Row>, k: Key, t: Option<int>) {
    match t
    case None => forall r :: r in rows ==> !GrantedIn(r, k)
    case Some(v) =>
      && (exists r :: r in rows && GrantedIn(r, k) && r.at == v)
      && (forall r :: r in rows && GrantedIn(r, k) ==> v <= r.at)
  }

  ghost predicate Latest(rows: seq<Row>, k: Key, t: Option<int>) {
    match t
    case None => forall r :: r in rows ==> !GrantedOut(r, k)
    case Some(v) =>
      && (exists r :: r in rows && GrantedOut(r, k) && r.at == v)
      && (forall r :: r in rows && GrantedOut(r, k) ==> r.at <= v)
  }

  function Denials(rows: seq<Row>, k: Key): int {
    Sum(rows, (r: Row) => if DeniedAt(r, k) then 1 else 0)
  }

  /** The last non-empty department read for an employee-day, "-" if there is none. */
  function LastDepartment(rows: seq<Row>, k: Key): string {
    if rows == [] then "-"
    else
      var r := rows[|rows| - 1];
      if KeyOf(r) == k && r.department != "" then r.department else LastDepartment(rows[..|rows| - 1], k)
  }

  ghost predicate Describes(rows: seq<Row>, d: Detail) {
    && (exists r :: r in rows && KeyOf(r) == d.key)
    && Earliest(rows, d.key, d.firstIn)
    && Latest(rows, d.key, d.lastOut)
    && d.denied == Denials(rows, d.key)
    && d.department == LastDepartment(rows, d.key)
  }

  /** Exactly the employee-days that occur, each once, each rightly described. */
  ghost predicate IsAttendance(rows: seq<Row>, details: seq<Detail>) {
    && (forall i, j :: 0 <= i < j < |details| ==> details[i].key != details[j].key)
    && (forall d :: d in details ==> Describes(rows, d))
    && (forall r :: r in rows ==> exists d :: d in details && d.key == KeyOf(r))
  }

  /** The department of an employee does not change from row to row. */
  ghost predicate OneDepartmentEach(rows: seq<Row>) {
    forall r, q :: r in rows && q in rows && r.employee == q.employee ==> r.department == q.department
  }

  lemma {:induction false} DepartmentIs(rows: seq<Row>, r: Row)
    requires OneDepartmentEach(rows) && r in rows
    ensures LastDepartment(rows, KeyOf(r)) == if r.department == "" then "-" else r.department
  {
    var front, last := rows[..|rows| - 1], rows[|rows| - 1];
    assert rows == front + [last];
    if KeyOf(last) == KeyOf(r) && last.department != "" {
      assert last in rows;
    } else if r in front {
      DepartmentIs(front, r);
    } else {
      NoDepartment(front, KeyOf(r));
    }
  }

  lemma {:induction false} NoDepartment(rows: seq<Row>, k: Key)
    requires forall r :: r in rows && KeyOf(r) == k ==> r.department == ""
    ensures LastDepartment(rows, k) == "-"
  {
    if rows != [] {
      assert rows[|rows| - 1] in rows;
      NoDepartment(rows[..|rows| - 1], k);
    }
  }

  lemma EarliestIsOne(xs: seq<Row>, ys: seq<Row>, k: Key, t: Option<int>, u: Option<int>)
    requires forall r :: r in xs <==> r in ys
    requires Earliest(xs, k, t) && Earliest(ys, k, u)
    ensures t == u
  {
  }

  lemma LatestIsOne(xs: seq<Row>, ys: seq<Row>, k: Key, t: Option<int>, u: Option<int>)
    requires forall r :: r in xs <==> r in ys
    requires Latest(xs, k, t) && Latest(ys, k, u)
    ensures t == u
  {
  }

  lemma DetailIsOne(xs: seq<Row>, ys: seq<Row>, d: Detail, e: Detail)
    requires multiset(xs) == multiset(ys) && OneDepartmentEach(xs)
    requires Describes(xs, d) && Describes(ys, e) && d.key == e.key
    ensures d == e
  {
    SameRows(xs, ys);
    EarliestIsOne(xs, ys, d.key, d.firstIn, e.firstIn);
    LatestIsOne(xs, ys, d.key, d.lastOut, e.lastOut);
    SumPermuted(xs, ys, (q: Row) => if DeniedAt(q, d.key) then 1 else 0);
    var r :| r in xs && KeyOf(r) == d.key;
    DepartmentIs(xs, r);
    DepartmentIs(ys, r);
  }

  lemma SameRows(xs: seq<Row>, ys: seq<Row>)
    requires multiset(xs) == multiset(ys)
    ensures forall r :: r in xs <==> r in ys
  {
    assert forall r :: r in xs <==> r in multiset(ys);
  }

  lemma DetailIsThere(xs: seq<Row>, ys: seq<Row>, b: seq<Detail>, d: Detail)
    requires multiset(xs) == multiset(ys) && OneDepartmentEach(xs)
    requires Describes(xs, d) && IsAttendance(ys, b)
    ensures d in b
  {
    SameRows(xs, ys);
    var r :| r in xs && KeyOf(r) == d.key;
    var e :| e in b && e.key == KeyOf(r);
    DetailIsOne(xs, ys, d, e);
  }

  /** Two readings of the same rows, in any orders, yield the same employee-days. */
  lemma SameAttendance(xs: seq<Row>, ys: seq<Row>, a: seq<Detail>, b: seq<Detail>)
    requires multiset(xs) == multiset(ys) && OneDepartmentEach(xs)
    requires IsAttendance(xs, a) && IsAttendance(ys, b)
    ensures multiset(a) == multiset(b)
  {
    SameRows(xs, ys);
    forall d | d in a ensures d in b { DetailIsThere(xs, ys, b, d); }
    forall d | d in b ensures d in a { DetailIsThere(ys, xs, a, d); }
    hide Describes;
    SameElements(a, b);
  }

  // ----- times cut to milliseconds -----

  function CutTime(t: Option<int>): Option<int> { match t case None => None case Some(v) => Some(Cut(v)) }

  function CutDetail(d: Detail): Detail { d.(firstIn := CutTime(d.firstIn), lastOut := CutTime(d.lastOut)) }

  lemma {:induction false} CutIn(rows: seq<Row>, q: Row)
    ensures q in CutAll(rows) <==> exists r :: r in rows && CutRow(r) == q
  {
    if rows != [] {
      var front, last := rows[..|rows| - 1], rows[|rows| - 1];
      assert rows == front + [last];
      CutIn(front, q);
    }
  }

  lemma {:induction false} CutCounts(rows: seq<Row>, k: Key)
    ensures Denials(CutAll(rows), k) == Denials(rows, k) && LastDepartment(CutAll(rows), k) == LastDepartment(rows, k)
  {
    if rows != [] {
      var front, last := rows[..|rows| - 1], rows[|rows| - 1];
      CutCounts(front, k);
      assert (CutAll(front) + [CutRow(last)])[..|front|] == CutAll(front);
    }
  }

  lemma CutOrder(a: int, b: int)
    ensures a <= b ==> Cut(a) <= Cut(b)
  {
  }

  lemma CutEarliest(rows: seq<Row>, k: Key, t: Option<int>)
    requires Earliest(rows, k, t)
    ensures Earliest(CutAll(rows), k, CutTime(t))
  {
    hide Cut, CutAll;
    forall q ensures q in CutAll(rows) <==> exists r :: r in rows && CutRow(r) == q { CutIn(rows, q); }
    if t.Some? {
      var first :| first in rows && GrantedIn(first, k) && first.at == t.value;
      assert CutRow(first) in CutAll(rows) && GrantedIn(CutRow(first), k);
      forall q | q in CutAll(rows) && GrantedIn(q, k) ensures Cut(t.value) <= q.at {
        var r :| r in rows && CutRow(r) == q;
        CutOrder(t.value, r.at);
      }
    }
  }

  lemma CutLatest(rows: seq<Row>, k: Key, t: Option<int>)
    requires Latest(rows, k, t)
    ensures Latest(CutAll(rows), k, CutTime(t))
  {
    hide Cut, CutAll;
    forall q ensures q in CutAll(rows) <==> exists r :: r in rows && CutRow(r) == q { CutIn(rows, q); }
    if t.Some? {
      var last :| last in rows && GrantedOut(last, k) && last.at == t.value;
      assert CutRow(last) in CutAll(rows) && GrantedOut(CutRow(last), k);
      forall q | q in CutAll(rows) && GrantedOut(q, k) ensures q.at <= Cut(t.value) {
        var r :| r in rows && CutRow(r) == q;
        CutOrder(r.at, t.value);
      }
    }
  }

  /** Cutting the rows cuts the ends of each employee-day and changes nothing else. */
  lemma CutDescribes(rows: seq<Row>, d: Detail)
    requires Describes(rows, d)
    ensures Describes(CutAll(rows), CutDetail(d))
  {
    hide Earliest, Latest, Denials, LastDepartment, Cut;
    CutEarliest(rows, d.key, d.firstIn);
    CutLatest(rows, d.key, d.lastOut);
    CutCounts(rows, d.key);
    var r :| r in rows && KeyOf(r) == d.key;
    CutIn(rows, CutRow(r));
    hide CutAll;
    assert KeyOf(CutRow(r)) == d.key;
  }

  function CutDetails(s: seq<Detail>): (r: seq<Detail>)
    ensures |r| == |s| && forall i :: 0 <= i < |s| ==> r[i] == CutDetail(s[i])
  {
    seq(|s|, i requires 0 <= i < |s| => CutDetail(s[i]))
  }

  lemma CutAttendance(rows: seq<Row>, s: seq<Detail>)
    requires IsAttendance(rows, s)
    ensures IsAttendance(CutAll(rows), CutDetails(s))
  {
    hide Describes, CutAll, Cut;
    forall d | d in CutDetails(s) ensures Describes(CutAll(rows), d) {
      var i :| 0 <= i < |s| && CutDetails(s)[i] == d;
      assert s[i] in s;
      CutDescribes(rows, s[i]);
    }
    forall q | q in CutAll(rows) ensures exists d :: d in CutDetails(s) && d.key == KeyOf(q) {
      CutIn(rows, q);
      var r :| r in rows && CutRow(r) == q;
      var d :| d in s && d.key == KeyOf(r);
      var i :| 0 <= i < |s| && s[i] == d;
      assert CutDetails(s)[i] in CutDetails(s);
    }
  }
}
