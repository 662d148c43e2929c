/** The two programs that compute attendance: `_compute_report_center_attendance` on the
    server and `buildAttendanceDetails` in the browser. */
module AttendanceFolds {
  import opened Text
  import opened Attendance

  /** Everything `Describes` says of a detail except that its key occurs. */
  ghost predicate Agrees(rows: seq<Row>, d: Detail) {
    && Earliest(rows, d.key, d.firstIn)
    && Latest(rows, d.key, d.lastOut)
    && d.denied == Denials(rows, d.key)
    && d.department == LastDepartment(rows, d.key)
  }

  /** What the one-pass loop makes of an employee-day on reading one of its rows. */
  function Updated(d: Detail, r: Row): Detail {
    var named := if r.department != "" then d.(department := r.department) else d;
    if r.decision == "GRANTED" && r.direction == "IN"
    then named.(firstIn := if d.firstIn.None? || r.at < d.firstIn.value then Some(r.at) else d.firstIn)
    else if r.decision == "GRANTED" && r.direction == "OUT"
    then named.(lastOut := if d.lastOut.None? || r.at > d.lastOut.value then Some(r.at) else d.lastOut)
    else if r.decision == "DENIED" then named.(denied := d.denied + 1)
    else named
  }

  lemma EarliestGrows(rows: seq<Row>, r: Row, k: Key, t: Option<int>)
    requires Earliest(rows, k, t)
    ensures Earliest(rows + [r], k,
                     if GrantedIn(r, k) && (t.None? || r.at < t.value) then Some(r.at) else t)
  {
    var more := rows + [r];
    assert forall q :: q in more <==> q in rows || q == r;
  }

  lemma LatestGrows(rows: seq<Row>, r: Row, k: Key, t: Option<int>)
    requires Latest(rows, k, t)
    ensures Latest(rows + [r], k,
                   if GrantedOut(r, k) && (t.None? || r.at > t.value) then Some(r.at) else t)
  {
    var more := rows + [r];
    assert forall q :: q in more <==> q in rows || q == r;
  }

  lemma RowAdded(rows: seq<Row>, r: Row, d: Detail)
    requires Agrees(rows, d)
    ensures KeyOf(r) == d.key ==> Agrees(rows + [r], Updated(d, r))
    ensures KeyOf(r) != d.key ==> Agrees(rows + [r], d)
  {
    EarliestGrows(rows, r, d.key, d.firstIn);
    LatestGrows(rows, r, d.key, d.lastOut);
    assert (rows + [r])[..|rows|] == rows;
  }

  lemma {:induction false} NothingYet(rows: seq<Row>, k: Key)
    requires forall r :: r in rows ==> KeyOf(r) != k
    ensures Agrees(rows, Detail(k, "-", None, None, 0))
  {
    if rows != [] {
      var front := rows[..|rows| - 1];
      assert rows == front + [rows[|rows| - 1]];
      NothingYet(front, k);
      RowAdded(front, rows[|rows| - 1], Detail(k, "-", None, None, 0));
    }
  }

  // ----- the server: one pass -----

  /** Rows the server counts: it skips rows without an employee. */
  function Named(rows: seq<Row>): seq<Row> {
    if rows == [] then []
    else Named(rows[..|rows| - 1]) + if rows[|rows| - 1].employee == "" then [] else [rows[|rows| - 1]]
  }

  lemma {:induction false} NamedIn(rows: seq<Row>, r: Row)
    ensures r in Named(rows) <==> r in rows && r.employee != ""
  {
    if rows != [] {
      NamedIn(rows[..|rows| - 1], r);
      assert rows == rows[..|rows| - 1] + [rows[|rows| - 1]];
    }
  }

  /** The groups dictionary, with the insertion order its values come out in. */
  ghost predicate GroupsAre(rows: seq<Row>, groups: map<Key, Detail>, order: seq<Key>) {
    && (forall i, j :: 0 <= i < j < |order| ==> order[i] != order[j])
    && (forall k :: k in order <==> k in groups)
    && (forall k :: k in groups ==> groups[k].key == k && Describes(rows, groups[k]))
    && (forall r :: r in rows ==> KeyOf(r) in groups)
  }

  lemma DescribesGrows(rows: seq<Row>, r: Row, d: Detail)
    requires Describes(rows, d)
    ensures KeyOf(r) == d.key ==> Describes(rows + [r], Updated(d, r))
    ensures KeyOf(r) != d.key ==> Describes(rows + [r], d)
  {
    RowAdded(rows, r, d);
    assert forall q :: q in rows ==> q in rows + [r];
  }

  lemma DescribesFirst(rows: seq<Row>, r: Row)
    requires forall q :: q in rows ==> KeyOf(q) != KeyOf(r)
    ensures Describes(rows + [r], Updated(Detail(KeyOf(r), "-", None, None, 0), r))
  {
    hide Agrees, Describes, Updated, LastDepartment, Denials, Earliest, Latest;
    NothingYet(rows, KeyOf(r));
    RowAdded(rows, r, Detail(KeyOf(r), "-", None, None, 0));
    UpdatedKey(Detail(KeyOf(r), "-", None, None, 0), r);
    assert r in rows + [r];
    AgreesDescribes(rows + [r], Updated(Detail(KeyOf(r), "-", None, None, 0), r), r);
  }

  lemma AgreesDescribes(rows: seq<Row>, d: Detail, r: Row)
    requires Agrees(rows, d) && r in rows && KeyOf(r) == d.key
    ensures Describes(rows, d)
  {
    hide Earliest, Latest, Denials, LastDepartment;
  }

  /** Setting `k` to `d` while every other group still describes the longer reading. */
  lemma GroupsSet(rows: seq<Row>, r: Row, groups: map<Key, Detail>, order: seq<Key>, d: Detail)
    requires GroupsAre(rows, groups, order)
    requires d.key == KeyOf(r) && Describes(rows + [r], d)
    requires forall m :: m in groups && m != d.key ==> Describes(rows + [r], groups[m])
    ensures d.key in groups ==> GroupsAre(rows + [r], groups[d.key := d], order)
    ensures d.key !in groups ==> GroupsAre(rows + [r], groups[d.key := d], order + [d.key])
  {
    hide Describes;
    assert forall q :: q in rows + [r] <==> q in rows || q == r;
  }

  lemma GroupsGrow(rows: seq<Row>, r: Row, groups: map<Key, Detail>, order: seq<Key>)
    requires GroupsAre(rows, groups, order)
    ensures KeyOf(r) in groups ==>
      GroupsAre(rows + [r], groups[KeyOf(r) := Updated(groups[KeyOf(r)], r)], order)
    ensures KeyOf(r) !in groups ==>
      GroupsAre(rows + [r], groups[KeyOf(r) := Updated(Detail(KeyOf(r), "-", None, None, 0), r)], order + [KeyOf(r)])
  {
    hide Describes, Updated;
    var k := KeyOf(r);
    var before := if k in groups then groups[k] else Detail(k, "-", None, None, 0);
    if k in groups { DescribesGrows(rows, r, groups[k]); } else { DescribesFirst(rows, r); }
    UpdatedKey(before, r);
    forall m | m in groups && m != k ensures Describes(rows + [r], groups[m]) {
      DescribesGrows(rows, r, groups[m]);
    }
    GroupsSet(rows, r, groups, order, Updated(before, r));
  }

  lemma UpdatedKey(d: Detail, r: Row)
    ensures Updated(d, r).key == d.key
  {
  }

  /** `groups.values()`. */
  function Values(groups: map<Key, Detail>, order: seq<Key>): (r: seq<Detail>)
    requires forall k :: k in order ==> k in groups
    ensures |r| == |order| && forall i :: 0 <= i < |r| ==> r[i] == groups[order[i]]
  {
    seq(|order|, i requires 0 <= i < |order| => assert order[i] in order; groups[order[i]])
  }

  lemma ValuesAreAttendance(rows: seq<Row>, groups: map<Key, Detail>, order: seq<Key>)
    requires GroupsAre(rows, groups, order)
    ensures (forall k :: k in order ==> k in groups) && IsAttendance(rows, Values(groups, order))
  {
    hide Describes;
    var details := Values(groups, order);
    forall r | r in rows ensures exists d :: d in details && d.key == KeyOf(r) {
      assert KeyOf(r) in order;
      var i :| 0 <= i < |order| && order[i] == KeyOf(r);
      assert details[i] in details;
    }
    forall d | d in details ensures Describes(rows, d) {
      var i :| 0 <= i < |details| && details[i] == d;
      assert order[i] in order;
    }
    forall i, j | 0 <= i < j < |details| ensures details[i].key != details[j].key {
      assert order[i] in order && order[j] in order;
    }
  }

  /** The body of the loop for one row of a group. */
  method ReadRow(before: Detail, row: Row) returns (group: Detail)
    ensures group == Updated(before, row)
  {
    group := before;
    if row.department != "" { group := group.(department := row.department); }
    if row.decision == "GRANTED" && row.direction == "IN" {
      if group.firstIn.None? || row.at < group.firstIn.value { group := group.(firstIn := Some(row.at)); }
    } else if row.decision == "GRANTED" && row.direction == "OUT" {
      if group.lastOut.None? || row.at > group.lastOut.value { group := group.(lastOut := Some(row.at)); }
    } else if row.decision == "DENIED" {
      group := group.(denied := group.denied + 1);
    }
  }

  /** The grouping loop of `_compute_report_center_attendance`: running minimum of
      granted INs, running maximum of granted OUTs, count of denials. */
  method OnePass(rows: seq<Row>) returns (details: seq<Detail>)
    ensures IsAttendance(Named(rows), details)
  {
    hide GroupsAre;
    var groups: map<Key, Detail> := map[];
    var order: seq<Key> := [];
    NoGroups();
    for i := 0 to |rows|
      invariant GroupsAre(Named(rows[..i]), groups, order)
    {
      var row := rows[i];
      NamedNext(rows, i);
      if row.employee != "" {
        var key := KeyOf(row);
        GroupsGrow(Named(rows[..i]), row, groups, order);
        if key !in groups {
          var first := ReadRow(Detail(key, "-", None, None, 0), row);
          groups := groups[key := first];
          order := order + [key];
        } else {
          var group := ReadRow(groups[key], row);
          groups := groups[key := group];
        }
      }
    }
    assert rows[..|rows|] == rows;
    ValuesAreAttendance(Named(rows), groups, order);
    details := Values(groups, order);
  }

  lemma NamedNext(rows: seq<Row>, i: nat)
    requires i < |rows|
    ensures rows[i].employee != "" ==> Named(rows[..i + 1]) == Named(rows[..i]) + [rows[i]]
    ensures rows[i].employee == "" ==> Named(rows[..i + 1]) == Named(rows[..i])
  {
    assert rows[..i + 1][..i] == rows[..i];
  }

  lemma NoGroups()
    ensures GroupsAre([], map[], [])
  {
  }

  // ----- the client: gather, sort, pick the ends -----

  /** A row under construction: the raw arrays, not yet the figures read off them. */
  datatype Gathered = Gathered(key: Key, department: string, grantedIn: seq<int>, grantedOut: seq<int>, anomalies: nat)

  predicate Ascending(s: seq<int>) { forall i, j :: 0 <= i < j < |s| ==> s[i] <= s[j] }

  function Insert(s: seq<int>, x: int): seq<int> {
    if s == [] || x <= s[0] then [x] + s else [s[0]] + Insert(s[1..], x)
  }

  /** `sort((a, b) => a - b)`. */
  function Sort(s: seq<int>): seq<int> {
    if s == [] then [] else Insert(Sort(s[..|s| - 1]), s[|s| - 1])
  }

  lemma {:induction false} InsertContents(s: seq<int>, x: int)
    ensures multiset(Insert(s, x)) == multiset(s) + multiset{x}
  {
    if s != [] && x > s[0] {
      InsertContents(s[1..], x);
      assert s == [s[0]] + s[1..];
    }
  }

  lemma {:induction false} InsertEnds(s: seq<int>, x: int)
    requires Ascending(s)
    ensures Insert(s, x) != []
    ensures Insert(s, x)[0] == if s == [] || x <= s[0] then x else s[0]
    ensures Insert(s, x)[|Insert(s, x)| - 1] == if s == [] || x > s[|s| - 1] then x else s[|s| - 1]
  {
    InsertUnfold(s, x);
    if s != [] && x > s[0] {
      AscendingTail(s);
      hide Insert, Ascending;
      InsertEnds(s[1..], x);
    }
  }

  lemma InsertUnfold(s: seq<int>, x: int)
    ensures Insert(s, x) == if s == [] || x <= s[0] then [x] + s else [s[0]] + Insert(s[1..], x)
  {
  }

  lemma AscendingFrom(x: int, s: seq<int>)
    requires Ascending(s) && (s != [] ==> x <= s[0])
    ensures Ascending([x] + s)
  {
  }

  lemma {:induction false} InsertKeeps(s: seq<int>, x: int)
    requires Ascending(s)
    ensures Ascending(Insert(s, x))
  {
    if s == [] || x <= s[0] {
      AscendingFrom(x, s);
    } else {
      AscendingTail(s);
      InsertKeeps(s[1..], x);
      InsertEnds(s[1..], x);
      AscendingFrom(s[0], Insert(s[1..], x));
    }
  }

  lemma AscendingTail(s: seq<int>)
    requires Ascending(s) && s != []
    ensures Ascending(s[1..]) && (|s| > 1 ==> s[0] <= s[1])
  {
  }

  lemma SortNext(s: seq<int>, x: int)
    ensures Sort(s + [x]) == Insert(Sort(s), x) && Sort([]) == []
  {
    assert (s + [x])[..|s|] == s;
  }

  lemma {:induction false} SortKeeps(s: seq<int>)
    ensures Ascending(Sort(s)) && multiset(Sort(s)) == multiset(s)
  {
    hide Sort, Insert, Ascending;
    SortNext(s, 0);
    if s == [] {
      NothingAscends();
    } else {
      var front, x := s[..|s| - 1], s[|s| - 1];
      assert s == front + [x];
      SortNext(front, x);
      SortKeeps(front);
      InsertKeeps(Sort(front), x);
      InsertContents(Sort(front), x);
    }
  }

  lemma NothingAscends()
    ensures Ascending([])
  {
  }

  lemma SortLength(s: seq<int>)
    ensures |Sort(s)| == |s|
  {
    hide Sort;
    SortKeeps(s);
    assert |multiset(s)| == |s| && |multiset(Sort(s))| == |Sort(s)|;
  }

  function First(s: seq<int>): Option<int> { if s == [] then None else Some(s[0]) }
  function Last(s: seq<int>): Option<int> { if s == [] then None else Some(s[|s| - 1]) }

  /** The `map` over the groups that ends `buildAttendanceDetails`. */
  function Finish(g: Gathered): Detail {
    Detail(g.key, g.department, First(Sort(g.grantedIn)), Last(Sort(g.grantedOut)), g.anomalies)
  }

  method PushRow(before: Gathered, event: Row) returns (row: Gathered)
    ensures row.key == before.key && Finish(row) == Updated(Finish(before), event)
  {
    hide Sort;
    row := before;
    Pushed(before.grantedIn, event.at);
    Pushed(before.grantedOut, event.at);
    if event.department != "" { row := row.(department := event.department); }
    if event.decision == "GRANTED" && event.direction == "IN" { row := row.(grantedIn := row.grantedIn + [event.at]); }
    if event.decision == "GRANTED" && event.direction == "OUT" {
      row := row.(grantedOut := row.grantedOut + [event.at]);
    }
    if event.decision == "DENIED" { row := row.(anomalies := row.anomalies + 1); }
  }

  /** The ends of a sorted list move like a running minimum and maximum. */
  lemma Pushed(s: seq<int>, x: int)
    ensures First(Sort(s + [x])) == if s == [] || x < First(Sort(s)).value then Some(x) else First(Sort(s))
    ensures Last(Sort(s + [x])) == if s == [] || x > Last(Sort(s)).value then Some(x) else Last(Sort(s))
    ensures s == [] <==> Sort(s) == []
  {
    hide Sort, Insert, Ascending;
    SortKeeps(s);
    SortLength(s);
    SortNext(s, x);
    InsertEnds(Sort(s), x);
  }

  function Finished(groups: map<Key, Gathered>): map<Key, Detail> {
    map k | k in groups :: Finish(groups[k])
  }

  /** `buildAttendanceDetails`, before its final ordering for display, over events with the
      times the browser has. It reads every event, also one without an employee. */
  method BuildAttendanceDetails(events: seq<Row>) returns (details: seq<Detail>)
    ensures IsAttendance(events, details)
  {
    hide GroupsAre, Finish, Updated;
    var groups: map<Key, Gathered> := map[];
    var order: seq<Key> := [];
    NoGroups();
    assert Finished(groups) == map[];
    for i := 0 to |events|
      invariant GroupsAre(events[..i], Finished(groups), order)
    {
      var event := events[i];
      var key := KeyOf(event);
      GroupsGrow(events[..i], event, Finished(groups), order);
      assert events[..i + 1] == events[..i] + [event];
      NothingGathered(key);
      var before := if key in groups then groups[key] else Gathered(key, "-", [], [], 0);
      var row := PushRow(before, event);
      if key !in groups { order := order + [key]; }
      ghost var earlier := groups;
      groups := groups[key := row];
      assert Finished(groups) == Finished(earlier)[key := Finish(row)];
    }
    assert events[..|events|] == events;
    ValuesAreAttendance(events, Finished(groups), order);
    GroupKeys(events, Finished(groups), order);
    details := seq(|order|, i requires 0 <= i < |order| => assert order[i] in order; Finish(groups[order[i]]));
    assert details == Values(Finished(groups), order);
  }

  lemma NothingGathered(k: Key)
    ensures Finish(Gathered(k, "-", [], [], 0)) == Detail(k, "-", None, None, 0)
  {
  }

  lemma GroupKeys(rows: seq<Row>, groups: map<Key, Detail>, order: seq<Key>)
    requires GroupsAre(rows, groups, order)
    ensures forall k :: k in order <==> k in groups
  {
  }
}
