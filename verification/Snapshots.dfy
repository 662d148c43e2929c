/** Stored reports that several users share: the lookup key, who may use a shared one, and
    why what is read back is the reader's own report. */
module Snapshots {
  import opened Text
  import opened Hierarchy
  import opened Visibility
  import opened Attendance

  datatype Request = Request(preset: string, department: Option<string>, since: int, until: int, limit: nat)

  /** What the scope key spells out and its hash stands for. */
  datatype Effective =
    | Shared(departments: set<string>)
    | Own(role: Option<string>, employee: Option<string>, visible: Option<set<string>>, excluded: set<string>)

  datatype LookupKey = LookupKey(userKey: string, preset: string, target: string, effective: Effective, since: int,
                                 until: int, limit: nat)

  /** `_can_use_shared_department_snapshot`. */
  ghost predicate CanShare(dir: Directory, user: Option<User>, visible: Option<set<string>>,
                           department: Option<string>) {
    user.Some? && department.Some? && (visible.None? || Closure(dir.departments, department.value) <= visible.value)
  }

  predicate Manages(user: User) { user.role in {"MANAGER", "EXECUTIVE", "ADMIN"} }

  function Excluded(user: Option<User>): set<string> {
    if user.None? || !Manages(user.value) || user.value.department == "" then {} else {user.value.department}
  }

  ghost function EffectiveScope(dir: Directory, user: Option<User>, visible: Option<set<string>>,
                                department: Option<string>): Effective {
    if CanShare(dir, user, visible, department) then Shared(Closure(dir.departments, department.value))
    else Own(if user.None? then None else Some(user.value.role), if user.None? then None else Some(user.value.employee),
             Narrowed(dir, user, visible, department), Excluded(user))
  }

  function Target(department: Option<string>): string {
    if department == None || department == Some("") then "ALL" else department.value
  }

  /** `_report_center_snapshot_lookup`. */
  ghost function LookupOf(dir: Directory, user: Option<User>, visible: Option<set<string>>, r: Request): LookupKey {
    LookupKey(
      if CanShare(dir, user, visible, r.department) then "department:" + r.department.value
      else if user.None? then "anonymous" else "user:" + user.value.id,
      r.preset, Target(r.department), EffectiveScope(dir, user, visible, r.department), r.since, r.until, r.limit)
  }

  /** An EMPLOYEE tied to an employee record sees only that employee's rows. */
  predicate OwnRowsOnly(user: Option<User>) {
    user.Some? && user.value.role == "EMPLOYEE" && user.value.employee != ""
  }

  /** Whose rows alone a user sees, if the user is restricted so. */
  function OwnFilter(user: Option<User>): Option<string> {
    if OwnRowsOnly(user) then Some(user.value.employee) else None
  }

  predicate InScope(row: Row, user: Option<User>, ids: Option<set<string>>) {
    && Selects(ids, if row.department == "" then None else Some(row.department))
    && (OwnRowsOnly(user) ==> row.employee == user.value.employee)
  }

  /** `_dashboard_event_rows`: what a user's report is computed from. */
  function Scoped(rows: seq<Row>, user: Option<User>, ids: Option<set<string>>): seq<Row> {
    if rows == [] then []
    else Scoped(rows[..|rows| - 1], user, ids) + if InScope(rows[|rows| - 1], user, ids) then [rows[|rows| - 1]] else []
  }

  lemma {:induction false} ScopedSame(rows: seq<Row>, a: Option<User>, b: Option<User>, ids: Option<set<string>>)
    requires OwnFilter(a) == OwnFilter(b)
    ensures Scoped(rows, a, ids) == Scoped(rows, b, ids)
  {
    if rows != [] { ScopedSame(rows[..|rows| - 1], a, b, ids); }
  }

  /** Which rows a user's report reads: an EMPLOYEE tied to a record the own rows alone, anyone
      else all those of the departments; rows without a department only if all are seen. */
  lemma {:induction false} ScopedExactly(rows: seq<Row>, user: Option<User>, ids: Option<set<string>>, row: Row)
    ensures row in Scoped(rows, user, ids) <==>
      && row in rows
      && (ids == None || (row.department != "" && row.department in ids.value))
      && (user.Some? && user.value.role == "EMPLOYEE" && user.value.employee != "" ==>
            row.employee == user.value.employee)
  {
    if rows != [] {
      var front, last := rows[..|rows| - 1], rows[|rows| - 1];
      assert rows == front + [last];
      ScopedExactly(front, user, ids, row);
    }
  }

  lemma ScopedOne(row: Row, user: Option<User>, ids: Option<set<string>>)
    ensures Scoped([row], user, ids) == if InScope(row, user, ids) then [row] else []
  {
    assert [row][..0] == [];
    assert Scoped([], user, ids) == [];
  }

  /** The rows behind a request of a user. */
  ghost function RowsOf(dir: Directory, rows: seq<Row>, user: Option<User>, visible: Option<set<string>>,
                        department: Option<string>): seq<Row> {
    Scoped(rows, user, Narrowed(dir, user, visible, department))
  }

  // ----- sharing -----

  /** A user shares an executive's lookup key and scope for a department exactly when the
      department and all below it are visible to the user. */
  lemma SharesKeyExactly(dir: Directory, user: Option<User>, visible: Option<set<string>>, executive: User,
                         department: string, r: Request)
    requires r.department == Some(department)
    ensures LookupOf(dir, user, visible, r) == LookupOf(dir, Some(executive), None, r) <==>
      CanShare(dir, user, visible, Some(department))
  {
    var key := LookupOf(dir, Some(executive), None, r);
    assert key.effective.Shared?;
  }

  /** Then the narrowed departments are the executive's too. */
  lemma SharedScopeIsExecutives(dir: Directory, user: User, visible: Option<set<string>>, department: string)
    requires Sound(dir) && IsVisible(dir, user, visible)
    requires user.department == "" || user.department in Ids(dir.departments)
    requires CanShare(dir, Some(user), visible, Some(department))
    ensures Narrowed(dir, Some(user), visible, Some(department)) == Narrowed(dir, Some(user), None, Some(department))
  {
    if visible.Some? {
      ClosureHas(dir.departments, department, department);
      VisibleKnown(dir, user, visible.value);
      assert Closure(dir.departments, department) * visible.value == Closure(dir.departments, department);
    }
  }

  lemma VisibleKnown(dir: Directory, user: User, ids: set<string>)
    requires Sound(dir) && IsVisible(dir, user, Some(ids))
    requires user.department == "" || user.department in Ids(dir.departments)
    ensures ids <= Ids(dir.departments) && "" !in ids
  {
    forall b | b in ids ensures b in Ids(dir.departments) {
      if Granted(dir, user, dir.scopes, b) { GrantedKnown(dir, user, b); }
    }
  }

  ghost predicate SameForAllData(dir: Directory, user: User, visible: Option<set<string>>, executive: User,
                                 department: string) {
    forall rows ::
      RowsOf(dir, rows, Some(user), visible, Some(department))
          == RowsOf(dir, rows, Some(executive), None, Some(department))
  }

  /** On whatever data, a user who may share a department's report would compute it from
      the executive's rows, if and only if the user is not restricted to his own rows. */
  lemma SharedReportIsOwn(dir: Directory, user: User, visible: Option<set<string>>, executive: User, department: string)
    requires Sound(dir) && IsVisible(dir, user, visible) && executive.role == "EXECUTIVE"
    requires user.department == "" || user.department in Ids(dir.departments)
    requires CanShare(dir, Some(user), visible, Some(department)) && department in Ids(dir.departments)
    ensures SameForAllData(dir, user, visible, executive, department) <==> !OwnRowsOnly(Some(user))
  {
    hide Sound, Closure, IsVisible, CanShare;
    SharedScopeIsExecutives(dir, user, visible, department);
    DepartmentNamed(dir, department);
    var ids := Narrowed(dir, Some(executive), None, Some(department));
    ClosureHas(dir.departments, department, department);
    if OwnRowsOnly(Some(user)) {
      var row := Row(user.employee + "x", department, "", "", "", 0, 0);
      assert InScope(row, Some(executive), ids) && !InScope(row, Some(user), ids);
      ScopedOne(row, Some(executive), ids);
      ScopedOne(row, Some(user), ids);
      assert RowsOf(dir, [row], Some(user), visible, Some(department)) != RowsOf(dir, [row], Some(executive), None,
          Some(department));
    } else {
      forall rows ensures RowsOf(dir, rows, Some(user), visible, Some(department))
          == RowsOf(dir, rows, Some(executive), None, Some(department)) {
        ScopedSame(rows, Some(user), Some(executive), ids);
      }
    }
  }

  lemma DepartmentNamed(dir: Directory, department: string)
    requires Sound(dir) && department in Ids(dir.departments)
    ensures department != ""
  {
  }

  /** Two requests with one key are reports on the same rows, where the key is shared
      among users who are restricted alike. */
  lemma KeyDeterminesRows(dir: Directory, rows: seq<Row>, a: Option<User>, seenByA: Option<set<string>>,
                          b: Option<User>, seenByB: Option<set<string>>, r: Request, q: Request)
    requires Sound(dir) && Known(dir, a, seenByA) && Known(dir, b, seenByB)
    requires LookupOf(dir, a, seenByA, r) == LookupOf(dir, b, seenByB, q)
    requires CanShare(dir, a, seenByA, r.department) ==> OwnFilter(a) == OwnFilter(b)
    ensures RowsOf(dir, rows, a, seenByA, r.department) == RowsOf(dir, rows, b, seenByB, q.department)
  {
    hide Sound, Closure, IsVisible;
    if CanShare(dir, a, seenByA, r.department) {
      SharedNarrowing(dir, a, seenByA, r.department);
      SharedNarrowing(dir, b, seenByB, q.department);
      PrefixCancels("department:", r.department.value, q.department.value);
    }
    assert Narrowed(dir, a, seenByA, r.department) == Narrowed(dir, b, seenByB, q.department);
    ScopedSame(rows, a, b, Narrowed(dir, a, seenByA, r.department));
  }

  /** The key gives back what was asked for: two requests that differ in the preset, the
      period, the limit or the department have different keys (an empty department and none
      are both the whole); and where it is not shared, who asked and what is seen. */
  lemma KeyGivesBack(dir: Directory, a: Option<User>, seenByA: Option<set<string>>, r: Request,
                     b: Option<User>, seenByB: Option<set<string>>, q: Request)
    requires LookupOf(dir, a, seenByA, r) == LookupOf(dir, b, seenByB, q)
    ensures r.preset == q.preset && r.since == q.since && r.until == q.until && r.limit == q.limit
    ensures r.department == q.department
            || (r.department in {None, Some(""), Some("ALL")} && q.department in {None, Some(""), Some("ALL")})
    ensures !CanShare(dir, a, seenByA, r.department) ==>
      && !CanShare(dir, b, seenByB, q.department) && (a.Some? <==> b.Some?)
      && Narrowed(dir, a, seenByA, r.department) == Narrowed(dir, b, seenByB, q.department)
      && (a.Some? ==> a.value.id == b.value.id && a.value.role == b.value.role && a.value.employee == b.value.employee)
  {
    hide CanShare, Narrowed, Closure;
    SharedOrNot(dir, a, seenByA, r, b, seenByB, q);
    if a.Some? && b.Some? && !CanShare(dir, a, seenByA, r.department) {
      PrefixCancels("user:", a.value.id, b.value.id);
    }
  }

  lemma PrefixCancels(p: string, s: string, t: string)
    requires p + s == p + t
    ensures s == t
  {
    assert (p + s)[|p|..] == s && (p + t)[|p|..] == t;
  }

  /** A user of this directory and what the user sees. */
  ghost predicate Known(dir: Directory, user: Option<User>, visible: Option<set<string>>) {
    user.Some? ==>
      IsVisible(dir, user.value, visible)
          && (user.value.department == "" || user.value.department in Ids(dir.departments))
  }

  lemma SharedNarrowing(dir: Directory, user: Option<User>, visible: Option<set<string>>, department: Option<string>)
    requires Sound(dir) && Known(dir, user, visible) && CanShare(dir, user, visible, department)
    ensures Narrowed(dir, user, visible, department) ==
      if department == Some("") then None else Some(Closure(dir.departments, department.value))
  {
    SharedScopeIsExecutives(dir, user.value, visible, department.value);
    if visible.Some? {
      VisibleKnown(dir, user.value, visible.value);
      ClosureHas(dir.departments, department.value, department.value);
    }
  }

  // ----- the stored reports -----

  /** A stored report for a key is right if it is the report of everyone whose request
      has the key (leaving out those who see only their own rows where it is shared). */
  ghost predicate RightFor<P>(dir: Directory, rows: seq<Row>, report: (seq<Row>, Request) -> P, key: LookupKey,
                              payload: P) {
    forall user, visible, r ::
      Known(dir, user, visible) && LookupOf(dir, user, visible, r) == key
      && (CanShare(dir, user, visible, r.department) ==> !OwnRowsOnly(user)) ==>
        payload == report(RowsOf(dir, rows, user, visible, r.department), KeyRequest(key))
  }

  /** What the computation reads of a request besides its rows is in the key. */
  function KeyRequest(key: LookupKey): Request {
    Request(key.preset, if key.target == "ALL" then None else Some(key.target), key.since, key.until, key.limit)
  }

  /** A stored report and the rows there were when it was computed. */
  datatype Stored<P> = Stored(payload: P, asOf: seq<Row>)

  /** The fallback takes a stored report for one that asks for the same department, preset,
      period and limit, whoever asks; it takes none where the whole is asked for. */
  lemma SameTargetAsks(dir: Directory, a: Option<User>, seenByA: Option<set<string>>, r: Request,
                       b: Option<User>, seenByB: Option<set<string>>, q: Request)
    ensures SameTarget(LookupOf(dir, a, seenByA, r), LookupOf(dir, b, seenByB, q)) <==>
      && r.department.Some? && r.department.value !in {"", "ALL"} && q.department == r.department
      && r.preset == q.preset && r.since == q.since && r.until == q.until && r.limit == q.limit
  {
    hide CanShare, EffectiveScope;
  }

  /** Every stored report is right for the data as it was when it was computed. */
  ghost predicate AllRight<P>(dir: Directory, report: (seq<Row>, Request) -> P, table: map<LookupKey, Stored<P>>) {
    forall key :: key in table ==> RightFor(dir, table[key].asOf, report, key, table[key].payload)
  }

  /** The rows a request is answered on: those of the stored report on a hit, else today's. */
  function AnsweredOn<P>(table: map<LookupKey, Stored<P>>, key: LookupKey, rows: seq<Row>): seq<Row> {
    if key in table then table[key].asOf else rows
  }

  lemma ComputedIsRight<P>(dir: Directory, rows: seq<Row>, report: (seq<Row>, Request) -> P, user: Option<User>,
                           visible: Option<set<string>>, r: Request)
    requires Sound(dir) && Known(dir, user, visible)
    requires CanShare(dir, user, visible, r.department) ==> !OwnRowsOnly(user)
    ensures var key := LookupOf(dir, user, visible, r);
      RightFor(dir, rows, report, key, report(RowsOf(dir, rows, user, visible, r.department), KeyRequest(key)))
  {
    hide Sound, Known, CanShare, RowsOf;
    var key := LookupOf(dir, user, visible, r);
    forall u, v, q | Known(dir, u, v) && LookupOf(dir, u, v, q) == key
        && (CanShare(dir, u, v, q.department) ==> !OwnRowsOnly(u))
      ensures RowsOf(dir, rows, user, visible, r.department) == RowsOf(dir, rows, u, v, q.department)
    {
      SharedOrNot(dir, user, visible, r, u, v, q);
      KeyDeterminesRows(dir, rows, user, visible, u, v, r, q);
    }
  }

  lemma SharedOrNot(dir: Directory, a: Option<User>, seenByA: Option<set<string>>, r: Request, b: Option<User>,
                    seenByB: Option<set<string>>, q: Request)
    requires LookupOf(dir, a, seenByA, r) == LookupOf(dir, b, seenByB, q)
    ensures CanShare(dir, a, seenByA, r.department) <==> CanShare(dir, b, seenByB, q.department)
  {
    assert EffectiveScope(dir, a, seenByA, r.department).Shared? <==> CanShare(dir, a, seenByA, r.department);
  }

  /** The lookup as the code puts it together, and whether it is a shared one. */
  method SnapshotLookup(dir: Directory, user: Option<User>, r: Request) returns (key: LookupKey, shared: bool)
    requires Sound(dir)
    ensures shared == CanShare(dir, user, VisibleOf(dir, user), r.department)
    ensures key == LookupOf(dir, user, VisibleOf(dir, user), r)
  {
    hide IsVisible, Sound, VisibleOf;
    var ids := VisibleDepartmentIds(dir, user, r.department);
    shared := false;
    var wanted: set<string> := {};
    if user.Some? && r.department.Some? {
      SoundQuery(dir, r.department.value);
      var below := GetDescendantDepartmentIds(dir.departments, r.department.value);
      wanted := {r.department.value} + set b | b in below;
      ClosureIs(dir.departments, r.department.value, below);
      var seen := GetVisibleDepartmentIds(dir, user.value);
      VisibleOfIs(dir, user.value, seen);
      shared := seen.None? || wanted <= seen.value;
    }
    var userKey := if shared then "department:" + r.department.value else if user.None? then "anonymous"
        else "user:" + user.value.id;
    var effective := if shared then Shared(wanted)
                     else Own(if user.None? then None else Some(user.value.role), if user.None? then None
                              else Some(user.value.employee),
                              ids, Excluded(user));
    key := LookupKey(userKey, r.preset, Target(r.department), effective, r.since, r.until, r.limit);
  }

  /** The filter of `_read_any_department_snapshot`: it looks at neither user nor scope. */
  predicate SameTarget(a: LookupKey, b: LookupKey) {
    a.target != "ALL" && a.target == b.target && a.preset == b.preset && a.since == b.since && a.until == b.until
        && a.limit == b.limit
  }

  /** The table of stored reports. The events may change from one request to the next. */
  class ReportStore<P(==)> {
    var table: map<LookupKey, Stored<P>>

    constructor ()
      ensures table == map[]
    {
      table := map[];
    }

    /** `get_report_center` on its snapshot path. A hit on the exact key is the requester's
        own report on the rows there were when it was stored; a report computed because
        nothing stored has the target is that on the rows there are. */
    method GetReportCenter(dir: Directory, rows: seq<Row>, report: (seq<Row>, Request) -> P, user: Option<User>,
                           executive: Option<User>, r: Request)
      returns (payload: P)
      requires Sound(dir) && AllRight(dir, report, table)
      requires user.Some? ==> user.value.department == "" || user.value.department in Ids(dir.departments)
      requires executive.Some? ==> executive.value.role == "EXECUTIVE"
      requires executive.Some? ==>
        executive.value.department == "" || executive.value.department in Ids(dir.departments)
      modifies this
      ensures executive.Some? || !OwnRowsOnly(user) || !CanShare(dir, user, VisibleOf(dir, user), r.department) ==>
        AllRight(dir, report, table)
      ensures var key := LookupOf(dir, user, VisibleOf(dir, user), r);
        var shared := CanShare(dir, user, VisibleOf(dir, user), r.department);
        (!OwnRowsOnly(user) || !shared)
        && (key in old(table) || !shared || forall other :: other in old(table) ==> !SameTarget(other, key)) ==>
          payload == report(RowsOf(dir, AnsweredOn(old(table), key, rows), user, VisibleOf(dir, user), r.department),
                            KeyRequest(key))
      // a shared report is the executive's, also for a user restricted to his own rows
      ensures var key := LookupOf(dir, user, VisibleOf(dir, user), r);
        CanShare(dir, user, VisibleOf(dir, user), r.department) && executive.Some?
        && (key in old(table) || forall other :: other in old(table) ==> !SameTarget(other, key)) ==>
          payload == report(RowsOf(dir, AnsweredOn(old(table), key, rows), executive, None, r.department),
                            KeyRequest(key))
      // the fallback answers with some stored report of the target
      ensures var key := LookupOf(dir, user, VisibleOf(dir, user), r);
        CanShare(dir, user, VisibleOf(dir, user), r.department) && key !in old(table)
        && (exists other :: other in old(table) && SameTarget(other, key)) ==>
          table == old(table)
          && exists other :: other in table && SameTarget(other, key) && payload == table[other].payload
      // a miss with nothing to fall back on stores what it computed on the rows there are,
      // and nothing else is ever stored
      ensures var key := LookupOf(dir, user, VisibleOf(dir, user), r);
        && (key in old(table) ==> table == old(table))
        && (key !in old(table)
            && (!CanShare(dir, user, VisibleOf(dir, user), r.department)
                || forall other :: other in old(table) ==> !SameTarget(other, key)) ==>
              table == old(table)[key := Stored(payload, rows)])
      ensures forall key :: key in old(table) ==> key in table && table[key] == old(table)[key]
    {
      hide Sound, CanShare, RightFor, LookupOf, IsVisible, Closure, VisibleOf;
      var key, shared := SnapshotLookup(dir, user, r);
      if user.Some? { VisibleOfIs(dir, user.value, VisibleOf(dir, user)); }
      if executive.Some? { ExecutiveSees(dir, executive.value); }
      if key in table {
        payload := table[key].payload;
        HitIsRight(dir, table[key].asOf, report, user, VisibleOf(dir, user), r, payload);
        if shared && executive.Some? {
          HitIsExecutives(dir, table[key].asOf, report, user, VisibleOf(dir, user), executive.value, r, payload);
        }
        return;
      }
      if shared && exists other :: other in table.Keys && SameTarget(other, key) {
        var other :| other in table.Keys && SameTarget(other, key);
        payload := table[other].payload;
        return;
      }
      var computeUser := if shared && executive.Some? then executive else user;
      if computeUser.Some? { VisibleOfIs(dir, computeUser.value, VisibleOf(dir, computeUser)); }
      var ids := VisibleDepartmentIds(dir, computeUser, r.department);
      payload := report(Scoped(rows, computeUser, ids), KeyRequest(key));
      if executive.Some? || !OwnRowsOnly(user) || !shared {
        MissIsRight(dir, rows, report, user, VisibleOf(dir, user), computeUser, VisibleOf(dir, computeUser),
                    executive, r);
      }
      table := table[key := Stored(payload, rows)];
    }
  }

  lemma HitIsRight<P>(dir: Directory, rows: seq<Row>, report: (seq<Row>, Request) -> P, user: Option<User>,
                      visible: Option<set<string>>, r: Request, payload: P)
    requires Known(dir, user, visible) && RightFor(dir, rows, report, LookupOf(dir, user, visible, r), payload)
    ensures !OwnRowsOnly(user) || !CanShare(dir, user, visible, r.department) ==>
      payload == report(RowsOf(dir, rows, user, visible, r.department), KeyRequest(LookupOf(dir, user, visible, r)))
  {
  }

  lemma ExecutiveSees(dir: Directory, user: User)
    requires user.role == "EXECUTIVE"
    ensures IsVisible(dir, user, None) && VisibleOf(dir, Some(user)) == None
  {
  }

  lemma ExecutiveSeesAll(dir: Directory, user: User, visible: Option<set<string>>)
    requires IsVisible(dir, user, visible) && user.role == "EXECUTIVE"
    ensures visible == None
  {
  }

  lemma HitIsExecutives<P>(dir: Directory, rows: seq<Row>, report: (seq<Row>, Request) -> P, user: Option<User>,
                           visible: Option<set<string>>, executive: User, r: Request, payload: P)
    requires executive.role == "EXECUTIVE" && Known(dir, Some(executive), None)
    requires CanShare(dir, user, visible, r.department)
        && RightFor(dir, rows, report, LookupOf(dir, user, visible, r), payload)
    ensures payload == report(RowsOf(dir, rows, Some(executive), None, r.department),
                              KeyRequest(LookupOf(dir, user, visible, r)))
  {
    SharesKeyExactly(dir, user, visible, executive, r.department.value, r);
    hide RowsOf, CanShare;
    assert !OwnRowsOnly(Some(executive));
  }

  /** A report computed as the executive, where shared, is right for its key. */
  lemma MissIsRight<P>(dir: Directory, rows: seq<Row>, report: (seq<Row>, Request) -> P, user: Option<User>,
                       visible: Option<set<string>>,
                       computeUser: Option<User>, seen: Option<set<string>>, executive: Option<User>, r: Request)
    requires Sound(dir) && Known(dir, user, visible) && Known(dir, computeUser, seen)
    requires executive.Some? ==> executive.value.role == "EXECUTIVE"
    requires computeUser == if CanShare(dir, user, visible, r.department) && executive.Some? then executive else user
    requires executive.Some? || !OwnRowsOnly(user) || !CanShare(dir, user, visible, r.department)
    ensures var key := LookupOf(dir, user, visible, r);
      var payload := report(RowsOf(dir, rows, computeUser, seen, r.department), KeyRequest(key));
      && RightFor(dir, rows, report, key, payload)
      && (!OwnRowsOnly(user) || !CanShare(dir, user, visible, r.department) ==>
            payload == report(RowsOf(dir, rows, user, visible, r.department), KeyRequest(key)))
  {
    hide Sound, RightFor, Closure, IsVisible, Scoped;
    if computeUser == user {
      if user.Some? { VisibleIsOne(dir, user.value, visible, seen); }
      assert Narrowed(dir, user, visible, r.department) == Narrowed(dir, user, seen, r.department);
      ComputedIsRight(dir, rows, report, user, visible, r);
    } else {
      ExecutiveSeesAll(dir, executive.value, seen);
      SharesKeyExactly(dir, user, visible, executive.value, r.department.value, r);
      ComputedIsRight(dir, rows, report, computeUser, seen, r);
      if !OwnRowsOnly(user) { KeyDeterminesRows(dir, rows, user, visible, computeUser, seen, r, r); }
    }
  }

  // ----- the fallback -----

  /** The scope of whoever cannot share a department's report lies within its closure. */
  lemma FallbackScopes(dir: Directory, row: Row, a: Option<User>, seenByA: Option<set<string>>, b: Option<User>,
                       seenByB: Option<set<string>>, department: string)
    requires Sound(dir) && Known(dir, a, seenByA) && Known(dir, b, seenByB) && department != ""
    requires CanShare(dir, a, seenByA, Some(department)) && !OwnRowsOnly(a)
    ensures InScope(row, b, Narrowed(dir, b, seenByB, Some(department))) ==>
      InScope(row, a, Narrowed(dir, a, seenByA, Some(department)))
  {
    hide Sound, Known, Closure, IsVisible;
    SharedNarrowing(dir, a, seenByA, Some(department));
  }

  lemma {:induction false} ScopedEqual(rows: seq<Row>, a: Option<User>, idsOfA: Option<set<string>>, b: Option<User>,
                                       idsOfB: Option<set<string>>)
    requires forall row :: row in rows && InScope(row, b, idsOfB) ==> InScope(row, a, idsOfA)
    ensures |Scoped(rows, b, idsOfB)| <= |Scoped(rows, a, idsOfA)|
    ensures Scoped(rows, b, idsOfB) == Scoped(rows, a, idsOfA) <==>
            forall row :: row in rows && InScope(row, a, idsOfA) ==> InScope(row, b, idsOfB)
  {
    hide InScope;
    if rows != [] {
      var front, last := rows[..|rows| - 1], rows[|rows| - 1];
      assert forall row :: row in rows <==> row in front || row == last;
      ScopedEqual(front, a, idsOfA, b, idsOfB);
      ScopedNext(rows, a, idsOfA);
      ScopedNext(rows, b, idsOfB);
      if InScope(last, a, idsOfA) && InScope(last, b, idsOfB) {
        LastsEqual(Scoped(front, b, idsOfB), Scoped(front, a, idsOfA), last);
      }
    }
  }

  lemma ScopedNext(rows: seq<Row>, user: Option<User>, ids: Option<set<string>>)
    requires rows != []
    ensures var front, last := rows[..|rows| - 1], rows[|rows| - 1];
      Scoped(rows, user, ids) ==
        if InScope(last, user, ids) then Scoped(front, user, ids) + [last] else Scoped(front, user, ids)
  {
  }

  lemma LastsEqual(s: seq<Row>, t: seq<Row>, x: Row)
    ensures s + [x] == t + [x] <==> s == t
  {
    if s + [x] == t + [x] { assert s == (s + [x])[..|s|] && t == (t + [x])[..|t|]; }
  }

  /** The stored key belongs to someone who cannot share the department's report. */
  lemma OtherCannotShare(dir: Directory, a: Option<User>, seenByA: Option<set<string>>, r: Request, b: Option<User>,
                         seenByB: Option<set<string>>, q: Request)
    requires CanShare(dir, a, seenByA, r.department)
    requires var key, other := LookupOf(dir, a, seenByA, r), LookupOf(dir, b, seenByB, q);
      SameTarget(other, key) && other != key
    ensures r.department.value != "" && q.department == r.department && !CanShare(dir, b, seenByB, q.department)
  {
    hide Closure;
    var key, other := LookupOf(dir, a, seenByA, r), LookupOf(dir, b, seenByB, q);
    assert key.target == Target(r.department) && other.target == Target(q.department);
    if CanShare(dir, b, seenByB, q.department) { assert false; }
  }

  ghost predicate NothingOutside(dir: Directory, rows: seq<Row>, a: Option<User>, seenByA: Option<set<string>>,
                                 b: Option<User>, seenByB: Option<set<string>>, department: Option<string>) {
    forall row :: row in rows && InScope(row, a, Narrowed(dir, a, seenByA, department)) ==>
      InScope(row, b, Narrowed(dir, b, seenByB, department))
  }

  /** On given data the fallback hands a requester who may share the rows of his own report
      if and only if none of them lies outside the scope of whoever stored it. */
  lemma FallbackRightExactly(dir: Directory, rows: seq<Row>, a: Option<User>, seenByA: Option<set<string>>, r: Request,
                             b: Option<User>, seenByB: Option<set<string>>, q: Request)
    requires Sound(dir) && Known(dir, a, seenByA) && Known(dir, b, seenByB)
    requires CanShare(dir, a, seenByA, r.department) && !OwnRowsOnly(a)
    requires var key, other := LookupOf(dir, a, seenByA, r), LookupOf(dir, b, seenByB, q);
      SameTarget(other, key) && other != key
    ensures RowsOf(dir, rows, b, seenByB, q.department) == RowsOf(dir, rows, a, seenByA, r.department)
            <==> NothingOutside(dir, rows, a, seenByA, b, seenByB, r.department)
  {
    OtherCannotShare(dir, a, seenByA, r, b, seenByB, q);
    hide Sound, Known, CanShare, LookupOf, InScope, Narrowed, Scoped;
    var department := r.department.value;
    forall row | row in rows && InScope(row, b, Narrowed(dir, b, seenByB, Some(department)))
      ensures InScope(row, a, Narrowed(dir, a, seenByA, Some(department)))
    {
      FallbackScopes(dir, row, a, seenByA, b, seenByB, department);
    }
    ScopedEqual(rows, a, Narrowed(dir, a, seenByA, Some(department)), b, Narrowed(dir, b, seenByB, Some(department)));
  }

  /** A department of the closure that whoever cannot share does not see. */
  lemma SomethingHidden(dir: Directory, b: Option<User>, seenByB: Option<set<string>>, department: string)
    returns (x: string)
    requires Sound(dir) && department in Ids(dir.departments) && !CanShare(dir, b, seenByB, Some(department))
    ensures x in Closure(dir.departments, department) && x in Ids(dir.departments) && x != ""
    ensures b.None? || (seenByB.Some? && x !in seenByB.value)
  {
    if b.None? {
      x := department;
    } else {
      x :| x in Closure(dir.departments, department) && x !in seenByB.value;
    }
  }

  /** It is never right for all data: whenever the stored key is another one, some rows of
      the requester's report are not in the stored one. */
  lemma FallbackNeverRight(dir: Directory, a: Option<User>, seenByA: Option<set<string>>, r: Request,
                           b: Option<User>, seenByB: Option<set<string>>, q: Request) returns (rows: seq<Row>)
    requires Sound(dir) && Known(dir, a, seenByA) && Known(dir, b, seenByB)
    requires CanShare(dir, a, seenByA, r.department) && !OwnRowsOnly(a) && r.department.value in Ids(dir.departments)
    requires var key, other := LookupOf(dir, a, seenByA, r), LookupOf(dir, b, seenByB, q);
      SameTarget(other, key) && other != key
    ensures RowsOf(dir, rows, b, seenByB, q.department) != RowsOf(dir, rows, a, seenByA, r.department)
  {
    OtherCannotShare(dir, a, seenByA, r, b, seenByB, q);
    var x := SomethingHidden(dir, b, seenByB, r.department.value);
    SharedNarrowing(dir, a, seenByA, r.department);
    hide Sound, Known, CanShare, LookupOf, Closure, IsVisible, Scoped;
    var row := Row("", x, "", "", "", 0, 0);
    rows := [row];
    ScopedOne(row, a, Narrowed(dir, a, seenByA, r.department));
    ScopedOne(row, b, Narrowed(dir, b, seenByB, q.department));
  }

  // ----- users restricted to their own rows -----

  ghost predicate SameRowsAlways(dir: Directory, a: Option<User>, seenByA: Option<set<string>>, b: Option<User>,
                                 seenByB: Option<set<string>>, department: Option<string>) {
    forall rows :: RowsOf(dir, rows, a, seenByA, department) == RowsOf(dir, rows, b, seenByB, department)
  }

  /** A row one of two differently restricted users sees and the other does not. */
  lemma RestrictedApart(a: Option<User>, b: Option<User>, ids: Option<set<string>>, department: string)
    returns (row: Row)
    requires OwnFilter(a) != OwnFilter(b) && department != "" && Selects(ids, Some(department))
    ensures InScope(row, a, ids) != InScope(row, b, ids)
  {
    var employee := if OwnRowsOnly(a) then a.value.employee else b.value.employee;
    var other := if OwnRowsOnly(a) && OwnRowsOnly(b) then employee else employee + "x";
    assert other != employee || (OwnRowsOnly(a) && OwnRowsOnly(b)) by { assert |employee + "x"| != |employee|; }
    row := Row(other, department, "", "", "", 0, 0);
  }

  /** Two users who share a department's key have the same rows, on all data, if and only
      if they are restricted alike: neither, or both to the same employee. */
  lemma SharersAgreeExactly(dir: Directory, a: Option<User>, seenByA: Option<set<string>>, b: Option<User>,
                            seenByB: Option<set<string>>, department: string)
    requires Sound(dir) && Known(dir, a, seenByA) && Known(dir, b, seenByB) && department in Ids(dir.departments)
    requires CanShare(dir, a, seenByA, Some(department)) && CanShare(dir, b, seenByB, Some(department))
    ensures SameRowsAlways(dir, a, seenByA, b, seenByB, Some(department)) <==> OwnFilter(a) == OwnFilter(b)
  {
    SharedNarrowing(dir, a, seenByA, Some(department));
    SharedNarrowing(dir, b, seenByB, Some(department));
    DepartmentNamed(dir, department);
    ClosureHas(dir.departments, department, department);
    hide Sound, Known, CanShare, Closure, IsVisible, Scoped;
    var ids := Narrowed(dir, a, seenByA, Some(department));
    if OwnFilter(a) == OwnFilter(b) {
      forall rows ensures RowsOf(dir, rows, a, seenByA, Some(department))
          == RowsOf(dir, rows, b, seenByB, Some(department)) {
        ScopedSame(rows, a, b, ids);
      }
    } else {
      var row := RestrictedApart(a, b, ids, department);
      ScopedOne(row, a, ids);
      ScopedOne(row, b, ids);
      assert RowsOf(dir, [row], a, seenByA, Some(department)) != RowsOf(dir, [row], b, seenByB, Some(department));
    }
  }

  /** An EMPLOYEE without scopes may share the report of the own department if nothing lies
      below it, and so is answered with the whole department's report. */
  lemma EmployeeSharesOwnDepartment(dir: Directory, user: User)
    requires Sound(dir) && user.role == "EMPLOYEE" && user.department in Ids(dir.departments)
    requires forall s :: s in dir.scopes ==> s.user != user.id
    ensures CanShare(dir, Some(user), VisibleOf(dir, Some(user)), Some(user.department))
            <==> forall b :: !Below(dir.departments, user.department, b)
  {
    hide Below, Sound;
    assert forall b :: !Granted(dir, user, dir.scopes, b);
    DepartmentNamed(dir, user.department);
    assert VisibleOf(dir, Some(user)) == Some({user.department});
    forall b ensures b in Closure(dir.departments, user.department) <==>
      b == user.department || Below(dir.departments, user.department, b) {
      ClosureHas(dir.departments, user.department, b);
    }
    hide Closure;
    if b :| Below(dir.departments, user.department, b) { NotItself(dir, user.department, b); }
  }

  lemma NotItself(dir: Directory, a: string, b: string)
    requires Sound(dir) && Below(dir.departments, a, b)
    ensures b != a
  {
    var n: nat :| n > 0 && Up(dir.departments, b, n) == Some(a);
    UpKnown(dir.departments, b, n);
    NoLoop(dir.departments, b, n);
  }

  /** Department "b" below "a", and a manager who sees "a" without what is below it. */
  function TwoDepartments(): Directory {
    Directory([Department("a", None), Department("b", Some("a"))], [Scope("1", "a", false)])
  }
  function Manager(): User { User("1", "MANAGER", "", "") }
  function Executive(): User { User("2", "EXECUTIVE", "", "") }

  lemma TwoAreSound()
    ensures Sound(TwoDepartments()) && "b" in Closure(TwoDepartments().departments, "a")
  {
    var all := TwoDepartments().departments;
    var a, b := all[0], all[1];
    assert a.id == "a" && b.id == "b" && a.parent == None && b.parent == Some("a");
    assert a in all && b in all && forall d :: d in all ==> d == a || d == b;
    ParentIs(all, all, a);
    ParentIs(all, all, b);
    assert Ranked(all, map["a" := 0, "b" := 1]);
    assert Up(all, "b", 1) == Some("a");
    ClosureHas(all, "a", "b");
  }

  lemma ManagerSeesOne()
    ensures Known(TwoDepartments(), Some(Manager()), Some({"a"})) && Known(TwoDepartments(), Some(Executive()), None)
  {
    hide Below;
    var dir := TwoDepartments();
    var scope := dir.scopes[0];
    assert scope in dir.scopes && scope.department == "a" && scope.user == "1" && !scope.includeDescendants;
    assert forall s :: s in dir.scopes ==> s == scope;
    forall b ensures Granted(dir, Manager(), dir.scopes, b) <==> b == "a" { }
    assert Granted(dir, Manager(), dir.scopes, "a");
    assert IsVisible(dir, Manager(), Some({"a"}));
    assert IsVisible(dir, Executive(), None);
  }

  /** A stored report with the right target may still be another user's narrower one: the
      manager leaves a report on "a" without the rows of "b" below it, and an executive
      asking for "a" is answered with it. */
  lemma FallbackMayDiffer() returns (rows: seq<Row>, r: Request)
    ensures var dir, manager, executive := TwoDepartments(), Some(Manager()), Some(Executive());
      && Sound(dir) && Known(dir, manager, Some({"a"})) && Known(dir, executive, None)
      && CanShare(dir, executive, None, r.department)
      && SameTarget(LookupOf(dir, manager, Some({"a"}), r), LookupOf(dir, executive, None, r))
      && LookupOf(dir, manager, Some({"a"}), r) != LookupOf(dir, executive, None, r)
      && RowsOf(dir, rows, manager, Some({"a"}), r.department) != RowsOf(dir, rows, executive, None, r.department)
  {
    hide Sound, IsVisible, Closure, Scoped, Known;
    TwoAreSound();
    ManagerSeesOne();
    r := Request("today", Some("a"), 0, 1, 500);
    var dir, manager, executive := TwoDepartments(), Some(Manager()), Some(Executive());
    var row := Row("e", "b", "", "IN", "GRANTED", 0, 0);
    rows := [row];
    ScopedOne(row, manager, Narrowed(dir, manager, Some({"a"}), r.department));
    ScopedOne(row, executive, Narrowed(dir, executive, None, r.department));
    assert "b" != "a";
    assert !CanShare(dir, manager, Some({"a"}), r.department);
    SharesKeyExactly(dir, manager, Some({"a"}), executive.value, "a", r);
  }
}
