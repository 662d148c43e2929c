/** Which departments a user sees, what a request is narrowed to, and when two users may
    share a stored report. */
module Visibility {
  import opened Text
  import opened Hierarchy

  /** A user account; empty strings stand for a missing employee or department. */
  datatype User = User(id: string, role: string, employee: string, department: string)
  datatype Scope = Scope(user: string, department: string, includeDescendants: bool)

  /** The tables a request is answered from. */
  datatype Directory = Directory(departments: seq<Department>, scopes: seq<Scope>)

  /** Foreign keys hold, and the hierarchy is one. */
  ghost predicate Sound(dir: Directory) {
    && Keyed(dir.departments) && Acyclic(dir.departments)
    && (forall d :: d in dir.departments && d.parent.Some? ==> d.parent.value in Ids(dir.departments))
    && (forall s :: s in dir.scopes ==> s.department in Ids(dir.departments))
  }

  predicate SeesAll(user: User) { user.role == "ADMIN" || user.role == "EXECUTIVE" }

  /** A department and everything below it. */
  ghost function Closure(all: seq<Department>, id: string): set<string> {
    {id} + set b | b in Ids(all) && Below(all, id, b)
  }

  lemma ClosureHas(all: seq<Department>, id: string, b: string)
    ensures b in Closure(all, id) <==> b == id || Below(all, id, b)
  {
    if n: nat :| n > 0 && Up(all, b, n) == Some(id) { UpKnown(all, b, n); }
  }

  ghost predicate Granted(dir: Directory, user: User, scopes: seq<Scope>, b: string) {
    exists s :: s in scopes && s.user == user.id
        && (b == s.department || (s.includeDescendants && Below(dir.departments, s.department, b)))
  }

  /** What a user sees: None is everything. */
  ghost predicate IsVisible(dir: Directory, user: User, visible: Option<set<string>>) {
    match visible
    case None => SeesAll(user)
    case Some(ids) =>
      && !SeesAll(user)
      && ((exists b :: Granted(dir, user, dir.scopes, b)) ==> forall b :: b in ids <==>
        Granted(dir, user, dir.scopes, b))
      && ((forall b :: !Granted(dir, user, dir.scopes, b)) ==>
            ids == if user.department == "" then {} else {user.department})
  }

  lemma VisibleIsOne(dir: Directory, user: User, a: Option<set<string>>, b: Option<set<string>>)
    requires IsVisible(dir, user, a) && IsVisible(dir, user, b)
    ensures a == b
  {
    if a.Some? && b.Some? && (exists x :: Granted(dir, user, dir.scopes, x)) {
      assert forall x :: x in a.value <==> x in b.value;
      assert a.value == b.value;
    }
  }

  /** The one set a user sees; nobody sees nothing. */
  ghost function VisibleOf(dir: Directory, user: Option<User>): Option<set<string>> {
    if user.None? then Some({})
    else if SeesAll(user.value) then None
    else
      var granted := set b | b in Ids(dir.departments) && Granted(dir, user.value, dir.scopes, b);
      Some(if granted != {} then granted else if user.value.department == "" then {} else {user.value.department})
  }

  lemma GrantedKnown(dir: Directory, user: User, b: string)
    requires Sound(dir) && Granted(dir, user, dir.scopes, b)
    ensures b in Ids(dir.departments)
  {
    var s :| s in dir.scopes && s.user == user.id
        && (b == s.department || (s.includeDescendants && Below(dir.departments, s.department, b)));
    if b != s.department {
      var n: nat :| n > 0 && Up(dir.departments, b, n) == Some(s.department);
      UpKnown(dir.departments, b, n);
    }
  }

  lemma VisibleOfIs(dir: Directory, user: User, visible: Option<set<string>>)
    requires Sound(dir)
    ensures IsVisible(dir, user, visible) <==> visible == VisibleOf(dir, Some(user))
  {
    hide Sound, Below;
    if !SeesAll(user) {
      var granted := set b | b in Ids(dir.departments) && Granted(dir, user, dir.scopes, b);
      forall b ensures b in granted <==> Granted(dir, user, dir.scopes, b) {
        if Granted(dir, user, dir.scopes, b) { GrantedKnown(dir, user, b); }
      }
      assert IsVisible(dir, user, VisibleOf(dir, Some(user)));
      if IsVisible(dir, user, visible) { VisibleIsOne(dir, user, visible, VisibleOf(dir, Some(user))); }
    }
  }

  /** `get_visible_department_ids`. */
  method GetVisibleDepartmentIds(dir: Directory, user: User) returns (visible: Option<set<string>>)
    requires Sound(dir)
    ensures IsVisible(dir, user, visible)
    ensures visible == None <==> user.role in {"ADMIN", "EXECUTIVE"}
  {
    hide Below, Acyclic, Keyed;
    if SeesAll(user) { return None; }
    var ids: set<string> := {};
    for i := 0 to |dir.scopes|
      invariant forall b :: b in ids <==> Granted(dir, user, dir.scopes[..i], b)
    {
      var scope := dir.scopes[i];
      ghost var before := ids;
      if scope.user == user.id {
        ids := ids + {scope.department};
        if scope.includeDescendants {
          assert scope in dir.scopes;
          var below := GetDescendantDepartmentIds(dir.departments, scope.department);
          ids := ids + (set b | b in below);
        }
      }
      forall b ensures b in ids <==> Granted(dir, user, dir.scopes[..i + 1], b) { GrantedNext(dir, user, i, b); }
    }
    assert dir.scopes[..|dir.scopes|] == dir.scopes;
    if ids == {} && user.department != "" { ids := {user.department}; }
    visible := Some(ids);
  }

  lemma GrantedNext(dir: Directory, user: User, i: nat, b: string)
    requires i < |dir.scopes|
    ensures var s := dir.scopes[i];
      Granted(dir, user, dir.scopes[..i + 1], b) <==>
        (Granted(dir, user, dir.scopes[..i], b)
         || (s.user == user.id
             && (b == s.department || (s.includeDescendants && Below(dir.departments, s.department, b)))))
  {
    assert dir.scopes[..i + 1] == dir.scopes[..i] + [dir.scopes[i]];
  }

  // ----- narrowing to what was asked for -----

  /** `_visible_department_ids`: no user sees nothing; an empty department id asks for
      no narrowing. */
  ghost function Narrowed(dir: Directory, user: Option<User>, visible: Option<set<string>>,
                          requested: Option<string>): Option<set<string>> {
    if user.None? then Some({})
    else if requested == None || requested == Some("") then visible
    else if visible.None? then Some(Closure(dir.departments, requested.value))
    else Some(Closure(dir.departments, requested.value) * visible.value)
  }

  method VisibleDepartmentIds(dir: Directory, user: Option<User>, requested: Option<string>)
    returns (ids: Option<set<string>>)
    requires Sound(dir)
    ensures ids == Narrowed(dir, user, VisibleOf(dir, user), requested)
  {
    hide Sound, IsVisible, VisibleOf;
    var wanted: Option<set<string>> := None;
    if requested.Some? && requested.value != "" {
      SoundQuery(dir, requested.value);
      var below := GetDescendantDepartmentIds(dir.departments, requested.value);
      ClosureIs(dir.departments, requested.value, below);
      wanted := Some({requested.value} + set b | b in below);
    }
    if user.None? { return Some({}); }
    var seen := GetVisibleDepartmentIds(dir, user.value);
    VisibleOfIs(dir, user.value, seen);
    if wanted.Some? {
      if seen.None? { return wanted; }
      return Some(wanted.value * seen.value);
    }
    ids := seen;
  }

  /** Any id may be asked for. */
  lemma SoundQuery(dir: Directory, id: string)
    requires Sound(dir)
    ensures Keyed(dir.departments) && Acyclic(dir.departments)
    ensures id in Ids(dir.departments) || forall d :: d in dir.departments ==> d.parent != Some(id)
  {
  }

  /** `_multi_dept_visible_ids`. */
  ghost function NarrowedToMany(dir: Directory, user: Option<User>, visible: Option<set<string>>,
                                requested: seq<string>): Option<set<string>> {
    if requested == [] then Narrowed(dir, user, visible, None)
    else if |requested| == 1 then Narrowed(dir, user, visible, Some(requested[0]))
    else if user.None? then Some({})
    else if visible.None? then Some(Closures(dir.departments, requested))
    else
      var both := Closures(dir.departments, requested) * visible.value;
      Some(if both == {} then {"__none__"} else both)
  }

  ghost function Closures(all: seq<Department>, ids: seq<string>): set<string> {
    set id, b | id in ids && b in Closure(all, id) :: b
  }

  method MultiDeptVisibleIds(dir: Directory, user: Option<User>, requested: seq<string>)
    returns (ids: Option<set<string>>)
    requires Sound(dir)
    ensures ids == NarrowedToMany(dir, user, VisibleOf(dir, user), requested)
  {
    hide Closure, Closures, IsVisible, Sound, VisibleOf;
    NoClosures(dir.departments);
    if requested == [] { ids := VisibleDepartmentIds(dir, user, None); return; }
    if |requested| == 1 { ids := VisibleDepartmentIds(dir, user, Some(requested[0])); return; }
    var wanted: set<string> := {};
    for i := 0 to |requested|
      invariant wanted == Closures(dir.departments, requested[..i])
    {
      var id := requested[i];
      SoundQuery(dir, id);
      var below := GetDescendantDepartmentIds(dir.departments, id);
      ClosureIs(dir.departments, id, below);
      ClosuresNext(dir.departments, requested, i);
      wanted := wanted + {id} + set b | b in below;
    }
    assert requested[..|requested|] == requested;
    if user.None? { return Some({}); }
    var seen := GetVisibleDepartmentIds(dir, user.value);
    VisibleOfIs(dir, user.value, seen);
    if seen.None? { return Some(wanted); }
    var both := wanted * seen.value;
    ids := Some(if both == {} then {"__none__"} else both);
  }

  lemma ClosureIs(all: seq<Department>, id: string, below: seq<string>)
    requires forall b :: b in below <==> Below(all, id, b)
    ensures Closure(all, id) == {id} + set b | b in below
  {
    hide Below;
    forall b ensures b in Closure(all, id) <==> b == id || b in below { ClosureHas(all, id, b); }
  }

  lemma NoClosures(all: seq<Department>)
    ensures Closures(all, []) == {}
  {
  }

  lemma ClosuresNext(all: seq<Department>, ids: seq<string>, i: nat)
    requires i < |ids|
    ensures Closures(all, ids[..i + 1]) == Closures(all, ids[..i]) + Closure(all, ids[i])
  {
    hide Closure;
    assert forall id :: id in ids[..i + 1] <==> id in ids[..i] || id == ids[i];
  }

  /** A row of a department (None: an employee without one) passes the filter. */
  predicate Selects(ids: Option<set<string>>, department: Option<string>) {
    ids.None? || (department.Some? && department.value in ids.value)
  }

  /** Departments that rows can have. */
  ghost predicate Occurs(dir: Directory, department: Option<string>) {
    department.None? || department.value in Ids(dir.departments)
  }

  ghost predicate SelectedByOne(dir: Directory, user: Option<User>, visible: Option<set<string>>,
                                requested: seq<string>, department: Option<string>) {
    exists id :: id in requested && Selects(Narrowed(dir, user, visible, Some(id)), department)
  }

  ghost predicate SelectsUnion(dir: Directory, user: Option<User>, visible: Option<set<string>>,
                               requested: seq<string>) {
    forall department :: Occurs(dir, department) ==>
      (Selects(NarrowedToMany(dir, user, visible, requested), department) <==>
        SelectedByOne(dir, user, visible, requested, department))
  }

  /** Every row the user sees lies under some requested department. */
  ghost predicate Covers(dir: Directory, visible: Option<set<string>>, requested: seq<string>) {
    visible.Some? && visible.value * Ids(dir.departments) <= Closures(dir.departments, requested)
  }

  /** Several departments select exactly what they select one by one, unless an empty id
      is among them: alone it asks for everything the user sees, in a list for nothing. */
  lemma ManyIsUnion(dir: Directory, user: Option<User>, visible: Option<set<string>>, requested: seq<string>)
    requires Sound(dir) && requested != []
    requires "__none__" !in Ids(dir.departments)
    ensures SelectsUnion(dir, user, visible, requested) <==>
            (|requested| == 1 || user.None? || "" !in requested || Covers(dir, visible, requested))
  {
    hide Closure, Sound;
    if |requested| == 1 {
      forall department ensures Selects(NarrowedToMany(dir, user, visible, requested), department) <==>
        SelectedByOne(dir, user, visible, requested, department) {
        assert requested[0] in requested;
      }
    } else if user.None? {
      forall department ensures !SelectedByOne(dir, user, visible, requested, department) { }
    } else {
      ManyForUser(dir, user, visible, requested);
    }
  }

  lemma ManyForUser(dir: Directory, user: Option<User>, visible: Option<set<string>>, requested: seq<string>)
    requires Sound(dir) && |requested| > 1 && user.Some?
    requires "__none__" !in Ids(dir.departments)
    ensures SelectsUnion(dir, user, visible, requested) <==> "" !in requested || Covers(dir, visible, requested)
  {
    forall b | b in Ids(dir.departments) ensures b in Closures(dir.departments, requested) <==>
      SomeClosure(dir, requested, b) {
      NothingUnderEmpty(dir, b);
      ClosuresHas(dir, requested, b);
    }
    hide Closure, Closures, Sound, SomeClosure, SelectedByOne, NarrowedToMany;
    forall department | Occurs(dir, department)
      ensures Selects(NarrowedToMany(dir, user, visible, requested), department) <==>
              (department.Some? && department.value in Closures(dir.departments, requested)
               && Selects(visible, department))
      ensures SelectedByOne(dir, user, visible, requested, department) <==>
              (("" in requested && Selects(visible, department))
               || (department.Some? && SomeClosure(dir, requested, department.value) && Selects(visible, department)))
    {
      OneByOne(dir, user, visible, requested, department);
      AllAtOnce(dir, user, visible, requested, department);
    }
    if "" in requested && SelectsUnion(dir, user, visible, requested) { UnionCovers(dir, user, visible, requested); }
  }

  lemma UnionCovers(dir: Directory, user: Option<User>, visible: Option<set<string>>, requested: seq<string>)
    requires SelectsUnion(dir, user, visible, requested) && "" in requested
    requires forall department :: Occurs(dir, department) ==>
      (Selects(NarrowedToMany(dir, user, visible, requested), department) ==>
         department.Some? && department.value in Closures(dir.departments, requested))
    requires forall department :: Occurs(dir, department) && Selects(visible, department) ==>
      SelectedByOne(dir, user, visible, requested, department)
    ensures Covers(dir, visible, requested)
  {
    hide Closures, SelectedByOne, NarrowedToMany;
    assert Occurs(dir, None);
    if visible.Some? {
      forall b | b in visible.value * Ids(dir.departments) ensures b in Closures(dir.departments, requested) {
        assert Occurs(dir, Some(b)) && Selects(visible, Some(b));
      }
    }
  }

  lemma NothingUnderEmpty(dir: Directory, b: string)
    requires Sound(dir) && b in Ids(dir.departments)
    ensures b !in Closure(dir.departments, "")
  {
    if n: nat :| n > 0 && Up(dir.departments, b, n) == Some("") { UpKnown(dir.departments, b, n); }
  }

  lemma ClosuresHas(dir: Directory, requested: seq<string>, b: string)
    requires b !in Closure(dir.departments, "")
    ensures b in Closures(dir.departments, requested) <==> SomeClosure(dir, requested, b)
  {
  }

  lemma AllAtOnce(dir: Directory, user: Option<User>, visible: Option<set<string>>, requested: seq<string>,
                  department: Option<string>)
    requires |requested| > 1 && user.Some? && Occurs(dir, department)
    requires "__none__" !in Ids(dir.departments)
    ensures Selects(NarrowedToMany(dir, user, visible, requested), department) <==>
            (department.Some? && department.value in Closures(dir.departments, requested)
             && Selects(visible, department))
  {
  }

  ghost predicate SomeClosure(dir: Directory, requested: seq<string>, b: string) {
    exists id :: id in requested && id != "" && b in Closure(dir.departments, id)
  }

  lemma OneByOne(dir: Directory, user: Option<User>, visible: Option<set<string>>, requested: seq<string>,
                 department: Option<string>)
    requires user.Some?
    ensures SelectedByOne(dir, user, visible, requested, department) <==>
            (("" in requested && Selects(visible, department))
             || (department.Some? && SomeClosure(dir, requested, department.value) && Selects(visible, department)))
  {
  }
}
