/** The department table as parent pointers, and the recursive query that closes over it. */
module Hierarchy {
  import opened Text

  datatype Department = Department(id: string, parent: Option<string>)

  function Ids(ds: seq<Department>): set<string> { set d | d in ds :: d.id }

  /** Department ids are a primary key; none of them is empty. */
  ghost predicate Keyed(ds: seq<Department>) {
    && (forall i, j :: 0 <= i < j < |ds| ==> ds[i].id != ds[j].id)
    && (forall d :: d in ds ==> d.id != "")
  }

  /** The department hangs below another one of the list. */
  predicate Linked(all: seq<Department>, d: Department) {
    d.parent.Some? && d.parent.value != "" && d.parent.value in Ids(all)
  }

  function Parent(all: seq<Department>, id: string): Option<string> {
    ParentIn(all, all, id)
  }
  function ParentIn(all: seq<Department>, ds: seq<Department>, id: string): Option<string> {
    if ds == [] then None
    else if ds[0].id == id then (if Linked(all, ds[0]) then ds[0].parent else None)
    else ParentIn(all, ds[1..], id)
  }

  lemma {:induction false} ParentIs(all: seq<Department>, ds: seq<Department>, d: Department)
    requires Keyed(ds) && d in ds
    ensures ParentIn(all, ds, d.id) == if Linked(all, d) then d.parent else None
  {
    if ds[0] != d { ParentIs(all, ds[1..], d); }
  }

  lemma {:induction false} ParentKnown(all: seq<Department>, ds: seq<Department>, id: string)
    ensures var p := ParentIn(all, ds, id);
      p.Some? ==> p.value in Ids(all) && exists d :: d in ds && d.id == id && Linked(all, d) && d.parent == p
  {
    if ds != [] && ds[0].id != id { ParentKnown(all, ds[1..], id); }
  }

  /** The n-th ancestor; the 0-th is the department itself. */
  function Up(all: seq<Department>, id: string, n: nat): Option<string>
    decreases n
  {
    if n == 0 then Some(id)
    else match Parent(all, id) case None => None case Some(p) => Up(all, p, n - 1)
  }

  /** `b` lies properly below `a`. */
  ghost predicate Below(all: seq<Department>, a: string, b: string) {
    exists n: nat :: n > 0 && Up(all, b, n) == Some(a)
  }

  /** Parents can be ranked above their children: there is no cycle. */
  ghost predicate Ranked(all: seq<Department>, rank: map<string, nat>) {
    && (forall id :: id in Ids(all) ==> id in rank)
    && (forall id :: id in Ids(all) && Parent(all, id).Some? ==>
          Parent(all, id).value in rank && rank[Parent(all, id).value] < rank[id])
  }

  ghost predicate Acyclic(all: seq<Department>) { exists rank :: Ranked(all, rank) }

  lemma {:induction false} UpAdds(all: seq<Department>, id: string, n: nat, m: nat)
    requires Up(all, id, n).Some?
    ensures Up(all, id, n + m) == Up(all, Up(all, id, n).value, m)
    decreases n
  {
    if n > 0 { UpAdds(all, Parent(all, id).value, n - 1, m); }
  }

  lemma {:induction false} UpShorter(all: seq<Department>, id: string, n: nat, m: nat)
    requires m <= n && Up(all, id, n).Some?
    ensures Up(all, id, m).Some?
    decreases n
  {
    if m > 0 { UpShorter(all, Parent(all, id).value, n - 1, m - 1); }
  }

  lemma {:induction false} RankFalls(all: seq<Department>, rank: map<string, nat>, id: string, n: nat)
    requires Ranked(all, rank) && id in Ids(all) && Up(all, id, n).Some?
    ensures Up(all, id, n).value in Ids(all) && rank[Up(all, id, n).value] + n <= rank[id]
    decreases n
  {
    if n > 0 {
      ParentKnown(all, all, id);
      RankFalls(all, rank, Parent(all, id).value, n - 1);
    }
  }

  /** Nothing lies below itself. */
  lemma NoLoop(all: seq<Department>, id: string, n: nat)
    requires Acyclic(all) && id in Ids(all) && n > 0
    ensures Up(all, id, n) != Some(id)
  {
    var rank :| Ranked(all, rank);
    if Up(all, id, n) == Some(id) { RankFalls(all, rank, id, n); }
  }

  lemma {:induction false} UpKnown(all: seq<Department>, id: string, n: nat)
    requires n > 0 && Up(all, id, n).Some?
    ensures id in Ids(all) && Up(all, id, n).value in Ids(all)
    decreases n
  {
    ParentKnown(all, all, id);
    if n > 1 { UpKnown(all, Parent(all, id).value, n - 1); }
  }

  // ----- children -----

  /** Children of `id`, in the order of the list. */
  function ChildIds(all: seq<Department>, ds: seq<Department>, id: string): seq<string> {
    if ds == [] then []
    else
      var last := ds[|ds| - 1];
      ChildIds(all, ds[..|ds| - 1], id) + if Linked(all, last) && last.parent.value == id then [last.id] else []
  }

  function RootIds(all: seq<Department>, ds: seq<Department>): seq<string> {
    if ds == [] then []
    else
      var last := ds[|ds| - 1];
      RootIds(all, ds[..|ds| - 1]) + if Linked(all, last) then [] else [last.id]
  }

  lemma {:induction false} ChildIn(all: seq<Department>, ds: seq<Department>, id: string, c: string)
    ensures c in ChildIds(all, ds, id) <==> exists d :: d in ds && d.id == c && Linked(all, d) && d.parent.value == id
  {
    if ds != [] {
      ChildIn(all, ds[..|ds| - 1], id, c);
      assert ds == ds[..|ds| - 1] + [ds[|ds| - 1]];
    }
  }

  lemma {:induction false} RootIn(all: seq<Department>, ds: seq<Department>, c: string)
    ensures c in RootIds(all, ds) <==> exists d :: d in ds && d.id == c && !Linked(all, d)
  {
    if ds != [] {
      RootIn(all, ds[..|ds| - 1], c);
      assert ds == ds[..|ds| - 1] + [ds[|ds| - 1]];
    }
  }

  predicate Distinct(s: seq<string>) { forall i, j :: 0 <= i < j < |s| ==> s[i] != s[j] }

  lemma DistinctAppend(s: seq<string>, t: seq<string>)
    requires Distinct(s) && Distinct(t) && forall x :: x in s ==> x !in t
    ensures Distinct(s + t)
  {
    forall i, j | 0 <= i < j < |s + t| ensures (s + t)[i] != (s + t)[j] {
      if i < |s| <= j { assert s[i] in s && t[j - |s|] in t; }
    }
  }

  lemma {:induction false} ListsDistinct(all: seq<Department>, ds: seq<Department>, id: string)
    requires Keyed(ds)
    ensures Distinct(ChildIds(all, ds, id)) && Distinct(RootIds(all, ds))
  {
    if ds != [] {
      var front, last := ds[..|ds| - 1], ds[|ds| - 1];
      ListsDistinct(all, front, id);
      ChildIn(all, front, id, last.id);
      RootIn(all, front, last.id);
    }
  }

  /** The children are the departments whose parent it is. */
  lemma ChildrenAre(all: seq<Department>, id: string, c: string)
    requires Keyed(all)
    ensures c in ChildIds(all, all, id) <==> Parent(all, c) == Some(id)
  {
    ChildIn(all, all, id, c);
    ParentKnown(all, all, c);
    if d :| d in all && d.id == c { ParentIs(all, all, d); }
  }

  lemma RootsAre(all: seq<Department>, c: string)
    requires Keyed(all)
    ensures c in RootIds(all, all) <==> c in Ids(all) && Parent(all, c) == None
  {
    RootIn(all, all, c);
    if d :| d in all && d.id == c { ParentIs(all, all, d); }
  }

  // ----- the recursive query -----

  /** One level of the query: the departments whose parent is in the level before. */
  function NextLevel(all: seq<Department>, level: seq<string>): seq<string> {
    if level == [] then [] else Rows(all, level[0]) + NextLevel(all, level[1..])
  }

  /** `SELECT department_id WHERE parent_department_id = id`. */
  function Rows(ds: seq<Department>, id: string): seq<string> {
    if ds == [] then []
    else
      var last := ds[|ds| - 1];
      Rows(ds[..|ds| - 1], id) + if last.parent == Some(id) then [last.id] else []
  }

  lemma {:induction false} RowsAreChildren(all: seq<Department>, ds: seq<Department>, id: string)
    requires id in Ids(all) && id != ""
    ensures Rows(ds, id) == ChildIds(all, ds, id)
  {
    if ds != [] { RowsAreChildren(all, ds[..|ds| - 1], id); }
  }

  /** The ids exactly n steps below `a`, each once. */
  ghost predicate IsLevel(all: seq<Department>, a: string, n: nat, level: seq<string>) {
    && Distinct(level)
    && forall b :: b in level <==> Up(all, b, n) == Some(a)
  }

  lemma NextUnfold(all: seq<Department>, level: seq<string>)
    requires level != []
    ensures NextLevel(all, level) == Rows(all, level[0]) + NextLevel(all, level[1..])
  {
  }

  lemma {:induction false} NextIn(all: seq<Department>, level: seq<string>)
    requires Keyed(all) && Distinct(level) && forall x :: x in level ==> x in Ids(all)
    ensures Distinct(NextLevel(all, level))
    ensures forall b :: b in NextLevel(all, level) <==> Parent(all, b).Some? && Parent(all, b).value in level
  {
    if level != [] {
      var a, rest := level[0], level[1..];
      NextIn(all, rest);
      assert a in level && a != "";
      RowsAreChildren(all, all, a);
      ListsDistinct(all, all, a);
      forall b ensures b in Rows(all, a) <==> Parent(all, b) == Some(a) { ChildrenAre(all, a, b); }
      hide Rows, Parent, NextLevel;
      DistinctAppend(Rows(all, a), NextLevel(all, rest));
      assert level == [a] + rest;
      NextUnfold(all, level);
    }
  }

  lemma UpLast(all: seq<Department>, b: string, n: nat)
    ensures Up(all, b, n + 1) == match Parent(all, b) case None => None case Some(p) => Up(all, p, n)
  {
  }

  lemma LevelNext(all: seq<Department>, a: string, n: nat, level: seq<string>)
    requires Keyed(all) && a in Ids(all) && IsLevel(all, a, n, level)
    ensures IsLevel(all, a, n + 1, NextLevel(all, level))
  {
    forall x | x in level ensures x in Ids(all) { if n > 0 { UpKnown(all, x, n); } }
    NextIn(all, level);
    forall b ensures b in NextLevel(all, level) <==> Up(all, b, n + 1) == Some(a) { UpLast(all, b, n); }
  }

  /** The levels 1 to n, each id once. */
  ghost predicate IsBelowUpTo(all: seq<Department>, a: string, n: nat, found: seq<string>) {
    && Distinct(found)
    && forall b :: b in found <==> exists k: nat :: 0 < k <= n && Up(all, b, k) == Some(a)
  }

  lemma BelowGrows(all: seq<Department>, a: string, n: nat, found: seq<string>, level: seq<string>)
    requires Acyclic(all) && a in Ids(all)
    requires IsBelowUpTo(all, a, n, found) && IsLevel(all, a, n + 1, level)
    ensures IsBelowUpTo(all, a, n + 1, found + level)
  {
    forall b | b in found ensures b !in level {
      var k: nat :| 0 < k <= n && Up(all, b, k) == Some(a);
      if Up(all, b, n + 1) == Some(a) {
        UpAdds(all, b, k, n + 1 - k);
        NoLoop(all, a, n + 1 - k);
      }
    }
    hide Up;
    DistinctAppend(found, level);
    forall b | b in found + level ensures exists k: nat :: 0 < k <= n + 1 && Up(all, b, k) == Some(a) {
      if b in level { assert Up(all, b, n + 1) == Some(a); }
    }
    forall b, k: nat | 0 < k <= n + 1 && Up(all, b, k) == Some(a) ensures b in found + level {
      if k <= n { assert b in found; } else { assert b in level; }
    }
  }

  /** A level that has members has them ranked n below. */
  lemma LevelBound(all: seq<Department>, rank: map<string, nat>, bound: nat, a: string, n: nat, level: seq<string>)
    requires Ranked(all, rank) && IsLevel(all, a, n, level) && n > 0
    requires forall id :: id in Ids(all) ==> rank[id] < bound
    requires level != []
    ensures n < bound && a in Ids(all)
  {
    var b := level[0];
    assert b in level;
    UpKnown(all, b, n);
    RankFalls(all, rank, b, n);
  }

  lemma {:induction false} RankBound(all: seq<Department>, rank: map<string, nat>) returns (bound: nat)
    requires forall d :: d in all ==> d.id in rank
    ensures forall id :: id in Ids(all) ==> rank[id] < bound
  {
    if all == [] {
      bound := 0;
    } else {
      bound := RankBound(all[1..], rank);
      var r := rank[all[0].id];
      bound := if r < bound then bound else r + 1;
      assert forall d :: d in all ==> d == all[0] || d in all[1..];
    }
  }

  /** The recursive common table expression of `get_descendant_department_ids`, evaluated
      level by level as the database does. UNION ALL keeps duplicates, and a cycle would
      keep it from ending; without one it returns the departments below, each once. An id
      the table does not have is nobody's parent and has nothing below it. */
  method GetDescendantDepartmentIds(all: seq<Department>, id: string) returns (found: seq<string>)
    requires Keyed(all) && Acyclic(all)
    requires id in Ids(all) || forall d :: d in all ==> d.parent != Some(id)
    ensures Distinct(found)
    ensures forall b :: b in found <==> Below(all, id, b)
  {
    hide IsLevel, IsBelowUpTo;
    ghost var rank :| Ranked(all, rank);
    ghost var bound := RankBound(all, rank);
    var level := Rows(all, id);
    found := [];
    ghost var n: nat := 0;
    FirstLevel(all, id);
    while level != []
      invariant IsLevel(all, id, n + 1, level)
      invariant IsBelowUpTo(all, id, n, found)
      invariant level != [] ==> n < bound
      decreases bound - n, |level|
    {
      LevelBound(all, rank, bound, id, n + 1, level);
      BelowGrows(all, id, n, found, level);
      LevelNext(all, id, n + 1, level);
      found := found + level;
      level := NextLevel(all, level);
      n := n + 1;
    }
    NoMoreBelow(all, id, n, found);
  }

  lemma FirstLevel(all: seq<Department>, a: string)
    requires Keyed(all) && (a in Ids(all) || forall d :: d in all ==> d.parent != Some(a))
    ensures IsLevel(all, a, 1, Rows(all, a)) && IsBelowUpTo(all, a, 0, [])
  {
    if a in Ids(all) {
      assert IsLevel(all, a, 0, [a]);
      LevelNext(all, a, 0, [a]);
      assert NextLevel(all, [a]) == Rows(all, a) + NextLevel(all, []);
      assert NextLevel(all, [a]) == Rows(all, a);
    } else {
      NoRows(all, a);
      forall b ensures Up(all, b, 1) != Some(a) {
        if Up(all, b, 1) == Some(a) { UpKnown(all, b, 1); }
      }
    }
  }

  lemma {:induction false} NoRows(ds: seq<Department>, a: string)
    requires forall d :: d in ds ==> d.parent != Some(a)
    ensures Rows(ds, a) == []
  {
    if ds != [] {
      assert ds[|ds| - 1] in ds;
      NoRows(ds[..|ds| - 1], a);
    }
  }

  lemma NoMoreBelow(all: seq<Department>, a: string, n: nat, found: seq<string>)
    requires IsLevel(all, a, n + 1, []) && IsBelowUpTo(all, a, n, found)
    ensures Distinct(found)
    ensures forall b :: b in found <==> Below(all, a, b)
  {
    forall b | Below(all, a, b) ensures b in found {
      var k: nat :| k > 0 && Up(all, b, k) == Some(a);
      if k > n {
        UpShorter(all, b, k, k - (n + 1));
        UpAdds(all, b, k - (n + 1), n + 1);
        assert false;
      }
    }
  }

  // ----- parts of the table -----

  /** The rows a user may see. */
  function Restricted(all: seq<Department>, visible: set<string>): seq<Department> {
    if all == [] then []
    else Restricted(all[..|all| - 1], visible) + if all[|all| - 1].id in visible then [all[|all| - 1]] else []
  }

  lemma {:induction false} RestrictedIn(all: seq<Department>, visible: set<string>, d: Department)
    ensures d in Restricted(all, visible) <==> d in all && d.id in visible
  {
    if all != [] {
      RestrictedIn(all[..|all| - 1], visible, d);
      assert all == all[..|all| - 1] + [all[|all| - 1]];
    }
  }

  lemma {:induction false} RestrictedKeyed(all: seq<Department>, visible: set<string>)
    requires Keyed(all)
    ensures Keyed(Restricted(all, visible))
  {
    if all != [] {
      var front, last := all[..|all| - 1], all[|all| - 1];
      RestrictedKeyed(front, visible);
      forall d | d in Restricted(front, visible) ensures d.id != last.id && d.id != "" {
        RestrictedIn(front, visible, d);
      }
    }
  }

  /** Between a visible department and a visible one below it, all are visible. */
  ghost predicate Convex(all: seq<Department>, visible: set<string>) {
    forall a, b :: a in visible && b in visible && Below(all, a, b) ==>
      Parent(all, b).Some? && Parent(all, b).value in visible
  }

  lemma RestrictedParent(all: seq<Department>, visible: set<string>, id: string)
    requires Keyed(all) && visible <= Ids(all)
    ensures Parent(Restricted(all, visible), id) ==
            if id in visible && Parent(all, id).Some? && Parent(all, id).value in visible then Parent(all, id) else None
  {
    var ds := Restricted(all, visible);
    RestrictedKeyed(all, visible);
    forall d ensures d in ds <==> d in all && d.id in visible { RestrictedIn(all, visible, d); }
    assert Ids(ds) == visible;
    if id in visible {
      var d :| d in ds && d.id == id;
      ParentIs(all, all, d);
      ParentIs(ds, ds, d);
    } else {
      ParentKnown(ds, ds, id);
    }
  }

  lemma {:induction false} RestrictedUp(all: seq<Department>, visible: set<string>, b: string, n: nat)
    requires Keyed(all) && visible <= Ids(all)
    requires Up(Restricted(all, visible), b, n).Some?
    ensures Up(all, b, n) == Up(Restricted(all, visible), b, n)
    decreases n
  {
    if n > 0 {
      RestrictedParent(all, visible, b);
      RestrictedUp(all, visible, Parent(all, b).value, n - 1);
    }
  }

  lemma {:induction false} ConvexUp(all: seq<Department>, visible: set<string>, a: string, b: string, n: nat)
    requires Keyed(all) && visible <= Ids(all) && Convex(all, visible)
    requires a in visible && b in visible && Up(all, b, n) == Some(a)
    ensures Up(Restricted(all, visible), b, n) == Some(a)
    decreases n
  {
    if n > 0 {
      assert Below(all, a, b);
      RestrictedParent(all, visible, b);
      ConvexUp(all, visible, a, Parent(all, b).value, n - 1);
    }
  }

  ghost predicate SameBelow(all: seq<Department>, ds: seq<Department>, visible: set<string>) {
    forall a, b :: a in visible && b in visible ==> (Below(ds, a, b) <==> Below(all, a, b))
  }

  /** The hierarchy of the visible rows alone says the same as the whole table about who
      lies below whom if and only if no visible chain runs through a hidden department. */
  lemma RestrictionFaithful(all: seq<Department>, visible: set<string>)
    requires Keyed(all) && visible <= Ids(all)
    ensures SameBelow(all, Restricted(all, visible), visible) <==> Convex(all, visible)
  {
    var ds := Restricted(all, visible);
    if Convex(all, visible) {
      forall a, b | a in visible && b in visible ensures Below(ds, a, b) <==> Below(all, a, b) {
        if n: nat :| n > 0 && Up(ds, b, n) == Some(a) { RestrictedUp(all, visible, b, n); }
        if n: nat :| n > 0 && Up(all, b, n) == Some(a) { ConvexUp(all, visible, a, b, n); }
      }
    }
    if SameBelow(all, ds, visible) {
      forall a, b | a in visible && b in visible && Below(all, a, b)
        ensures Parent(all, b).Some? && Parent(all, b).value in visible
      {
        assert Below(ds, a, b);
        RestrictedParent(all, visible, b);
      }
    }
  }
}
