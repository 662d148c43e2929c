/** The department roll-ups of the analytics page: which departments get a row, what each
    row adds up, and when nothing is counted twice. */
module Rollups {
  import opened Text
  import opened Sums
  import opened Hierarchy
  import opened Departments

  /** The displayed departments: the roots of the visible hierarchy, or the children of
      the root if there is only one and it has any. */
  function DisplayIds(ds: seq<Department>): seq<string> {
    if Collapsed(ds) then ChildIds(ds, ds, RootIds(ds, ds)[0]) else RootIds(ds, ds)
  }

  predicate Collapsed(ds: seq<Department>) {
    var roots := RootIds(ds, ds);
    |roots| == 1 && ChildIds(ds, ds, roots[0]) != []
  }

  /** A visible department without a visible parent. */
  ghost predicate Top(all: seq<Department>, visible: set<string>, id: string) {
    id in visible && (Parent(all, id) == None || Parent(all, id).value !in visible)
  }

  /** The only one of these, and it has visible children. */
  ghost predicate LoneTop(all: seq<Department>, visible: set<string>, id: string) {
    && Top(all, visible, id) && (forall x :: Top(all, visible, x) ==> x == id)
    && exists c :: c in visible && Parent(all, c) == Some(id)
  }

  lemma TopsAreRoots(all: seq<Department>, visible: set<string>, id: string)
    requires Keyed(all) && visible <= Ids(all)
    ensures var ds := Restricted(all, visible); id in RootIds(ds, ds) <==> Top(all, visible, id)
  {
    var ds := Restricted(all, visible);
    RestrictedKeyed(all, visible);
    RestrictedIds(all, visible);
    RootsAre(ds, id);
    RestrictedParent(all, visible, id);
  }

  lemma KidsAreVisible(all: seq<Department>, visible: set<string>, r: string, c: string)
    requires Keyed(all) && visible <= Ids(all) && Top(all, visible, r)
    ensures var ds := Restricted(all, visible);
      c in ChildIds(ds, ds, r) <==> c in visible && Parent(all, c) == Some(r)
  {
    var ds := Restricted(all, visible);
    RestrictedKeyed(all, visible);
    RestrictedIds(all, visible);
    ChildrenAre(ds, r, c);
    RestrictedParent(all, visible, c);
  }

  lemma CollapsesFor(all: seq<Department>, visible: set<string>, id: string)
    requires Keyed(all) && visible <= Ids(all)
    ensures var ds := Restricted(all, visible);
      LoneTop(all, visible, id) <==> Collapsed(ds) && RootIds(ds, ds)[0] == id
  {
    var ds := Restricted(all, visible);
    var roots, kids := RootIds(ds, ds), ChildIds(ds, ds, id);
    RestrictedKeyed(all, visible);
    RootsOnce(ds, ds);
    TopsAreRoots(all, visible, id);
    hide RootIds, ChildIds, Top, Restricted, Keyed, Ids, Distinct;
    forall r ensures r in roots <==> Top(all, visible, r) { TopsAreRoots(all, visible, r); }
    if LoneTop(all, visible, id) {
      OnlyElement(roots, id);
      var c :| c in visible && Parent(all, c) == Some(id);
      KidsAreVisible(all, visible, id, c);
    }
    if Collapsed(ds) && roots[0] == id {
      assert roots == [id] && kids[0] in kids;
      KidsAreVisible(all, visible, id, kids[0]);
    }
  }

  /** Those without a visible parent have a row each, or, if there is only one and it has
      visible children, these instead. */
  lemma WhatIsDisplayed(all: seq<Department>, visible: set<string>, x: string)
    requires Keyed(all) && visible <= Ids(all)
    ensures forall lone :: LoneTop(all, visible, lone) ==>
      (x in DisplayIds(Restricted(all, visible)) <==> x in visible && Parent(all, x) == Some(lone))
    ensures (forall lone :: !LoneTop(all, visible, lone)) ==>
      (x in DisplayIds(Restricted(all, visible)) <==> Top(all, visible, x))
  {
    var ds := Restricted(all, visible);
    TopsAreRoots(all, visible, x);
    hide RootIds, ChildIds, Top, Restricted, LoneTop, Collapsed, Keyed, Ids;
    forall lone | LoneTop(all, visible, lone)
      ensures x in DisplayIds(ds) <==> x in visible && Parent(all, x) == Some(lone)
    {
      CollapsesFor(all, visible, lone);
      TopOf(all, visible, lone);
      KidsAreVisible(all, visible, lone, x);
    }
    if Collapsed(ds) { CollapsesFor(all, visible, RootIds(ds, ds)[0]); }
  }

  lemma TopOf(all: seq<Department>, visible: set<string>, id: string)
    requires LoneTop(all, visible, id)
    ensures Top(all, visible, id)
  {
  }

  lemma OnlyElement(s: seq<string>, x: string)
    requires Distinct(s) && forall y :: y in s <==> y == x
    ensures s == [x]
  {
    assert x in s;
    TwoDiffer(s);
  }

  lemma TwoDiffer(s: seq<string>)
    requires Distinct(s)
    ensures |s| > 1 ==> exists y, z :: y in s && z in s && y != z
  {
    if |s| > 1 { assert s[0] in s && s[1] in s; }
  }

  lemma {:induction false} RootsOnce(all: seq<Department>, ds: seq<Department>)
    requires Keyed(ds)
    ensures Distinct(RootIds(all, ds))
  {
    if ds != [] {
      var front, last := ds[..|ds| - 1], ds[|ds| - 1];
      assert ds == front + [last];
      RootsOnce(all, front);
      RootIn(all, front, last.id);
      assert forall i :: 0 <= i < |front| ==> front[i] == ds[i] && ds[i].id != last.id;
      if !Linked(all, last) { DistinctAppend(RootIds(all, front), [last.id]); }
    }
  }

  /** What a row covers: the department and, in the whole table, everything below it, as
      far as it is visible. */
  ghost function Covered(all: seq<Department>, visible: set<string>, id: string): set<string> {
    set b | b in visible && Under(all, id, b)
  }

  ghost predicate RowsDisjoint(all: seq<Department>, visible: set<string>) {
    var rows := DisplayIds(Restricted(all, visible));
    forall r, q :: r in rows && q in rows && r != q ==> Covered(all, visible, r) !! Covered(all, visible, q)
  }

  lemma UnderOrBelow(all: seq<Department>, a: string, b: string)
    ensures Under(all, a, b) <==> a == b || Below(all, a, b)
  {
    if n: nat :| Up(all, b, n) == Some(a) { assert n > 0 ==> Below(all, a, b); }
    if a == b { UnderSelf(all, a); }
  }

  lemma RestrictedIds(all: seq<Department>, visible: set<string>)
    requires visible <= Ids(all)
    ensures Ids(Restricted(all, visible)) == visible
  {
    forall d ensures d in Restricted(all, visible) <==> d in all && d.id in visible { RestrictedIn(all, visible, d); }
  }

  lemma RestrictedAcyclic(all: seq<Department>, visible: set<string>)
    requires Keyed(all) && Acyclic(all) && visible <= Ids(all)
    ensures Acyclic(Restricted(all, visible))
  {
    var rank :| Ranked(all, rank);
    RestrictedIds(all, visible);
    forall id | id in visible && Parent(Restricted(all, visible), id).Some?
      ensures Parent(Restricted(all, visible), id).value in rank
          && rank[Parent(Restricted(all, visible), id).value] < rank[id]
    {
      RestrictedParent(all, visible, id);
    }
    assert Ranked(Restricted(all, visible), rank);
  }

  lemma DisplayApart(ds: seq<Department>)
    requires Keyed(ds) && Acyclic(ds)
    ensures Apart(ds, DisplayIds(ds))
    ensures forall r :: r in DisplayIds(ds) ==> r in Ids(ds)
  {
    RootsApart(ds);
    var roots := RootIds(ds, ds);
    forall r | r in roots ensures r in Ids(ds) { RootsAre(ds, r); }
    if Collapsed(ds) {
      ChildrenApart(ds, roots[0]);
      forall c | c in ChildIds(ds, ds, roots[0]) ensures c in Ids(ds) {
        ChildrenAre(ds, roots[0], c);
        ParentKnown(ds, ds, c);
      }
    }
  }

  lemma ConvexRowsDisjoint(all: seq<Department>, visible: set<string>)
    requires Keyed(all) && Acyclic(all) && visible <= Ids(all) && Convex(all, visible)
    ensures RowsDisjoint(all, visible)
  {
    var ds := Restricted(all, visible);
    RestrictedKeyed(all, visible);
    RestrictedAcyclic(all, visible);
    RestrictedIds(all, visible);
    RestrictionFaithful(all, visible);
    DisplayApart(ds);
    var rows := DisplayIds(ds);
    hide DisplayIds, Under, Below;
    forall r, q, x | r in rows && q in rows && r != q && x in visible ensures !(Under(all, r, x) && Under(all, q, x)) {
      UnderOrBelow(all, r, x);
      UnderOrBelow(all, q, x);
      UnderOrBelow(ds, r, x);
      UnderOrBelow(ds, q, x);
      if Under(all, r, x) && Under(all, q, x) { UnderBoth(ds, r, q, x); }
    }
  }

  /** The root a visible department hangs from. */
  lemma RootOf(ds: seq<Department>, x: string) returns (r: string)
    requires Keyed(ds) && Acyclic(ds) && x in Ids(ds)
    ensures r in RootIds(ds, ds) && Under(ds, r, x)
  {
    var rank :| Ranked(ds, rank);
    var n := ReachesRoot(ds, rank, x);
    r := Up(ds, x, n).value;
  }

  lemma RestrictedUnder(all: seq<Department>, visible: set<string>, r: string, x: string)
    requires Keyed(all) && visible <= Ids(all) && Under(Restricted(all, visible), r, x)
    ensures Under(all, r, x)
  {
    var n: nat :| Up(Restricted(all, visible), x, n) == Some(r);
    RestrictedUp(all, visible, x, n);
  }

  lemma UnderChain(all: seq<Department>, a: string, b: string, c: string)
    requires Under(all, a, b) && Under(all, b, c)
    ensures Under(all, a, c)
  {
    var n: nat :| Up(all, b, n) == Some(a);
    var m: nat :| Up(all, c, m) == Some(b);
    UpAdds(all, c, m, n);
    assert Up(all, c, m + n) == Some(a);
  }

  /** A department below a hidden one is a root of its own, and not the only one. */
  lemma BrokenOff(all: seq<Department>, visible: set<string>, a: string, b: string) returns (r: string)
    requires Keyed(all) && Acyclic(all) && visible <= Ids(all)
    requires a in visible && b in visible && Below(all, a, b)
    requires Parent(all, b).None? || Parent(all, b).value !in visible
    ensures var roots := RootIds(Restricted(all, visible), Restricted(all, visible));
      r in roots && b in roots && r != b
    ensures Under(all, r, b)
  {
    hide Under, Below, Ids;
    var ds := Restricted(all, visible);
    RestrictedKeyed(all, visible);
    RestrictedAcyclic(all, visible);
    RestrictedIds(all, visible);
    RestrictedParent(all, visible, b);
    RootsAre(ds, b);
    r := RootOf(ds, a);
    RestrictedUnder(all, visible, r, a);
    UnderOrBelow(all, a, b);
    UnderChain(all, r, a, b);
    if r == b { LoopsBack(all, a, b); }
  }

  /** A visible chain through a hidden department is counted in two rows. */
  lemma BrokenChainOverlaps(all: seq<Department>, visible: set<string>, a: string, b: string)
    requires Keyed(all) && Acyclic(all) && visible <= Ids(all)
    requires a in visible && b in visible && Below(all, a, b)
    requires Parent(all, b).None? || Parent(all, b).value !in visible
    ensures !RowsDisjoint(all, visible)
  {
    hide Under, Below, Ids, Restricted, RootIds, ChildIds;
    var r := BrokenOff(all, visible, a, b);
    UnderSelf(all, b);
    assert b in Covered(all, visible, r) && b in Covered(all, visible, b);
    var roots := RootIds(Restricted(all, visible), Restricted(all, visible));
    assert |roots| != 1;
    assert DisplayIds(Restricted(all, visible)) == roots;
  }

  lemma LoopsBack(all: seq<Department>, a: string, b: string)
    requires Acyclic(all) && Below(all, a, b)
    ensures !Under(all, b, a)
  {
    if n: nat :| Up(all, a, n) == Some(b) {
      var m: nat :| m > 0 && Up(all, b, m) == Some(a);
      UpAdds(all, b, m, n);
      assert Below(all, b, b);
      NotBelowSelf(all, b);
    }
  }

  /** The displayed rows cover disjoint sets of departments if and only if no visible
      chain runs through a hidden department. */
  lemma RowsDisjointExactly(all: seq<Department>, visible: set<string>)
    requires Keyed(all) && Acyclic(all) && visible <= Ids(all)
    ensures RowsDisjoint(all, visible) <==> Convex(all, visible)
  {
    hide RowsDisjoint, Below;
    if Convex(all, visible) {
      ConvexRowsDisjoint(all, visible);
    } else {
      var a, b :| a in visible && b in visible && Below(all, a, b)
        && !(Parent(all, b).Some? && Parent(all, b).value in visible);
      BrokenChainOverlaps(all, visible, a, b);
    }
  }

  /** A user whose scopes include descendants sees a set like this. */
  ghost predicate ClosedBelow(all: seq<Department>, visible: set<string>) {
    forall a, b :: a in visible && Below(all, a, b) ==> b in visible
  }

  lemma ClosedIsConvex(all: seq<Department>, visible: set<string>)
    requires Keyed(all) && visible <= Ids(all) && ClosedBelow(all, visible)
    ensures Convex(all, visible)
  {
    forall a, b | a in visible && b in visible && Below(all, a, b)
      ensures Parent(all, b).Some? && Parent(all, b).value in visible
    {
      var n: nat :| n > 0 && Up(all, b, n) == Some(a);
      var p := Parent(all, b).value;
      assert Up(all, p, n - 1) == Some(a);
      if n > 1 { assert Below(all, a, p); }
    }
  }

  // ----- totals -----

  /** What all rows cover together. */
  ghost function CoveredAll(all: seq<Department>, visible: set<string>, rows: seq<string>): set<string> {
    set b | b in visible && exists r :: r in rows && Under(all, r, b)
  }

  ghost function RowTotal(all: seq<Department>, visible: set<string>, f: string -> int): string -> int {
    (id: string) => SumSet(Covered(all, visible, id), f)
  }

  lemma {:induction false} DisjointRowsAdd(all: seq<Department>, visible: set<string>, rows: seq<string>,
                                           f: string -> int)
    requires Distinct(rows)
    requires forall r, q :: r in rows && q in rows && r != q ==> Covered(all, visible, r) !! Covered(all, visible, q)
    ensures Sum(rows, RowTotal(all, visible, f)) == SumSet(CoveredAll(all, visible, rows), f)
  {
    hide Under;
    if rows == [] {
      assert CoveredAll(all, visible, rows) == {};
    } else {
      var front, last := rows[..|rows| - 1], rows[|rows| - 1];
      assert forall r :: r in rows <==> r in front || r == last;
      DisjointRowsAdd(all, visible, front, f);
      assert CoveredAll(all, visible, rows) == CoveredAll(all, visible, front) + Covered(all, visible, last);
      forall b | b in CoveredAll(all, visible, front) ensures b !in Covered(all, visible, last) {
        var r :| r in front && Under(all, r, b);
        assert b in Covered(all, visible, r);
      }
      SumSetUnion(CoveredAll(all, visible, front), Covered(all, visible, last), f);
    }
  }

  lemma CoveredIff(all: seq<Department>, visible: set<string>, b: string)
    requires Keyed(all) && Acyclic(all) && visible <= Ids(all) && b in visible
    ensures var ds := Restricted(all, visible);
      b in CoveredAll(all, visible, DisplayIds(ds)) <==> !(Collapsed(ds) && b == RootIds(ds, ds)[0])
  {
    var ds := Restricted(all, visible);
    RestrictedKeyed(all, visible);
    RestrictedAcyclic(all, visible);
    RestrictedIds(all, visible);
    hide Under, Below, Ids;
    var r := RootOf(ds, b);
    RestrictedUnder(all, visible, r, b);
    if Collapsed(ds) { CollapsedCovers(all, visible, r, b); }
  }

  /** Everything visible is covered, except the root when its children are shown instead. */
  lemma WhatIsCovered(all: seq<Department>, visible: set<string>)
    requires Keyed(all) && Acyclic(all) && visible <= Ids(all)
    ensures var ds := Restricted(all, visible);
      CoveredAll(all, visible, DisplayIds(ds)) == if Collapsed(ds) then visible - {RootIds(ds, ds)[0]} else visible
  {
    hide DisplayIds, Restricted, RootIds, Under, Ids;
    var ds := Restricted(all, visible);
    forall b | b in visible ensures b in CoveredAll(all, visible, DisplayIds(ds)) <==>
      !(Collapsed(ds) && b == RootIds(ds, ds)[0]) {
      CoveredIff(all, visible, b);
    }
  }

  lemma CollapsedCovers(all: seq<Department>, visible: set<string>, root: string, b: string)
    requires Keyed(all) && Acyclic(all) && visible <= Ids(all)
    requires var ds := Restricted(all, visible); Collapsed(ds) && root == RootIds(ds, ds)[0] && Under(ds, root, b)
    ensures (exists r :: r in DisplayIds(Restricted(all, visible)) && Under(all, r, b)) <==> b != root
  {
    var ds := Restricted(all, visible);
    RestrictedKeyed(all, visible);
    RestrictedIds(all, visible);
    UnderOrBelow(ds, root, b);
    hide Under, Below;
    if b != root {
      var c := BelowIsUnderChild(ds, root, b);
      ChildrenAre(ds, root, c);
      RestrictedUnder(all, visible, c, b);
    } else {
      forall r | r in DisplayIds(ds) ensures !Under(all, r, b) {
        ChildrenAre(ds, root, r);
        RestrictedParent(all, visible, r);
        ParentIsAbove(all, root, r);
        LoopsBack(all, root, r);
      }
    }
  }

  lemma ParentIsAbove(all: seq<Department>, p: string, c: string)
    requires Parent(all, c) == Some(p)
    ensures Below(all, p, c)
  {
    UnderSelf(all, c);
    UnderParent(all, c, p, c);
  }

  /** A record the roll-up counts: an employee, an employee inside, a daily record. */
  datatype Record = Record(department: string, counted: int)

  function DepartmentOf(r: Record): string { r.department }
  function CountOf(r: Record): int { r.counted }

  /** The database's GROUP BY: the figure of each department. */
  function Grouped(records: seq<Record>): string -> int {
    (id: string) => Part(records, DepartmentOf, id, CountOf)
  }

  function CountedIn(covered: set<string>): Record -> int {
    (r: Record) => if DepartmentOf(r) in covered then CountOf(r) else 0
  }

  /** The displayed rows add up to exactly the records of the covered departments, each
      counted once. */
  lemma RowsAddUp(all: seq<Department>, visible: set<string>, records: seq<Record>)
    requires Keyed(all) && Acyclic(all) && visible <= Ids(all) && Convex(all, visible)
    ensures var ds := Restricted(all, visible);
      var covered := if Collapsed(ds) then visible - {RootIds(ds, ds)[0]} else visible;
      Sum(DisplayIds(ds), RowTotal(all, visible, Grouped(records)))
        == Sum(records, CountedIn(covered))
  {
    var ds := Restricted(all, visible);
    var rows := DisplayIds(ds);
    RestrictedKeyed(all, visible);
    RestrictedAcyclic(all, visible);
    DisplayApart(ds);
    ConvexRowsDisjoint(all, visible);
    WhatIsCovered(all, visible);
    var covered := CoveredAll(all, visible, rows);
    DisjointRowsAdd(all, visible, rows, Grouped(records));
    CountedOnce(records, covered);
  }

  lemma CountedOnce(records: seq<Record>, covered: set<string>)
    ensures SumSet(covered, Grouped(records)) == Sum(records, CountedIn(covered))
  {
    PartitionWithin(records, covered, DepartmentOf, CountOf, Grouped(records), CountedIn(covered));
  }

  // ----- the computation -----

  /** The rows of `get_department_analytics` for one figure. */
  method DepartmentAnalytics(all: seq<Department>, visible: set<string>, figure: string -> int)
    returns (rows: seq<(string, int)>)
    requires Keyed(all) && Acyclic(all) && visible <= Ids(all)
    ensures var display := DisplayIds(Restricted(all, visible));
      |rows| == |display| && forall i :: 0 <= i < |rows| ==>
        rows[i] == (display[i], RowTotal(all, visible, figure)(display[i]))
  {
    hide DisplayIds, Under, Below, Ids;
    var ds := Restricted(all, visible);
    RestrictedKeyed(all, visible);
    RestrictedAcyclic(all, visible);
    RestrictedIds(all, visible);
    DisplayApart(ds);
    var display := DisplayIds(ds);
    rows := [];
    for i := 0 to |display|
      invariant |rows| == i
      invariant forall j :: 0 <= j < i ==> rows[j] == (display[j], RowTotal(all, visible, figure)(display[j]))
    {
      var id := display[i];
      assert id in display;
      var total := AddUp(all, visible, figure, id);
      rows := rows + [(id, total)];
    }
  }

  /** One row: the figures of the department and of those below it that are visible. */
  method AddUp(all: seq<Department>, visible: set<string>, figure: string -> int, id: string) returns (total: int)
    requires Keyed(all) && Acyclic(all) && visible <= Ids(all) && id in visible
    ensures total == SumSet(Covered(all, visible, id), figure)
  {
    hide Under, Below, Ids;
    var descendants := GetDescendantDepartmentIds(all, id);
    NotBelowSelf(all, id);
    hide Distinct, Covered;
    total := figure(id);
    ghost var done := {id};
    SumSetTake({id}, id, figure);
    assert {id} - {id} == {};
    for i := 0 to |descendants|
      invariant done == (set b | b in descendants[..i] && b in visible) + {id}
      invariant total == SumSet(done, figure)
    {
      var leaf := descendants[i];
      NewLeaf(descendants, i, id);
      if leaf in visible {
        SumSetTake(done + {leaf}, leaf, figure);
        assert done + {leaf} - {leaf} == done;
        done := done + {leaf};
        total := total + figure(leaf);
      }
    }
    assert descendants[..|descendants|] == descendants;
    CoveredIs(all, visible, id, descendants, done);
  }

  /** The next of distinct ids is a new one. */
  lemma NewLeaf(ids: seq<string>, i: nat, id: string)
    requires Distinct(ids) && id !in ids && i < |ids|
    ensures ids[i] !in ids[..i] && ids[i] != id
    ensures forall x :: x in ids[..i + 1] <==> x in ids[..i] || x == ids[i]
  {
    assert ids[..i + 1] == ids[..i] + [ids[i]];
    assert ids[i] in ids;
  }

  lemma CoveredIs(all: seq<Department>, visible: set<string>, id: string, descendants: seq<string>, done: set<string>)
    requires id in visible && forall b :: b in descendants <==> Below(all, id, b)
    requires done == (set b | b in descendants && b in visible) + {id}
    ensures done == Covered(all, visible, id)
  {
    hide Under, Below;
    forall b ensures Under(all, id, b) <==> id == b || Below(all, id, b) { UnderOrBelow(all, id, b); }
  }
}
