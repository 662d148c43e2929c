/** The other two views of the hierarchy: the linked forest the API serialises, and the
    preorder list with depths the report page picks departments from. */
module Departments {
  import opened Text
  import opened Sums
  import opened Hierarchy

  /** A serialised department with its children. */
  datatype Node = Node(id: string, children: seq<Node>)

  /** The forest hangs exactly the children of each department below it, in list order. */
  ghost predicate Represents(all: seq<Department>, f: seq<Node>, ids: seq<string>) {
    |f| == |ids| && forall i :: 0 <= i < |f| ==>
      f[i].id == ids[i] && Represents(all, f[i].children, ChildIds(all, all, f[i].id))
  }

  ghost predicate IsForest(all: seq<Department>, f: seq<Node>) { Represents(all, f, RootIds(all, all)) }

  function Preorder(f: seq<Node>): seq<string> {
    if f == [] then [] else [f[0].id] + Preorder(f[0].children) + Preorder(f[1..])
  }

  /** `x` is `r` or lies below it. */
  ghost predicate Under(all: seq<Department>, r: string, x: string) { exists n: nat :: Up(all, x, n) == Some(r) }

  lemma UnderSelf(all: seq<Department>, r: string)
    ensures Under(all, r, r)
  {
    assert Up(all, r, 0) == Some(r);
  }

  lemma UnderParent(all: seq<Department>, r: string, p: string, x: string)
    requires Under(all, r, x) && Parent(all, r) == Some(p)
    ensures Under(all, p, x) && Below(all, p, x)
  {
    var n: nat :| Up(all, x, n) == Some(r);
    UpAdds(all, x, n, 1);
    assert Up(all, r, 1) == Some(p);
    assert Up(all, x, n + 1) == Some(p);
  }

  lemma BelowIsUnderChild(all: seq<Department>, p: string, x: string) returns (c: string)
    requires Below(all, p, x)
    ensures Under(all, c, x) && Parent(all, c) == Some(p)
  {
    var n: nat :| n > 0 && Up(all, x, n) == Some(p);
    UpShorter(all, x, n, n - 1);
    c := Up(all, x, n - 1).value;
    UpAdds(all, x, n - 1, 1);
    assert Up(all, c, 1) == Some(p);
  }

  /** Two departments that hold a common one hold each other, one way or the other. */
  lemma UnderBoth(all: seq<Department>, r: string, q: string, x: string)
    requires Under(all, r, x) && Under(all, q, x)
    ensures Under(all, r, q) || Under(all, q, r)
  {
    var n: nat :| Up(all, x, n) == Some(r);
    var m: nat :| Up(all, x, m) == Some(q);
    if n <= m {
      UpAdds(all, x, n, m - n);
      assert Up(all, r, m - n) == Some(q);
    } else {
      UpAdds(all, x, m, n - m);
      assert Up(all, q, n - m) == Some(r);
    }
  }

  lemma NotBelowSelf(all: seq<Department>, x: string)
    requires Acyclic(all)
    ensures !Below(all, x, x)
  {
    if n: nat :| n > 0 && Up(all, x, n) == Some(x) {
      UpKnown(all, x, n);
      NoLoop(all, x, n);
    }
  }

  /** What hangs in a forest: everything at or below its roots. */
  lemma {:induction false} HangsBelow(all: seq<Department>, f: seq<Node>, ids: seq<string>, x: string)
    requires Keyed(all) && Represents(all, f, ids) && x in Preorder(f)
    ensures exists r :: r in ids && Under(all, r, x)
    decreases f, 1
  {
    hide Under;
    var r := f[0].id;
    assert r in ids;
    if x == r {
      UnderSelf(all, r);
    } else if x in Preorder(f[0].children) {
      UnderRoot(all, f, ids, x);
    } else {
      HangsBelow(all, f[1..], ids[1..], x);
      var q :| q in ids[1..] && Under(all, q, x);
      assert q in ids;
    }
  }

  lemma {:induction false} UnderRoot(all: seq<Department>, f: seq<Node>, ids: seq<string>, x: string)
    requires Keyed(all) && Represents(all, f, ids) && f != [] && x in Preorder(f[0].children)
    ensures Under(all, f[0].id, x) && Below(all, f[0].id, x)
    decreases f, 0
  {
    hide Under;
    var kids := ChildIds(all, all, f[0].id);
    HangsBelow(all, f[0].children, kids, x);
    var c :| c in kids && Under(all, c, x);
    ChildrenAre(all, f[0].id, c);
    UnderParent(all, c, f[0].id, x);
  }

  lemma {:induction false} RootsHang(f: seq<Node>, i: nat)
    requires i < |f|
    ensures f[i].id in Preorder(f)
  {
    if i > 0 { RootsHang(f[1..], i - 1); }
  }

  /** A forest holds the children of whatever it holds. */
  lemma {:induction false} ChildrenHang(all: seq<Department>, f: seq<Node>, ids: seq<string>, x: string, c: string)
    requires Keyed(all) && Represents(all, f, ids)
    requires x in Preorder(f) && Parent(all, c) == Some(x)
    ensures c in Preorder(f)
    decreases f
  {
    if x == f[0].id {
      ChildrenAre(all, x, c);
      var kids := ChildIds(all, all, x);
      var i :| 0 <= i < |kids| && kids[i] == c;
      RootsHang(f[0].children, i);
    } else if x in Preorder(f[0].children) {
      ChildrenHang(all, f[0].children, ChildIds(all, all, f[0].id), x, c);
    } else {
      ChildrenHang(all, f[1..], ids[1..], x, c);
    }
  }

  lemma {:induction false} BelowHangs(all: seq<Department>, f: seq<Node>, ids: seq<string>, x: string, n: nat)
    requires Keyed(all) && Represents(all, f, ids)
    requires Up(all, x, n).Some? && Up(all, x, n).value in ids
    ensures x in Preorder(f)
    decreases n
  {
    if n == 0 {
      var i :| 0 <= i < |ids| && ids[i] == x;
      RootsHang(f, i);
    } else {
      var p := Parent(all, x).value;
      BelowHangs(all, f, ids, p, n - 1);
      ChildrenHang(all, f, ids, p, x);
    }
  }

  /** None of the ids lies at or below another one. */
  ghost predicate Apart(all: seq<Department>, ids: seq<string>) {
    Distinct(ids) && forall r, q :: r in ids && q in ids && r != q ==> !Under(all, r, q)
  }

  lemma ChildrenApart(all: seq<Department>, id: string)
    requires Keyed(all) && Acyclic(all)
    ensures Apart(all, ChildIds(all, all, id))
  {
    var kids := ChildIds(all, all, id);
    ListsDistinct(all, all, id);
    forall r, q | r in kids && q in kids && r != q ensures !Under(all, r, q) {
      ChildrenAre(all, id, r);
      ChildrenAre(all, id, q);
      if n: nat :| Up(all, q, n) == Some(r) {
        assert Up(all, id, n - 1) == Some(r);
        assert Under(all, r, id);
        UnderParent(all, r, id, id);
        NotBelowSelf(all, id);
      }
    }
  }

  lemma RootsApart(all: seq<Department>)
    requires Keyed(all)
    ensures Apart(all, RootIds(all, all))
  {
    var ids := RootIds(all, all);
    ListsDistinct(all, all, "");
    forall r, q | r in ids && q in ids && r != q ensures !Under(all, r, q) { RootsAre(all, q); }
  }

  lemma {:induction false} OnceEach(all: seq<Department>, f: seq<Node>, ids: seq<string>)
    requires Keyed(all) && Acyclic(all) && Represents(all, f, ids) && Apart(all, ids)
    ensures Distinct(Preorder(f))
    decreases f
  {
    if f != [] {
      var r := f[0].id;
      ChildrenApart(all, r);
      OnceEach(all, f[0].children, ChildIds(all, all, r));
      assert forall x :: x in ids[1..] ==> x in ids;
      OnceEach(all, f[1..], ids[1..]);
      hide Under;
      forall x | x in Preorder(f[0].children) ensures x != r && x !in Preorder(f[1..]) {
        UnderRoot(all, f, ids, x);
        NotBelowSelf(all, x);
        NotUnderRest(all, f, ids, x);
      }
      UnderSelf(all, r);
      NotUnderRest(all, f, ids, r);
      PreorderDistinct(f);
    }
  }

  lemma PreorderDistinct(f: seq<Node>)
    requires f != []
    requires Distinct(Preorder(f[0].children)) && Distinct(Preorder(f[1..])) && f[0].id !in Preorder(f[1..])
    requires forall x :: x in Preorder(f[0].children) ==> x != f[0].id && x !in Preorder(f[1..])
    ensures Distinct(Preorder(f))
  {
    DistinctAppend([f[0].id], Preorder(f[0].children));
    DistinctAppend([f[0].id] + Preorder(f[0].children), Preorder(f[1..]));
  }

  /** What lies under the first root hangs from no other one. */
  lemma NotUnderRest(all: seq<Department>, f: seq<Node>, ids: seq<string>, x: string)
    requires Keyed(all) && Represents(all, f, ids) && f != [] && Apart(all, ids) && Under(all, ids[0], x)
    ensures x !in Preorder(f[1..])
  {
    hide Under;
    if x in Preorder(f[1..]) {
      HangsBelow(all, f[1..], ids[1..], x);
      var i :| 0 <= i < |ids[1..]| && Under(all, ids[1..][i], x);
      assert ids[i + 1] in ids && ids[0] in ids && ids[0] != ids[i + 1];
      UnderBoth(all, ids[0], ids[i + 1], x);
      assert false;
    }
  }

  // ----- the whole forest -----

  lemma {:induction false} ReachesRoot(all: seq<Department>, rank: map<string, nat>, x: string) returns (n: nat)
    requires Keyed(all) && Ranked(all, rank) && x in Ids(all)
    ensures Up(all, x, n).Some? && Up(all, x, n).value in RootIds(all, all)
    decreases rank[x]
  {
    RootsAre(all, x);
    if Parent(all, x).None? {
      n := 0;
    } else {
      ParentKnown(all, all, x);
      var m := ReachesRoot(all, rank, Parent(all, x).value);
      n := m + 1;
    }
  }

  /** The position of each id in a preorder listing. */
  function Positions(s: seq<string>): (m: map<string, nat>)
    ensures forall x :: x in m <==> x in s
    ensures forall x :: x in m ==> m[x] < |s| && s[m[x]] == x
  {
    if s == [] then map[] else Positions(s[..|s| - 1])[s[|s| - 1] := |s| - 1]
  }

  /** Either the i-th id is one of the roots, or its parent stands before it. */
  ghost predicate HasBefore(all: seq<Department>, s: seq<string>, roots: seq<string>, i: nat)
    requires i < |s|
  {
    s[i] in roots || exists j :: 0 <= j < i && Parent(all, s[i]) == Some(s[j])
  }

  lemma BeforeInKids(all: seq<Department>, r: string, kids: seq<string>, rest: seq<string>, i: nat)
    requires Keyed(all) && i < |kids| && HasBefore(all, kids, ChildIds(all, all, r), i)
    ensures exists j :: 0 <= j < i + 1 && Parent(all, ([r] + kids + rest)[i + 1]) == Some(([r] + kids + rest)[j])
  {
    var s := [r] + kids + rest;
    assert s[i + 1] == kids[i] && s[0] == r;
    if kids[i] in ChildIds(all, all, r) {
      ChildrenAre(all, r, kids[i]);
    } else {
      var j :| 0 <= j < i && Parent(all, kids[i]) == Some(kids[j]);
      assert s[j + 1] == kids[j];
    }
  }

  lemma BeforeInRest(all: seq<Department>, front: seq<string>, rest: seq<string>, roots: seq<string>, i: nat)
    requires i < |rest| && HasBefore(all, rest, roots, i)
    ensures HasBefore(all, front + rest, roots, |front| + i)
  {
    var s := front + rest;
    assert s[|front| + i] == rest[i];
    if rest[i] !in roots {
      var j :| 0 <= j < i && Parent(all, rest[i]) == Some(rest[j]);
      assert s[|front| + j] == rest[j];
    }
  }

  lemma FirstHas(all: seq<Department>, f: seq<Node>, ids: seq<string>)
    requires f != [] && Represents(all, f, ids)
    ensures |Preorder(f)| > 0 && HasBefore(all, Preorder(f), ids, 0)
  {
    assert Preorder(f)[0] == ids[0] && ids[0] in ids;
  }

  lemma KidHas(all: seq<Department>, f: seq<Node>, ids: seq<string>, i: nat)
    requires Keyed(all) && f != [] && i < |Preorder(f[0].children)|
    requires HasBefore(all, Preorder(f[0].children), ChildIds(all, all, f[0].id), i)
    ensures i + 1 < |Preorder(f)| && HasBefore(all, Preorder(f), ids, i + 1)
  {
    hide *;
    PreorderUnfold(f);
    BeforeInKids(all, f[0].id, Preorder(f[0].children), Preorder(f[1..]), i);
    ByParent(all, Preorder(f), ids, i + 1);
  }

  lemma ByParent(all: seq<Department>, s: seq<string>, roots: seq<string>, i: nat)
    requires i < |s| && exists j :: 0 <= j < i && Parent(all, s[i]) == Some(s[j])
    ensures HasBefore(all, s, roots, i)
  {
  }

  lemma RestHas(all: seq<Department>, f: seq<Node>, ids: seq<string>, i: nat)
    requires f != [] && ids != [] && i < |Preorder(f[1..])|
    requires HasBefore(all, Preorder(f[1..]), ids[1..], i)
    ensures var k := i + 1 + |Preorder(f[0].children)|; k < |Preorder(f)| && HasBefore(all, Preorder(f), ids, k)
  {
    hide *;
    PreorderUnfold(f);
    BeforeInRest(all, [f[0].id] + Preorder(f[0].children), Preorder(f[1..]), ids[1..], i);
    MoreRoots(all, Preorder(f), ids, i + 1 + |Preorder(f[0].children)|);
  }

  lemma MoreRoots(all: seq<Department>, s: seq<string>, roots: seq<string>, i: nat)
    requires i < |s| && roots != [] && HasBefore(all, s, roots[1..], i)
    ensures HasBefore(all, s, roots, i)
  {
    assert forall x :: x in roots[1..] ==> x in roots;
  }

  lemma PreorderLength(f: seq<Node>)
    ensures |Preorder(f)| == if f == [] then 0 else 1 + |Preorder(f[0].children)| + |Preorder(f[1..])|
  {
  }

  /** A parent precedes its children in the listing. */
  lemma {:induction false} ParentFirst(all: seq<Department>, f: seq<Node>, ids: seq<string>, i: nat)
    requires Keyed(all) && Represents(all, f, ids) && i < |Preorder(f)|
    ensures HasBefore(all, Preorder(f), ids, i)
    decreases f
  {
    hide *;
    PreorderLength(f);
    RepresentsParts(all, f, ids);
    if i == 0 {
      FirstHas(all, f, ids);
    } else if i <= |Preorder(f[0].children)| {
      ParentFirst(all, f[0].children, ChildIds(all, all, f[0].id), i - 1);
      KidHas(all, f, ids, i - 1);
    } else {
      var at := i - 1 - |Preorder(f[0].children)|;
      ParentFirst(all, f[1..], ids[1..], at);
      RestHas(all, f, ids, at);
    }
  }

  ghost predicate HoldsEachOnce(all: seq<Department>, f: seq<Node>) {
    Distinct(Preorder(f)) && forall id :: id in Preorder(f) <==> id in Ids(all)
  }

  /** The forest built from the parent pointers holds every department exactly once if and
      only if the pointers have no cycle (a cycle hangs from no root). */
  lemma ForestHoldsEachOnce(all: seq<Department>, f: seq<Node>)
    requires Keyed(all) && IsForest(all, f)
    ensures HoldsEachOnce(all, f) <==> Acyclic(all)
  {
    var roots := RootIds(all, all);
    if Acyclic(all) {
      RootsApart(all);
      OnceEach(all, f, roots);
      var rank :| Ranked(all, rank);
      forall id | id in Ids(all) ensures id in Preorder(f) {
        var n := ReachesRoot(all, rank, id);
        BelowHangs(all, f, roots, id, n);
      }
      forall id | id in Preorder(f) ensures id in Ids(all) {
        HangsBelow(all, f, roots, id);
        var r :| r in roots && Under(all, r, id);
        var n: nat :| Up(all, id, n) == Some(r);
        RootsAre(all, r);
        if n > 0 { UpKnown(all, id, n); }
      }
    }
    if HoldsEachOnce(all, f) { ListingRanks(all, f); }
  }

  lemma ListingRanks(all: seq<Department>, f: seq<Node>)
    requires Keyed(all) && IsForest(all, f) && HoldsEachOnce(all, f)
    ensures Acyclic(all)
  {
    var s := Preorder(f);
    var rank := Positions(s);
    forall id | id in Ids(all) && Parent(all, id).Some?
      ensures Parent(all, id).value in rank && rank[Parent(all, id).value] < rank[id]
    {
      var i := rank[id];
      ParentFirst(all, f, RootIds(all, all), i);
      RootsAre(all, id);
      var j :| 0 <= j < i && Parent(all, id) == Some(s[j]);
      assert rank[s[j]] == j;
    }
    assert Ranked(all, rank);
  }

  // ----- every table has its forest -----

  ghost function Unfold(all: seq<Department>, ids: seq<string>, level: nat, bound: nat): seq<Node>
    decreases bound - level, |ids|
  {
    if ids == [] || level >= bound then []
    else [Node(ids[0], Unfold(all, ChildIds(all, all, ids[0]), level + 1, bound))] + Unfold(all, ids[1..], level, bound)
  }

  lemma Grafted(all: seq<Department>, ids: seq<string>, below: seq<Node>, rest: seq<Node>)
    requires ids != []
    requires Represents(all, below, ChildIds(all, all, ids[0])) && Represents(all, rest, ids[1..])
    ensures Represents(all, [Node(ids[0], below)] + rest, ids)
  {
    var f := [Node(ids[0], below)] + rest;
    forall i | 0 <= i < |f| ensures f[i].id == ids[i] && Represents(all, f[i].children, ChildIds(all, all, f[i].id)) {
      if i > 0 { assert f[i] == rest[i - 1] && ids[i] == ids[1..][i - 1]; }
    }
  }

  lemma UnfoldStep(all: seq<Department>, ids: seq<string>, level: nat, bound: nat)
    requires ids != [] && level < bound
    ensures Unfold(all, ids, level, bound) ==
            [Node(ids[0], Unfold(all, ChildIds(all, all, ids[0]), level + 1, bound))]
              + Unfold(all, ids[1..], level, bound)
  {
  }

  lemma NothingUnfolds(all: seq<Department>, level: nat, bound: nat)
    ensures Represents(all, Unfold(all, [], level, bound), [])
  {
  }

  /** The department lies exactly n steps below a root. */
  ghost predicate AtDepth(all: seq<Department>, x: string, n: nat) {
    x in Ids(all) && Up(all, x, n).Some? && Parent(all, Up(all, x, n).value) == None
  }

  lemma {:induction false} UpNext(all: seq<Department>, x: string, n: nat)
    requires Up(all, x, n).Some?
    ensures Up(all, x, n + 1) == Parent(all, Up(all, x, n).value)
  {
    UpAdds(all, x, n, 1);
    var y := Up(all, x, n).value;
    assert Up(all, y, 1) == Parent(all, y) by {
      if Parent(all, y).Some? { assert Up(all, Parent(all, y).value, 0) == Parent(all, y); }
    }
  }

  lemma OneDepth(all: seq<Department>, x: string, n: nat, m: nat)
    requires AtDepth(all, x, n) && AtDepth(all, x, m)
    ensures n == m
  {
    UpNext(all, x, n);
    UpNext(all, x, m);
    if n < m { UpShorter(all, x, m, n + 1); }
    if m < n { UpShorter(all, x, n, m + 1); }
  }

  lemma {:induction false} ParentDepth(all: seq<Department>, x: string, n: nat)
    requires AtDepth(all, x, n) && n > 0
    ensures Parent(all, x).Some? && AtDepth(all, Parent(all, x).value, n - 1)
  {
    ParentKnown(all, all, x);
  }

  /** A department n steps below a root has n departments above it. */
  lemma {:induction false} Lineage(all: seq<Department>, x: string, n: nat) returns (line: set<string>)
    requires AtDepth(all, x, n)
    ensures |line| == n + 1 && line <= Ids(all)
    ensures forall y :: y in line ==> exists m: nat :: m <= n && AtDepth(all, y, m)
    decreases n
  {
    if n == 0 {
      line := {x};
    } else {
      ParentDepth(all, x, n);
      var above := Lineage(all, Parent(all, x).value, n - 1);
      hide AtDepth;
      if x in above {
        var m: nat :| m <= n - 1 && AtDepth(all, x, m);
        OneDepth(all, x, n, m);
        assert false;
      }
      line := above + {x};
      InIds(all, x, n);
    }
  }

  lemma InIds(all: seq<Department>, x: string, n: nat)
    requires AtDepth(all, x, n)
    ensures x in Ids(all)
  {
  }

  lemma {:induction false} IdsFew(all: seq<Department>)
    ensures |Ids(all)| <= |all|
  {
    if all == [] {
      assert Ids(all) == {};
    } else {
      var front, last := all[..|all| - 1], all[|all| - 1];
      assert all == front + [last];
      IdsFew(front);
      assert Ids(all) == Ids(front) + {last.id};
    }
  }

  lemma DepthBound(all: seq<Department>, x: string, n: nat)
    requires AtDepth(all, x, n)
    ensures n < |all|
  {
    var line := Lineage(all, x, n);
    IdsFew(all);
    SubsetSize(line, Ids(all));
  }

  ghost predicate AllAtDepth(all: seq<Department>, ids: seq<string>, n: nat) {
    forall x :: x in ids ==> AtDepth(all, x, n)
  }

  lemma DepthBelow(all: seq<Department>, ids: seq<string>, n: nat)
    requires Keyed(all) && ids != [] && AllAtDepth(all, ids, n)
    ensures AllAtDepth(all, ids[1..], n) && AllAtDepth(all, ChildIds(all, all, ids[0]), n + 1) && n < |all|
  {
    assert ids[0] in ids;
    DepthBound(all, ids[0], n);
    forall x | x in ChildIds(all, all, ids[0]) ensures AtDepth(all, x, n + 1) {
      ChildrenAre(all, ids[0], x);
      ParentKnown(all, all, x);
    }
  }

  lemma {:induction false} Unfolds(all: seq<Department>, ids: seq<string>, level: nat)
    requires Keyed(all) && AllAtDepth(all, ids, level) && level <= |all|
    ensures Represents(all, Unfold(all, ids, level, |all|), ids)
    decreases |all| - level, |ids|
  {
    hide *;
    if ids == [] {
      NothingUnfolds(all, level, |all|);
    } else {
      DepthBelow(all, ids, level);
      UnfoldStep(all, ids, level, |all|);
      var kids := ChildIds(all, all, ids[0]);
      Unfolds(all, kids, level + 1);
      Unfolds(all, ids[1..], level);
      Grafted(all, ids, Unfold(all, kids, level + 1, |all|), Unfold(all, ids[1..], level, |all|));
    }
  }

  /** Every table has its forest, also one with cycles: they hang from no root. */
  lemma ForestExists(all: seq<Department>) returns (f: seq<Node>)
    requires Keyed(all)
    ensures IsForest(all, f)
  {
    var roots := RootIds(all, all);
    forall x | x in roots ensures AtDepth(all, x, 0) { RootsAre(all, x); }
    Unfolds(all, roots, 0);
    f := Unfold(all, roots, 0, |all|);
  }

  // ----- the preorder list with depths -----

  datatype DeptOption = DeptOption(id: string, depth: nat)

  /** `flattenDepartments`: a hidden department is left out and its children take its
      place, at its depth. */
  function Flatten(f: seq<Node>, hidden: set<string>, depth: nat): seq<DeptOption> {
    if f == [] then []
    else
      var children := Flatten(f[0].children, hidden, if f[0].id in hidden then depth else depth + 1);
      (if f[0].id in hidden then children else [DeptOption(f[0].id, depth)] + children) + Flatten(f[1..], hidden, depth)
  }

  /** The longest run of options deeper than `depth`. */
  function Deeper(options: seq<DeptOption>, depth: nat): seq<DeptOption> {
    if options == [] || options[0].depth <= depth then [] else [options[0]] + Deeper(options[1..], depth)
  }

  lemma {:induction false} AllDeeper(s: seq<DeptOption>, t: seq<DeptOption>, depth: nat)
    requires forall o :: o in s ==> o.depth > depth
    requires t == [] || t[0].depth <= depth
    ensures Deeper(s + t, depth) == s
  {
    if s == [] {
      assert s + t == t;
    } else {
      assert (s + t)[1..] == s[1..] + t;
      AllDeeper(s[1..], t, depth);
    }
  }

  lemma {:induction false} DeeperStops(s: seq<DeptOption>, t: seq<DeptOption>, depth: nat)
    requires t == [] || t[0].depth <= depth
    ensures Deeper(s + t, depth) == Deeper(s, depth)
  {
    if s == [] {
      assert s + t == t;
    } else {
      assert (s + t)[1..] == s[1..] + t;
      DeeperStops(s[1..], t, depth);
    }
  }

  lemma {:induction false} Depths(f: seq<Node>, hidden: set<string>, depth: nat)
    ensures forall o :: o in Flatten(f, hidden, depth) ==> o.depth >= depth
    ensures Flatten(f, hidden, depth) != [] ==> Flatten(f, hidden, depth)[0].depth == depth
    decreases f
  {
    if f != [] {
      Depths(f[0].children, hidden, if f[0].id in hidden then depth else depth + 1);
      Depths(f[1..], hidden, depth);
    }
  }

  /** `getDescendantIds` as a function of the options after the chosen one. */
  function After(options: seq<DeptOption>, id: string): seq<DeptOption> {
    if options == [] then []
    else if options[0].id == id then Deeper(options[1..], options[0].depth)
    else After(options[1..], id)
  }

  /** The options from `idx` on decide, as long as none before it was the one. */
  lemma {:induction false} AfterSkips(options: seq<DeptOption>, id: string, idx: nat)
    requires idx <= |options| && forall i :: 0 <= i < idx ==> options[i].id != id
    ensures After(options, id) == After(options[idx..], id)
  {
    if idx > 0 {
      AfterSkips(options[1..], id, idx - 1);
      assert options[1..][idx - 1..] == options[idx..];
    } else {
      assert options[0..] == options;
    }
  }

  lemma DeeperNext(options: seq<DeptOption>, i: nat, depth: nat)
    requires i < |options|
    ensures OptionIds(Deeper(options[i..], depth)) ==
            if options[i].depth <= depth then [] else [options[i].id] + OptionIds(Deeper(options[i + 1..], depth))
  {
    assert options[i..][1..] == options[i + 1..];
  }

  /** The component's scan: find the option, collect until a depth not below it. */
  method GetDescendantIds(options: seq<DeptOption>, id: string) returns (result: seq<string>)
    ensures result == OptionIds(After(options, id))
  {
    hide Deeper, OptionIds;
    var idx := 0;
    while idx < |options| && options[idx].id != id
      invariant 0 <= idx <= |options|
      invariant forall i :: 0 <= i < idx ==> options[i].id != id
    {
      idx := idx + 1;
    }
    AfterSkips(options, id, idx);
    result := [];
    NoOptions(options);
    if idx == |options| { return; }
    var parentDepth := options[idx].depth;
    assert options[idx..][1..] == options[idx + 1..];
    ghost var found := OptionIds(After(options, id));
    var i := idx + 1;
    while i < |options|
      invariant idx < i <= |options|
      invariant found == result + OptionIds(Deeper(options[i..], parentDepth))
    {
      DeeperNext(options, i, parentDepth);
      if options[i].depth <= parentDepth { return; }
      result := result + [options[i].id];
      i := i + 1;
    }
  }

  lemma NoOptions(options: seq<DeptOption>)
    ensures OptionIds([]) == []
    ensures forall depth: nat :: Deeper(options[|options|..], depth) == []
  {
  }

  function OptionIds(options: seq<DeptOption>): seq<string> {
    seq(|options|, i requires 0 <= i < |options| => options[i].id)
  }

  ghost predicate Listed(options: seq<DeptOption>, x: string) { exists o :: o in options && o.id == x }

  lemma ListedIds(options: seq<DeptOption>, x: string)
    ensures x in OptionIds(options) <==> Listed(options, x)
  {
    if Listed(options, x) {
      var i :| 0 <= i < |options| && options[i].id == x;
      assert OptionIds(options)[i] == x;
    }
  }

  lemma ListedAppend(s: seq<DeptOption>, t: seq<DeptOption>, x: string)
    ensures Listed(s + t, x) <==> Listed(s, x) || Listed(t, x)
  {
    assert forall o :: o in s + t <==> o in s || o in t;
  }

  lemma FlattenUnfold(f: seq<Node>, hidden: set<string>, depth: nat)
    requires f != []
    ensures var rest := Flatten(f[1..], hidden, depth);
      Flatten(f, hidden, depth) ==
        if f[0].id in hidden then Flatten(f[0].children, hidden, depth) + rest
        else [DeptOption(f[0].id, depth)] + (Flatten(f[0].children, hidden, depth + 1) + rest)
  {
  }

  /** The options listed are the departments of the forest that are not hidden. */
  lemma {:induction false} FlattenIds(f: seq<Node>, hidden: set<string>, depth: nat, x: string)
    ensures Listed(Flatten(f, hidden, depth), x) <==> x in Preorder(f) && x !in hidden
    decreases f
  {
    if f != [] {
      hide Flatten, Listed;
      var below := if f[0].id in hidden then depth else depth + 1;
      var kids, rest := Flatten(f[0].children, hidden, below), Flatten(f[1..], hidden, depth);
      FlattenIds(f[0].children, hidden, below, x);
      FlattenIds(f[1..], hidden, depth, x);
      FlattenUnfold(f, hidden, depth);
      ListedAppend(kids, rest, x);
      if f[0].id !in hidden { ListedAppend([DeptOption(f[0].id, depth)], kids + rest, x); }
      OneListed(DeptOption(f[0].id, depth), x);
    } else {
      assert Flatten(f, hidden, depth) == [];
    }
  }

  lemma OneListed(o: DeptOption, x: string)
    ensures Listed([o], x) <==> o.id == x
  {
    assert o in [o];
  }

  // ----- the three views agree -----

  lemma RepresentsParts(all: seq<Department>, f: seq<Node>, ids: seq<string>)
    requires f != [] && Represents(all, f, ids)
    ensures ids != [] && f[0].id == ids[0]
    ensures Represents(all, f[0].children, ChildIds(all, all, f[0].id)) && Represents(all, f[1..], ids[1..])
    ensures forall x :: x in Preorder(f) <==> x == f[0].id || x in Preorder(f[0].children) || x in Preorder(f[1..])
  {
  }

  lemma DistinctSum(s: seq<string>, t: seq<string>)
    requires Distinct(s + t)
    ensures Distinct(s) && Distinct(t) && forall x :: x in s ==> x !in t
  {
    forall i | 0 <= i < |s| ensures (s + t)[i] == s[i] { }
    forall i | 0 <= i < |t| ensures (s + t)[i + |s|] == t[i] { }
  }

  lemma DistinctParts(f: seq<Node>)
    requires f != [] && Distinct(Preorder(f))
    ensures Distinct(Preorder(f[0].children)) && Distinct(Preorder(f[1..]))
    ensures f[0].id !in Preorder(f[0].children) && f[0].id !in Preorder(f[1..])
    ensures forall x :: x in Preorder(f[0].children) ==> x !in Preorder(f[1..])
  {
    hide Distinct;
    PreorderUnfold(f);
    var s, t := Preorder(f[0].children), Preorder(f[1..]);
    DistinctSum([f[0].id] + s, t);
    DistinctSum([f[0].id], s);
    assert f[0].id in [f[0].id] + s;
    hide Preorder;
    assert forall x :: x in s ==> x in [f[0].id] + s;
  }

  lemma PreorderUnfold(f: seq<Node>)
    requires f != []
    ensures Preorder(f) == [f[0].id] + Preorder(f[0].children) + Preorder(f[1..])
  {
  }

  lemma {:induction false} AfterLater(s: seq<DeptOption>, t: seq<DeptOption>, a: string)
    requires !Listed(s, a)
    ensures After(s + t, a) == After(t, a)
  {
    if s == [] {
      assert s + t == t;
    } else {
      assert s[0] in s && (s + t)[1..] == s[1..] + t;
      assert forall o :: o in s[1..] ==> o in s;
      AfterLater(s[1..], t, a);
    }
  }

  lemma {:induction false} AfterWithin(s: seq<DeptOption>, t: seq<DeptOption>, a: string)
    requires Listed(s, a)
    requires t != [] ==> forall o :: o in s ==> t[0].depth <= o.depth
    ensures After(s + t, a) == After(s, a)
  {
    assert (s + t)[1..] == s[1..] + t;
    if s[0].id == a {
      DeeperStops(s[1..], t, s[0].depth);
    } else {
      AfterWithin(s[1..], t, a);
    }
  }

  lemma AfterOwn(o: DeptOption, s: seq<DeptOption>, t: seq<DeptOption>)
    requires forall x :: x in s ==> x.depth > o.depth
    requires t == [] || t[0].depth <= o.depth
    ensures After([o] + (s + t), o.id) == s
  {
    assert ([o] + (s + t))[1..] == s + t;
    AllDeeper(s, t, o.depth);
  }

  lemma AfterOther(o: DeptOption, s: seq<DeptOption>, a: string)
    requires o.id != a
    ensures After([o] + s, a) == After(s, a)
  {
    assert ([o] + s)[1..] == s;
  }

  lemma ScanHere(f: seq<Node>, hidden: set<string>, depth: nat)
    requires f != [] && f[0].id !in hidden
    ensures After(Flatten(f, hidden, depth), f[0].id) == Flatten(f[0].children, hidden, depth + 1)
  {
    FlattenUnfold(f, hidden, depth);
    Depths(f[0].children, hidden, depth + 1);
    Depths(f[1..], hidden, depth);
    AfterOwn(DeptOption(f[0].id, depth), Flatten(f[0].children, hidden, depth + 1), Flatten(f[1..], hidden, depth));
  }

  function Next(f: seq<Node>, hidden: set<string>, depth: nat): nat
    requires f != []
  {
    if f[0].id in hidden then depth else depth + 1
  }

  lemma ScanFirst(f: seq<Node>, hidden: set<string>, depth: nat, a: string)
    requires f != [] && f[0].id != a
    ensures After(Flatten(f, hidden, depth), a)
         == After(Flatten(f[0].children, hidden, Next(f, hidden, depth)) + Flatten(f[1..], hidden, depth), a)
  {
    FlattenUnfold(f, hidden, depth);
    hide Flatten, After;
    if f[0].id !in hidden {
      AfterOther(DeptOption(f[0].id, depth),
                 Flatten(f[0].children, hidden, depth + 1) + Flatten(f[1..], hidden, depth), a);
    }
  }

  lemma ScanWithin(f: seq<Node>, hidden: set<string>, depth: nat, a: string)
    requires f != [] && f[0].id != a && a in Preorder(f[0].children) && a !in hidden
    ensures After(Flatten(f, hidden, depth), a) == After(Flatten(f[0].children, hidden, Next(f, hidden, depth)), a)
  {
    hide Flatten, After, Listed;
    var below := Next(f, hidden, depth);
    ScanFirst(f, hidden, depth, a);
    Depths(f[0].children, hidden, below);
    Depths(f[1..], hidden, depth);
    FlattenIds(f[0].children, hidden, below, a);
    AfterWithin(Flatten(f[0].children, hidden, below), Flatten(f[1..], hidden, depth), a);
  }

  lemma ScanLater(f: seq<Node>, hidden: set<string>, depth: nat, a: string)
    requires f != [] && f[0].id != a && a !in Preorder(f[0].children)
    ensures After(Flatten(f, hidden, depth), a) == After(Flatten(f[1..], hidden, depth), a)
  {
    hide Flatten, After, Listed;
    var below := Next(f, hidden, depth);
    ScanFirst(f, hidden, depth, a);
    FlattenIds(f[0].children, hidden, below, a);
    AfterLater(Flatten(f[0].children, hidden, below), Flatten(f[1..], hidden, depth), a);
  }

  /** What the scan collects for a listed department is the flattening of its own
      subtree, whatever was spliced out around or below it. */
  lemma {:induction false} AfterIsSubtree(all: seq<Department>, f: seq<Node>, ids: seq<string>, hidden: set<string>,
                                          depth: nat, a: string)
    returns (kids: seq<Node>, at: nat)
    requires Represents(all, f, ids) && Distinct(Preorder(f))
    requires a in Preorder(f) && a !in hidden
    ensures Represents(all, kids, ChildIds(all, all, a)) && Distinct(Preorder(kids))
    ensures After(Flatten(f, hidden, depth), a) == Flatten(kids, hidden, at + 1)
    decreases f
  {
    hide *;
    NotNone(f, a);
    RepresentsParts(all, f, ids);
    DistinctParts(f);
    if a == f[0].id {
      kids, at := f[0].children, depth;
      ScanHere(f, hidden, depth);
    } else if a in Preorder(f[0].children) {
      ScanWithin(f, hidden, depth, a);
      kids, at := AfterIsSubtree(all, f[0].children, ChildIds(all, all, f[0].id), hidden, Next(f, hidden, depth), a);
    } else {
      ScanLater(f, hidden, depth, a);
      kids, at := AfterIsSubtree(all, f[1..], ids[1..], hidden, depth, a);
    }
  }

  /** The list of options under a department, the linked forest and the parent pointers
      name the same departments: the scan finds those below it that are not hidden. */
  lemma ScanFindsBelow(all: seq<Department>, f: seq<Node>, hidden: set<string>, depth: nat, a: string)
    requires Keyed(all) && Acyclic(all) && IsForest(all, f)
    requires a in Ids(all) && a !in hidden
    ensures var found := OptionIds(After(Flatten(f, hidden, depth), a));
      && Distinct(found)
      && (forall b :: b in found <==> Below(all, a, b) && b !in hidden)
  {
    hide *;
    ForestHoldsEachOnce(all, f);
    HeldAre(all, f, a);
    var kids, at := AfterIsSubtree(all, f, RootIds(all, all), hidden, depth, a);
    SubtreeListed(all, kids, hidden, at + 1, a);
  }

  lemma SubtreeListed(all: seq<Department>, kids: seq<Node>, hidden: set<string>, depth: nat, a: string)
    requires Keyed(all) && Represents(all, kids, ChildIds(all, all, a)) && Distinct(Preorder(kids))
    ensures var found := OptionIds(Flatten(kids, hidden, depth));
      && Distinct(found)
      && (forall b :: b in found <==> Below(all, a, b) && b !in hidden)
  {
    hide *;
    FlattenDistinct(kids, hidden, depth);
    forall b ensures b in OptionIds(Flatten(kids, hidden, depth)) <==> Below(all, a, b) && b !in hidden {
      ListedIds(Flatten(kids, hidden, depth), b);
      FlattenIds(kids, hidden, depth, b);
      SubtreeIsBelow(all, kids, a, b);
    }
  }

  lemma NotNone(f: seq<Node>, a: string)
    requires a in Preorder(f)
    ensures f != []
  {
  }

  lemma HeldAre(all: seq<Department>, f: seq<Node>, a: string)
    requires HoldsEachOnce(all, f) && IsForest(all, f) && a in Ids(all)
    ensures a in Preorder(f) && Distinct(Preorder(f)) && Represents(all, f, RootIds(all, all))
  {
  }

  lemma SubtreeIsBelow(all: seq<Department>, kids: seq<Node>, a: string, b: string)
    requires Keyed(all) && Represents(all, kids, ChildIds(all, all, a))
    ensures b in Preorder(kids) <==> Below(all, a, b)
  {
    hide Below, Under;
    var ids := ChildIds(all, all, a);
    if b in Preorder(kids) {
      HangsBelow(all, kids, ids, b);
      var c :| c in ids && Under(all, c, b);
      ChildrenAre(all, a, c);
      UnderParent(all, c, a, b);
    }
    if Below(all, a, b) {
      var c := BelowIsUnderChild(all, a, b);
      ChildrenAre(all, a, c);
      UnderHangs(all, kids, ids, c, b);
    }
  }

  lemma UnderHangs(all: seq<Department>, f: seq<Node>, ids: seq<string>, c: string, x: string)
    requires Keyed(all) && Represents(all, f, ids) && c in ids && Under(all, c, x)
    ensures x in Preorder(f)
  {
    var n: nat :| Up(all, x, n) == Some(c);
    BelowHangs(all, f, ids, x, n);
  }

  lemma {:induction false} FlattenDistinct(f: seq<Node>, hidden: set<string>, depth: nat)
    requires Distinct(Preorder(f))
    ensures Distinct(OptionIds(Flatten(f, hidden, depth)))
    decreases f
  {
    if f != [] {
      hide Flatten;
      DistinctParts(f);
      var below := if f[0].id in hidden then depth else depth + 1;
      var own, rest := Flatten(f[0].children, hidden, below), Flatten(f[1..], hidden, depth);
      FlattenDistinct(f[0].children, hidden, below);
      FlattenDistinct(f[1..], hidden, depth);
      FlattenUnfold(f, hidden, depth);
      forall x ensures x in OptionIds(own) <==> x in Preorder(f[0].children) && x !in hidden {
        ListedIds(own, x);
        FlattenIds(f[0].children, hidden, below, x);
      }
      forall x ensures x in OptionIds(rest) <==> x in Preorder(f[1..]) && x !in hidden {
        ListedIds(rest, x);
        FlattenIds(f[1..], hidden, depth, x);
      }
      IdsOfSum(own, rest);
      DistinctAppend(OptionIds(own), OptionIds(rest));
      if f[0].id !in hidden {
        IdsOfSum([DeptOption(f[0].id, depth)], own + rest);
        DistinctAppend([f[0].id], OptionIds(own) + OptionIds(rest));
      }
    } else {
      assert Flatten(f, hidden, depth) == [];
    }
  }

  lemma IdsOfSum(s: seq<DeptOption>, t: seq<DeptOption>)
    ensures OptionIds(s + t) == OptionIds(s) + OptionIds(t)
    ensures forall o: DeptOption :: OptionIds([o]) == [o.id]
  {
  }

  /** The report page's picker and the API's recursive query choose the same departments,
      as far as the picker lists them. */
  method PickerMatchesQuery(all: seq<Department>, ghost f: seq<Node>, options: seq<DeptOption>, hidden: set<string>,
                            a: string)
    returns (picked: seq<string>, queried: seq<string>)
    requires Keyed(all) && Acyclic(all) && IsForest(all, f)
    requires options == Flatten(f, hidden, 0)
    requires a in Ids(all) && a !in hidden
    ensures Distinct(picked) && Distinct(queried)
    ensures forall b :: b in picked <==> b in queried && b !in hidden
  {
    picked := GetDescendantIds(options, a);
    queried := GetDescendantDepartmentIds(all, a);
    ScanFindsBelow(all, f, hidden, 0, a);
  }

  // ----- the serialiser -----

  /** A serialised department under construction: `children` is appended to in place. */
  class DepartmentNode {
    const departmentId: string
    var children: seq<DepartmentNode>

    constructor (id: string)
      ensures departmentId == id && children == []
    {
      departmentId := id;
      children := [];
    }
  }

  /** The objects listed are those of the ids listed. */
  ghost predicate Named(nodes: map<string, DepartmentNode>, list: seq<DepartmentNode>, ids: seq<string>) {
    |list| == |ids| && forall i :: 0 <= i < |ids| ==> ids[i] in nodes && list[i] == nodes[ids[i]]
  }

  /** What the linked objects read as. */
  ghost predicate Reads(nodes: set<DepartmentNode>, list: seq<DepartmentNode>, f: seq<Node>)
    reads nodes
    decreases f
  {
    |list| == |f| && forall i :: 0 <= i < |f| ==>
      list[i] in nodes && list[i].departmentId == f[i].id && Reads(nodes, list[i].children, f[i].children)
  }

  ghost predicate Wired(all: seq<Department>, done: seq<Department>, nodes: map<string, DepartmentNode>)
    reads nodes.Values
  {
    && nodes.Keys == Ids(all)
    && (forall id, jd :: id in nodes && jd in nodes && nodes[id] == nodes[jd] ==> id == jd)
    && (forall id :: id in nodes ==>
      nodes[id].departmentId == id && Named(nodes, nodes[id].children, ChildIds(all, done, id)))
  }

  lemma {:induction false} WiredReads(all: seq<Department>, nodes: map<string, DepartmentNode>,
                                      list: seq<DepartmentNode>, ids: seq<string>, f: seq<Node>)
    requires Wired(all, all, nodes) && Named(nodes, list, ids)
    ensures Reads(nodes.Values, list, f) <==> Represents(all, f, ids)
    decreases f
  {
    if |f| == |ids| {
      forall i | 0 <= i < |f| && f[i].id == ids[i]
        ensures list[i] in nodes.Values && list[i].departmentId == f[i].id
        ensures Reads(nodes.Values, list[i].children, f[i].children) <==>
          Represents(all, f[i].children, ChildIds(all, all, f[i].id))
      {
        WiredReads(all, nodes, list[i].children, ChildIds(all, all, ids[i]), f[i].children);
      }
    }
  }

  lemma FirstWiring(all: seq<Department>, nodes: map<string, DepartmentNode>)
    requires forall id :: id in nodes <==> exists j :: 0 <= j < |all| && all[j].id == id
    requires forall id :: id in nodes ==> nodes[id].departmentId == id && nodes[id].children == []
    ensures nodes.Keys == Ids(all)
    ensures Wired(all, all[..0], nodes) && Named(nodes, [], RootIds(all, all[..0]))
  {
    assert nodes.Keys == Ids(all);
  }

  lemma NamedGrows(nodes: map<string, DepartmentNode>, list: seq<DepartmentNode>, ids: seq<string>, id: string)
    requires Named(nodes, list, ids) && id in nodes
    ensures Named(nodes, list + [nodes[id]], ids + [id])
  {
  }

  lemma NextIds(all: seq<Department>, i: nat)
    requires i < |all|
    ensures all[i].id in Ids(all)
    ensures RootIds(all, all[..i + 1]) ==
      if Linked(all, all[i]) then RootIds(all, all[..i]) else RootIds(all, all[..i]) + [all[i].id]
    ensures Linked(all, all[i]) ==> all[i].parent.value in Ids(all)
    ensures forall id :: ChildIds(all, all[..i + 1], id) ==
              if Linked(all, all[i]) && all[i].parent.value == id then ChildIds(all, all[..i], id) + [all[i].id]
              else ChildIds(all, all[..i], id)
  {
    assert all[..i + 1][..i] == all[..i];
  }

  /** The dictionary of nodes, none of them linked yet. */
  method NodeTable(departments: seq<Department>) returns (table: map<string, DepartmentNode>)
    ensures table.Keys == Ids(departments)
    ensures forall id :: id in table ==> fresh(table[id]) && table[id].departmentId == id && table[id].children == []
    ensures Wired(departments, departments[..0], table) && Named(table, [], RootIds(departments, departments[..0]))
  {
    table := map[];
    for i := 0 to |departments|
      invariant forall id :: id in table <==> exists j :: 0 <= j < i && departments[j].id == id
      invariant forall id :: id in table ==>
        fresh(table[id]) && table[id].departmentId == id && table[id].children == []
    {
      var node := new DepartmentNode(departments[i].id);
      table := table[departments[i].id := node];
    }
    FirstWiring(departments, table);
  }

  lemma WholeForest(all: seq<Department>, nodes: map<string, DepartmentNode>, roots: seq<DepartmentNode>)
    requires Wired(all, all, nodes) && Named(nodes, roots, RootIds(all, all))
    ensures forall f :: Reads(nodes.Values, roots, f) <==> IsForest(all, f)
  {
    forall f ensures Reads(nodes.Values, roots, f) <==> IsForest(all, f) {
      WiredReads(all, nodes, roots, RootIds(all, all), f);
    }
  }

  /** The loop body: a department goes below its parent, or to the roots. */
  method Hang(departments: seq<Department>, i: nat, table: map<string, DepartmentNode>, roots: seq<DepartmentNode>)
    returns (more: seq<DepartmentNode>)
    requires i < |departments| && Wired(departments, departments[..i], table)
    requires Named(table, roots, RootIds(departments, departments[..i]))
    modifies table.Values
    ensures Wired(departments, departments[..i + 1], table)
    ensures Named(table, more, RootIds(departments, departments[..i + 1]))
  {
    hide ChildIds, RootIds, Ids, Named;
    var department := departments[i];
    NextIds(departments, i);
    var node := table[department.id];
    more := roots;
    if Linked(departments, department) {
      var parent := table[department.parent.value];
      var above := ChildIds(departments, departments[..i], department.parent.value);
      NamedGrows(table, parent.children, above, department.id);
      parent.children := parent.children + [node];
    } else {
      NamedGrows(table, roots, RootIds(departments, departments[..i]), department.id);
      more := more + [node];
    }
  }

  /** `serialize_department_tree`: what hangs from the returned roots is the forest of the
      parent pointers. */
  method SerializeDepartmentTree(departments: seq<Department>)
    returns (roots: seq<DepartmentNode>, ghost nodes: set<DepartmentNode>)
    requires Keyed(departments)
    ensures forall f :: Reads(nodes, roots, f) <==> IsForest(departments, f)
    ensures fresh(nodes)
  {
    hide ChildIds, RootIds, Ids, Reads, Represents, IsForest, Keyed, Named, Wired;
    var table := NodeTable(departments);
    roots := [];
    for i := 0 to |departments|
      invariant forall id :: id in table ==> fresh(table[id])
      invariant Wired(departments, departments[..i], table)
      invariant Named(table, roots, RootIds(departments, departments[..i]))
    {
      roots := Hang(departments, i, table, roots);
    }
    assert departments[..|departments|] == departments;
    nodes := table.Values;
    WholeForest(departments, table, roots);
  }
}
