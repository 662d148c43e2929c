/** The swipe simulator's normal profile, played against the decision script: whatever
    order the workers send the swipes in, the outcome is the same. */
module Simulator {
  import opened Text
  import opened AntiPassback

  datatype Request = Request(employee: string, gate: string, direction: string)

  /** `employeeID`: the prefix and the number, six digits or more. */
  function EmployeeId(prefix: string, n: nat): string { prefix + Padded(n, 6) }

  lemma IdsDiffer(prefix: string, i: nat, j: nat)
    ensures EmployeeId(prefix, i) == EmployeeId(prefix, j) <==> i == j
  {
    if EmployeeId(prefix, i) == EmployeeId(prefix, j) {
      assert EmployeeId(prefix, i)[|prefix|..] == Padded(i, 6);
      assert EmployeeId(prefix, j)[|prefix|..] == Padded(j, 6);
      PaddedInjective(i, j, 6);
    }
  }

  // ----- the scenario -----

  function DirectionOf(inside: set<nat>, n: nat): string { if n in inside then "OUT" else "IN" }

  /** The single swipe of employee n. */
  predicate IsPrimary(prefix: string, inside: set<nat>, n: nat, r: Request) {
    r.employee == EmployeeId(prefix, n) && r.direction == DirectionOf(inside, n)
  }

  datatype Scenario = Scenario(setup: seq<Request>, swipes: seq<Request>)

  /** One IN for each employee inside. */
  ghost predicate IsSetup(setup: seq<Request>, prefix: string, inside: set<nat>) {
    && (forall r :: r in setup ==> r.direction == "IN" && Someones(prefix, inside, r))
    && (forall i, j :: 0 <= i < j < |setup| ==> setup[i].employee != setup[j].employee)
    && (forall n :: n in inside ==> Asks(setup, EmployeeId(prefix, n)))
  }

  predicate Someones(prefix: string, inside: set<nat>, r: Request) {
    exists n :: n in inside && r.employee == EmployeeId(prefix, n)
  }
  predicate Asks(requests: seq<Request>, employee: string) { exists r :: r in requests && r.employee == employee }

  /** One swipe for each employee, and copies of these. */
  ghost predicate IsTimed(swipes: seq<Request>, prefix: string, employees: nat, inside: set<nat>, duplicates: nat) {
    && |swipes| == employees + duplicates
    && (forall i :: 0 <= i < employees ==> IsPrimary(prefix, inside, i + 1, swipes[i]))
    && (forall r :: r in swipes ==> r in swipes[..employees])
  }

  ghost predicate IsNormal(s: Scenario, prefix: string, employees: nat, inside: set<nat>, duplicates: nat) {
    && (forall n :: n in inside ==> 1 <= n <= employees)
    && IsSetup(s.setup, prefix, inside)
    && IsTimed(s.swipes, prefix, employees, inside, duplicates)
  }

  /** `initialInsideSet` for a permutation of the indices 0 to employees - 1. */
  method InitialInsideSet(perm: seq<nat>, count: nat) returns (inside: set<nat>)
    requires count <= |perm|
    ensures forall n :: n in inside <==> n > 0 && n - 1 in perm[..count]
  {
    inside := {};
    for k := 0 to count
      invariant forall n :: n in inside <==> n > 0 && n - 1 in perm[..k]
    {
      inside := inside + {perm[k] + 1};
      assert perm[..k + 1] == perm[..k] + [perm[k]];
    }
  }

  /** `buildNormalScenario` without the times; `gates` and `picks` are what the random
      source yields. The order of the swipes is left to whoever sends them. */
  method BuildNormalScenario(prefix: string, employees: nat, inside: set<nat>, gates: nat -> string, picks: seq<nat>)
    returns (s: Scenario)
    requires forall n :: n in inside ==> 1 <= n <= employees
    requires forall p :: p in picks ==> p < employees
    ensures IsNormal(s, prefix, employees, inside, |picks|)
  {
    hide EmployeeId, IsSetup;
    var setup: seq<Request> := [];
    var left := inside;
    NoSetup(prefix);
    while left != {}
      invariant left <= inside && IsSetup(setup, prefix, inside - left)
      decreases left
    {
      var n :| n in left;
      var r := Request(EmployeeId(prefix, n), gates(|setup|), "IN");
      SetupGrows(prefix, inside - left, n, setup, r);
      setup := setup + [r];
      assert inside - (left - {n}) == (inside - left) + {n};
      left := left - {n};
    }
    assert inside - {} == inside;
    var swipes := BuildSwipes(prefix, employees, inside, gates, picks);
    s := Scenario(setup, swipes);
  }

  /** The primary swipes, then the duplicates. */
  method BuildSwipes(prefix: string, employees: nat, inside: set<nat>, gates: nat -> string, picks: seq<nat>)
    returns (swipes: seq<Request>)
    requires forall p :: p in picks ==> p < employees
    ensures IsTimed(swipes, prefix, employees, inside, |picks|)
  {
    hide EmployeeId;
    var primary: seq<Request> := [];
    for i := 1 to employees + 1
      invariant |primary| == i - 1
      invariant forall k :: 0 <= k < i - 1 ==> IsPrimary(prefix, inside, k + 1, primary[k])
    {
      var direction := "IN";
      if i in inside { direction := "OUT"; }
      primary := primary + [Request(EmployeeId(prefix, i), gates(i), direction)];
    }
    swipes := primary;
    for i := 0 to |picks|
      invariant |swipes| == employees + i && swipes[..employees] == primary
      invariant forall r :: r in swipes ==> r in primary
    {
      assert picks[i] in picks;
      var original := primary[picks[i]];
      assert original in primary;
      ghost var before := swipes;
      swipes := swipes + [original];
      assert swipes[..employees] == before[..employees];
    }
    assert forall k :: 0 <= k < employees ==> swipes[k] == swipes[..employees][k];
  }

  lemma NoSetup(prefix: string)
    ensures IsSetup([], prefix, {})
    ensures forall inside: set<nat> :: inside - inside == {}
  {
  }

  lemma SetupGrows(prefix: string, loaded: set<nat>, n: nat, setup: seq<Request>, r: Request)
    requires IsSetup(setup, prefix, loaded) && n !in loaded
    requires r.direction == "IN" && r.employee == EmployeeId(prefix, n)
    ensures IsSetup(setup + [r], prefix, loaded + {n})
  {
    hide EmployeeId;
    var more, all := setup + [r], loaded + {n};
    assert r in more && n in all;
    forall q | q in more ensures q.direction == "IN" && Someones(prefix, all, q) {
      if q in setup {
        var m :| m in loaded && q.employee == EmployeeId(prefix, m);
        assert m in all;
      }
    }
    forall q | q in setup ensures q.employee != r.employee {
      var m :| m in loaded && q.employee == EmployeeId(prefix, m);
      IdsDiffer(prefix, m, n);
    }
    forall m | m in all ensures Asks(more, EmployeeId(prefix, m)) {
      if m in loaded {
        var q :| q in setup && q.employee == EmployeeId(prefix, m);
        assert q in more;
      }
    }
  }

  // ----- playing it -----

  /** The decisions for a series of requests, and the states after it. */
  function Play(states: States, requests: seq<Request>): (r: (States, seq<Decision>))
    ensures |r.1| == |requests|
  {
    if requests == [] then (states, [])
    else
      var (before, decisions) := Play(states, requests[..|requests| - 1]);
      var last := requests[|requests| - 1];
      var (decision, after) := Decide(Lookup(before, last.employee), last.direction);
      (Store(before, last.employee, after), decisions + [decision])
  }

  /** The first request of its employee. */
  predicate FirstOf(requests: seq<Request>, i: nat)
    requires i < |requests|
  {
    !Asks(requests[..i], requests[i].employee)
  }

  /** Every employee asks for one direction only, and has the state that grants it. */
  ghost predicate Ready(states: States, requests: seq<Request>, wants: map<string, string>) {
    forall r :: r in requests ==>
      && r.employee in wants && r.direction == wants[r.employee]
      && (r.direction == "IN" || r.direction == "OUT")
      && Lookup(states, r.employee) == if r.direction == "OUT" then Some("IN") else None
  }

  /** Then each employee's first request is granted, every later one is denied as an
      anti-passback violation, and the state is the wanted one. */
  lemma {:induction false} FirstIsGranted(states: States, requests: seq<Request>, wants: map<string, string>)
    requires Ready(states, requests, wants)
    ensures var (after, decisions) := Play(states, requests);
      && (forall e :: Lookup(after, e) == if Asks(requests, e) && e in wants then Some(wants[e]) else Lookup(states, e))
      && FirstsGranted(requests, decisions)
  {
    hide Decide, Ready;
    if requests != [] {
      var front, last := requests[..|requests| - 1], requests[|requests| - 1];
      assert requests == front + [last];
      ReadyAt(states, requests, wants);
      FirstIsGranted(states, front, wants);
      var (before, decisions) := Play(states, front);
      StateMoves(Lookup(before, last.employee), last.direction);
      forall e ensures Asks(requests, e) <==> Asks(front, e) || e == last.employee { AskedNext(front, last, e); }
      hide Asks;
      FirstsGrow(front, last, decisions, Decide(Lookup(before, last.employee), last.direction).0);
    }
  }

  lemma ReadyAt(states: States, requests: seq<Request>, wants: map<string, string>)
    requires Ready(states, requests, wants) && requests != []
    ensures var last := requests[|requests| - 1];
      && last.employee in wants && last.direction == wants[last.employee]
      && (last.direction == "IN" || last.direction == "OUT")
      && Lookup(states, last.employee) == (if last.direction == "OUT" then Some("IN") else None)
    ensures Ready(states, requests[..|requests| - 1], wants)
  {
    assert requests[|requests| - 1] in requests;
  }

  lemma StateMoves(current: Option<string>, direction: string)
    requires direction == "IN" || direction == "OUT"
    ensures var (decision, after) := Decide(current, direction);
      && (current == (if direction == "OUT" then Some("IN") else None) ==> decision.granted && after == Some(direction))
      && (current == Some(direction) ==>
        !decision.granted && decision.reason == "ANTI_PASSBACK_VIOLATION" && after == current)
  {
  }

  lemma AskedNext(front: seq<Request>, last: Request, e: string)
    ensures Asks(front + [last], e) <==> Asks(front, e) || e == last.employee
  {
    assert last in front + [last];
  }

  ghost predicate FirstsGranted(requests: seq<Request>, decisions: seq<Decision>) {
    && |decisions| == |requests|
    && (forall i :: 0 <= i < |requests| ==>
          (decisions[i].granted <==> FirstOf(requests, i))
          && (!decisions[i].granted ==> decisions[i].reason == "ANTI_PASSBACK_VIOLATION"))
  }

  lemma FirstsGrow(front: seq<Request>, last: Request, decisions: seq<Decision>, decision: Decision)
    requires FirstsGranted(front, decisions)
    requires decision.granted <==> !Asks(front, last.employee)
    requires !decision.granted ==> decision.reason == "ANTI_PASSBACK_VIOLATION"
    ensures FirstsGranted(front + [last], decisions + [decision])
  {
    hide Asks;
    var all := front + [last];
    forall i | 0 <= i < |front| ensures FirstOf(all, i) == FirstOf(front, i) { assert all[..i] == front[..i]; }
    assert all[..|front|] == front;
  }

  function Grants(decisions: seq<Decision>): nat {
    if decisions == [] then 0
    else
      var last := decisions[|decisions| - 1];
      Grants(decisions[..|decisions| - 1]) + if last.granted then 1 else 0
  }

  function Askers(requests: seq<Request>): set<string> { set r | r in requests :: r.employee }

  lemma AskersNext(front: seq<Request>, last: Request)
    ensures Askers(front + [last]) == Askers(front) + {last.employee}
  {
    assert forall r :: r in front + [last] <==> r in front || r == last;
  }

  lemma AsksIs(requests: seq<Request>, employee: string)
    ensures Asks(requests, employee) <==> employee in Askers(requests)
  {
  }

  /** Who asks first asks first among fewer, too. */
  lemma FirstsOfFront(requests: seq<Request>)
    requires requests != []
    ensures forall i :: 0 <= i < |requests| - 1 ==> FirstOf(requests, i) == FirstOf(requests[..|requests| - 1], i)
  {
    var front := requests[..|requests| - 1];
    forall i | 0 <= i < |front| ensures FirstOf(requests, i) == FirstOf(front, i) {
      assert requests[..i] == front[..i];
    }
  }

  /** One grant for each employee that asks. */
  lemma {:induction false} GrantsAreAskers(requests: seq<Request>, decisions: seq<Decision>)
    requires |decisions| == |requests|
    requires forall i :: 0 <= i < |requests| ==> (decisions[i].granted <==> FirstOf(requests, i))
    ensures Grants(decisions) == |Askers(requests)|
  {
    hide Asks, Askers;
    if requests == [] {
      AskersNone();
    } else {
      var front, last := requests[..|requests| - 1], requests[|requests| - 1];
      assert requests == front + [last];
      FirstsOfFront(requests);
      GrantsAreAskers(front, decisions[..|front|]);
      AskersNext(front, last);
      AsksIs(front, last.employee);
      assert FirstOf(requests, |front|) <==> last.employee !in Askers(front);
    }
  }

  lemma AskersNone()
    ensures Askers([]) == {}
  {
  }

  // ----- the outcome -----

  ghost predicate SameSwipes(a: seq<Request>, b: seq<Request>) { multiset(a) == multiset(b) }

  lemma SameMembers(a: seq<Request>, b: seq<Request>)
    requires SameSwipes(a, b)
    ensures |a| == |b| && forall r :: r in a <==> r in b
  {
    assert forall r :: r in a <==> r in multiset(b);
    assert |multiset(a)| == |a| && |multiset(b)| == |b|;
  }

  lemma {:induction false} Numbered(prefix: string, employees: nat) returns (ids: set<string>)
    ensures |ids| == employees
    ensures forall e :: e in ids <==> exists n :: 1 <= n <= employees && e == EmployeeId(prefix, n)
  {
    hide EmployeeId;
    if employees == 0 {
      ids := {};
    } else {
      var fewer := Numbered(prefix, employees - 1);
      forall m | 1 <= m <= employees - 1 ensures EmployeeId(prefix, m) != EmployeeId(prefix, employees) {
        IdsDiffer(prefix, m, employees);
      }
      ids := fewer + {EmployeeId(prefix, employees)};
    }
  }

  lemma {:induction false} DifferentAskers(requests: seq<Request>)
    requires forall i, j :: 0 <= i < j < |requests| ==> requests[i].employee != requests[j].employee
    ensures |Askers(requests)| == |requests|
  {
    if requests != [] {
      var front, last := requests[..|requests| - 1], requests[|requests| - 1];
      assert requests == front + [last];
      DifferentAskers(front);
      forall r | r in front ensures r.employee != last.employee {
        var i :| 0 <= i < |front| && front[i] == r;
        assert requests[i] == r;
      }
      AskersNext(front, last);
    }
  }

  /** Loading the employees inside grants every setup swipe, in whatever order. */
  lemma SetupLoads(states: States, built: seq<Request>, prefix: string, inside: set<nat>, setup: seq<Request>)
    requires IsSetup(built, prefix, inside) && SameSwipes(setup, built)
    requires forall r :: r in setup ==> r.employee !in states
    ensures Grants(Play(states, setup).1) == |setup|
    ensures forall e :: Lookup(Play(states, setup).0, e) == if Asks(setup, e) then Some("IN") else Lookup(states, e)
  {
    hide EmployeeId, Decide, Play, Grants, Asks, Someones;
    SameMembers(setup, built);
    var wants := map r | r in setup :: r.employee := "IN";
    assert Ready(states, setup, wants);
    FirstIsGranted(states, setup, wants);
    GrantsAreAskers(setup, Play(states, setup).1);
    assert Askers(setup) == Askers(built);
    DifferentAskers(built);
    forall e ensures Asks(setup, e) <==> e in wants { AsksIs(setup, e); }
  }

  /** The employees inside are those the setup asks for. */
  lemma SetupNames(built: seq<Request>, prefix: string, inside: set<nat>, setup: seq<Request>, n: nat)
    requires IsSetup(built, prefix, inside) && SameSwipes(setup, built)
    ensures Asks(setup, EmployeeId(prefix, n)) <==> n in inside
  {
    hide EmployeeId;
    SameMembers(setup, built);
    if Asks(setup, EmployeeId(prefix, n)) {
      var r :| r in setup && r.employee == EmployeeId(prefix, n);
      var m :| m in inside && r.employee == EmployeeId(prefix, m);
      IdsDiffer(prefix, n, m);
    }
    if n in inside { assert Asks(built, EmployeeId(prefix, n)); }
  }

  lemma SwipeOfSomeone(swipes: seq<Request>, prefix: string, employees: nat, inside: set<nat>, duplicates: nat,
                       r: Request) returns (n: nat)
    requires IsTimed(swipes, prefix, employees, inside, duplicates) && r in swipes
    ensures 1 <= n <= employees && IsPrimary(prefix, inside, n, r)
  {
    hide EmployeeId;
    var i :| 0 <= i < |swipes[..employees]| && swipes[..employees][i] == r;
    n := i + 1;
    assert IsPrimary(prefix, inside, i + 1, swipes[i]);
  }

  /** Everyone asks. */
  lemma AskersAreEveryone(swipes: seq<Request>, prefix: string, employees: nat, inside: set<nat>, duplicates: nat,
                          timed: seq<Request>)
    requires IsTimed(swipes, prefix, employees, inside, duplicates) && SameSwipes(timed, swipes)
    ensures |Askers(timed)| == employees
  {
    hide EmployeeId;
    SameMembers(timed, swipes);
    var ids := Numbered(prefix, employees);
    forall e | e in Askers(timed) ensures e in ids {
      var r :| r in timed && r.employee == e;
      var n := SwipeOfSomeone(swipes, prefix, employees, inside, duplicates, r);
    }
    forall e | e in ids ensures e in Askers(timed) {
      var n :| 1 <= n <= employees && e == EmployeeId(prefix, n);
      var i := n - 1;
      assert IsPrimary(prefix, inside, i + 1, swipes[i]);
      assert swipes[n - 1] in timed;
    }
    assert Askers(timed) == ids;
  }

  /** After the setup every timed swipe finds the state that grants it. */
  lemma TimedAreReady(loaded: States, swipes: seq<Request>, prefix: string, employees: nat, inside: set<nat>,
                      duplicates: nat, timed: seq<Request>)
    returns (wants: map<string, string>)
    requires IsTimed(swipes, prefix, employees, inside, duplicates) && SameSwipes(timed, swipes)
    requires forall n :: 1 <= n <= employees ==>
      Lookup(loaded, EmployeeId(prefix, n)) == if n in inside then Some("IN") else None
    ensures Ready(loaded, timed, wants)
  {
    hide EmployeeId;
    SameMembers(timed, swipes);
    wants := map e | e in Askers(timed) :: if Lookup(loaded, e) == Some("IN") then "OUT" else "IN";
    forall r | r in timed
      ensures r.employee in wants && r.direction == wants[r.employee] && (r.direction == "IN" || r.direction == "OUT")
      ensures Lookup(loaded, r.employee) == if r.direction == "OUT" then Some("IN") else None
    {
      var n := SwipeOfSomeone(swipes, prefix, employees, inside, duplicates, r);
      assert r.employee in Askers(timed);
    }
  }

  /** On fresh employee ids the timed swipes, sent in any order at all, are granted once
      per employee; all others are the duplicates, denied as anti-passback violations. */
  lemma OutcomeIndependentOfOrder(states: States, s: Scenario, prefix: string, employees: nat, inside: set<nat>,
                                  duplicates: nat,
                                  setup: seq<Request>, timed: seq<Request>)
    requires IsNormal(s, prefix, employees, inside, duplicates)
    requires SameSwipes(setup, s.setup) && SameSwipes(timed, s.swipes)
    requires forall n :: 1 <= n <= employees ==> EmployeeId(prefix, n) !in states
    ensures var (loaded, first) := Play(states, setup);
      var decisions := Play(loaded, timed).1;
      && Grants(first) == |setup|
      && |decisions| == employees + duplicates && Grants(decisions) == employees
      && FirstsGranted(timed, decisions)
  {
    hide EmployeeId, Decide, Play, Grants, FirstsGranted, Ready, Asks, Lookup;
    FreshSetup(states, s, prefix, employees, inside, duplicates, setup);
    SetupLoads(states, s.setup, prefix, inside, setup);
    var loaded := Play(states, setup).0;
    forall n | 1 <= n <= employees ensures Lookup(loaded, EmployeeId(prefix, n)) ==
      if n in inside then Some("IN") else None {
      SetupNames(s.setup, prefix, inside, setup, n);
      LookupFresh(states, EmployeeId(prefix, n));
    }
    SameMembers(timed, s.swipes);
    var wants := TimedAreReady(loaded, s.swipes, prefix, employees, inside, duplicates, timed);
    FirstIsGranted(loaded, timed, wants);
    GrantsOfFirsts(timed, Play(loaded, timed).1);
    AskersAreEveryone(s.swipes, prefix, employees, inside, duplicates, timed);
  }

  lemma LookupFresh(states: States, e: string)
    requires e !in states
    ensures Lookup(states, e) == None
  {
  }

  lemma GrantsOfFirsts(requests: seq<Request>, decisions: seq<Decision>)
    requires FirstsGranted(requests, decisions)
    ensures Grants(decisions) == |Askers(requests)|
  {
    GrantsAreAskers(requests, decisions);
  }

  lemma FreshSetup(states: States, s: Scenario, prefix: string, employees: nat, inside: set<nat>, duplicates: nat,
                   setup: seq<Request>)
    requires IsNormal(s, prefix, employees, inside, duplicates) && SameSwipes(setup, s.setup)
    requires forall n :: 1 <= n <= employees ==> EmployeeId(prefix, n) !in states
    ensures forall r :: r in setup ==> r.employee !in states
  {
    hide EmployeeId, IsTimed;
    SameMembers(setup, s.setup);
    forall r | r in setup ensures r.employee !in states {
      var n :| n in inside && r.employee == EmployeeId(prefix, n);
    }
  }
}
