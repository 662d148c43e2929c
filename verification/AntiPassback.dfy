/** The anti-passback decision the Access API runs as one atomic Redis script, and
    what it guarantees over whole histories of swipes, resets and expiries. */
module AntiPassback {
  import opened Text

  datatype Decision = Decision(granted: bool, previousState: string, currentState: string, reason: string)

  /** The decision script for one employee: the stored state (None when the key is
      absent) and the requested direction give the reply and the new stored state. */
  function Decide(current: Option<string>, direction: string): (Decision, Option<string>) {
    match current
    case None =>
      if direction == "IN"
      then (Decision(true, "UNKNOWN", "IN", "ACCESS_ALLOWED"), Some("IN"))
      else (Decision(false, "UNKNOWN", "UNKNOWN", "NO_ENTRY_RECORD"), None)
    case Some(state) =>
      if state == direction
      then (Decision(false, state, state, "ANTI_PASSBACK_VIOLATION"), current)
      else if state == "IN" && direction == "OUT"
      then (Decision(true, state, "OUT", "ACCESS_ALLOWED"), Some("OUT"))
      else if state == "OUT" && direction == "IN"
      then (Decision(true, state, "IN", "ACCESS_ALLOWED"), Some("IN"))
      else (Decision(false, state, state, "ANTI_PASSBACK_VIOLATION"), current)
  }

  type States = map<string, string>

  function Lookup(states: States, employee: string): Option<string> {
    if employee in states then Some(states[employee]) else None
  }

  function Store(states: States, employee: string, value: Option<string>): States {
    match value
    case None => states - {employee}
    case Some(state) => states[employee := state]
  }

  /** What can happen to the stored states: a swipe, or a key that goes away
      (`ResetState` or the TTL running out). */
  datatype Op = Swipe(employee: string, direction: string) | Forget(employee: string)

  /** The log: each swipe with its decision, and the places a key went away. */
  datatype Item =
    | Swiped(employee: string, direction: string, decision: Decision)
    | Forgotten(employee: string)

  function Step(states: States, op: Op): (States, Item) {
    match op
    case Swipe(e, direction) =>
      var (decision, after) := Decide(Lookup(states, e), direction);
      (Store(states, e, after), Swiped(e, direction, decision))
    case Forget(e) => (states - {e}, Forgotten(e))
  }

  /** Running a history of operations from an empty store. */
  function Run(ops: seq<Op>): (States, seq<Item>) {
    if ops == [] then (map[], [])
    else
      var (states, log) := Run(ops[..|ops| - 1]);
      var (states', item) := Step(states, ops[|ops| - 1]);
      (states', log + [item])
  }

  /** An independent reading of the log: the state an employee was last seen in. */
  function LastState(log: seq<Item>, employee: string): Option<string> {
    if log == [] then None
    else
      var last := log[|log| - 1];
      if last.employee == employee && last.Forgotten? then None
      else if last.employee == employee && last.decision.currentState != "UNKNOWN"
      then Some(last.decision.currentState)
      else LastState(log[..|log| - 1], employee)
  }

  predicate Granted(log: seq<Item>, i: nat, employee: string) {
    i < |log| && log[i].Swiped? && log[i].employee == employee && log[i].decision.granted
  }

  predicate SwipeBy(log: seq<Item>, i: nat, employee: string) {
    i < |log| && log[i].Swiped? && log[i].employee == employee
  }

  /** No item about `employee` strictly between positions i and j (i may be -1). */
  ghost predicate QuietBetween(log: seq<Item>, i: int, j: int, employee: string) {
    forall k :: 0 <= k < |log| && i < k < j ==> log[k].employee != employee
  }

  /** Neither a grant nor a forget of `employee` strictly between i and j. */
  ghost predicate NoGrantBetween(log: seq<Item>, i: int, j: int, employee: string) {
    forall k :: 0 <= k < |log| && i < k < j && log[k].employee == employee ==>
      log[k].Swiped? && !log[k].decision.granted
  }

  /** Position i is where the employee's story begins: before the log, or a forget. */
  predicate Boundary(log: seq<Item>, i: int, employee: string) {
    i == -1 || (0 <= i < |log| && log[i] == Forgotten(employee))
  }

  ghost predicate Chained(log: seq<Item>) {
    forall e, i: int, j {:trigger QuietBetween(log, i, j, e)} ::
      -1 <= i < j && SwipeBy(log, j, e) && QuietBetween(log, i, j, e) ==>
        (Boundary(log, i, e) ==> log[j].decision.previousState == "UNKNOWN")
        && (i >= 0 && SwipeBy(log, i, e) ==> log[j].decision.previousState == log[i].decision.currentState)
  }

  ghost predicate Alternating(log: seq<Item>) {
    forall e, i: int, j {:trigger NoGrantBetween(log, i, j, e)} ::
      -1 <= i < j && Granted(log, j, e) && NoGrantBetween(log, i, j, e) ==>
        (Boundary(log, i, e) ==> log[j].direction == "IN")
        && (i >= 0 && Granted(log, i, e) ==> log[j].direction == if log[i].direction == "IN" then "OUT" else "IN")
  }

  ghost predicate GrantedIffMoved(log: seq<Item>) {
    forall i :: 0 <= i < |log| && log[i].Swiped? ==>
      var d := log[i].decision;
      && (d.granted <==> d.previousState != d.currentState)
      && (d.granted ==> d.currentState == log[i].direction && d.reason == "ACCESS_ALLOWED")
      && (d.granted ==> d.currentState in {"IN", "OUT"})
  }

  /** The store always holds exactly what the log says, and only IN or OUT. */
  lemma {:induction false} StoreMatchesLog(ops: seq<Op>)
    ensures var (states, log) := Run(ops);
      && |log| == |ops|
      && (forall e :: Lookup(states, e) == LastState(log, e))
      && (forall e :: e in states ==> states[e] == "IN" || states[e] == "OUT")
  {
    if ops != [] {
      var (states, log) := Run(ops[..|ops| - 1]);
      var (states', item) := Step(states, ops[|ops| - 1]);
      StoreMatchesLog(ops[..|ops| - 1]);
      assert (log + [item])[..|log|] == log;
      forall e ensures Lookup(states', e) == LastState(log + [item], e) {
        assert Lookup(states, e) == LastState(log, e);
      }
    }
  }

  /** Position i of a run's log is the step taken from the state after i operations. */
  lemma {:induction false} RunAt(ops: seq<Op>, i: nat)
    requires i < |ops|
    ensures |Run(ops).1| == |ops|
    ensures Run(ops).1[..i] == Run(ops[..i]).1
    ensures (Run(ops[..i + 1]).0, Run(ops).1[i]) == Step(Run(ops[..i]).0, ops[i])
  {
    StoreMatchesLog(ops);
    var front := ops[..|ops| - 1];
    StoreMatchesLog(front);
    if i == |ops| - 1 {
      assert ops[..i + 1] == ops;
    } else {
      RunAt(front, i);
      assert front[..i] == ops[..i] && front[..i + 1] == ops[..i + 1];
    }
  }

  lemma NothingRun(ops: seq<Op>)
    ensures Run(ops[..0]) == (map[], [])
  {
  }

  /** As long as an employee is not granted and not forgotten, the stored state stays. */
  lemma {:induction false} StateStands(ops: seq<Op>, i: int, j: int, e: string)
    requires -1 <= i < j <= |ops| == |Run(ops).1|
    requires NoGrantBetween(Run(ops).1, i, j, e)
    ensures Lookup(Run(ops[..j]).0, e) == Lookup(Run(ops[..i + 1]).0, e)
    decreases j
  {
    hide Run;
    if j > i + 1 {
      RunAt(ops, j - 1);
      StateStands(ops, i, j - 1, e);
    }
  }

  /** The state as the script reports it. */
  function Reported(current: Option<string>): string {
    match current case None => "UNKNOWN" case Some(state) => state
  }

  lemma {:induction false} ChainedAt(ops: seq<Op>, i: int, j: int, e: string)
    requires -1 <= i < j && |Run(ops).1| == |ops|
    requires SwipeBy(Run(ops).1, j, e) && NoGrantBetween(Run(ops).1, i, j, e)
    ensures var log := Run(ops).1;
      && (Boundary(log, i, e) ==> log[j].decision.previousState == "UNKNOWN")
      && (i >= 0 && SwipeBy(log, i, e) ==> log[j].decision.previousState == log[i].decision.currentState)
      && log[j].decision.previousState == Reported(Lookup(Run(ops[..j]).0, e))
  {
    hide Run, Decide, Reported;
    RunAt(ops, j);
    Reports(Lookup(Run(ops[..j]).0, e), ops[j].direction);
    if i >= 0 { RunAt(ops, i); }
    if i >= 0 && SwipeBy(Run(ops).1, i, e) { Reports(Lookup(Run(ops[..i]).0, e), ops[i].direction); }
    NoneReported();
    NothingRun(ops);
    StateStands(ops, i, j, e);
    assert Run(ops).1[j].decision.previousState == Reported(Lookup(Run(ops[..j]).0, e));
    if i >= 0 && SwipeBy(Run(ops).1, i, e) {
      StoredBack(Run(ops[..i]).0, e, Decide(Lookup(Run(ops[..i]).0, e), ops[i].direction).1);
    }
  }

  lemma StoredBack(states: States, e: string, value: Option<string>)
    ensures Lookup(Store(states, e, value), e) == value
  {
  }

  /** A decision reports the state before and the state after. */
  lemma Reports(current: Option<string>, direction: string)
    ensures var (d, after) := Decide(current, direction);
      d.previousState == Reported(current) && d.currentState == Reported(after)
  {
  }

  lemma NoneReported()
    ensures Reported(None) == "UNKNOWN"
  {
  }

  lemma {:induction false} AlternatesAt(ops: seq<Op>, i: int, j: int, e: string)
    requires -1 <= i < j && |Run(ops).1| == |ops|
    requires Granted(Run(ops).1, j, e) && NoGrantBetween(Run(ops).1, i, j, e)
    ensures var log := Run(ops).1;
      && (Boundary(log, i, e) ==> log[j].direction == "IN")
      && (i >= 0 && Granted(log, i, e) ==> log[j].direction == if log[i].direction == "IN" then "OUT" else "IN")
  {
    hide Run;
    NothingRun(ops);
    RunAt(ops, j);
    StateStands(ops, i, j, e);
    if i >= 0 { RunAt(ops, i); }
  }

  lemma {:induction false} MovedAt(ops: seq<Op>, i: nat)
    requires i < |ops| == |Run(ops).1| && Run(ops).1[i].Swiped?
    ensures var log := Run(ops).1; var d := log[i].decision;
      && (d.granted <==> d.previousState != d.currentState)
      && (d.granted ==> d.currentState == log[i].direction && d.reason == "ACCESS_ALLOWED")
      && (d.granted ==> d.currentState in {"IN", "OUT"})
  {
    RunAt(ops, i);
    StoreMatchesLog(ops[..i]);
  }

  /** Every history of swipes, resets and expiries: the decisions of one employee
      are chained (each starts from the state the one before it left, UNKNOWN after
      a reset), grants strictly alternate beginning with IN, and a swipe is granted
      exactly when it moves the employee. */
  lemma {:induction false} WholeHistory(ops: seq<Op>)
    ensures var log := Run(ops).1; Chained(log) && Alternating(log) && GrantedIffMoved(log)
  {
    StoreMatchesLog(ops);
    var log := Run(ops).1;
    assert Chained(log) by {
      forall e, i: int, j {:trigger QuietBetween(log, i, j, e)} |
        -1 <= i < j && SwipeBy(log, j, e) && QuietBetween(log, i, j, e)
        ensures Boundary(log, i, e) ==> log[j].decision.previousState == "UNKNOWN"
        ensures i >= 0 && SwipeBy(log, i, e) ==> log[j].decision.previousState == log[i].decision.currentState
      {
        assert NoGrantBetween(log, i, j, e);
        ChainedAt(ops, i, j, e);
      }
    }
    assert Alternating(log) by {
      forall e, i: int, j {:trigger NoGrantBetween(log, i, j, e)} |
        -1 <= i < j && Granted(log, j, e) && NoGrantBetween(log, i, j, e)
        ensures Boundary(log, i, e) ==> log[j].direction == "IN"
        ensures i >= 0 && Granted(log, i, e) ==> log[j].direction == if log[i].direction == "IN" then "OUT" else "IN"
      {
        AlternatesAt(ops, i, j, e);
      }
    }
    assert GrantedIffMoved(log) by {
      forall i | 0 <= i < |log| && log[i].Swiped?
        ensures var d := log[i].decision;
          && (d.granted <==> d.previousState != d.currentState)
          && (d.granted ==> d.currentState == log[i].direction && d.reason == "ACCESS_ALLOWED")
          && (d.granted ==> d.currentState in {"IN", "OUT"})
      {
        MovedAt(ops, i);
      }
    }
  }

  /** Whoever is outside, or was never seen, may go in; whoever is inside may go out. */
  predicate MayPass(current: Option<string>, direction: string) {
    (direction == "IN" && current in {None, Some("OUT")}) || (direction == "OUT" && current == Some("IN"))
  }

  function WhyNot(current: Option<string>): string {
    if current == None then "NO_ENTRY_RECORD" else "ANTI_PASSBACK_VIOLATION"
  }

  /** The decision tells all: it is granted exactly to those who may pass, and takes them
      where they wanted; the others stay, and are told why. */
  lemma DecidesFor(current: Option<string>, direction: string)
    ensures var (d, after) := Decide(current, direction);
      && (d.granted <==> MayPass(current, direction))
      && d.previousState == Reported(current)
      && (d.granted ==> after == Some(direction) && d.currentState == direction && d.reason == "ACCESS_ALLOWED")
      && (!d.granted ==> after == current && d.currentState == Reported(current) && d.reason == WhyNot(current))
  {
  }

  /** In every history, a decision follows from the state the employee was last seen in,
      going by the log before it. */
  lemma {:induction false} DecidedByLog(ops: seq<Op>, i: nat)
    requires i < |ops| == |Run(ops).1| && Run(ops).1[i].Swiped?
    ensures var log := Run(ops).1; var d := log[i].decision;
      var seen := LastState(log[..i], log[i].employee);
      && (d.granted <==> MayPass(seen, log[i].direction))
      && d.previousState == Reported(seen)
      && (d.granted ==> d.currentState == log[i].direction && d.reason == "ACCESS_ALLOWED")
      && (!d.granted ==> d.currentState == Reported(seen) && d.reason == WhyNot(seen))
  {
    RunAt(ops, i);
    StoreMatchesLog(ops[..i]);
    var state := Lookup(Run(ops[..i]).0, ops[i].employee);
    hide Run, Decide;
    DecidesFor(state, ops[i].direction);
  }

  // ----- looking at some of the decisions only -----

  /** How often `employee` was granted strictly between positions i and j. */
  function Moves(log: seq<Item>, i: int, j: int, employee: string): nat
    requires -1 <= i && j <= |log|
    decreases j
  {
    if j <= i + 1 then 0
    else Moves(log, i, j - 1, employee) + if Granted(log, j - 1, employee) then 1 else 0
  }

  ghost predicate KeptBetween(log: seq<Item>, i: int, j: int, employee: string) {
    forall k :: 0 <= k < |log| && i < k < j ==> log[k] != Forgotten(employee)
  }

  /** The state after n grants. */
  function Flipped(state: Option<string>, n: nat): Option<string> {
    if n == 0 then state
    else if (state == Some("IN")) == (n % 2 == 0) then Some("IN")
    else Some("OUT")
  }

  lemma DecideFlips(state: Option<string>, direction: string, n: nat)
    requires state == None || state == Some("IN") || state == Some("OUT")
    ensures var (decision, after) := Decide(Flipped(state, n), direction);
      after == Flipped(state, if decision.granted then n + 1 else n)
    ensures Decide(Flipped(state, n), direction).0.granted ==>
      (direction == "IN" <==> ((state == Some("IN")) == (n % 2 == 1)))
      && (direction == "OUT" || direction == "IN")
  {
  }

  /** One more operation that does not forget the employee. */
  lemma StepFlips(states: States, op: Op, e: string, start: Option<string>, n: nat)
    requires start in {None, Some("IN"), Some("OUT")} && Lookup(states, e) == Flipped(start, n)
    requires Step(states, op).1 != Forgotten(e)
    ensures var (states', item) := Step(states, op);
      Lookup(states', e) == Flipped(start,
        n + if item.Swiped? && item.employee == e && item.decision.granted then 1 else 0)
  {
    hide Decide, Flipped;
    if op.Swipe? { DecideFlips(start, op.direction, n); }
  }

  lemma MovesNext(log: seq<Item>, i: int, j: int, e: string)
    requires -1 <= i && i + 1 < j <= |log|
    ensures Moves(log, i, j, e) == Moves(log, i, j - 1, e) + if Granted(log, j - 1, e) then 1 else 0
  {
  }

  /** Unless it is forgotten, an employee's state flips once with every grant. */
  lemma {:induction false} StateFlips(ops: seq<Op>, i: int, j: int, e: string)
    requires -1 <= i < j <= |ops| == |Run(ops).1|
    requires KeptBetween(Run(ops).1, i, j, e)
    ensures Lookup(Run(ops[..j]).0, e) == Flipped(Lookup(Run(ops[..i + 1]).0, e), Moves(Run(ops).1, i, j, e))
    decreases j
  {
    hide Run, Decide, Flipped, Moves, Step, Lookup;
    if j > i + 1 {
      RunAt(ops, j - 1);
      StateFlips(ops, i, j - 1, e);
      OneOrOther(ops[..i + 1], e);
      MovesNext(Run(ops).1, i, j, e);
      StepFlips(Run(ops[..j - 1]).0, ops[j - 1], e, Lookup(Run(ops[..i + 1]).0, e), Moves(Run(ops).1, i, j - 1, e));
    } else {
      NoMoves(Run(ops).1, i, e);
      FlipNone(Lookup(Run(ops[..i + 1]).0, e));
    }
  }

  lemma NoMoves(log: seq<Item>, i: int, e: string)
    requires -1 <= i < |log|
    ensures Moves(log, i, i + 1, e) == 0
  {
  }

  lemma FlipNone(state: Option<string>)
    ensures Flipped(state, 0) == state
  {
  }

  lemma OneOrOther(ops: seq<Op>, e: string)
    ensures Lookup(Run(ops).0, e) in {None, Some("IN"), Some("OUT")}
  {
    StoreMatchesLog(ops);
  }

  /** Whichever decisions between are left out of sight: a decision starts from the state
      the one at i left if and only if an even number of grants lies between (none, when
      there was no state), and from UNKNOWN after a boundary if and only if none does. */
  lemma {:induction false} ChainedAcross(ops: seq<Op>, i: int, j: int, e: string)
    requires -1 <= i < j && |Run(ops).1| == |ops|
    requires SwipeBy(Run(ops).1, j, e) && KeptBetween(Run(ops).1, i, j, e)
    ensures var log := Run(ops).1; var n := Moves(log, i, j, e);
      && (Boundary(log, i, e) ==> (log[j].decision.previousState == "UNKNOWN" <==> n == 0))
      && (i >= 0 && SwipeBy(log, i, e) ==>
            (log[j].decision.previousState == log[i].decision.currentState
             <==> n == 0 || (log[i].decision.currentState != "UNKNOWN" && n % 2 == 0)))
  {
    var log, n := Run(ops).1, Moves(Run(ops).1, i, j, e);
    var before, then_ := Lookup(Run(ops[..i + 1]).0, e), Lookup(Run(ops[..j]).0, e);
    StateFlips(ops, i, j, e);
    OneOrOther(ops[..i + 1], e);
    ReportedAt(ops, j, e);
    if i >= 0 { AfterAt(ops, i, e); }
    NothingRun(ops);
    hide Run, Moves;
    FlippedReported(before, n);
  }

  lemma FlippedReported(state: Option<string>, n: nat)
    requires state in {None, Some("IN"), Some("OUT")}
    ensures Reported(Flipped(state, n)) == Reported(state) <==> n == 0 || (state != None && n % 2 == 0)
    ensures Reported(state) == "UNKNOWN" <==> state == None
  {
  }

  lemma {:induction false} ReportedAt(ops: seq<Op>, j: nat, e: string)
    requires j < |Run(ops).1| == |ops| && SwipeBy(Run(ops).1, j, e)
    ensures Run(ops).1[j].decision.previousState == Reported(Lookup(Run(ops[..j]).0, e))
  {
    RunAt(ops, j);
    hide Run, Decide, Reported;
    Reports(Lookup(Run(ops[..j]).0, e), ops[j].direction);
  }

  /** The state after position i: what a swipe reports, none after a forget. */
  lemma {:induction false} AfterAt(ops: seq<Op>, i: nat, e: string)
    requires i < |Run(ops).1| == |ops|
    ensures SwipeBy(Run(ops).1, i, e) ==>
      Run(ops).1[i].decision.currentState == Reported(Lookup(Run(ops[..i + 1]).0, e))
    ensures Run(ops).1[i] == Forgotten(e) ==> Lookup(Run(ops[..i + 1]).0, e) == None
  {
    RunAt(ops, i);
    hide Run, Decide, Reported;
    if SwipeBy(Run(ops).1, i, e) {
      var state := Lookup(Run(ops[..i]).0, e);
      Reports(state, ops[i].direction);
      StoredBack(Run(ops[..i]).0, e, Decide(state, ops[i].direction).1);
    }
  }

  /** Grants alternate across what is left out, beginning with IN after a boundary, if and
      only if an even number of grants is left out. */
  lemma {:induction false} AlternatesAcross(ops: seq<Op>, i: int, j: int, e: string)
    requires -1 <= i < j && |Run(ops).1| == |ops|
    requires Granted(Run(ops).1, j, e) && KeptBetween(Run(ops).1, i, j, e)
    ensures var log := Run(ops).1; var n := Moves(log, i, j, e);
      && (Boundary(log, i, e) ==> (log[j].direction == "IN" <==> n % 2 == 0))
      && (i >= 0 && Granted(log, i, e) ==> (log[j].direction != log[i].direction <==> n % 2 == 0))
  {
    hide Run, Moves, Decide, Flipped;
    var state, n := Lookup(Run(ops[..i + 1]).0, e), Moves(Run(ops).1, i, j, e);
    StateFlips(ops, i, j, e);
    OneOrOther(ops[..i + 1], e);
    GrantAt(ops, j, e);
    if i >= 0 {
      AfterAt(ops, i, e);
      if Granted(Run(ops).1, i, e) { GrantAt(ops, i, e); }
    }
    NothingRun(ops);
    FlippedInside(state, n);
  }

  lemma FlippedInside(state: Option<string>, n: nat)
    requires state in {None, Some("IN"), Some("OUT")}
    ensures (Flipped(state, n) == Some("IN")) == ((state == Some("IN")) == (n % 2 == 0))
  {
  }

  /** A grant goes where the employee is not, and leaves the employee there. */
  lemma {:induction false} GrantAt(ops: seq<Op>, j: nat, e: string)
    requires j < |Run(ops).1| == |ops| && Granted(Run(ops).1, j, e)
    ensures Run(ops).1[j].direction in {"IN", "OUT"}
    ensures Run(ops).1[j].direction == "IN" <==> Lookup(Run(ops[..j]).0, e) != Some("IN")
    ensures Lookup(Run(ops[..j + 1]).0, e) == Some(Run(ops).1[j].direction)
  {
    RunAt(ops, j);
    OneOrOther(ops[..j], e);
    hide Run;
  }

  /** A swipe that is denied changes no stored state at all, and neither does any
      swipe change another employee's. */
  lemma {:induction false} SwipeFrame(states: States, employee: string, direction: string)
    ensures var (states', item) := Step(states, Swipe(employee, direction));
      && (!item.decision.granted ==> states' == states)
      && (forall other :: other != employee ==> Lookup(states', other) == Lookup(states, other))
      && (item.decision.granted ==> Lookup(states', employee) == Some(direction))
  {
  }

  /** Employees whose stored state is IN. */
  function Inside(states: States): set<string> {
    set e | e in states && states[e] == "IN"
  }

  function GrantedCount(log: seq<Item>, direction: string): nat {
    if log == [] then 0
    else
      var last := log[|log| - 1];
      GrantedCount(log[..|log| - 1], direction)
        + if last.Swiped? && last.decision.granted && last.direction == direction then 1 else 0
  }

  lemma CountNext(log: seq<Item>, item: Item)
    ensures forall direction ::
      GrantedCount(log + [item], direction) ==
      GrantedCount(log, direction) +
        if item.Swiped? && item.decision.granted && item.direction == direction then 1 else 0
  {
    assert (log + [item])[..|log|] == log;
  }

  /** A granted IN adds one to those inside, a granted OUT takes one away. */
  lemma InsideStep(states: States, op: Op)
    requires op.Swipe? && forall e :: e in states ==> states[e] == "IN" || states[e] == "OUT"
    ensures var (states', item) := Step(states, op);
      |Inside(states')| == |Inside(states)|
        + (if item.decision.granted && op.direction == "IN" then 1 else 0)
        - (if item.decision.granted && op.direction == "OUT" then 1 else 0)
    ensures Step(states, op).1.decision.granted ==> op.direction == "IN" || op.direction == "OUT"
  {
    var (states', item) := Step(states, op);
    var e := op.employee;
    if item.decision.granted && op.direction == "IN" {
      assert Inside(states') == Inside(states) + {e};
    } else if item.decision.granted {
      assert Inside(states') == Inside(states) - {e};
    } else {
      SwipeFrame(states, e, op.direction);
    }
  }

  /** With no reset and no expiry, the head count is granted INs minus granted OUTs. */
  lemma {:induction false} HeadCount(ops: seq<Op>)
    requires forall i :: 0 <= i < |ops| ==> ops[i].Swipe?
    ensures var (states, log) := Run(ops);
      |Inside(states)| == GrantedCount(log, "IN") - GrantedCount(log, "OUT")
  {
    if ops == [] {
      assert Inside(map[]) == {};
    } else {
      var front, op := ops[..|ops| - 1], ops[|ops| - 1];
      var (states, log) := Run(front);
      var (states', item) := Step(states, op);
      HeadCount(front);
      StoreMatchesLog(front);
      CountNext(log, item);
      hide Run, GrantedCount;
      InsideStep(states, op);
    }
  }
}
