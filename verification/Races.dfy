/** Two runs in which the two consumers race for one employee and no call fails: the last
    known state ends up on the row inserted before the last; and an event stays pending
    because the other consumer has inserted its employee first. */
module Races {
  import opened Text
  import opened Events
  import opened Pipeline
  import opened PipelineGuarantees

  /** Taking some steps from a state. */
  function After(cfg: Config, s: System, steps: seq<Step>): System
    decreases |steps|
  {
    if steps == [] then s else After(cfg, Apply(cfg, s, steps[0]), steps[1..])
  }

  lemma {:induction false} RunOn(cfg: Config, seed: Seed, steps: seq<Step>, more: seq<Step>)
    ensures Run(cfg, seed, steps + more) == After(cfg, Run(cfg, seed, steps), more)
    decreases |more|
  {
    hide Run, Apply;
    if more == [] {
      assert steps + more == steps;
    } else {
      RunNext(cfg, seed, steps, more[0]);
      RunOn(cfg, seed, steps + [more[0]], more[1..]);
      assert steps + more == steps + [more[0]] + more[1..];
    }
  }

  lemma TwoAfter(cfg: Config, s: System, a: Step, b: Step)
    ensures After(cfg, s, [a, b]) == Apply(cfg, Apply(cfg, s, a), b)
  {
    hide Apply;
    assert [a, b][1..] == [b] && [b][1..] == [];
    assert After(cfg, s, [a, b]) == After(cfg, Apply(cfg, s, a), [b]);
  }

  lemma ThreeAfter(cfg: Config, s: System, a: Step, b: Step, c: Step)
    ensures After(cfg, s, [a, b, c]) == Apply(cfg, Apply(cfg, Apply(cfg, s, a), b), c)
  {
    hide Apply;
    assert [a, b, c][1..] == [b, c];
    assert After(cfg, s, [a, b, c]) == After(cfg, Apply(cfg, s, a), [b, c]);
    TwoAfter(cfg, Apply(cfg, s, a), b, c);
  }

  // ----- the race, from any state in which it is about to happen -----

  /** Both consumers have read what is there of their employees and are about to commit: the
      recovery consumer its only entry a, the Kafka consumer b. */
  ghost predicate BothRead(s: System, a: AccessEvent, b: AccessEvent) {
    && s.recovery == Inserting && s.todo == [Entry(0, Valid(a))] && s.pending == {0} && s.readRecovery == Load(s.db, a)
    && s.kafka == Inserting && HoldsKafka(s) && InHand(s, Kafka) == Valid(b) && s.readKafka == Load(s.db, b)
    && a.requestId != b.requestId && Fits(a) && Fits(b)
    && a.requestId !in RowIds(s.db) && b.requestId !in RowIds(s.db)
  }

  /** The employee is there as "IN"; a says "IN" again, b says "OUT". */
  ghost predicate AboutToRace(s: System, a: AccessEvent, b: AccessEvent, read: Employee) {
    && BothRead(s, a, b) && a.employeeId == b.employeeId
    && a.employeeId in s.db.employees && s.db.employees[a.employeeId] == read
    && a.currentState == read.lastKnownState == "IN" && b.currentState == "OUT"
  }

  /** Kafka commits first, then the recovery consumer: the last row says "IN", the last known
      state stays "OUT". */
  lemma RaceLeavesStale(cfg: Config, s: System, a: AccessEvent, b: AccessEvent, read: Employee)
    requires AboutToRace(s, a, b, read)
    ensures var t := Apply(cfg, Apply(cfg, s, Step.Insert(Kafka, true)), Step.Insert(Recovery, true));
      && t.db.events == s.db.events + [b, a]
      && LastInserted(t.db.events, a.employeeId) == Some(a)
      && a.employeeId in t.db.employees && t.db.employees[a.employeeId].lastKnownState == "OUT"
      && !FollowsRow(t.db, a.employeeId, false)
  {
    hide Fits, RowIds, LastInserted;
    var t := Apply(cfg, s, Step.Insert(Kafka, true));
    FirstCommit(cfg, s, a, b, read);
    SecondCommit(cfg, t, a, read);
    LastAfter(t.db, a, t.readRecovery, a.employeeId);
    assert s.db.events + [b] + [a] == s.db.events + [b, a];
  }

  lemma FirstCommit(cfg: Config, s: System, a: AccessEvent, b: AccessEvent, read: Employee)
    requires AboutToRace(s, a, b, read)
    ensures var t := Apply(cfg, s, Step.Insert(Kafka, true));
      && t.db.events == s.db.events + [b] && ReadyToCommit(t, a, read)
  {
    hide Fits;
    var t := Apply(cfg, s, Step.Insert(Kafka, true));
    assert t.db == Inserted(s.db, b, s.readKafka);
    assert forall e :: e in t.db.events <==> e in s.db.events || e == b;
  }

  ghost predicate ReadyToCommit(t: System, a: AccessEvent, read: Employee) {
    && t.recovery == Inserting && t.todo == [Entry(0, Valid(a))] && Fits(a)
    && a.requestId !in RowIds(t.db) && a.employeeId in t.db.employees
    && t.readRecovery.employee == Some(read) && a.currentState == read.lastKnownState == "IN"
    && t.db.employees[a.employeeId].lastKnownState == "OUT"
  }

  lemma SecondCommit(cfg: Config, t: System, a: AccessEvent, read: Employee)
    requires ReadyToCommit(t, a, read)
    ensures var u := Apply(cfg, t, Step.Insert(Recovery, true));
      && u.db == Inserted(t.db, a, t.readRecovery) && u.db.events == t.db.events + [a]
      && a.employeeId in u.db.employees && u.db.employees[a.employeeId].lastKnownState == "OUT"
  {
    hide Fits, RowIds;
  }

  /** The employee is not there, or neither employee is and the default department is not: the
      key refuses the second commit. Nothing has failed, and the event stays pending and
      missing, with nothing left in hand. */
  lemma RaceLeavesPending(cfg: Config, s: System, a: AccessEvent, b: AccessEvent)
    requires BothRead(s, a, b) && a.employeeId !in s.db.employees
    requires a.employeeId == b.employeeId
             || (b.employeeId !in s.db.employees && "UNASSIGNED" !in s.db.departments)
    ensures var t := Apply(cfg, Apply(cfg, Apply(cfg, s, Step.Insert(Kafka, true)), Step.Insert(Recovery, true)),
                           Leave);
      && t.db.events == s.db.events + [b] && a.requestId !in RowIds(t.db)
      && t.recovery == Idle && t.todo == [] && t.pending == {0} && t.cursor == s.cursor && t.buffer == s.buffer
  {
    hide Fits;
    var t := Apply(cfg, s, Step.Insert(Kafka, true));
    assert t.db == Inserted(s.db, b, s.readKafka);
    assert forall e :: e in t.db.events <==> e in s.db.events || e == b;
    TakenThenLeft(cfg, t, a);
  }

  lemma TakenThenLeft(cfg: Config, t: System, a: AccessEvent)
    requires t.recovery == Inserting && t.todo == [Entry(0, Valid(a))] && KeyTaken(t.db, a, t.readRecovery)
    ensures Apply(cfg, Apply(cfg, t, Step.Insert(Recovery, true)), Leave) == t.(todo := [], recovery := Idle)
  {
    hide KeyTaken, RowIds, Fits;
    assert Apply(cfg, t, Step.Insert(Recovery, true)) == t.(recovery := Failed);
  }

  // ----- a run that gets there -----

  /** After an IN, a second IN and an OUT of one employee: the second event repeats "IN". */
  ghost predicate Swiped(s: System, e: string, gate: string, n: nat) {
    && |s.issued| == 3
    && s.issued[1] == AccessEvent(NewRequestId(e, n + 1), e, gate, "IN", "DENIED", "ANTI_PASSBACK_VIOLATION", "IN",
                                  "IN", 0, n)
    && s.issued[2] == AccessEvent(NewRequestId(e, n + 2), e, gate, "OUT", "GRANTED", "ACCESS_ALLOWED", "IN", "OUT", 0,
                                  n)
  }

  /** Nothing has been read or written yet. */
  ghost predicate AtRest(s: System, seed: Seed) {
    && s.db == Database([], seed.employees, seed.departments) && s.trimmed == 0 && s.cursor == 0 && s.pending == {}
    && s.todo == [] && s.recovery == Idle && s.kafka == Idle && |s.topic| == |s.position| == seed.partitions
    && (forall p :: 0 <= p < seed.partitions ==> s.position[p] == 0) && s.buffer.dedupe == {}
  }

  function SwipeAt(e: string, gate: string, direction: string, n: nat, now: nat): Step {
    Swipe(e, gate, direction, n, 0, now, true)
  }

  lemma SwipeScene(cfg: Config, seed: Seed, e: string, gate: string, n: nat)
    ensures var s := Apply(cfg, Apply(cfg, Apply(cfg, Start(seed), SwipeAt(e, gate, "IN", n, n)),
                                      SwipeAt(e, gate, "IN", n + 1, n)), SwipeAt(e, gate, "OUT", n + 2, n));
      && Swiped(s, e, gate, n) && AtRest(s, seed) && s.buffer.stream == []
      && forall p :: 0 <= p < seed.partitions ==> s.topic[p] == []
  {
    hide NewRequestId;
    var s0 := Start(seed);
    var s1 := Apply(cfg, s0, SwipeAt(e, gate, "IN", n, n));
    assert s1.states == map[e := "IN"];
    var s2 := Apply(cfg, s1, SwipeAt(e, gate, "IN", n + 1, n));
    assert s2.states == map[e := "IN"];
  }

  /** The second event goes to the stream alone, the third to the topic alone. */
  lemma PublishScene(cfg: Config, seed: Seed, s: System, e: string, gate: string, n: nat)
    requires Swiped(s, e, gate, n) && AtRest(s, seed) && s.buffer.stream == [] && seed.partitions > 0
    requires forall p :: 0 <= p < seed.partitions ==> s.topic[p] == []
    ensures var t := Apply(cfg, Apply(cfg, s, Append(1, true)), Produce(2, 0));
      && t.buffer.stream == [Valid(s.issued[1])] && t.topic[0] == [Valid(s.issued[2])] && |t.topic| == |s.topic|
      && t == s.(buffer := t.buffer, buffered := t.buffered, topic := t.topic)
  {
    hide NewRequestId;
    var t := Apply(cfg, s, Append(1, true));
    assert t == s.(buffer := t.buffer, buffered := t.buffered);
  }

  lemma RecoveryScene(cfg: Config, seed: Seed, s: System, a: AccessEvent)
    requires s.buffer.stream == [Valid(a)] && s.db == Database([], seed.employees, seed.departments)
    requires s.trimmed == 0 && s.cursor == 0 && s.pending == {} && s.todo == [] && s.recovery == Idle
    requires !Skipped(cfg, a.employeeId)
    ensures var t := Apply(cfg, Apply(cfg, Apply(cfg, s, ReadNew), CheckMarker(false)), Look(Recovery));
      && t.recovery == Inserting && t.todo == [Entry(0, Valid(a))] && t.readRecovery == Load(s.db, a)
      && t.pending == {0} && t.cursor == 1
      && t == s.(todo := t.todo, recovery := t.recovery, cursor := t.cursor, pending := t.pending,
                 readRecovery := t.readRecovery)
  {
    hide Skipped, Load;
    assert Between(0, 1) == {0};
    var t1 := Apply(cfg, s, ReadNew);
    assert t1.todo == [Entry(0, Valid(a))];
    var t2 := Apply(cfg, t1, CheckMarker(false));
    assert t2 == t1.(recovery := Looking);
  }

  lemma KafkaScene(cfg: Config, seed: Seed, s: System, b: AccessEvent)
    requires 0 < |s.topic| == |s.position| && s.topic[0] == [Valid(b)] && s.position[0] == 0 && s.kafka == Idle
    requires s.db == Database([], seed.employees, seed.departments) && !Skipped(cfg, b.employeeId)
    ensures var t := Apply(cfg, Apply(cfg, s, Deliver(0)), Look(Kafka));
      && t.kafka == Inserting && HoldsKafka(t) && InHand(t, Kafka) == Valid(b) && t.readKafka == Load(s.db, b)
      && t == s.(kafka := t.kafka, partition := 0, position := t.position, readKafka := t.readKafka)
  {
    hide Skipped, Load;
    var t1 := Apply(cfg, s, Deliver(0));
    assert t1 == s.(kafka := Looking, partition := 0, position := s.position[0 := 1]);
  }

  lemma IdsApart(e: string, n: nat)
    ensures NewRequestId(e, n + 1) != NewRequestId(e, n + 2)
  {
    RequestIdCollision(e, n + 1, e, n + 2);
  }

  lemma RaceScene(cfg: Config, seed: Seed, e: string, gate: string, n: nat, s: System) returns (t: System)
    requires seed.partitions > 0 && !Skipped(cfg, e)
    requires ColumnHolds(NewRequestId(e, n + 1), 128) && ColumnHolds(NewRequestId(e, n + 2), 128)
    requires ColumnHolds(e, 64) && ColumnHolds(gate, 64)
    requires Swiped(s, e, gate, n) && AtRest(s, seed) && s.buffer.stream == []
    requires forall p :: 0 <= p < seed.partitions ==> s.topic[p] == []
    ensures t == After(cfg, After(cfg, After(cfg, s, [Append(1, true), Produce(2, 0)]),
                                  [ReadNew, CheckMarker(false), Look(Recovery)]), [Deliver(0), Look(Kafka)])
    ensures BothRead(t, s.issued[1], s.issued[2]) && t.db == s.db && t.cursor == 1
    ensures t.buffer.stream == [Valid(s.issued[1])]
  {
    hide Skipped, NewRequestId, ColumnHolds, Apply;
    TwoAfter(cfg, s, Append(1, true), Produce(2, 0));
    PublishScene(cfg, seed, s, e, gate, n);
    var s1 := Apply(cfg, Apply(cfg, s, Append(1, true)), Produce(2, 0));
    ThreeAfter(cfg, s1, ReadNew, CheckMarker(false), Look(Recovery));
    RecoveryScene(cfg, seed, s1, s.issued[1]);
    var s2 := Apply(cfg, Apply(cfg, Apply(cfg, s1, ReadNew), CheckMarker(false)), Look(Recovery));
    TwoAfter(cfg, s2, Deliver(0), Look(Kafka));
    KafkaScene(cfg, seed, s2, s.issued[2]);
    t := Apply(cfg, Apply(cfg, s2, Deliver(0)), Look(Kafka));
    IdsApart(e, n);
  }

  /** An IN, a denied IN and an OUT; the denied IN reaches only the stream, the OUT only the
      topic. Both consumers read, and neither has committed yet. */
  function Approach(e: string, gate: string, n: nat): seq<Step> {
    [SwipeAt(e, gate, "IN", n, n), SwipeAt(e, gate, "IN", n + 1, n), SwipeAt(e, gate, "OUT", n + 2, n)]
    + [Append(1, true), Produce(2, 0)]
    + [ReadNew, CheckMarker(false), Look(Recovery)]
    + [Deliver(0), Look(Kafka)]
  }

  /** What the run needs of its ids: they fit their columns. */
  ghost predicate RunFits(cfg: Config, seed: Seed, e: string, gate: string, n: nat) {
    && seed.partitions > 0 && !Skipped(cfg, e) && ColumnHolds(e, 64) && ColumnHolds(gate, 64)
    && ColumnHolds(NewRequestId(e, n + 1), 128) && ColumnHolds(NewRequestId(e, n + 2), 128)
  }

  lemma Approached(cfg: Config, seed: Seed, e: string, gate: string, n: nat) returns (a: AccessEvent, b: AccessEvent)
    requires RunFits(cfg, seed, e, gate, n)
    ensures var s := Run(cfg, seed, Approach(e, gate, n));
      && BothRead(s, a, b) && s.db == Database([], seed.employees, seed.departments)
      && s.buffer.stream == [Valid(a)] && s.cursor == 1
    ensures a.employeeId == e == b.employeeId && a.currentState == "IN" && b.currentState == "OUT"
  {
    hide Skipped, NewRequestId, ColumnHolds, Apply, Run, After, Start, BothRead;
    var c1 := [SwipeAt(e, gate, "IN", n, n), SwipeAt(e, gate, "IN", n + 1, n), SwipeAt(e, gate, "OUT", n + 2, n)];
    var c2, c3 := [Append(1, true), Produce(2, 0)], [ReadNew, CheckMarker(false), Look(Recovery)];
    var c4 := [Deliver(0), Look(Kafka)];
    RunOn(cfg, seed, [], c1);
    assert [] + c1 == c1;
    RunOn(cfg, seed, c1, c2);
    RunOn(cfg, seed, c1 + c2, c3);
    RunOn(cfg, seed, c1 + c2 + c3, c4);
    RunNext(cfg, seed, [], ReadNew);
    ThreeAfter(cfg, Start(seed), SwipeAt(e, gate, "IN", n, n), SwipeAt(e, gate, "IN", n + 1, n),
               SwipeAt(e, gate, "OUT", n + 2, n));
    SwipeScene(cfg, seed, e, gate, n);
    var s := Run(cfg, seed, c1);
    var t := RaceScene(cfg, seed, e, gate, n, s);
    a, b := s.issued[1], s.issued[2];
  }

  /** Both consumers have read the employee as "IN". Kafka commits "OUT", then the recovery
      consumer its "IN", which changes nothing of what it had read: the last row says "IN",
      the last known state is "OUT". */
  lemma StaleSaveShows(cfg: Config, seed: Seed, e: string, gate: string, n: nat)
    requires RunFits(cfg, seed, e, gate, n) && e in seed.employees && seed.employees[e].lastKnownState == "IN"
    ensures var steps := Approach(e, gate, n) + [Step.Insert(Kafka, true), Step.Insert(Recovery, true)];
      var db := Run(cfg, seed, steps).db;
      && |db.events| == 2 && db.events[0].currentState == "OUT" && db.events[1].currentState == "IN"
      && LastInserted(db.events, e) == Some(db.events[1])
      && e in db.employees && db.employees[e].lastKnownState == "OUT"
  {
    hide RunFits, Approach, Apply, Run, After, BothRead, LastInserted;
    var a, b := Approached(cfg, seed, e, gate, n);
    var s := Run(cfg, seed, Approach(e, gate, n));
    RunOn(cfg, seed, Approach(e, gate, n), [Step.Insert(Kafka, true), Step.Insert(Recovery, true)]);
    TwoAfter(cfg, s, Step.Insert(Kafka, true), Step.Insert(Recovery, true));
    RaceLeavesStale(cfg, s, a, b, seed.employees[e]);
  }

  /** Neither consumer has found the employee. Kafka commits; the recovery consumer's commit
      is refused, and its event is left: missing and pending, although no call has failed. */
  lemma OvertakenSaveStays(cfg: Config, seed: Seed, e: string, gate: string, n: nat)
    requires RunFits(cfg, seed, e, gate, n) && e !in seed.employees
    ensures var steps := Approach(e, gate, n) + [Step.Insert(Kafka, true), Step.Insert(Recovery, true), Leave];
      var s := Run(cfg, seed, steps);
      && s.todo == [] && s.recovery == Idle && s.pending == {0} && s.cursor == |s.buffer.stream| == 1
      && s.buffer.stream[0].Valid? && s.buffer.stream[0].event.requestId !in RowIds(s.db)
  {
    hide RunFits, Approach, Apply, Run, After, BothRead, RowIds;
    var a, b := Approached(cfg, seed, e, gate, n);
    var s := Run(cfg, seed, Approach(e, gate, n));
    RunOn(cfg, seed, Approach(e, gate, n), [Step.Insert(Kafka, true), Step.Insert(Recovery, true), Leave]);
    ThreeAfter(cfg, s, Step.Insert(Kafka, true), Step.Insert(Recovery, true), Leave);
    RaceLeavesPending(cfg, s, a, b);
  }
}
