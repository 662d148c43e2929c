/** Inductive invariants of the pipeline over every interleaving, and the guarantees
    that follow from them: nothing buffered is lost, nothing is saved twice, and a
    commit, a marker or an acknowledgement always stands for a handled event. */
module PipelineSafety {
  import opened Text
  import opened Events
  import opened Pipeline
  import AntiPassback

  /** A request id that needs no further work: stored, or of a skip-listed employee. */
  predicate SettledId(cfg: Config, s: System, id: string) {
    Skipped(cfg, EmployeeOf(id)) || id in RowIds(s.db)
  }

  predicate Settled(cfg: Config, s: System, m: Message) {
    m.Malformed? || SettledId(cfg, s, m.event.requestId)
  }

  // ----- the invariants -----

  ghost predicate IssuedNamed(s: System) {
    forall e :: e in s.issued ==> EmployeeOf(e.requestId) == e.employeeId
  }

  ghost predicate Genuine(s: System, messages: seq<Message>) {
    forall m :: m in messages && m.Valid? ==> m.event in s.issued
  }

  ghost predicate TableInv(cfg: Config, seed: Seed, s: System) {
    && UniqueRows(s.db.events)
    && EmployeesFollowRows(s.db, seed.employees)
    && forall e :: e in s.db.events ==> e in s.issued && !Skipped(cfg, e.employeeId) && Fits(e)
  }

  ghost predicate BufferInv(s: System) {
    && Genuine(s, s.buffer.stream)
    && s.buffer.dedupe <= StreamIds(s.buffer.stream)
    && s.buffered <= StreamIds(s.buffer.stream)
    && s.trimmed <= |s.buffer.stream|
  }

  /** Delivered and acknowledged means settled (or trimmed away). */
  ghost predicate GroupInv(cfg: Config, s: System) {
    && s.cursor <= |s.buffer.stream|
    && (forall i :: i in s.pending ==> i < s.cursor)
    && (forall i :: 0 <= i < s.cursor && i !in s.pending && i >= s.trimmed ==> Settled(cfg, s, s.buffer.stream[i]))
  }

  ghost predicate EntryInv(s: System, e: Entry) {
    && e.index in s.pending && e.index < |s.buffer.stream|
    && (e.message == s.buffer.stream[e.index] || (e.index < s.trimmed && e.message.Malformed?))
  }

  ghost predicate TodoInv(cfg: Config, s: System) {
    && (forall k :: 0 <= k < |s.todo| ==> EntryInv(s, s.todo[k]))
    && (forall j, k :: 0 <= j < k < |s.todo| ==> s.todo[j].index < s.todo[k].index)
    && (s.todo == [] <==> s.recovery == Idle)
    && s.recovery != Done
    && (s.recovery == Kept ==> Settled(cfg, s, s.todo[0].message))
    && (s.recovery == Inserting ==> s.todo[0].message.Valid? && !Skipped(cfg, s.todo[0].message.event.employeeId))
  }

  ghost predicate MarkerInv(cfg: Config, s: System) {
    forall id :: id in s.markers ==> SettledId(cfg, s, id)
  }

  /** The message in flight: delivered but not handled yet. */
  predicate InFlight(s: System, p: nat, offset: nat) {
    s.kafka in {Looking, Inserting, Failed} && p == s.partition && p < |s.position| && offset + 1 == s.position[p]
  }

  ghost predicate OffsetsInv(s: System) {
    && |s.position| == |s.committed| == |s.topic|
    && (forall p :: 0 <= p < |s.topic| ==> s.committed[p] <= s.position[p] <= |s.topic[p]|)
    && (s.kafka != Idle ==> HoldsKafka(s) && s.committed[s.partition] < s.position[s.partition])
    && (forall p :: 0 <= p < |s.topic| ==> Genuine(s, s.topic[p]))
  }

  ghost predicate KafkaInv(cfg: Config, s: System) {
    && OffsetsInv(s)
    && (forall p, o :: 0 <= p < |s.topic| && 0 <= o < s.position[p] && !InFlight(s, p, o) ==>
          Settled(cfg, s, s.topic[p][o]))
    && s.kafka != Got
    && (s.kafka == Inserting ==> InHand(s, Kafka).Valid? && !Skipped(cfg, InHand(s, Kafka).event.employeeId))
    && (s.kafka == Kept ==> InHand(s, Kafka).Valid?)
  }

  ghost predicate Inv(cfg: Config, seed: Seed, s: System) {
    && IssuedNamed(s)
    && TableInv(cfg, seed, s)
    && BufferInv(s)
    && GroupInv(cfg, s)
    && TodoInv(cfg, s)
    && MarkerInv(cfg, s)
    && KafkaInv(cfg, s)
  }

  // ----- one step keeps them -----

  lemma StartInv(cfg: Config, seed: Seed)
    ensures Inv(cfg, seed, Start(seed))
  {
  }

  /** One more event issued, named after its employee. */
  lemma IssuedGrows(cfg: Config, seed: Seed, s: System, s': System, e: AccessEvent)
    requires Inv(cfg, seed, s) && EmployeeOf(e.requestId) == e.employeeId
    requires s' == s.(states := s'.states, issued := s.issued + [e])
    ensures Inv(cfg, seed, s')
  {
    hide EmployeeOf, Skipped;
    assert forall x :: x in s.issued ==> x in s'.issued;
    forall k | 0 <= k < |s'.todo| ensures EntryInv(s', s'.todo[k]) {
      assert EntryInv(s, s.todo[k]);
    }
    forall p | 0 <= p < |s'.topic| ensures Genuine(s', s'.topic[p]) { assert Genuine(s, s.topic[p]); }
    assert forall p, o :: InFlight(s, p, o) <==> InFlight(s', p, o);
  }

  lemma SwipeKeeps(cfg: Config, seed: Seed, s: System, step: Step)
    requires Inv(cfg, seed, s) && step.Swipe?
    ensures Inv(cfg, seed, ApplyAccess(cfg, s, step))
  {
    hide Inv, AntiPassback.Decide;
    RequestIdNamesEmployee(step.employee, step.nanos);
    var s' := ApplyAccess(cfg, s, step);
    if step.replied {
      IssuedGrows(cfg, seed, s, s', s'.issued[|s.issued|]);
    } else {
      SliceKeeps(cfg, seed, s, s');
    }
  }

  /** Anything appended to the stream, as long as it is genuine. */
  lemma BufferGrows(cfg: Config, seed: Seed, s: System, buffer: Buffer, buffered: set<string>)
    requires Inv(cfg, seed, s)
    requires s.buffer.stream <= buffer.stream && Genuine(s, buffer.stream)
    requires buffer.dedupe <= StreamIds(buffer.stream) && buffered <= StreamIds(buffer.stream)
    ensures Inv(cfg, seed, s.(buffer := buffer, buffered := buffered))
  {
    var s' := s.(buffer := buffer, buffered := buffered);
    assert GroupInv(cfg, s');
    assert TodoInv(cfg, s') by {
      forall k | 0 <= k < |s'.todo| ensures EntryInv(s', s'.todo[k]) {
        assert EntryInv(s, s.todo[k]);
      }
    }
    assert KafkaInv(cfg, s');
  }

  lemma AppendKeeps(cfg: Config, seed: Seed, s: System, k: nat, replied: bool)
    requires Inv(cfg, seed, s)
    ensures Inv(cfg, seed, ApplyAccess(cfg, s, Append(k, replied)))
  {
    if k < |s.issued| {
      var s' := ApplyAccess(cfg, s, Append(k, replied));
      var e := s.issued[k];
      var stream, stream' := s.buffer.stream, s'.buffer.stream;
      assert forall m :: m in stream ==> m in stream';
      assert StreamIds(stream) <= StreamIds(stream');
      assert e.requestId in StreamIds(stream') by {
        if e.requestId !in s.buffer.dedupe { assert stream'[|stream|] == Valid(e); }
      }
      BufferGrows(cfg, seed, s, s'.buffer, s'.buffered);
    }
  }

  lemma TopicGrows(cfg: Config, seed: Seed, s: System, p: nat, m: Message)
    requires Inv(cfg, seed, s) && p < |s.topic| && (m.Valid? ==> m.event in s.issued)
    ensures Inv(cfg, seed, s.(topic := s.topic[p := s.topic[p] + [m]]))
  {
    hide EmployeeOf, Skipped, RowIds, StreamIds, UniqueRows, EmployeesFollowRows;
    var s' := s.(topic := s.topic[p := s.topic[p] + [m]]);
    assert TodoInv(cfg, s') by {
      forall k | 0 <= k < |s'.todo| ensures EntryInv(s', s'.todo[k]) {
        assert EntryInv(s, s.todo[k]);
      }
    }
    assert forall q :: 0 <= q < |s.topic| ==> s.topic[q] <= s'.topic[q];
    assert s'.kafka != Idle ==> InHand(s', Kafka) == InHand(s, Kafka);
    forall q | 0 <= q < |s'.topic| ensures Genuine(s', s'.topic[q]) {
      assert Genuine(s, s.topic[q]);
    }
    forall q, o | 0 <= q < |s'.topic| && 0 <= o < s'.position[q] && !InFlight(s', q, o)
      ensures Settled(cfg, s', s'.topic[q][o])
    {
      assert !InFlight(s, q, o) && s'.topic[q][o] == s.topic[q][o];
    }
  }

  lemma TrimKeeps(cfg: Config, seed: Seed, s: System, n: nat)
    requires Inv(cfg, seed, s)
    ensures Inv(cfg, seed, ApplyAccess(cfg, s, Trim(n)))
  {
    hide EmployeeOf, Skipped, RowIds, StreamIds, UniqueRows, EmployeesFollowRows;
    var s' := ApplyAccess(cfg, s, Trim(n));
    forall k | 0 <= k < |s'.todo| ensures EntryInv(s', s'.todo[k]) {
      assert EntryInv(s, s.todo[k]);
    }
  }

  lemma AccessKeeps(cfg: Config, seed: Seed, s: System, step: Step)
    requires Inv(cfg, seed, s)
    ensures Inv(cfg, seed, ApplyAccess(cfg, s, step))
  {
    hide EmployeeOf, Skipped, RowIds, UniqueRows, EmployeesFollowRows;
    var s' := ApplyAccess(cfg, s, step);
    match step
    case Swipe(_, _, _, _, _, _, _) => SwipeKeeps(cfg, seed, s, step);
    case Append(k, replied) => AppendKeeps(cfg, seed, s, k, replied);
    case Produce(k, p) =>
      if k < |s.issued| && p < |s.topic| { TopicGrows(cfg, seed, s, p, Valid(s.issued[k])); }
    case ForeignMessage(p) =>
      if p < |s.topic| { TopicGrows(cfg, seed, s, p, Malformed("")); }
    case ForeignEntry(id) =>
      assert forall m :: m in s'.buffer.stream ==> m in s.buffer.stream || m == Malformed(id);
      assert forall m :: m in s.buffer.stream ==> m in s'.buffer.stream;
      BufferGrows(cfg, seed, s, s'.buffer, s.buffered);
    case ExpireDedupe(id) => BufferGrows(cfg, seed, s, s'.buffer, s.buffered);
    case Trim(n) => TrimKeeps(cfg, seed, s, n);
    case Forget(_) => SliceKeeps(cfg, seed, s, s');
    case ExpireMarker(_) => SliceKeeps(cfg, seed, s, s');
    case _ =>
  }

  /** Only stored states or markers went away. */
  lemma SliceKeeps(cfg: Config, seed: Seed, s: System, s': System)
    requires Inv(cfg, seed, s) && s' == s.(states := s'.states, markers := s'.markers) && s'.markers <= s.markers
    ensures Inv(cfg, seed, s')
  {
    forall k | 0 <= k < |s'.todo| ensures EntryInv(s', s'.todo[k]) {
      assert EntryInv(s, s.todo[k]);
    }
  }

  /** The insert of a genuine event that is neither stored nor skip-listed. */
  lemma RowsGrow(cfg: Config, seed: Seed, s: System, e: AccessEvent, l: Loaded)
    requires Inv(cfg, seed, s) && !KeyTaken(s.db, e, l)
    requires e in s.issued && !Skipped(cfg, e.employeeId) && Fits(e) && e.requestId !in RowIds(s.db)
    ensures Inv(cfg, seed, s.(db := Inserted(s.db, e, l)))
    ensures RowIds(Inserted(s.db, e, l)) == RowIds(s.db) + {e.requestId}
  {
    hide EmployeeOf, Skipped, StreamIds, EmployeesFollowRows, UniqueRows, KeyTaken, Fits;
    var s' := s.(db := Inserted(s.db, e, l));
    InsertKeeps(s.db, seed.employees, e, l);
    assert forall id :: SettledId(cfg, s, id) ==> SettledId(cfg, s', id);
    assert forall m :: Settled(cfg, s, m) ==> Settled(cfg, s', m);
    assert TodoInv(cfg, s') by {
      forall k | 0 <= k < |s'.todo| ensures EntryInv(s', s'.todo[k]) {
        assert EntryInv(s, s.todo[k]);
      }
    }
    assert KafkaInv(cfg, s') by {
      forall p, o | 0 <= p < |s'.topic| && 0 <= o < s'.position[p] && !InFlight(s', p, o)
        ensures Settled(cfg, s', s'.topic[p][o])
      {
        assert !InFlight(s, p, o);
      }
    }
  }

  /** What a consumer's new phase claims of the message in its hands. */
  predicate Allowed(cfg: Config, s: System, c: Consumer, to: Phase) {
    && Holds(s, c)
    && (to in {Kept, Inserting, Failed} || (c == Kafka && to == Done))
    && (to in {Kept, Done} ==> Settled(cfg, s, InHand(s, c)))
    && (to == Inserting || (to == Kept && c == Kafka) ==> InHand(s, c).Valid?)
    && (to == Inserting ==> !Skipped(cfg, InHand(s, c).event.employeeId))
  }

  lemma RecoveryPhaseMoves(cfg: Config, s: System, to: Phase)
    requires TodoInv(cfg, s) && s.recovery in {Looking, Inserting} && Allowed(cfg, s, Recovery, to)
    ensures TodoInv(cfg, s.(recovery := to))
  {
    hide Skipped, Settled;
    var s' := s.(recovery := to);
    assert Settled(cfg, s, s.todo[0].message) <==> Settled(cfg, s', s'.todo[0].message) by { SameSettled(cfg, s, s'); }
    forall k | 0 <= k < |s'.todo| ensures EntryInv(s', s'.todo[k]) { assert EntryInv(s, s.todo[k]); }
  }

  lemma SameSettled(cfg: Config, s: System, t: System)
    requires t.db == s.db
    ensures forall m :: Settled(cfg, s, m) <==> Settled(cfg, t, m)
  {
  }

  lemma KafkaPhaseMoves(cfg: Config, s: System, to: Phase)
    requires KafkaInv(cfg, s) && s.kafka in {Looking, Inserting} && Allowed(cfg, s, Kafka, to)
    ensures KafkaInv(cfg, s.(kafka := to))
  {
    hide Skipped, Settled;
    var s' := s.(kafka := to);
    SameSettled(cfg, s, s');
    forall p | 0 <= p < |s'.topic| ensures Genuine(s', s'.topic[p]) { assert Genuine(s, s.topic[p]); }
    forall p, o | 0 <= p < |s'.topic| && 0 <= o < s'.position[p] && !InFlight(s', p, o)
      ensures Settled(cfg, s', s'.topic[p][o])
    {
      if InFlight(s, p, o) { assert s.topic[p][o] == InHand(s, Kafka); }
    }
  }

  /** The invariants that do not look at the phases. */
  ghost predicate Ground(cfg: Config, seed: Seed, s: System) {
    IssuedNamed(s) && TableInv(cfg, seed, s) && BufferInv(s) && GroupInv(cfg, s) && MarkerInv(cfg, s)
  }

  lemma GroundMoves(cfg: Config, seed: Seed, s: System, c: Consumer, to: Phase)
    requires Ground(cfg, seed, s)
    ensures Ground(cfg, seed, WithPhase(s, c, to))
  {
    hide Skipped, Settled;
    SameSettled(cfg, s, WithPhase(s, c, to));
  }

  /** The other consumer's invariant does not look at this one's phase. */
  lemma OtherMoves(cfg: Config, s: System, c: Consumer, to: Phase)
    ensures c == Kafka && TodoInv(cfg, s) ==> TodoInv(cfg, WithPhase(s, c, to))
    ensures c == Recovery && KafkaInv(cfg, s) ==> KafkaInv(cfg, WithPhase(s, c, to))
  {
    hide Skipped, Settled;
    var s' := WithPhase(s, c, to);
    SameSettled(cfg, s, s');
    if c == Kafka && TodoInv(cfg, s) {
      forall k | 0 <= k < |s'.todo| ensures EntryInv(s', s'.todo[k]) { assert EntryInv(s, s.todo[k]); }
    }
    if c == Recovery && KafkaInv(cfg, s) {
      forall p | 0 <= p < |s'.topic| ensures Genuine(s', s'.topic[p]) { assert Genuine(s, s.topic[p]); }
      assert forall p, o :: InFlight(s', p, o) <==> InFlight(s, p, o);
    }
  }

  lemma InvIs(cfg: Config, seed: Seed, s: System)
    ensures Inv(cfg, seed, s) <==> Ground(cfg, seed, s) && TodoInv(cfg, s) && KafkaInv(cfg, s)
  {
  }

  /** A consumer's phase moves; what the new phase claims must hold. */
  lemma PhaseMoves(cfg: Config, seed: Seed, s: System, c: Consumer, to: Phase)
    requires Inv(cfg, seed, s) && PhaseOf(s, c) in {Looking, Inserting} && Allowed(cfg, s, c, to)
    ensures Inv(cfg, seed, WithPhase(s, c, to))
  {
    hide Inv, Ground, TodoInv, KafkaInv, Allowed;
    InvIs(cfg, seed, s);
    InvIs(cfg, seed, WithPhase(s, c, to));
    GroundMoves(cfg, seed, s, c, to);
    OtherMoves(cfg, s, c, to);
    if c == Kafka { KafkaPhaseMoves(cfg, s, to); } else { RecoveryPhaseMoves(cfg, s, to); }
  }

  lemma InHandGenuine(cfg: Config, seed: Seed, s: System, c: Consumer)
    requires Inv(cfg, seed, s) && Holds(s, c) && InHand(s, c).Valid?
    ensures InHand(s, c).event in s.issued
    ensures Settled(cfg, s, InHand(s, c)) <==>
      Skipped(cfg, InHand(s, c).event.employeeId) || InHand(s, c).event.requestId in RowIds(s.db)
  {
    if c == Kafka {
      assert Genuine(s, s.topic[s.partition]);
      assert InHand(s, c) in s.topic[s.partition];
    } else {
      assert EntryInv(s, s.todo[0]);
      assert s.buffer.stream[s.todo[0].index] in s.buffer.stream;
    }
  }

  lemma CrashKeeps(cfg: Config, seed: Seed, s: System, c: Consumer)
    requires Inv(cfg, seed, s)
    ensures Inv(cfg, seed, ApplySave(cfg, s, Crash(c)))
  {
    hide ApplySave, Inv;
    if c == Recovery { RecoveryCrashKeeps(cfg, seed, s); } else { KafkaCrashKeeps(cfg, seed, s); }
  }

  lemma RecoveryCrashKeeps(cfg: Config, seed: Seed, s: System)
    requires Inv(cfg, seed, s)
    ensures Inv(cfg, seed, ApplySave(cfg, s, Crash(Recovery)))
  {
    hide EmployeeOf, Skipped, RowIds, StreamIds, UniqueRows, EmployeesFollowRows;
    var s' := ApplySave(cfg, s, Crash(Recovery));
    assert KafkaInv(cfg, s') by {
      assert forall p, o :: 0 <= p < |s.topic| && 0 <= o < s.position[p] ==>
        (InFlight(s, p, o) <==> InFlight(s', p, o));
    }
  }

  lemma KafkaCrashKeeps(cfg: Config, seed: Seed, s: System)
    requires Inv(cfg, seed, s)
    ensures Inv(cfg, seed, ApplySave(cfg, s, Crash(Kafka)))
  {
    hide EmployeeOf, Skipped, RowIds, StreamIds, UniqueRows, EmployeesFollowRows;
    var s' := ApplySave(cfg, s, Crash(Kafka));
    if s.kafka != Idle {
      assert TodoInv(cfg, s') by {
        forall k | 0 <= k < |s'.todo| ensures EntryInv(s', s'.todo[k]) {
          assert EntryInv(s, s.todo[k]);
        }
      }
      assert KafkaInv(cfg, s') by {
        forall p, o | 0 <= p < |s'.topic| && 0 <= o < s'.position[p] && !InFlight(s', p, o)
          ensures Settled(cfg, s', s'.topic[p][o])
        {
          assert !InFlight(s, p, o);
        }
      }
    }
  }

  lemma HandClaims(cfg: Config, seed: Seed, s: System, c: Consumer)
    requires Inv(cfg, seed, s) && PhaseOf(s, c) in {Looking, Inserting}
    ensures Holds(s, c)
    ensures PhaseOf(s, c) == Inserting ==> InHand(s, c).Valid? && !Skipped(cfg, InHand(s, c).event.employeeId)
  {
  }

  /** What was read is no one's business but the save's. */
  lemma ReadKeeps(cfg: Config, seed: Seed, s: System, c: Consumer, l: Loaded)
    requires Inv(cfg, seed, s)
    ensures Inv(cfg, seed, WithRead(s, c, l))
    ensures PhaseOf(WithRead(s, c, l), c) == PhaseOf(s, c) && Holds(WithRead(s, c, l), c) == Holds(s, c)
    ensures Holds(s, c) ==> InHand(WithRead(s, c, l), c) == InHand(s, c)
  {
    hide EmployeeOf, Skipped, RowIds, StreamIds, UniqueRows, EmployeesFollowRows, Settled;
    var s' := WithRead(s, c, l);
    SameSettled(cfg, s, s');
    forall id ensures SettledId(cfg, s, id) <==> SettledId(cfg, s', id) { }
    forall k | 0 <= k < |s'.todo| ensures EntryInv(s', s'.todo[k]) { assert EntryInv(s, s.todo[k]); }
    forall p | 0 <= p < |s'.topic| ensures Genuine(s', s'.topic[p]) { assert Genuine(s, s.topic[p]); }
    assert forall p, o :: InFlight(s', p, o) <==> InFlight(s, p, o);
  }

  lemma LookKeeps(cfg: Config, seed: Seed, s: System, c: Consumer)
    requires Inv(cfg, seed, s)
    ensures Inv(cfg, seed, ApplySave(cfg, s, Look(c)))
  {
    hide Inv, Skipped, SettledId, RowIds;
    if Holds(s, c) && PhaseOf(s, c) == Looking {
      var t := s;
      if InHand(s, c).Valid? {
        var e := InHand(s, c).event;
        InHandGenuine(cfg, seed, s, c);
        if !(Skipped(cfg, e.employeeId) || e.requestId in RowIds(s.db)) {
          t := WithRead(s, c, Load(s.db, e));
          ReadKeeps(cfg, seed, s, c, Load(s.db, e));
        }
      }
      PhaseMoves(cfg, seed, t, c, PhaseOf(ApplySave(cfg, s, Look(c)), c));
    }
  }

  lemma InsertKeepsAll(cfg: Config, seed: Seed, s: System, c: Consumer, replied: bool)
    requires Inv(cfg, seed, s)
    ensures Inv(cfg, seed, ApplySave(cfg, s, Insert(c, replied)))
  {
    hide Inv, Skipped, Settled, RowIds, Inserted, KeyTaken, Fits;
    if Holds(s, c) && PhaseOf(s, c) == Inserting && InHand(s, c).Valid? {
      var e := InHand(s, c).event;
      HandClaims(cfg, seed, s, c);
      InHandGenuine(cfg, seed, s, c);
      var l := ReadOf(s, c);
      if e.requestId in RowIds(s.db) || !Fits(e) || KeyTaken(s.db, e, l) {
        PhaseMoves(cfg, seed, s, c, Failed);
      } else {
        var t := s.(db := Inserted(s.db, e, l));
        RowsGrow(cfg, seed, s, e, l);
        InHandGenuine(cfg, seed, t, c);
        PhaseMoves(cfg, seed, t, c, if replied then Kept else Failed);
      }
    }
  }

  lemma SaveKeeps(cfg: Config, seed: Seed, s: System, step: Step)
    requires Inv(cfg, seed, s)
    ensures Inv(cfg, seed, ApplySave(cfg, s, step))
  {
    hide Inv, Skipped, Settled, RowIds, Inserted;
    match step
    case Look(c) => LookKeeps(cfg, seed, s, c);
    case Insert(c, replied) => InsertKeepsAll(cfg, seed, s, c, replied);
    case Raise(c) =>
      if PhaseOf(s, c) in {Looking, Inserting} {
        HandClaims(cfg, seed, s, c);
        PhaseMoves(cfg, seed, s, c, Failed);
      }
    case Crash(c) => CrashKeeps(cfg, seed, s, c);
    case _ =>
  }

  // ----- the Kafka consumer's own steps -----

  /** A step that touches only the Kafka consumer's fields and the markers. */
  lemma KafkaFieldsMove(cfg: Config, seed: Seed, s: System, s': System)
    requires Inv(cfg, seed, s)
    requires s' == s.(position := s'.position, committed := s'.committed, partition := s'.partition,
                      kafka := s'.kafka, markers := s'.markers)
    requires MarkerInv(cfg, s') && KafkaInv(cfg, s')
    ensures Inv(cfg, seed, s')
  {
    forall k | 0 <= k < |s'.todo| ensures EntryInv(s', s'.todo[k]) {
      assert EntryInv(s, s.todo[k]);
    }
  }

  lemma DeliverKeeps(cfg: Config, s: System, p: nat)
    requires KafkaInv(cfg, s)
    ensures KafkaInv(cfg, ApplyConsumer(cfg, s, Deliver(p)))
  {
    var s' := ApplyConsumer(cfg, s, Deliver(p));
    forall q, o | 0 <= q < |s'.topic| && 0 <= o < s'.position[q] && !InFlight(s', q, o)
      ensures Settled(cfg, s', s'.topic[q][o])
    {
      assert !InFlight(s, q, o) || s' == s;
    }
  }

  lemma MarkKeeps(cfg: Config, seed: Seed, s: System, stored: bool)
    requires Inv(cfg, seed, s)
    ensures MarkerInv(cfg, ApplyConsumer(cfg, s, Mark(stored))) && KafkaInv(cfg, ApplyConsumer(cfg, s, Mark(stored)))
  {
    var s' := ApplyConsumer(cfg, s, Mark(stored));
    if s.kafka == Kept && HoldsKafka(s) {
      assert !InFlight(s, s.partition, s.position[s.partition] - 1);
      forall q, o | 0 <= q < |s'.topic| && 0 <= o < s'.position[q] && !InFlight(s', q, o)
        ensures Settled(cfg, s', s'.topic[q][o])
      {
        assert !InFlight(s, q, o);
      }
    }
  }

  lemma OffsetStepKeeps(cfg: Config, s: System, step: Step)
    requires KafkaInv(cfg, s) && (step.Retry? || step.Commit?)
    ensures KafkaInv(cfg, ApplyConsumer(cfg, s, step))
  {
    var s' := ApplyConsumer(cfg, s, step);
    forall q, o | 0 <= q < |s'.topic| && 0 <= o < s'.position[q] && !InFlight(s', q, o)
      ensures Settled(cfg, s', s'.topic[q][o])
    {
      assert !InFlight(s, q, o);
    }
  }

  lemma KafkaStepKeeps(cfg: Config, seed: Seed, s: System, step: Step)
    requires Inv(cfg, seed, s) && (step.Deliver? || step.Mark? || step.Retry? || step.Commit?)
    ensures Inv(cfg, seed, ApplyConsumer(cfg, s, step))
  {
    hide EmployeeOf, Skipped, RowIds, StreamIds, UniqueRows, EmployeesFollowRows, EntryInv, Genuine;
    match step {
      case Deliver(p) => DeliverKeeps(cfg, s, p);
      case Mark(stored) => MarkKeeps(cfg, seed, s, stored);
      case Retry => OffsetStepKeeps(cfg, s, step);
      case Commit => OffsetStepKeeps(cfg, s, step);
    }
    KafkaFieldsMove(cfg, seed, s, ApplyConsumer(cfg, s, step));
  }

  // ----- the recovery consumer's own steps -----

  lemma {:induction false} LowestIs(pending: set<nat>, lo: nat, hi: nat, count: nat)
    ensures forall k :: 0 <= k < |Lowest(pending, lo, hi, count)| ==>
      Lowest(pending, lo, hi, count)[k] in pending && lo <= Lowest(pending, lo, hi, count)[k] < hi
    ensures forall j, k :: 0 <= j < k < |Lowest(pending, lo, hi, count)| ==>
      Lowest(pending, lo, hi, count)[j] < Lowest(pending, lo, hi, count)[k]
    ensures Lowest(pending, lo, hi, count) == [] ==> forall i :: lo <= i < hi ==> i !in pending
    decreases hi - lo
  {
    if lo < hi {
      if lo !in pending {
        LowestIs(pending, lo + 1, hi, count);
      } else if count != 1 {
        LowestIs(pending, lo + 1, hi, if count == 0 then 0 else count - 1);
      }
    }
  }

  /** No more than asked for, and what is left out comes after: only if it was as many. */
  lemma {:induction false} LowestFirst(pending: set<nat>, lo: nat, hi: nat, count: nat)
    ensures count > 0 ==> |Lowest(pending, lo, hi, count)| <= count
    ensures forall i :: i in pending && lo <= i < hi && i !in Lowest(pending, lo, hi, count) ==>
      count > 0 && |Lowest(pending, lo, hi, count)| == count
      && forall k :: 0 <= k < count ==> Lowest(pending, lo, hi, count)[k] < i
    decreases hi - lo
  {
    if lo < hi {
      if lo !in pending {
        LowestFirst(pending, lo + 1, hi, count);
      } else if count != 1 {
        LowestFirst(pending, lo + 1, hi, if count == 0 then 0 else count - 1);
      }
    }
  }

  /** A step that touches only the recovery group's fields. */
  lemma GroupFieldsMove(cfg: Config, seed: Seed, s: System, s': System)
    requires Inv(cfg, seed, s)
    requires s' == s.(cursor := s'.cursor, pending := s'.pending, todo := s'.todo, recovery := s'.recovery)
    requires GroupInv(cfg, s') && TodoInv(cfg, s')
    ensures Inv(cfg, seed, s')
  {
    assert KafkaInv(cfg, s') by {
      assert forall p, o :: 0 <= p < |s.topic| && 0 <= o < s.position[p] ==>
        (InFlight(s, p, o) <==> InFlight(s', p, o));
    }
  }

  lemma ReadPendingKeeps(cfg: Config, seed: Seed, s: System)
    requires Inv(cfg, seed, s)
    ensures Inv(cfg, seed, ApplyConsumer(cfg, s, ReadPending))
  {
    var s' := ApplyConsumer(cfg, s, ReadPending);
    LowestIs(s.pending, 0, s.cursor, cfg.batchSize);
    if s' != s {
      GroupFieldsMove(cfg, seed, s, s');
    }
  }

  lemma ReadNewKeeps(cfg: Config, seed: Seed, s: System)
    requires Inv(cfg, seed, s)
    ensures Inv(cfg, seed, ApplyConsumer(cfg, s, ReadNew))
  {
    var s' := ApplyConsumer(cfg, s, ReadNew);
    if s' != s {
      var start, end := Max(s.cursor, s.trimmed), NewEnd(s, cfg.batchSize);
      GroupFieldsMove(cfg, seed, s, s');
    }
  }

  lemma EntryStepKeeps(cfg: Config, seed: Seed, s: System, step: Step)
    requires Inv(cfg, seed, s) && (step.CheckMarker? || step.Ack? || step.Leave?)
    ensures Inv(cfg, seed, ApplyConsumer(cfg, s, step))
  {
    hide EmployeeOf, Skipped, RowIds, StreamIds, UniqueRows, EmployeesFollowRows;
    var s' := ApplyConsumer(cfg, s, step);
    if s' != s {
      assert EntryInv(s, s.todo[0]);
      assert TodoInv(cfg, s') by {
        forall k | 0 <= k < |s'.todo| ensures EntryInv(s', s'.todo[k]) {
          if step.CheckMarker? { assert EntryInv(s, s.todo[k]); } else { assert EntryInv(s, s.todo[k + 1]); }
        }
      }
      GroupFieldsMove(cfg, seed, s, s');
    }
  }

  lemma ConsumerKeeps(cfg: Config, seed: Seed, s: System, step: Step)
    requires Inv(cfg, seed, s) && !Saves(step) && (By(step, Kafka) || By(step, Recovery))
    ensures Inv(cfg, seed, ApplyConsumer(cfg, s, step))
  {
    if step.Deliver? || step.Mark? || step.Retry? || step.Commit? {
      KafkaStepKeeps(cfg, seed, s, step);
    } else if step.ReadPending? {
      ReadPendingKeeps(cfg, seed, s);
    } else if step.ReadNew? {
      ReadNewKeeps(cfg, seed, s);
    } else {
      EntryStepKeeps(cfg, seed, s, step);
    }
  }

  lemma StepKeeps(cfg: Config, seed: Seed, s: System, step: Step)
    requires Inv(cfg, seed, s)
    ensures Inv(cfg, seed, Apply(cfg, s, step))
  {
    if Saves(step) {
      SaveKeeps(cfg, seed, s, step);
    } else if By(step, Kafka) || By(step, Recovery) {
      ConsumerKeeps(cfg, seed, s, step);
    } else {
      AccessKeeps(cfg, seed, s, step);
    }
  }

  /** Every reachable state satisfies every invariant. */
  lemma {:induction false} Reachable(cfg: Config, seed: Seed, steps: seq<Step>)
    ensures Inv(cfg, seed, Run(cfg, seed, steps))
  {
    if steps == [] {
      StartInv(cfg, seed);
    } else {
      Reachable(cfg, seed, steps[..|steps| - 1]);
      StepKeeps(cfg, seed, Run(cfg, seed, steps[..|steps| - 1]), steps[|steps| - 1]);
    }
  }
}
