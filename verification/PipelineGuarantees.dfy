/** What the pipeline promises over every run. */
module PipelineGuarantees {
  import opened Text
  import opened Events
  import opened Pipeline
  import opened PipelineSafety
  import AP = AntiPassback

  /** Where the stream keeps entry i for the recovery group. */
  predicate AwaitsRecovery(s: System, i: nat) {
    i < |s.buffer.stream| && (i >= s.cursor || i in s.pending)
  }

  ghost predicate Accounted(cfg: Config, s: System, id: string) {
    || id in RowIds(s.db)
    || Skipped(cfg, EmployeeOf(id))
    || (exists i :: 0 <= i < |s.buffer.stream| && s.buffer.stream[i].Valid?
          && s.buffer.stream[i].event.requestId == id && (AwaitsRecovery(s, i) || i < s.trimmed))
  }

  /** No buffered event is lost: once AppendEventOnce has reported success, and
      whatever crashes, failed writes, expiries, redeliveries and foreign messages
      follow, the request id is stored, skip-listed, waiting for recovery, or was cut
      off by stream trimming. */
  lemma NothingBufferedIsLost(cfg: Config, seed: Seed, steps: seq<Step>)
    ensures var s := Run(cfg, seed, steps);
      forall id :: id in s.buffered ==> Accounted(cfg, s, id)
  {
    var s := Run(cfg, seed, steps);
    Reachable(cfg, seed, steps);
    forall id | id in s.buffered ensures Accounted(cfg, s, id) {
      assert id in StreamIds(s.buffer.stream);
      var m :| m in s.buffer.stream && m.Valid? && m.event.requestId == id;
      var i :| 0 <= i < |s.buffer.stream| && s.buffer.stream[i] == m;
      if i < s.cursor && i !in s.pending && i >= s.trimmed {
        assert Settled(cfg, s, m);
      }
    }
  }

  /** So an employee's buffered id, if no configured prefix begins the employee's id, is a row
      of the table, undelivered or pending in the stream, or was trimmed. */
  lemma UnprefixedIsStored(cfg: Config, seed: Seed, steps: seq<Step>, id: string)
    requires id in Run(cfg, seed, steps).buffered && forall p :: p in cfg.skipPrefixes ==> !(p <= EmployeeOf(id))
    ensures var s := Run(cfg, seed, steps);
      || (exists row :: row in s.db.events && row.requestId == id)
      || (exists i :: 0 <= i < |s.buffer.stream| && s.buffer.stream[i].Valid?
            && s.buffer.stream[i].event.requestId == id && (i >= s.cursor || i in s.pending || i < s.trimmed))
  {
    NothingBufferedIsLost(cfg, seed, steps);
    SkippedExactly(cfg, EmployeeOf(id));
    hide Run;
    assert Accounted(cfg, Run(cfg, seed, steps), id);
  }

  /** And what follows a configured prefix is in no run an employee of a row. */
  lemma PrefixedIsNotStored(cfg: Config, seed: Seed, steps: seq<Step>, prefix: string, rest: string)
    requires prefix in cfg.skipPrefixes
    ensures forall row :: row in Run(cfg, seed, steps).db.events ==> row.employeeId != prefix + rest
    ensures forall row :: row in Run(cfg, seed, steps).db.events ==> EmployeeOf(row.requestId) != prefix + rest
  {
    Reachable(cfg, seed, steps);
    SkippedExactly(cfg, prefix + rest);
    assert prefix <= prefix + rest;
    hide Run, EmployeeOf, Skipped;
    var s := Run(cfg, seed, steps);
  }

  /** What handling a message comes to: a row of its id, unless a configured prefix begins
      its employee's; and nothing at all, if one does. */
  lemma HandledIsStored(cfg: Config, s: System, m: Message)
    requires m.Valid? && EmployeeOf(m.event.requestId) == m.event.employeeId
    ensures (forall p :: p in cfg.skipPrefixes ==> !(p <= m.event.employeeId)) ==>
      (Settled(cfg, s, m) <==> exists row :: row in s.db.events && row.requestId == m.event.requestId)
    ensures (exists p :: p in cfg.skipPrefixes && p <= m.event.employeeId) ==> Settled(cfg, s, m)
  {
    SkippedExactly(cfg, m.event.employeeId);
    hide EmployeeOf, Skipped;
    assert m.event.requestId in RowIds(s.db) <==>
      exists row :: row in s.db.events && row.requestId == m.event.requestId;
  }

  /** When request ids do not collide, the very event is there, with all its fields. */
  lemma TheEventItselfIsKept(cfg: Config, seed: Seed, steps: seq<Step>, e: AccessEvent)
    requires var s := Run(cfg, seed, steps);
      && e in s.issued && e.requestId in s.buffered
      && forall e' :: e' in s.issued && e'.requestId == e.requestId ==> e' == e
    ensures var s := Run(cfg, seed, steps);
      || e in s.db.events
      || Skipped(cfg, e.employeeId)
      || (exists i :: 0 <= i < |s.buffer.stream| && s.buffer.stream[i] == Valid(e)
            && (AwaitsRecovery(s, i) || i < s.trimmed))
  {
    var s := Run(cfg, seed, steps);
    Reachable(cfg, seed, steps);
    NothingBufferedIsLost(cfg, seed, steps);
    assert Accounted(cfg, s, e.requestId);
    if e.requestId in RowIds(s.db) {
      var row :| row in s.db.events && row.requestId == e.requestId;
      assert row == e;
    } else if !Skipped(cfg, e.employeeId) {
      var i :| 0 <= i < |s.buffer.stream| && s.buffer.stream[i].Valid?
        && s.buffer.stream[i].event.requestId == e.requestId && (AwaitsRecovery(s, i) || i < s.trimmed);
      assert s.buffer.stream[i] in s.buffer.stream;
      assert s.buffer.stream[i] == Valid(e);
    }
  }

  /** Without MAXLEN trimming the trimmed category is empty. */
  lemma {:induction false} NoTrimming(cfg: Config, seed: Seed, steps: seq<Step>)
    requires forall i :: 0 <= i < |steps| ==> !steps[i].Trim?
    ensures Run(cfg, seed, steps).trimmed == 0
  {
    if steps != [] {
      var front, last := steps[..|steps| - 1], steps[|steps| - 1];
      NoTrimming(cfg, seed, front);
      hide Apply;
      TrimmedStands(cfg, Run(cfg, seed, front), last);
    }
  }

  lemma TrimmedStands(cfg: Config, s: System, step: Step)
    requires !step.Trim?
    ensures Apply(cfg, s, step).trimmed == s.trimmed
  {
    hide AppendOnce, ApplySave, ApplyConsumer, AP.Decide;
    SaveFrame(cfg, s, step);
    ConsumerFrame(cfg, s, step);
  }

  /** Committed offsets, live markers and acknowledged entries all stand for handled
      messages, though two consumers race; rows are unique; and employees are those of the
      rows and of the seed. */
  lemma HandledMeansHandled(cfg: Config, seed: Seed, steps: seq<Step>)
    ensures var s := Run(cfg, seed, steps);
      && (forall p, o :: 0 <= p < |s.topic| && p < |s.committed| && 0 <= o < s.committed[p] && o < |s.topic[p]| ==>
            Settled(cfg, s, s.topic[p][o]))
      && (forall id :: id in s.markers ==> SettledId(cfg, s, id))
      && (forall i :: 0 <= i < s.cursor && i < |s.buffer.stream| && i !in s.pending && i >= s.trimmed ==>
            Settled(cfg, s, s.buffer.stream[i]))
      && UniqueRows(s.db.events)
      && EmployeesFollowRows(s.db, seed.employees)
      && (forall e :: e in s.db.events ==> e in s.issued && !Skipped(cfg, e.employeeId) && Fits(e))
  {
    Reachable(cfg, seed, steps);
    var s := Run(cfg, seed, steps);
    forall p, o | 0 <= p < |s.topic| && 0 <= o < s.committed[p] ensures Settled(cfg, s, s.topic[p][o]) {
      assert !InFlight(s, p, o);
    }
  }

  /** The step is a commit that no key and no column refuses. */
  predicate Stores(cfg: Config, s: System, step: Step) {
    && step.Insert? && Holds(s, step.who) && PhaseOf(s, step.who) == Inserting && InHand(s, step.who).Valid?
    && var e := InHand(s, step.who).event;
       e.requestId !in RowIds(s.db) && Fits(e) && !KeyTaken(s.db, e, ReadOf(s, step.who))
  }

  /** The database changes by insertion alone, one row at a time, and exactly at the commit
      of a consumer holding that event. */
  lemma OnlyInsertsChangeRows(cfg: Config, s: System, step: Step)
    ensures Stores(cfg, s, step) ==>
      Apply(cfg, s, step).db == Inserted(s.db, InHand(s, step.who).event, ReadOf(s, step.who))
    ensures !Stores(cfg, s, step) ==> Apply(cfg, s, step).db == s.db
  {
    hide ApplyAccess, ApplyConsumer, Inserted, RowIds, Skipped, KeyTaken, Fits;
    if !Saves(step) {
      AccessStores(cfg, s, step);
      ConsumerStores(cfg, s, step);
    }
  }

  /** Handling a message that is already settled changes nothing in the database. */
  lemma RedeliveryIsSilent(cfg: Config, seed: Seed, steps: seq<Step>, step: Step, c: Consumer)
    requires By(step, c) && Holds(Run(cfg, seed, steps), c)
    requires Settled(cfg, Run(cfg, seed, steps), InHand(Run(cfg, seed, steps), c))
    ensures Run(cfg, seed, steps + [step]).db == Run(cfg, seed, steps).db
  {
    hide Run, Apply, Inv, By, Holds, InHand, Settled, Stores, Inserted;
    var s := Run(cfg, seed, steps);
    Reachable(cfg, seed, steps);
    SettledIsNotStored(cfg, seed, s, step, c);
    OnlyInsertsChangeRows(cfg, s, step);
    RunNext(cfg, seed, steps, step);
  }

  lemma SettledIsNotStored(cfg: Config, seed: Seed, s: System, step: Step, c: Consumer)
    requires Inv(cfg, seed, s) && By(step, c) && Holds(s, c) && Settled(cfg, s, InHand(s, c))
    ensures !Stores(cfg, s, step)
  {
    hide Inv, Skipped, RowIds, Fits, KeyTaken, InHand;
    if Stores(cfg, s, step) {
      InHandGenuine(cfg, seed, s, c);
      HandClaims(cfg, seed, s, c);
    }
  }

  lemma AccessStores(cfg: Config, s: System, step: Step)
    ensures ApplyAccess(cfg, s, step).db == s.db
  {
    hide AppendOnce, AP.Decide;
  }

  lemma ConsumerStores(cfg: Config, s: System, step: Step)
    ensures ApplyConsumer(cfg, s, step).db == s.db
  {
    hide Lowest, Between;
  }

  lemma StepGrows(cfg: Config, s: System, step: Step)
    ensures s.db.events <= Apply(cfg, s, step).db.events
    ensures s.buffered <= Apply(cfg, s, step).buffered
    ensures s.issued <= Apply(cfg, s, step).issued
    ensures s.buffer.stream <= Apply(cfg, s, step).buffer.stream
  {
    hide ApplyAccess, ApplySave, ApplyConsumer, Stores;
    OnlyInsertsChangeRows(cfg, s, step);
    AccessGrows(cfg, s, step);
    SaveFrame(cfg, s, step);
    ConsumerFrame(cfg, s, step);
  }

  lemma AccessGrows(cfg: Config, s: System, step: Step)
    ensures var t := ApplyAccess(cfg, s, step);
      s.buffered <= t.buffered && s.issued <= t.issued && s.buffer.stream <= t.buffer.stream
  {
    hide AP.Decide;
  }

  /** What no save touches. */
  lemma SaveFrame(cfg: Config, s: System, step: Step)
    ensures var t := ApplySave(cfg, s, step);
      s.states == t.states && s.issued == t.issued && s.buffered == t.buffered && s.buffer == t.buffer
        && s.trimmed == t.trimmed
  {
    hide Inserted, RowIds, Skipped, KeyTaken, Fits, Load, Holds, InHand, PhaseOf, ReadOf;
  }

  /** What no other step of a consumer touches. */
  lemma ConsumerFrame(cfg: Config, s: System, step: Step)
    ensures var t := ApplyConsumer(cfg, s, step);
      s.states == t.states && s.issued == t.issued && s.buffered == t.buffered && s.buffer == t.buffer
        && s.trimmed == t.trimmed
  {
    hide Lowest, Between;
  }

  /** Later states keep every row in place, every buffered id and every issued event. */
  lemma {:induction false} RowsStay(cfg: Config, seed: Seed, steps: seq<Step>, k: nat)
    requires k <= |steps|
    ensures Run(cfg, seed, steps[..k]).db.events <= Run(cfg, seed, steps).db.events
    ensures Run(cfg, seed, steps[..k]).buffered <= Run(cfg, seed, steps).buffered
    ensures Run(cfg, seed, steps[..k]).issued <= Run(cfg, seed, steps).issued
  {
    if k == |steps| {
      assert steps[..k] == steps;
    } else {
      var front := steps[..|steps| - 1];
      RowsStay(cfg, seed, front, k);
      assert front[..k] == steps[..k];
      StepGrows(cfg, Run(cfg, seed, front), steps[|steps| - 1]);
    }
  }

  lemma BufferStep(cfg: Config, s: System, step: Step)
    requires KeysLive(s.buffer) && AtMostOnce(s.buffer.stream) && !step.ExpireDedupe?
    ensures KeysLive(Apply(cfg, s, step).buffer) && AtMostOnce(Apply(cfg, s, step).buffer.stream)
  {
    if step.Append? && step.event < |s.issued| {
      AppendOnceKeeps(s.buffer, s.issued[step.event]);
    } else if step.ForeignEntry? {
      var t := s.buffer.stream + [Malformed(step.id)];
      assert forall m :: m in t <==> m in s.buffer.stream || m == Malformed(step.id);
      assert StreamIds(t) == StreamIds(s.buffer.stream);
    } else {
      hide AtMostOnce, KeysLive;
      AllBufferStands(cfg, s, step);
    }
  }

  lemma AllBufferStands(cfg: Config, s: System, step: Step)
    requires !(step.Append? && step.event < |s.issued|) && !step.ForeignEntry? && !step.ExpireDedupe?
    ensures Apply(cfg, s, step).buffer == s.buffer
  {
    hide AppendOnce, ApplySave, ApplyConsumer, AP.Decide;
    SaveFrame(cfg, s, step);
    ConsumerFrame(cfg, s, step);
  }

  /** While dedupe keys live, an event is in the stream at most once, however often
      the handler, the publisher's retries and its workers append it; and exactly
      once if any append was reported successful. */
  lemma {:induction false} StreamedOnce(cfg: Config, seed: Seed, steps: seq<Step>)
    requires forall i :: 0 <= i < |steps| ==> !steps[i].ExpireDedupe?
    ensures KeysLive(Run(cfg, seed, steps).buffer) && AtMostOnce(Run(cfg, seed, steps).buffer.stream)
    ensures Run(cfg, seed, steps).buffered <= StreamIds(Run(cfg, seed, steps).buffer.stream)
  {
    if steps != [] {
      var front := steps[..|steps| - 1];
      StreamedOnce(cfg, seed, front);
      BufferStep(cfg, Run(cfg, seed, front), steps[|steps| - 1]);
    }
    assert BufferInv(Run(cfg, seed, steps)) by { Reachable(cfg, seed, steps); }
  }

  /** The event fits no row, its employee is not skipped, and its id is its own. */
  ghost predicate Unsavable(cfg: Config, s: System, e: AccessEvent) {
    && !Fits(e) && !Skipped(cfg, e.employeeId)
    && forall e' :: e' in s.issued && e'.requestId == e.requestId ==> e' == e
  }

  /** An event the columns do not hold is never handled, in any run: every save of it
      raises (unless its employee is skip-listed, or another event shares its id). */
  lemma UnfitStaysOpen(cfg: Config, seed: Seed, steps: seq<Step>, e: AccessEvent)
    requires e in Run(cfg, seed, steps).issued && Unsavable(cfg, Run(cfg, seed, steps), e)
    ensures !Settled(cfg, Run(cfg, seed, steps), Valid(e))
  {
    Reachable(cfg, seed, steps);
    hide Run, Skipped, EmployeeOf;
    forall row | row in Run(cfg, seed, steps).db.events ensures row.requestId != e.requestId { }
  }

  /** An entry no save can settle, delivered and not trimmed. */
  ghost predicate Hopeless(cfg: Config, s: System, i: nat) {
    && i < |s.buffer.stream| && s.trimmed <= i < s.cursor && s.buffer.stream[i].Valid?
    && Unsavable(cfg, s, s.buffer.stream[i].event)
  }

  /** In every run such an entry is pending. */
  lemma HopelessStaysPending(cfg: Config, seed: Seed, steps: seq<Step>, i: nat)
    requires Hopeless(cfg, Run(cfg, seed, steps), i)
    ensures i in Run(cfg, seed, steps).pending
  {
    var s := Run(cfg, seed, steps);
    Reachable(cfg, seed, steps);
    assert s.buffer.stream[i] in s.buffer.stream;
    UnfitStaysOpen(cfg, seed, steps, s.buffer.stream[i].event);
  }

  /** A swipe by someone whose id its column does not hold: an event that fits no row. */
  lemma UnfitSwipe(cfg: Config, seed: Seed, e: string, gate: string, nanos: nat, now: nat)
    requires !ColumnHolds(e, 64)
    ensures var issued := Run(cfg, seed, [Swipe(e, gate, "IN", nanos, 0, now, true)]).issued;
      |issued| == 1 && issued[0].employeeId == e && issued[0].decision == "GRANTED" && !Fits(issued[0])
  {
    var swipe := Swipe(e, gate, "IN", nanos, 0, now, true);
    RunNext(cfg, seed, [], swipe);
    assert [] + [swipe] == [swipe];
  }

  /** Trimming does lose: whatever has not been read when the stream is cut off behind it is
      not there to be read any more, and no row has come of it. */
  lemma TrimmingLoses(cfg: Config, s: System)
    requires s.trimmed <= |s.buffer.stream| && s.cursor <= |s.buffer.stream|
    ensures var t := Apply(cfg, s, Trim(|s.buffer.stream|));
      && t == s.(trimmed := |s.buffer.stream|)
      && Apply(cfg, t, ReadNew) == t && t.db == s.db && t.buffered == s.buffered
  {
    var t := Apply(cfg, s, Trim(|s.buffer.stream|));
    assert t == s.(trimmed := |s.buffer.stream|);
    hide Between, FetchAll, Range, Lowest;
    assert Max(t.cursor, t.trimmed) >= NewEnd(t, cfg.batchSize);
  }

  // ----- the last known state -----

  lemma RunNext(cfg: Config, seed: Seed, steps: seq<Step>, step: Step)
    ensures Run(cfg, seed, steps + [step]) == Apply(cfg, Run(cfg, seed, steps), step)
    ensures Run(cfg, seed, []) == Start(seed)
  {
    assert (steps + [step])[..|steps|] == steps;
  }

  /** The step stores a row of the employee. */
  predicate StoresFor(cfg: Config, s: System, step: Step, employee: string) {
    Stores(cfg, s, step) && InHand(s, step.who).event.employeeId == employee
  }

  /** The last save of the employee had read a state, or a time, that was not so any more,
      and its event told the same: it wrote nothing of it. */
  predicate LastSaveStale(cfg: Config, seed: Seed, steps: seq<Step>, employee: string, seen: bool) {
    if steps == [] then false
    else
      var s, step := Run(cfg, seed, steps[..|steps| - 1]), steps[|steps| - 1];
      if StoresFor(cfg, s, step, employee) then
        var e, l := InHand(s, step.who).event, ReadOf(s, step.who);
        if seen then StaleSeen(s.db, e, l) else StaleState(s.db, e, l)
      else LastSaveStale(cfg, seed, steps[..|steps| - 1], employee, seen)
  }

  /** The employee's last known state (or the time of it) is that of the last inserted row. */
  predicate FollowsRow(db: Database, employee: string, seen: bool) {
    match LastInserted(db.events, employee)
    case None => true
    case Some(e) =>
      && employee in db.employees
      && if seen then db.employees[employee].lastSeenAt == Some(e.timestamp)
         else db.employees[employee].lastKnownState == e.currentState
  }

  lemma FollowsStep(cfg: Config, s: System, step: Step, employee: string, seen: bool)
    ensures StoresFor(cfg, s, step, employee) ==>
      (FollowsRow(Apply(cfg, s, step).db, employee, seen) <==>
         !(var e, l := InHand(s, step.who).event, ReadOf(s, step.who);
           if seen then StaleSeen(s.db, e, l) else StaleState(s.db, e, l)))
    ensures !StoresFor(cfg, s, step, employee) ==>
      (FollowsRow(Apply(cfg, s, step).db, employee, seen) <==> FollowsRow(s.db, employee, seen))
  {
    OnlyInsertsChangeRows(cfg, s, step);
    hide Apply, Inserted, LastInserted, StaleState, StaleSeen, RowIds, Fits, KeyTaken;
    if Stores(cfg, s, step) {
      var e, l := InHand(s, step.who).event, ReadOf(s, step.who);
      LastAfter(s.db, e, l, employee);
      SaveSetsState(s.db, e, l);
    }
  }

  /** Over every run, an employee's last known state is that of the last inserted row, and
      the last seen time its time, if and only if the save of that row was not stale: it
      told something else than it had read, or what it had read was still so. */
  lemma {:induction false} StateFollowsExactly(cfg: Config, seed: Seed, steps: seq<Step>, employee: string, seen: bool)
    requires LastInserted(Run(cfg, seed, steps).db.events, employee).Some?
    ensures FollowsRow(Run(cfg, seed, steps).db, employee, seen)
            <==> !LastSaveStale(cfg, seed, steps, employee, seen)
  {
    hide StoresFor, FollowsRow, Apply, StaleState, StaleSeen;
    if steps != [] {
      var s, step := Run(cfg, seed, steps[..|steps| - 1]), steps[|steps| - 1];
      FollowsStep(cfg, s, step, employee, seen);
      if !StoresFor(cfg, s, step, employee) {
        SameLast(cfg, s, step, employee);
        StateFollowsExactly(cfg, seed, steps[..|steps| - 1], employee, seen);
      }
    } else {
      NothingInserted(cfg, seed, employee);
    }
  }

  lemma NothingInserted(cfg: Config, seed: Seed, employee: string)
    ensures LastInserted(Run(cfg, seed, []).db.events, employee) == None
  {
  }

  lemma SameLast(cfg: Config, s: System, step: Step, employee: string)
    requires !StoresFor(cfg, s, step, employee)
    ensures LastInserted(Apply(cfg, s, step).db.events, employee) == LastInserted(s.db.events, employee)
  {
    OnlyInsertsChangeRows(cfg, s, step);
    hide Apply, LastInserted, Inserted;
    if Stores(cfg, s, step) { LastAfter(s.db, InHand(s, step.who).event, ReadOf(s, step.who), employee); }
  }

  // ----- how often one id is in the stream -----

  function Occurrences(stream: seq<Message>, id: string): nat {
    if stream == [] then 0
    else
      var last := stream[|stream| - 1];
      Occurrences(stream[..|stream| - 1], id) + if last.Valid? && last.event.requestId == id then 1 else 0
  }

  lemma {:induction false} OccursIn(stream: seq<Message>, id: string)
    ensures Occurrences(stream, id) > 0 <==> id in StreamIds(stream)
  {
    if stream != [] {
      var front, last := stream[..|stream| - 1], stream[|stream| - 1];
      OccursIn(front, id);
      assert forall m :: m in stream <==> m in front || m == last;
    }
  }

  /** The step appends the event with this id although it is in the stream: its dedupe key
      has expired. */
  predicate Reappends(s: System, step: Step, id: string) {
    && step.Append? && step.event < |s.issued| && s.issued[step.event].requestId == id
    && id in StreamIds(s.buffer.stream) && id !in s.buffer.dedupe
  }

  lemma OccurrencesStep(cfg: Config, s: System, step: Step, id: string)
    requires s.buffer.dedupe <= StreamIds(s.buffer.stream)
    ensures var n, m := Occurrences(s.buffer.stream, id), Occurrences(Apply(cfg, s, step).buffer.stream, id);
      n <= m <= n + 1 && (Reappends(s, step, id) ==> n > 0 && m == n + 1)
          && (!Reappends(s, step, id) && n > 0 ==> m == n)
  {
    OccursIn(s.buffer.stream, id);
    hide Occurrences;
    if step.Append? && step.event < |s.issued| {
      OneMoreEntry(s.buffer.stream, Valid(s.issued[step.event]), id);
    } else if step.ForeignEntry? {
      OneMoreEntry(s.buffer.stream, Malformed(step.id), id);
    } else {
      BufferStands(cfg, s, step);
    }
  }

  lemma OneMoreEntry(stream: seq<Message>, m: Message, id: string)
    ensures Occurrences(stream + [m], id) == Occurrences(stream, id) +
      if m.Valid? && m.event.requestId == id then 1 else 0
  {
    assert (stream + [m])[..|stream|] == stream;
  }

  lemma BufferStands(cfg: Config, s: System, step: Step)
    requires !(step.Append? && step.event < |s.issued|) && !step.ForeignEntry?
    ensures Apply(cfg, s, step).buffer.stream == s.buffer.stream
  {
    hide AppendOnce, ApplySave, ApplyConsumer, AP.Decide;
    SaveFrame(cfg, s, step);
    ConsumerFrame(cfg, s, step);
  }

  ghost predicate NeverReappended(cfg: Config, seed: Seed, steps: seq<Step>, id: string) {
    forall k :: 0 <= k < |steps| ==> !Reappends(Run(cfg, seed, steps[..k]), steps[k], id)
  }

  /** Over every run, whatever keys expire: an id is in the stream at most once if and only
      if it was never appended again after its own key had expired while it was there; and
      it is there once an append of it has been reported successful. */
  lemma {:induction false} StreamedOnceExactly(cfg: Config, seed: Seed, steps: seq<Step>, id: string)
    ensures Occurrences(Run(cfg, seed, steps).buffer.stream, id) <= 1 <==> NeverReappended(cfg, seed, steps, id)
    ensures id in Run(cfg, seed, steps).buffered ==> Occurrences(Run(cfg, seed, steps).buffer.stream, id) > 0
  {
    BufferAt(cfg, seed, steps);
    OccursIn(Run(cfg, seed, steps).buffer.stream, id);
    hide Reappends, Occurrences, Apply, StreamIds;
    if steps == [] {
      NothingStreamed(cfg, seed, id);
    } else {
      var front, last := steps[..|steps| - 1], steps[|steps| - 1];
      StreamedOnceExactly(cfg, seed, front, id);
      BufferAt(cfg, seed, front);
      OccurrencesStep(cfg, Run(cfg, seed, front), last, id);
      forall k | 0 <= k < |front| ensures steps[..k] == front[..k] && steps[k] == front[k] { }
      assert steps[..|front|] == front;
    }
  }

  lemma NothingStreamed(cfg: Config, seed: Seed, id: string)
    ensures Occurrences(Run(cfg, seed, []).buffer.stream, id) == 0
  {
  }

  lemma {:induction false} BufferAt(cfg: Config, seed: Seed, steps: seq<Step>)
    ensures var s := Run(cfg, seed, steps);
      s.buffer.dedupe <= StreamIds(s.buffer.stream) && s.buffered <= StreamIds(s.buffer.stream)
  {
    Reachable(cfg, seed, steps);
    hide Run;
  }

  /** A retry after the dedupe key has expired puts the event into the stream again. */
  lemma ExpiredKeyDuplicates(cfg: Config, s: System, k: nat)
    requires k < |s.issued| && s.issued[k].requestId in StreamIds(s.buffer.stream)
    ensures var t := Apply(cfg, Apply(cfg, s, ExpireDedupe(s.issued[k].requestId)), Append(k, true));
      t.buffer.stream == s.buffer.stream + [Valid(s.issued[k])] && !AtMostOnce(t.buffer.stream)
  {
    var id := s.issued[k].requestId;
    var t := Apply(cfg, Apply(cfg, s, ExpireDedupe(id)), Append(k, true));
    var m :| m in s.buffer.stream && m.Valid? && m.event.requestId == id;
    var i :| 0 <= i < |s.buffer.stream| && s.buffer.stream[i] == m;
    assert t.buffer.stream[i] == m && t.buffer.stream[|s.buffer.stream|] == Valid(s.issued[k]);
  }

  // ----- the issued events and the history of decisions -----

  /** What happened to the stored states, replies lost or not. */
  function Decisions(steps: seq<Step>): seq<AP.Op> {
    if steps == [] then []
    else
      var last := steps[|steps| - 1];
      Decisions(steps[..|steps| - 1])
        + if last.Swipe? then [AP.Swipe(last.employee, last.direction)]
          else if last.Forget? then [AP.Forget(last.employee)]
          else []
  }

  /** Which of these were swipes whose reply came. */
  function Answered(steps: seq<Step>): (r: seq<bool>)
    ensures |r| == |Decisions(steps)|
  {
    if steps == [] then []
    else
      var last := steps[|steps| - 1];
      Answered(steps[..|steps| - 1])
        + if last.Swipe? then [last.replied] else if last.Forget? then [false] else []
  }

  /** The swipes of a log whose reply came, as the events record them. */
  function AnsweredSwipes(log: seq<AP.Item>, answered: seq<bool>): seq<(string, string, AP.Decision)>
    requires |log| == |answered|
  {
    if log == [] then []
    else
      var n := |log| - 1;
      AnsweredSwipes(log[..n], answered[..n])
        + if log[n].Swiped? && answered[n] then [(log[n].employee, log[n].direction, log[n].decision)] else []
  }

  function Recorded(events: seq<AccessEvent>): (r: seq<(string, string, AP.Decision)>)
    ensures |r| == |events|
  {
    seq(|events|, i requires 0 <= i < |events| =>
      (events[i].employeeId, events[i].direction,
       AP.Decision(events[i].decision == "GRANTED", events[i].previousState, events[i].currentState, events[i].reason)))
  }

  lemma DecisionStep(cfg: Config, s: System, step: Step)
    ensures var s' := Apply(cfg, s, step);
      match step
      case Swipe(e, _, direction, _, _, _, replied) =>
        var (states, item) := AP.Step(s.states, AP.Swipe(e, direction));
        && s'.states == states && item.Swiped?
        && Recorded(s'.issued) == Recorded(s.issued) + if replied then [(e, direction, item.decision)] else []
      case Forget(e) => s'.states == AP.Step(s.states, AP.Forget(e)).0 && s'.issued == s.issued
      case _ => s'.states == s.states && s'.issued == s.issued
  {
    hide AP.Decide, Recorded;
    if step.Swipe? {
      SwipeRecorded(cfg, s, step);
    } else if !step.Forget? {
      QuietStep(cfg, s, step);
    }
  }

  lemma SwipeRecorded(cfg: Config, s: System, step: Step)
    requires step.Swipe?
    ensures var (decision, after) := AP.Decide(AP.Lookup(s.states, step.employee), step.direction);
      var s' := Apply(cfg, s, step);
      && s'.states == AP.Store(s.states, step.employee, after)
      && Recorded(s'.issued) ==
         Recorded(s.issued) + if step.replied then [(step.employee, step.direction, decision)] else []
  {
    hide AP.Decide;
  }

  lemma QuietAccess(cfg: Config, s: System, step: Step)
    requires !step.Swipe? && !step.Forget?
    ensures ApplyAccess(cfg, s, step).states == s.states && ApplyAccess(cfg, s, step).issued == s.issued
  {
    hide AppendOnce;
  }

  lemma QuietStep(cfg: Config, s: System, step: Step)
    requires !step.Swipe? && !step.Forget?
    ensures Apply(cfg, s, step).states == s.states && Apply(cfg, s, step).issued == s.issued
  {
    hide ApplyAccess, ApplySave, ApplyConsumer;
    QuietAccess(cfg, s, step);
    SaveFrame(cfg, s, step);
    ConsumerFrame(cfg, s, step);
  }

  /** Whatever else the pipeline does, its issued events are, in order, the answered
      decisions of one anti-passback history: those whose reply was lost moved the stored
      state all the same but left no event. */
  lemma {:induction false} IssuedAreAnswered(cfg: Config, seed: Seed, steps: seq<Step>)
    ensures Run(cfg, seed, steps).states == AP.Run(Decisions(steps)).0
    ensures |AP.Run(Decisions(steps)).1| == |Decisions(steps)|
    ensures Recorded(Run(cfg, seed, steps).issued) == AnsweredSwipes(AP.Run(Decisions(steps)).1, Answered(steps))
  {
    AP.StoreMatchesLog(Decisions(steps));
    if steps != [] {
      var front, step := steps[..|steps| - 1], steps[|steps| - 1];
      IssuedAreAnswered(cfg, seed, front);
      hide Apply, Recorded, AnsweredSwipes, AP.Run, AP.Step;
      DecisionStep(cfg, Run(cfg, seed, front), step);
      if step.Swipe? {
        AppendedOp(Decisions(front), Answered(front), AP.Swipe(step.employee, step.direction), step.replied);
      } else if step.Forget? {
        AppendedOp(Decisions(front), Answered(front), AP.Forget(step.employee), false);
      } else {
        assert Decisions(steps) == Decisions(front) && Answered(steps) == Answered(front);
      }
    } else {
      NothingIssued(cfg, seed);
    }
  }

  lemma NothingIssued(cfg: Config, seed: Seed)
    ensures Run(cfg, seed, []).states == AP.Run([]).0 && AP.Run([]).1 == []
    ensures Recorded(Run(cfg, seed, []).issued) == AnsweredSwipes([], [])
  {
  }

  lemma AppendedOp(ops: seq<AP.Op>, answered: seq<bool>, op: AP.Op, replied: bool)
    requires |answered| == |ops| == |AP.Run(ops).1|
    ensures var (states, log) := AP.Run(ops);
      var (states', item) := AP.Step(states, op);
      && AP.Run(ops + [op]) == (states', log + [item])
      && AnsweredSwipes(log + [item], answered + [replied]) ==
         AnsweredSwipes(log, answered) +
           if item.Swiped? && replied then [(item.employee, item.direction, item.decision)] else []
  {
    assert (ops + [op])[..|ops|] == ops;
    var log, item := AP.Run(ops).1, AP.Step(AP.Run(ops).0, op).1;
    assert (log + [item])[..|log|] == log && (answered + [replied])[..|log|] == answered;
  }

  /** No event of the employee was issued strictly between positions i and j. */
  ghost predicate Unseen(log: seq<AP.Item>, answered: seq<bool>, i: int, j: int, e: string) {
    |log| == |answered| && forall k :: 0 <= k < |log| && i < k < j && AP.SwipeBy(log, k, e) ==> !answered[k]
  }

  /** The grants between i and j whose reply was lost. */
  function LostMoves(log: seq<AP.Item>, answered: seq<bool>, i: int, j: int, e: string): nat
    requires -1 <= i && j <= |log| == |answered|
    decreases j
  {
    if j <= i + 1 then 0
    else LostMoves(log, answered, i, j - 1, e) + if AP.Granted(log, j - 1, e) && !answered[j - 1] then 1 else 0
  }

  lemma {:induction false} AllMovesLost(log: seq<AP.Item>, answered: seq<bool>, i: int, j: int, e: string)
    requires -1 <= i && j <= |log| && Unseen(log, answered, i, j, e)
    ensures AP.Moves(log, i, j, e) == LostMoves(log, answered, i, j, e)
    decreases j
  {
    if j > i + 1 { AllMovesLost(log, answered, i, j - 1, e); }
  }

  /** The anti-passback laws between an employee's consecutive issued events i and j, or
      from a boundary i to the first one: the later event starts from the state the earlier
      one reports, and grants alternate, if and only if an even number of grants lost their
      reply between them; the first event starts from UNKNOWN if and only if none did. So
      without lost replies the laws of the history hold of the events. */
  lemma {:induction false} LawsAcrossLostReplies(steps: seq<Step>, i: int, j: int, e: string)
    requires var log := AP.Run(Decisions(steps)).1;
      && |log| == |Decisions(steps)| && -1 <= i < j
      && AP.SwipeBy(log, j, e) && Answered(steps)[j]
      && AP.KeptBetween(log, i, j, e) && Unseen(log, Answered(steps), i, j, e)
    ensures var log := AP.Run(Decisions(steps)).1;
      var n := LostMoves(log, Answered(steps), i, j, e);
      && (AP.Boundary(log, i, e) ==>
            && (log[j].decision.previousState == "UNKNOWN" <==> n == 0)
            && (log[j].decision.granted ==> (log[j].direction == "IN" <==> n % 2 == 0)))
      && (i >= 0 && AP.SwipeBy(log, i, e) ==>
            && (log[j].decision.previousState == log[i].decision.currentState
                <==> n == 0 || (log[i].decision.currentState != "UNKNOWN" && n % 2 == 0))
            && (log[i].decision.granted && log[j].decision.granted ==>
                  (log[j].direction != log[i].direction <==> n % 2 == 0)))
  {
    var ops := Decisions(steps);
    AllMovesLost(AP.Run(ops).1, Answered(steps), i, j, e);
    hide Decisions, Answered, AP.Run, LostMoves, AP.Moves;
    AP.ChainedAcross(ops, i, j, e);
    if AP.Granted(AP.Run(ops).1, j, e) { AP.AlternatesAcross(ops, i, j, e); }
  }

  /** A swipe in whose reply is lost, then another: the employee's first event is a denial
      that starts from IN. */
  lemma LostReplyShows(cfg: Config, seed: Seed, e: string, gate: string, nanos: nat, now: nat)
    ensures var steps := [Swipe(e, gate, "IN", nanos, 0, now, false), Swipe(e, gate, "IN", nanos + 1, 0, now, true)];
      var issued := Run(cfg, seed, steps).issued;
      |issued| == 1 && issued[0].previousState == "IN" && issued[0].decision == "DENIED"
  {
    var one, two := Swipe(e, gate, "IN", nanos, 0, now, false), Swipe(e, gate, "IN", nanos + 1, 0, now, true);
    var steps := [one, two];
    assert steps[..1] == [one] && [one][..0] == [];
    var s := Run(cfg, seed, [one]);
    assert Run(cfg, seed, []) == Start(seed);
    assert s == Apply(cfg, Start(seed), one);
    assert Run(cfg, seed, steps) == Apply(cfg, s, two);
  }
}
