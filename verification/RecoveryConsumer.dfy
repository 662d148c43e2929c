/** The Redis recovery consumer: drain what is pending, then read new entries; wait
    out the grace period, skip what Kafka marked, save the rest, acknowledge. The drain
    leaves nothing pending, however the Kafka consumer interleaves; but an entry whose save
    fails while new entries are read stays pending until the next restart drains it. */
module RecoveryConsumer {
  import opened Text
  import opened Sums
  import opened Events
  import opened Pipeline
  import opened PipelineSafety
  import opened PipelineGuarantees
  import opened Consumers

  // ----- what is left to do -----

  /** Pending entries whose event is not settled yet. */
  function Unsettled(cfg: Config, s: System): set<nat> {
    set i | i in s.pending && i < |s.buffer.stream| && !Settled(cfg, s, s.buffer.stream[i])
  }

  /** An event no save of which can succeed. */
  predicate Unfit(m: Message) { m.Valid? && !Fits(m.event) }

  /** An unsettled entry is pending that no save can settle. */
  predicate Stuck(cfg: Config, s: System) {
    exists i :: i in Unsettled(cfg, s) && i < |s.buffer.stream| && Unfit(s.buffer.stream[i])
  }

  /** Unsettled entries of employees the database does not know yet. */
  function Strangers(cfg: Config, s: System): set<nat> {
    set i | i in Unsettled(cfg, s) && i < |s.buffer.stream| && s.buffer.stream[i].Valid?
            && s.buffer.stream[i].event.employeeId !in s.db.employees
  }

  function NoDefault(s: System): nat { if "UNASSIGNED" in s.db.departments then 0 else 1 }

  /** Pending entries, those not settled, and what a save of them may still be overtaken in. */
  function Backlog(cfg: Config, s: System): nat {
    |s.pending| + |Unsettled(cfg, s)| + |Strangers(cfg, s)| + NoDefault(s)
  }

  /** Entries no XREADGROUP has returned yet and none ever will skip. */
  function Undelivered(s: System): nat {
    if Max(s.cursor, s.trimmed) <= |s.buffer.stream| then |s.buffer.stream| - Max(s.cursor, s.trimmed) else 0
  }

  ghost predicate InTodo(s: System, i: nat) {
    exists k :: 0 <= k < |s.todo| && s.todo[k].index == i
  }

  /** What is in hand is what the stream has, or nothing readable where it was trimmed. */
  ghost predicate AsRead(s: System) {
    forall k :: 0 <= k < |s.todo| ==>
      && s.todo[k].index < |s.buffer.stream|
      && s.todo[k].message
         == if s.todo[k].index < s.trimmed then Malformed("") else s.buffer.stream[s.todo[k].index]
  }

  /** In hand are the first of the pending entries, batchSize of them or all. */
  ghost predicate FirstOfPending(cfg: Config, s: System) {
    && AsRead(s)
    && (forall j, k :: 0 <= j < k < |s.todo| ==> s.todo[j].index < s.todo[k].index)
    && (cfg.batchSize > 0 ==> |s.todo| <= cfg.batchSize)
    && (forall i :: i in s.pending && !InTodo(s, i) ==>
          cfg.batchSize > 0 && |s.todo| == cfg.batchSize && forall k :: 0 <= k < |s.todo| ==> s.todo[k].index < i)
  }

  /** In hand are the entries from `start` to the cursor, batchSize of them or all there are. */
  ghost predicate NextInStream(cfg: Config, s: System, start: nat) {
    && AsRead(s) && s.cursor == start + |s.todo|
    && (forall k :: 0 <= k < |s.todo| ==> s.todo[k].index == start + k)
    && (cfg.batchSize > 0 ==> |s.todo| <= cfg.batchSize)
    && (|s.todo| == cfg.batchSize || s.cursor == |s.buffer.stream|)
  }

  /** Pending entries out of hand that a save could settle and none has: what failed saves
      leave behind. */
  ghost function Left(cfg: Config, s: System): set<nat> {
    set i | i in Unsettled(cfg, s) && !InTodo(s, i) && i >= s.trimmed
            && i < |s.buffer.stream| && !Unfit(s.buffer.stream[i])
  }

  /** No more entries were left behind than calls have failed and saves were overtaken. */
  ghost predicate LeftWithin(cfg: Config, s: System, outages: nat, overtakes: nat, bound: int) {
    |Left(cfg, s)| + outages - overtakes <= bound
  }

  ghost predicate PendingBelow(s: System) {
    forall i :: i in s.pending ==> i < |s.buffer.stream|
  }

  lemma HandFacts(cfg: Config, seed: Seed, steps: seq<Step>)
    ensures var s := Run(cfg, seed, steps);
      && PendingBelow(s)
      && (s.todo == [] <==> s.recovery == Idle)
      && (s.todo != [] ==> EntryInv(s, s.todo[0]))
      && (s.recovery == Kept ==> Settled(cfg, s, s.todo[0].message))
  {
    Reachable(cfg, seed, steps);
  }

  /** Others can only settle what is pending. */
  lemma UnsettledShrinks(cfg: Config, s: System, t: System)
    requires Alike(Recovery, s, t) && PendingBelow(s)
    ensures PendingBelow(t) && Unsettled(cfg, t) <= Unsettled(cfg, s) && Left(cfg, t) <= Left(cfg, s)
    ensures Strangers(cfg, t) <= Strangers(cfg, s) && NoDefault(t) <= NoDefault(s)
  {
    forall i | i in s.pending && Settled(cfg, s, s.buffer.stream[i])
      ensures Settled(cfg, t, t.buffer.stream[i])
    {
      SettledStays(cfg, Recovery, s, t, s.buffer.stream[i]);
    }
    hide Settled, Unfit;
    forall i | InTodo(s, i) ensures InTodo(t, i) {}
  }

  lemma BacklogStays(cfg: Config, s: System, t: System)
    requires Alike(Recovery, s, t) && PendingBelow(s)
    ensures PendingBelow(t) && Unsettled(cfg, t) <= Unsettled(cfg, s) && Backlog(cfg, t) <= Backlog(cfg, s)
    ensures |Left(cfg, t)| <= |Left(cfg, s)|
    ensures s.buffer.stream == t.buffer.stream ==> Undelivered(t) <= Undelivered(s)
  {
    UnsettledShrinks(cfg, s, t);
    hide Unsettled, Left, Strangers;
    SubsetSize(Unsettled(cfg, t), Unsettled(cfg, s));
    SubsetSize(Left(cfg, t), Left(cfg, s));
    SubsetSize(Strangers(cfg, t), Strangers(cfg, s));
  }

  /** Every message in hand can be handled by a save that does not fail. */
  ghost predicate AllHandleable(cfg: Config, s: System) {
    forall k :: 0 <= k < |s.todo| ==> Handleable(cfg, s, s.todo[k].message)
  }

  predicate Handleable(cfg: Config, s: System, m: Message) {
    !Unfit(m) || Settled(cfg, s, m)
  }

  lemma HandleableStays(cfg: Config, s: System, t: System)
    requires s.db.events <= t.db.events && (t.todo == [] || (s.todo != [] && t.todo == s.todo[1..]) || t.todo == s.todo)
    ensures AllHandleable(cfg, s) ==> AllHandleable(cfg, t)
  {
    assert RowIds(s.db) <= RowIds(t.db);
    if AllHandleable(cfg, s) && t.todo != [] {
      forall k | 0 <= k < |t.todo| ensures Handleable(cfg, t, t.todo[k].message) {
        var m := if t.todo == s.todo then k else k + 1;
        assert Handleable(cfg, s, s.todo[m].message);
      }
    }
  }

  // ----- the calls -----

  method MarkerLookup(w: World, answered: bool)
    requires w.Valid() && w.s.recovery == Got && w.s.todo != []
    modifies w`s, w`trace
    ensures w.Valid() && w.trace == old(w.trace) + [Step.CheckMarker(answered)]
    ensures Alike(Recovery, old(w.s), w.s) && w.s.buffer == old(w.s).buffer
    ensures var id := IdOf(old(w.s).todo[0].message);
      w.s.recovery == if answered && id != "" && id in old(w.s).markers then Kept else Looking
    ensures w.s.recovery == Kept ==> Settled(w.cfg, w.s, w.s.todo[0].message)
  {
    w.Take(Step.CheckMarker(answered));
    HandFacts(w.cfg, w.seed, w.trace);
  }

  /** A malformed entry: the save path parses it and gives up on it. */
  method Poison(w: World)
    requires w.Valid() && w.s.recovery == Looking && w.s.todo != [] && w.s.todo[0].message.Malformed?
    modifies w`s, w`trace
    ensures w.Valid() && old(w.trace) <= w.trace
    ensures Alike(Recovery, old(w.s), w.s) && w.s.buffer == old(w.s).buffer && w.s.recovery == Kept
  {
    w.Take(Step.Look(Recovery));
  }

  method XAck(w: World)
    requires w.Valid() && w.s.recovery == Kept && w.s.todo != []
    modifies w`s, w`trace
    ensures w.Valid() && old(w.trace) <= w.trace
    ensures w.s == NextEntry(old(w.s)).(pending := old(w.s).pending - {old(w.s).todo[0].index})
    ensures old(w.s).todo[0].index in old(w.s).pending
  {
    HandFacts(w.cfg, w.seed, w.trace);
    w.Take(Step.Ack);
  }

  method KeepPending(w: World)
    requires w.Valid() && w.s.recovery == Failed && w.s.todo != []
    modifies w`s, w`trace
    ensures w.Valid() && old(w.trace) <= w.trace
    ensures w.s == NextEntry(old(w.s))
  {
    w.Take(Step.Leave);
  }

  method CrashNow(w: World)
    requires w.Valid()
    modifies w`s, w`trace
    ensures w.Valid() && old(w.trace) <= w.trace
    ensures w.s == old(w.s).(todo := [], recovery := Idle)
  {
    w.Take(Step.Crash(Recovery));
  }

  /** XREADGROUP with id "0": this consumer's own pending entries, lowest first. */
  method XReadPending(w: World)
    requires w.Valid() && w.s.recovery == Idle
    modifies w`s, w`trace
    ensures w.Valid() && old(w.trace) <= w.trace
    ensures w.s == old(w.s).(todo := w.s.todo, recovery := w.s.recovery)
    ensures w.s.recovery == if w.s.todo == [] then Idle else Got
    ensures w.s.todo == [] ==> w.s.pending == {}
    ensures FirstOfPending(w.cfg, w.s)
    ensures Backlog(w.cfg, w.s) == Backlog(w.cfg, old(w.s)) && Undelivered(w.s) == Undelivered(old(w.s))
    ensures Unsettled(w.cfg, w.s) == Unsettled(w.cfg, old(w.s))
    ensures !Stuck(w.cfg, old(w.s)) ==> AllHandleable(w.cfg, w.s)
  {
    ghost var s := w.s;
    HandFacts(w.cfg, w.seed, w.trace);
    LowestIs(s.pending, 0, s.cursor, w.cfg.batchSize);
    assert GroupInv(w.cfg, s) by { Reachable(w.cfg, w.seed, w.trace); }
    ReadPendingTakes(w.cfg, s);
    w.Take(Step.ReadPending);
    assert Unsettled(w.cfg, w.s) == Unsettled(w.cfg, s) && Strangers(w.cfg, w.s) == Strangers(w.cfg, s);
    if !Stuck(w.cfg, s) { ReadHandleable(w.cfg, w.seed, w.trace, s); }
  }

  lemma ReadPendingTakes(cfg: Config, s: System)
    requires s.recovery == Idle && s.todo == [] && PendingBelow(s) && forall i :: i in s.pending ==> i < s.cursor
    ensures FirstOfPending(cfg, Apply(cfg, s, Step.ReadPending))
  {
    var t, batch := Apply(cfg, s, Step.ReadPending), Lowest(s.pending, 0, s.cursor, cfg.batchSize);
    LowestIs(s.pending, 0, s.cursor, cfg.batchSize);
    LowestFirst(s.pending, 0, s.cursor, cfg.batchSize);
    hide Lowest;
    if batch != [] {
      assert t == s.(todo := FetchAll(s, batch), recovery := Got);
      assert forall k :: 0 <= k < |batch| ==> t.todo[k].index == batch[k] && InTodo(t, batch[k]);
    }
  }

  lemma ReadHandleable(cfg: Config, seed: Seed, steps: seq<Step>, s: System)
    requires var t := Run(cfg, seed, steps); t == s.(todo := t.todo, recovery := t.recovery)
    requires !Stuck(cfg, s)
    ensures AllHandleable(cfg, Run(cfg, seed, steps))
  {
    var t := Run(cfg, seed, steps);
    assert TodoInv(cfg, t) by { Reachable(cfg, seed, steps); }
    hide Run, Fits;
    forall k | 0 <= k < |t.todo| ensures Handleable(cfg, t, t.todo[k].message) {
      assert EntryInv(t, t.todo[k]);
      var i := t.todo[k].index;
      assert i !in Unsettled(cfg, s) || !Unfit(s.buffer.stream[i]);
    }
  }

  /** XREADGROUP with id ">": entries not delivered to the group before. */
  method XReadNew(w: World)
    requires w.Valid() && w.s.recovery == Idle
    modifies w`s, w`trace
    ensures w.Valid() && old(w.trace) <= w.trace
    ensures w.s.recovery == if w.s.todo == [] then Idle else Got
    ensures w.s.todo == [] ==> w.s == old(w.s) && Undelivered(w.s) == 0
    ensures w.s.todo != [] ==>
      Backlog(w.cfg, w.s) + 4 * Undelivered(w.s) < Backlog(w.cfg, old(w.s)) + 4 * Undelivered(old(w.s))
    ensures w.s.todo != [] ==> old(w.s).cursor < w.s.cursor
    ensures w.s.todo != [] ==> NextInStream(w.cfg, w.s, Max(old(w.s).cursor, old(w.s).trimmed))
    ensures |Left(w.cfg, w.s)| <= |Left(w.cfg, old(w.s))|
    ensures w.s.buffer == old(w.s).buffer && w.s.db == old(w.s).db && old(w.s).cursor <= w.s.cursor
  {
    hide Run, Apply, Unsettled, Left, Settled;
    ghost var s := w.s;
    HandFacts(w.cfg, w.seed, w.trace);
    assert BufferInv(s) && GroupInv(w.cfg, s) by { Reachable(w.cfg, w.seed, w.trace); }
    ReadNewIs(w.cfg, s);
    w.Take(Step.ReadNew);
    if Max(s.cursor, s.trimmed) < NewEnd(s, w.cfg.batchSize) { ReadNewEffect(w.cfg, s); }
  }

  lemma ReadNewIs(cfg: Config, s: System)
    requires s.recovery == Idle && s.todo == [] && s.cursor <= |s.buffer.stream| && s.trimmed <= |s.buffer.stream|
    ensures var start, end, t := Max(s.cursor, s.trimmed), NewEnd(s, cfg.batchSize), Apply(cfg, s, Step.ReadNew);
      if start >= end then t == s && Undelivered(s) == 0
      else
        && t.todo != [] && t.recovery == Got && t.cursor == end > s.cursor && t.buffer == s.buffer && t.db == s.db
        && NextInStream(cfg, t, start)
  {
    hide Between;
  }

  lemma ReadNewEffect(cfg: Config, s: System)
    requires s.recovery == Idle && s.todo == [] && s.cursor <= |s.buffer.stream| && s.trimmed <= |s.buffer.stream|
    requires Max(s.cursor, s.trimmed) < NewEnd(s, cfg.batchSize) && PendingBelow(s)
    ensures var t := Apply(cfg, s, Step.ReadNew);
      && Backlog(cfg, t) + 4 * Undelivered(t) < Backlog(cfg, s) + 4 * Undelivered(s)
      && |Left(cfg, t)| <= |Left(cfg, s)|
  {
    var t := Apply(cfg, s, Step.ReadNew);
    var start, end := Max(s.cursor, s.trimmed), NewEnd(s, cfg.batchSize);
    var added := Between(start, end);
    assert t == s.(todo := FetchAll(s, Range(start, end)), recovery := Got, cursor := end,
                   pending := s.pending + added);
    hide Apply, Between, NewEnd, Settled;
    UnsettledAdded(cfg, s, t, added);
    SubsetSize(Unsettled(cfg, t), Unsettled(cfg, s) + added);
    SubsetSize(Strangers(cfg, t), Strangers(cfg, s) + added);
    hide Unsettled, Strangers;
    forall i | i in added ensures InTodo(t, i) {
      assert t.todo[i - start].index == i;
    }
    LeftShrinks(cfg, s, t, added);
  }

  lemma UnsettledAdded(cfg: Config, s: System, t: System, added: set<nat>)
    requires t.pending == s.pending + added && t.buffer == s.buffer && t.db == s.db
    ensures Unsettled(cfg, t) <= Unsettled(cfg, s) + added && Strangers(cfg, t) <= Strangers(cfg, s) + added
  {
  }

  lemma LeftShrinks(cfg: Config, s: System, t: System, added: set<nat>)
    requires t.pending == s.pending + added && t.buffer == s.buffer && t.db == s.db && t.trimmed == s.trimmed
    requires s.todo == [] && forall i :: i in added ==> InTodo(t, i)
    ensures |Left(cfg, t)| <= |Left(cfg, s)|
  {
    hide Unfit;
    SubsetSize(Left(cfg, t), Left(cfg, s));
  }

  // ----- progress -----

  lemma AckProgress(cfg: Config, s: System, t: System)
    requires s.todo != [] && s.todo[0].index in s.pending && PendingBelow(s)
    requires t == NextEntry(s).(pending := s.pending - {s.todo[0].index})
    ensures Backlog(cfg, t) < Backlog(cfg, s) && PendingBelow(t) && Undelivered(t) == Undelivered(s)
    ensures |Left(cfg, t)| <= |Left(cfg, s)| && Unsettled(cfg, t) <= Unsettled(cfg, s)
  {
    TodoNext(s, t);
    hide Settled, Unfit;
    SubsetSize(Unsettled(cfg, t), Unsettled(cfg, s));
    SubsetSize(Strangers(cfg, t), Strangers(cfg, s));
    SubsetSize(Left(cfg, t), Left(cfg, s));
  }

  lemma TodoNext(s: System, t: System)
    requires s.todo != [] && t.todo == s.todo[1..]
    ensures forall i :: InTodo(s, i) && i != s.todo[0].index ==> InTodo(t, i)
  {
    forall i | InTodo(s, i) && i != s.todo[0].index ensures InTodo(t, i) {
      var k :| 0 <= k < |s.todo| && s.todo[k].index == i;
      assert t.todo[k - 1].index == i;
    }
  }

  /** A save that lost the race was overtaken by one that succeeded. */
  lemma RaceProgress(cfg: Config, s: System, t: System)
    requires Alike(Recovery, s, t) && PendingBelow(s) && s.todo != [] && EntryInv(s, s.todo[0])
    requires s.todo[0].message.Valid?
    requires !Settled(cfg, s, s.todo[0].message) && Settled(cfg, t, s.todo[0].message)
    ensures Backlog(cfg, t) < Backlog(cfg, s)
    ensures s.todo[0].index !in Unsettled(cfg, t)
  {
    UnsettledShrinks(cfg, s, t);
    var i := s.todo[0].index;
    assert i in Unsettled(cfg, s) && i !in Unsettled(cfg, t);
    hide Unsettled, Strangers;
    SubsetSize(Unsettled(cfg, t), Unsettled(cfg, s) - {i});
    SubsetSize(Strangers(cfg, t), Strangers(cfg, s));
  }

  /** A save that was overtaken will find its employee, or the default department, there. */
  lemma OvertakeProgress(cfg: Config, s: System, t: System)
    requires Alike(Recovery, s, t) && PendingBelow(s) && s.todo != [] && EntryInv(s, s.todo[0])
    requires s.todo[0].message.Valid? && !Settled(cfg, s, s.todo[0].message)
    requires Overtaken(s.db, t.db, s.todo[0].message.event)
    ensures Backlog(cfg, t) < Backlog(cfg, s)
  {
    UnsettledShrinks(cfg, s, t);
    var i := s.todo[0].index;
    assert s.buffer.stream[i] == s.todo[0].message && i in Strangers(cfg, s);
    if s.todo[0].message.event.employeeId in t.db.employees { assert i !in Strangers(cfg, t); }
    hide Unsettled, Strangers;
    SubsetSize(Unsettled(cfg, t), Unsettled(cfg, s));
    SubsetSize(Strangers(cfg, t), Strangers(cfg, s));
    if i !in Strangers(cfg, t) { SubsetSize(Strangers(cfg, t), Strangers(cfg, s) - {i}); }
  }

  /** Leaving an entry pending costs at most that entry, and nothing if it is settled by
      now or can never be. */
  lemma LeaveKeeps(cfg: Config, s: System, t: System)
    requires s.todo != [] && PendingBelow(s) && t == NextEntry(s)
    ensures Backlog(cfg, t) == Backlog(cfg, s) && PendingBelow(t) && Undelivered(t) == Undelivered(s)
    ensures Unsettled(cfg, t) == Unsettled(cfg, s)
    ensures |Left(cfg, t)| <= |Left(cfg, s)| + 1
    ensures var i := s.todo[0].index;
      i !in Unsettled(cfg, s) || (i < |s.buffer.stream| && Unfit(s.buffer.stream[i])) ==>
        |Left(cfg, t)| <= |Left(cfg, s)|
  {
    assert Unsettled(cfg, t) == Unsettled(cfg, s) && Strangers(cfg, t) == Strangers(cfg, s);
    TodoNext(s, t);
    hide Settled, Unfit;
    var i := s.todo[0].index;
    SubsetSize(Left(cfg, t), Left(cfg, s) + {i});
    if i !in Left(cfg, t) { SubsetSize(Left(cfg, t), Left(cfg, s)); }
  }

  lemma CrashKeepsWork(cfg: Config, s: System, t: System)
    requires t == s.(todo := [], recovery := Idle)
    ensures Backlog(cfg, t) == Backlog(cfg, s) && Undelivered(t) == Undelivered(s)
        && (PendingBelow(s) ==> PendingBelow(t))
    ensures Unsettled(cfg, t) == Unsettled(cfg, s)
  {
    assert Unsettled(cfg, t) == Unsettled(cfg, s) && Strangers(cfg, t) == Strangers(cfg, s);
  }

  // ----- where the service ends up -----

  ghost predicate IsEntry(s: System, i: nat, id: string) {
    i < |s.buffer.stream| && s.buffer.stream[i].Valid? && s.buffer.stream[i].event.requestId == id
  }

  ghost predicate UnsettledEntry(cfg: Config, s: System, id: string) {
    exists i: nat :: IsEntry(s, i, id) && i in Unsettled(cfg, s)
  }

  ghost predicate TrimmedEntry(s: System, id: string) {
    exists i: nat :: IsEntry(s, i, id) && i < s.trimmed
  }

  ghost predicate UnfitEntry(s: System, id: string) {
    exists i: nat :: IsEntry(s, i, id) && i in s.pending && Unfit(s.buffer.stream[i])
  }

  /** In the stream, but neither stored nor skip-listed. */
  ghost predicate Missing(cfg: Config, s: System, id: string) {
    id in StreamIds(s.buffer.stream) && !SettledId(cfg, s, id)
  }

  /** What is missing from the table is exactly what is pending unsettled, or was trimmed. */
  ghost predicate MissingIsPending(cfg: Config, s: System) {
    forall id :: Missing(cfg, s, id) <==> UnsettledEntry(cfg, s, id) || (TrimmedEntry(s, id) && !SettledId(cfg, s, id))
  }

  /** Every id whose append succeeded is stored or skip-listed, or was trimmed away, or
      belongs to a pending event that fits no row. */
  ghost predicate NothingWaiting(cfg: Config, s: System) {
    forall id :: id in s.buffered ==> SettledId(cfg, s, id) || TrimmedEntry(s, id) || UnfitEntry(s, id)
  }

  lemma MissingEntry(cfg: Config, s: System, id: string) returns (i: nat)
    requires GroupInv(cfg, s) && Undelivered(s) == 0 && Missing(cfg, s, id)
    ensures IsEntry(s, i, id) && (i in Unsettled(cfg, s) || i < s.trimmed)
  {
    var m :| m in s.buffer.stream && m.Valid? && m.event.requestId == id;
    i :| 0 <= i < |s.buffer.stream| && s.buffer.stream[i] == m;
    hide SettledId;
    assert !Settled(cfg, s, s.buffer.stream[i]);
  }

  lemma EntryMissing(cfg: Config, s: System, id: string, i: nat)
    requires IsEntry(s, i, id)
    ensures id in StreamIds(s.buffer.stream)
    ensures i in Unsettled(cfg, s) ==> !SettledId(cfg, s, id)
  {
    assert s.buffer.stream[i] in s.buffer.stream;
  }

  /** With empty hands and nothing undelivered, what is missing is what is pending. */
  lemma IdleLeavesPending(cfg: Config, seed: Seed, steps: seq<Step>)
    requires var s := Run(cfg, seed, steps); s.todo == [] && Undelivered(s) == 0
    ensures MissingIsPending(cfg, Run(cfg, seed, steps))
  {
    var s := Run(cfg, seed, steps);
    assert GroupInv(cfg, s) by { Reachable(cfg, seed, steps); }
    hide Run, Unsettled, SettledId, IsEntry, GroupInv, Undelivered;
    forall id ensures Missing(cfg, s, id) <==>
      UnsettledEntry(cfg, s, id) || (TrimmedEntry(s, id) && !SettledId(cfg, s, id)) {
      if Missing(cfg, s, id) { var _ := MissingEntry(cfg, s, id); }
      if i: nat :| IsEntry(s, i, id) && (i in Unsettled(cfg, s) || i < s.trimmed) { EntryMissing(cfg, s, id, i); }
      if i: nat :| IsEntry(s, i, id) && i in Unsettled(cfg, s) { EntryMissing(cfg, s, id, i); }
    }
  }

  /** When nothing was left behind, the service has converged. */
  lemma Converged(cfg: Config, seed: Seed, steps: seq<Step>)
    requires var s := Run(cfg, seed, steps);
      s.todo == [] && Undelivered(s) == 0 && Left(cfg, s) == {}
    ensures NothingWaiting(cfg, Run(cfg, seed, steps))
  {
    var s := Run(cfg, seed, steps);
    assert GroupInv(cfg, s) && BufferInv(s) by { Reachable(cfg, seed, steps); }
    hide Run, GroupInv, Undelivered, SettledId, Settled;
    forall id | id in s.buffered && !SettledId(cfg, s, id) ensures TrimmedEntry(s, id) || UnfitEntry(s, id) {
      var i := MissingEntry(cfg, s, id);
      if i >= s.trimmed { assert i !in Left(cfg, s) && !InTodo(s, i); }
    }
  }

  /** Then every buffered id has its row, unless a configured prefix begins its employee's
      id, its entry was trimmed, or its pending event fits no row. */
  lemma ConvergedIsStored(cfg: Config, seed: Seed, steps: seq<Step>, id: string)
    requires var s := Run(cfg, seed, steps);
      && s.todo == [] && Undelivered(s) == 0 && Left(cfg, s) == {} && id in s.buffered
      && forall p :: p in cfg.skipPrefixes ==> !(p <= EmployeeOf(id))
    ensures var s := Run(cfg, seed, steps);
      || (exists row :: row in s.db.events && row.requestId == id)
      || (exists i: nat :: i < |s.buffer.stream| && s.buffer.stream[i].Valid?
            && s.buffer.stream[i].event.requestId == id
            && (i < s.trimmed || (i in s.pending && !Fits(s.buffer.stream[i].event))))
  {
    Converged(cfg, seed, steps);
    SkippedExactly(cfg, EmployeeOf(id));
    hide Run, Undelivered, Left;
  }

  /** With one event in the stream and nothing else done. */
  ghost predicate OneBuffered(cfg: Config, s: System, e: AccessEvent) {
    && s.buffer.stream == [Valid(e)] && s.buffered == {e.requestId} && s.trimmed == 0
    && s.cursor == 0 && s.pending == {} && s.todo == [] && s.recovery == Idle
    && s.db.events == [] && !Skipped(cfg, EmployeeOf(e.requestId)) && Fits(e)
  }

  /** The entry is read, its marker not found, its save fails, it is left. */
  function FailedSave(cfg: Config, s: System): System {
    Apply(cfg, Apply(cfg, Apply(cfg, Apply(cfg, s, ReadNew), CheckMarker(false)), Raise(Recovery)), Leave)
  }

  lemma FailedSaveLeaves(cfg: Config, s: System, e: AccessEvent)
    requires OneBuffered(cfg, s, e)
    ensures FailedSave(cfg, s) == s.(cursor := 1, pending := {0})
  {
    hide Skipped, EmployeeOf, Fits, Apply;
    var t := OneRead(cfg, s, e);
    OneLeft(cfg, s, t, e);
  }

  lemma OneRead(cfg: Config, s: System, e: AccessEvent) returns (t: System)
    requires OneBuffered(cfg, s, e)
    ensures t == Apply(cfg, s, ReadNew)
        == s.(todo := [Entry(0, Valid(e))], recovery := Got, cursor := 1, pending := {0})
  {
    hide Skipped, EmployeeOf, Fits;
    assert Between(0, 1) == {0};
    t := Apply(cfg, s, ReadNew);
    assert t.todo == [Entry(0, Valid(e))];
  }

  lemma OneLeft(cfg: Config, s: System, t: System, e: AccessEvent)
    requires t == s.(todo := [Entry(0, Valid(e))], recovery := Got, cursor := 1, pending := {0})
    requires s.todo == [] && s.recovery == Idle
    ensures Apply(cfg, Apply(cfg, Apply(cfg, t, CheckMarker(false)), Raise(Recovery)), Leave)
        == s.(cursor := 1, pending := {0})
  {
    hide Apply;
    SavingFails(cfg, t);
    LeavingOne(cfg, t.(recovery := Failed));
  }

  lemma SavingFails(cfg: Config, t: System)
    requires t.recovery == Got && t.todo != []
    ensures Apply(cfg, Apply(cfg, t, CheckMarker(false)), Raise(Recovery)) == t.(recovery := Failed)
  {
    assert Apply(cfg, t, CheckMarker(false)) == t.(recovery := Looking);
  }

  lemma LeavingOne(cfg: Config, t: System)
    requires t.recovery == Failed && |t.todo| == 1
    ensures Apply(cfg, t, Leave) == t.(todo := [], recovery := Idle)
  {
  }

  lemma LeftBehind(cfg: Config, s: System, e: AccessEvent)
    requires OneBuffered(cfg, s.(cursor := 0, pending := {}), e) && s.cursor == 1 && s.pending == {0}
    ensures Undelivered(s) == 0 && Apply(cfg, s, ReadNew) == s && Left(cfg, s) == {0} && !NothingWaiting(cfg, s)
  {
    hide Skipped, EmployeeOf, Fits;
    assert e.requestId in s.buffered && !SettledId(cfg, s, e.requestId);
    assert Left(cfg, s) == {0};
  }

  /** One save that fails while new entries are read: the event stays pending although
      nothing fails any more. Reading on finds nothing, and nothing is drained. */
  lemma OneFailedSaveStays(cfg: Config, seed: Seed, e: string, gate: string, nanos: nat, now: nat)
    requires !Skipped(cfg, e) && ColumnHolds(e, 64) && ColumnHolds(gate, 64)
    requires ColumnHolds(NewRequestId(e, nanos), 128)
    ensures var steps := [Swipe(e, gate, "IN", nanos, 0, now, true), Append(0, true),
                          ReadNew, CheckMarker(false), Raise(Recovery), Leave];
      var s := Run(cfg, seed, steps);
      && s.todo == [] && s.recovery == Idle && Undelivered(s) == 0 && Apply(cfg, s, ReadNew) == s
      && Left(cfg, s) == {0} && !NothingWaiting(cfg, s)
  {
    hide Skipped, NewRequestId, EmployeeOf, Left, NothingWaiting, Undelivered;
    var first, second := Swipe(e, gate, "IN", nanos, 0, now, true), Append(0, true);
    var s1 := Apply(cfg, Start(seed), first);
    var s2 := Apply(cfg, s1, second);
    RequestIdNamesEmployee(e, nanos);
    assert OneBuffered(cfg, s2, s1.issued[0]);
    FailedSaveLeaves(cfg, s2, s1.issued[0]);
    var s6 := s2.(cursor := 1, pending := {0});
    assert s6.(cursor := 0, pending := {}) == s2;
    LeftBehind(cfg, s6, s1.issued[0]);
    SixSteps(cfg, seed, first, second);
  }

  lemma SixSteps(cfg: Config, seed: Seed, first: Step, second: Step)
    ensures Run(cfg, seed, [first, second, ReadNew, CheckMarker(false), Raise(Recovery), Leave])
         == FailedSave(cfg, Apply(cfg, Apply(cfg, Start(seed), first), second))
  {
    hide Apply, Start;
    var steps := [first, second, ReadNew, CheckMarker(false), Raise(Recovery), Leave];
    RunNext(cfg, seed, [], first);
    RunNext(cfg, seed, [first], second);
    RunNext(cfg, seed, [first, second], ReadNew);
    RunNext(cfg, seed, [first, second, ReadNew], CheckMarker(false));
    RunNext(cfg, seed, [first, second, ReadNew, CheckMarker(false)], Raise(Recovery));
    RunNext(cfg, seed, [first, second, ReadNew, CheckMarker(false), Raise(Recovery)], Leave);
    assert [] + [first] == [first];
    assert [first] + [second] == [first, second];
    assert [first, second] + [ReadNew] == [first, second, ReadNew];
    assert [first, second, ReadNew] + [CheckMarker(false)] == [first, second, ReadNew, CheckMarker(false)];
    assert [first, second, ReadNew, CheckMarker(false)] + [Raise(Recovery)] == steps[..5];
    assert steps[..5] + [Leave] == steps;
    assert [first, second, ReadNew, CheckMarker(false), Raise(Recovery)] == steps[..5];
  }

  // ----- the service -----

  datatype Ending = Crashed | Draining | Idling

  class Service {
    var processed: nat
    var inserted: nat
    var duplicates: nat
    var failed: nat

    predicate Counted()
      reads this
    {
      processed == inserted + duplicates
    }

    constructor ()
      ensures Counted() && processed == failed == 0
    {
      processed, inserted, duplicates, failed := 0, 0, 0, 0;
    }

    /** `_handle_message`: true when the entry may be acknowledged. */
    method HandleMessage(w: World, quiet: bool) returns (handled: bool)
      requires Counted() && w.Valid() && w.s.recovery == Looking && w.s.todo != []
      modifies this, w`s, w`trace, w`outages, w`overtakes
      ensures Counted() && w.Valid() && old(w.trace) <= w.trace && w.outages <= old(w.outages)
      ensures Alike(Recovery, old(w.s), w.s) && (quiet ==> w.s.buffer.stream == old(w.s).buffer.stream)
      ensures w.s.recovery == if handled then Kept else Failed
      ensures var m := old(w.s).todo[0].message;
        && (handled ==> Settled(w.cfg, w.s, m))
        && (!handled && w.outages == old(w.outages) ==>
              && m.Valid? && !Settled(w.cfg, old(w.s), m)
              && (Unfit(m) || Settled(w.cfg, w.s, m)
                  || (w.overtakes > old(w.overtakes) && Overtaken(old(w.s).db, w.s.db, m.event))))
        && inserted == old(inserted) + (if handled && m.Valid? && !Settled(w.cfg, old(w.s), m) then 1 else 0)
        && duplicates == old(duplicates) + (if handled && m.Valid? && Settled(w.cfg, old(w.s), m) then 1 else 0)
        && failed == old(failed) + if handled && m.Valid? then 0 else 1
      ensures Overtakes(old(w.s), old(w.overtakes), w.s, w.overtakes)
    {
      hide Run, Settled, Alike, Overtaken, Known;
      AlikeHand(w.s);
      if w.s.todo[0].message.Malformed? {
        MalformedSettled(w.cfg, w.s.todo[0].message);
        ghost var poisoned := w.s;
        Poison(w);
        KnownStays(Recovery, poisoned, w.s);
        failed := failed + 1;
        return true;
      }
      ghost var before, m := w.s, w.s.todo[0].message;
      var r := SaveAccessEvent(w, Recovery, quiet);
      KnownGrows(Recovery, before, w.s, m.event);
      KnownStays(Recovery, before, w.s);
      match r
      case Raised =>
        failed := failed + 1;
        handled := false;
      case Stored =>
        processed, inserted := processed + 1, inserted + 1;
        handled := true;
      case AlreadyHandled =>
        processed, duplicates := processed + 1, duplicates + 1;
        handled := true;
    }

    /** `_process_entry`: wait, skip if Kafka marked it, otherwise save. The marker is looked
        up at `at`; if it is live then, nothing more is done, the entry may be acknowledged. */
    method ProcessEntry(w: World, quiet: bool) returns (shouldAck: bool, ghost at: nat)
      requires Counted() && w.Valid() && w.s.recovery == Got && w.s.todo != []
      modifies this, w`s, w`trace, w`outages, w`overtakes
      ensures Counted() && w.Valid() && old(w.trace) <= w.trace && w.outages <= old(w.outages)
      ensures Alike(Recovery, old(w.s), w.s) && (quiet ==> w.s.buffer.stream == old(w.s).buffer.stream)
      ensures w.s.recovery == if shouldAck then Kept else Failed
      ensures |old(w.trace)| <= at < |w.trace| && w.trace[at].CheckMarker?
      ensures !w.trace[at].answered ==> w.outages < old(w.outages)
      ensures var id := IdOf(old(w.s).todo[0].message);
        w.trace[at].answered && id != "" && id in Run(w.cfg, w.seed, w.trace[..at]).markers ==>
          shouldAck && w.trace == w.trace[..at + 1]
      ensures var m := old(w.s).todo[0].message;
        && (shouldAck ==> Settled(w.cfg, w.s, m))
        && (!shouldAck && w.outages == old(w.outages) ==>
              && m.Valid? && !Settled(w.cfg, old(w.s), m)
              && (Unfit(m) || Settled(w.cfg, w.s, m)
                  || (w.overtakes > old(w.overtakes) && Overtaken(old(w.s).db, w.s.db, m.event))))
      ensures Overtakes(old(w.s), old(w.overtakes), w.s, w.overtakes)
    {
      hide Run, Settled, Alike, Unfit, Overtaken, Known;
      ghost var s0, m := w.s, w.s.todo[0].message;
      AlikeHand(s0);
      w.Others(Recovery, quiet);  // the grace period
      ghost var s1 := w.s;
      ghost var upTo := w.trace;
      at := |upTo|;
      var lost := w.Fails();      // a failed lookup falls through to the save
      MarkerLookup(w, !lost);
      ghost var s2, looked := w.s, w.trace;
      assert looked[..at] == upTo && looked == looked[..at + 1];
      AlikeTrans(Recovery, s0, s1, s2);
      if w.s.recovery == Kept {
        KnownStays(Recovery, s0, s2);
        return true, at;
      }
      w.Others(Recovery, quiet);
      ghost var s3 := w.s;
      AlikeTrans(Recovery, s0, s2, s3);
      KnownStays(Recovery, s0, s3);
      shouldAck := HandleMessage(w, quiet);
      assert w.trace[..at] == upTo && w.trace[at] == looked[at];
      AlikeTrans(Recovery, s0, s3, w.s);
      if m.Valid? { OvertakenEarlier(Recovery, s0, s3, w.s, m.event); }
      if Settled(w.cfg, s0, m) { SettledStays(w.cfg, Recovery, s0, s3, m); }
    }

    /** One round of the batch loop: process the entry in hand, acknowledge it or leave
        it pending. Every round makes progress or uses up an outage, unless the event
        fits no row. An XACK that raises may have been carried out. */
    method ProcessNext(w: World, quiet: bool, ghost bound: int) returns (crashed: bool)
      requires Counted() && w.Valid() && LeftWithin(w.cfg, w.s, w.outages, w.overtakes, bound)
      requires w.s.recovery == Got && w.s.todo != [] && PendingBelow(w.s)
      modifies this, w`s, w`trace, w`outages, w`overtakes
      ensures Counted() && w.Valid() && old(w.trace) <= w.trace && w.outages <= old(w.outages)
      ensures w.s.recovery == (if w.s.todo == [] then Idle else Got) && PendingBelow(w.s)
      ensures w.s.todo == if crashed then [] else old(w.s).todo[1..]
      ensures w.s.cursor == old(w.s).cursor && old(w.s).db.events <= w.s.db.events
      ensures old(w.s).buffer.stream <= w.s.buffer.stream && Unsettled(w.cfg, w.s) <= Unsettled(w.cfg, old(w.s))
      ensures quiet ==> w.s.buffer.stream == old(w.s).buffer.stream && Undelivered(w.s) <= Undelivered(old(w.s))
      ensures Backlog(w.cfg, w.s) + w.outages <= Backlog(w.cfg, old(w.s)) + old(w.outages)
      ensures Handleable(w.cfg, old(w.s), old(w.s).todo[0].message) ==>
        Backlog(w.cfg, w.s) + w.outages < Backlog(w.cfg, old(w.s)) + old(w.outages)
      ensures crashed ==> w.outages < old(w.outages)
      ensures !crashed ==> LeftWithin(w.cfg, w.s, w.outages, w.overtakes, bound)
      ensures Overtakes(old(w.s), old(w.overtakes), w.s, w.overtakes)
    {
      hide Run, Settled, Backlog, Undelivered, Unsettled, Left, PendingBelow, Alike, Unfit, Overtaken, Known;
      ghost var a := w.s;
      HandFacts(w.cfg, w.seed, w.trace);
      EntryFacts(a);
      AlikeHand(a);
      var shouldAck, _ := ProcessEntry(w, quiet);
      ghost var b := w.s;
      BacklogStays(w.cfg, a, b);
      crashed := false;
      if shouldAck {
        crashed := w.Fails();
        var carriedOut: bool := *;
        if !crashed || carriedOut {
          XAck(w);
          AckProgress(w.cfg, b, w.s);
        }
        if crashed {
          ghost var c := w.s;
          CrashNow(w);
          CrashKeepsWork(w.cfg, c, w.s);
        }
      } else {
        KeepPending(w);
        LeaveKeeps(w.cfg, b, w.s);
        if w.outages == old(w.outages) && !Unfit(a.todo[0].message) {
          if Settled(w.cfg, b, a.todo[0].message) { RaceProgress(w.cfg, a, b); } else { OvertakeProgress(w.cfg, a, b); }
        }
      }
    }

    /** The batch loop of `_read_and_process`; true when an acknowledgement raised. */
    method ProcessBatch(w: World, quiet: bool, ghost bound: int) returns (crashed: bool)
      requires Counted() && w.Valid() && LeftWithin(w.cfg, w.s, w.outages, w.overtakes, bound)
      requires w.s.recovery == if w.s.todo == [] then Idle else Got
      modifies this, w`s, w`trace, w`outages, w`overtakes
      ensures Counted() && w.Valid() && old(w.trace) <= w.trace && w.outages <= old(w.outages)
      ensures w.s.todo == [] && w.s.recovery == Idle
      ensures w.s.cursor == old(w.s).cursor && old(w.s).db.events <= w.s.db.events
      ensures old(w.s).buffer.stream <= w.s.buffer.stream && Unsettled(w.cfg, w.s) <= Unsettled(w.cfg, old(w.s))
      ensures quiet ==> w.s.buffer.stream == old(w.s).buffer.stream && Undelivered(w.s) <= Undelivered(old(w.s))
      ensures Backlog(w.cfg, w.s) + w.outages <= Backlog(w.cfg, old(w.s)) + old(w.outages)
      ensures old(w.s).todo != [] && AllHandleable(w.cfg, old(w.s)) ==>
        Backlog(w.cfg, w.s) + w.outages < Backlog(w.cfg, old(w.s)) + old(w.outages)
      ensures crashed ==> w.outages < old(w.outages)
      ensures !crashed ==> LeftWithin(w.cfg, w.s, w.outages, w.overtakes, bound)
      ensures Overtakes(old(w.s), old(w.overtakes), w.s, w.overtakes)
    {
      hide Run, Backlog, Undelivered, Unsettled, Left, Handleable, Known;
      crashed := false;
      HandFacts(w.cfg, w.seed, w.trace);
      ghost var first, work := w.s, Backlog(w.cfg, w.s) + w.outages;
      while w.s.todo != []
        invariant Counted() && w.Valid() && old(w.trace) <= w.trace && w.outages <= old(w.outages)
        invariant w.s.recovery == (if w.s.todo == [] then Idle else Got) && PendingBelow(w.s)
        invariant w.s.cursor == first.cursor && first.db.events <= w.s.db.events
        invariant first.buffer.stream <= w.s.buffer.stream && Unsettled(w.cfg, w.s) <= Unsettled(w.cfg, first)
        invariant quiet ==> w.s.buffer.stream == first.buffer.stream && Undelivered(w.s) <= Undelivered(first)
        invariant Backlog(w.cfg, w.s) + w.outages <= work
        invariant AllHandleable(w.cfg, first) ==> AllHandleable(w.cfg, w.s)
        invariant w.s.todo == first.todo || (AllHandleable(w.cfg, first) ==> Backlog(w.cfg, w.s) + w.outages < work)
        invariant crashed ==> w.s.todo == [] && w.outages < old(w.outages)
        invariant Overtakes(first, old(w.overtakes), w.s, w.overtakes)
        invariant !crashed ==> LeftWithin(w.cfg, w.s, w.outages, w.overtakes, bound)
        decreases |w.s.todo|
      {
        ghost var before := w.s;
        crashed := ProcessNext(w, quiet, bound);
        HandleableStays(w.cfg, before, w.s);
      }
    }

    /** `_read_and_process`: one XREADGROUP and its batch. A read that raises may have been
        carried out: its entries are pending all the same. */
    method ReadAndProcess(w: World, fromPending: bool, quiet: bool, ghost bound: int)
      returns (processedAny: bool, crashed: bool)
      requires Counted() && w.Valid() && w.s.todo == [] && w.s.recovery == Idle
      requires !fromPending ==> LeftWithin(w.cfg, w.s, w.outages, w.overtakes, bound)
      modifies this, w`s, w`trace, w`outages, w`overtakes
      ensures Counted() && w.Valid() && old(w.trace) <= w.trace && w.outages <= old(w.outages)
      ensures w.s.todo == [] && w.s.recovery == Idle
      ensures old(w.s).cursor <= w.s.cursor && old(w.s).db.events <= w.s.db.events
      ensures old(w.s).buffer.stream <= w.s.buffer.stream
      ensures fromPending ==> w.s.cursor == old(w.s).cursor && Unsettled(w.cfg, w.s) <= Unsettled(w.cfg, old(w.s))
      ensures quiet ==> w.s.buffer.stream == old(w.s).buffer.stream
      ensures crashed ==> w.outages < old(w.outages)
      ensures !crashed && !fromPending ==> LeftWithin(w.cfg, w.s, w.outages, w.overtakes, bound)
      // nothing read: nothing was there
      ensures !processedAny && !crashed ==>
        w.s == old(w.s) && (if fromPending then w.s.pending == {} else Undelivered(w.s) == 0)
      // anything else is progress: new entries are delivered, or the backlog falls
      ensures processedAny && !fromPending ==> old(w.s).cursor < w.s.cursor
      ensures (processedAny || crashed) && fromPending && !Stuck(w.cfg, old(w.s)) ==>
        Backlog(w.cfg, w.s) + w.outages < Backlog(w.cfg, old(w.s)) + old(w.outages)
      ensures quiet && fromPending ==> Undelivered(w.s) <= Undelivered(old(w.s))
      ensures (processedAny || crashed) && quiet && !fromPending ==>
        Backlog(w.cfg, w.s) + w.outages + 4 * Undelivered(w.s)
          < Backlog(w.cfg, old(w.s)) + old(w.outages) + 4 * Undelivered(old(w.s))
      ensures Overtakes(old(w.s), old(w.overtakes), w.s, w.overtakes)
    {
      hide Backlog, Undelivered, Unsettled, Left, Run, AllHandleable, Stuck, Known;
      var raised := w.Fails();
      var carriedOut: bool := *;
      if raised && !carriedOut {
        return false, true;
      }
      if fromPending { XReadPending(w); } else { XReadNew(w); }
      if raised {
        ghost var s := w.s;
        CrashNow(w);
        CrashKeepsWork(w.cfg, s, w.s);
        return false, true;
      }
      if w.s.todo == [] {
        return false, false;
      }
      processedAny := true;
      crashed := ProcessBatch(w, quiet, if fromPending then |Left(w.cfg, w.s)| + w.outages - w.overtakes else bound);
    }

    /** `_drain_pending`: keep reading this consumer's pending entries until none is left.
        It ends against any interference, failures being finite, unless a pending event can
        never be saved; with one of those it does not, and is watched for a while. */
    method DrainPending(w: World, quiet: bool, watch: nat) returns (end: Ending)
      requires Counted() && w.Valid() && w.s.todo == [] && w.s.recovery == Idle
      modifies this, w`s, w`trace, w`outages, w`overtakes
      ensures Counted() && w.Valid() && old(w.trace) <= w.trace && w.outages <= old(w.outages)
      ensures w.s.todo == [] && w.s.recovery == Idle
      ensures w.s.cursor == old(w.s).cursor && old(w.s).db.events <= w.s.db.events
      ensures quiet ==> w.s.buffer.stream == old(w.s).buffer.stream
      ensures end == Crashed ==> w.outages < old(w.outages)
      ensures end == Idling ==> w.s.pending == {}
      ensures end == Draining ==> Stuck(w.cfg, w.s)
      ensures (exists i :: Hopeless(w.cfg, w.s, i)) ==> end != Idling
      ensures Overtakes(old(w.s), old(w.overtakes), w.s, w.overtakes)
    {
      hide Run, Unsettled, Backlog, Settled, Undelivered, Known, Strangers, Hopeless;
      var crashed := false;
      var processed := true;
      var rounds := 0;
      while processed && !crashed && (!Stuck(w.cfg, w.s) || rounds < watch)
        invariant Counted() && w.Valid() && old(w.trace) <= w.trace && w.outages <= old(w.outages)
        invariant w.s.todo == [] && w.s.recovery == Idle
        invariant w.s.cursor == old(w.s).cursor && old(w.s).db.events <= w.s.db.events
        invariant quiet ==> w.s.buffer.stream == old(w.s).buffer.stream
        invariant crashed ==> w.outages < old(w.outages)
        invariant !processed && !crashed ==> w.s.pending == {}
        invariant Overtakes(old(w.s), old(w.overtakes), w.s, w.overtakes)
        decreases if Stuck(w.cfg, w.s) then 1 else 0,
                  if !Stuck(w.cfg, w.s) then Backlog(w.cfg, w.s) + w.outages + (if processed && !crashed then 1 else 0)
                  else if rounds < watch then watch - rounds else 0
      {
        ghost var before := w.s;
        processed, crashed := ReadAndProcess(w, true, quiet, 0);
        rounds := rounds + 1;
        StuckShrinks(w.cfg, before, w.s);
      }
      end := if crashed then Crashed else if processed then Draining else Idling;
      if i :| Hopeless(w.cfg, w.s, i) { HopelessStaysPending(w.cfg, w.seed, w.trace, i); }
    }

    /** `_consume_forever` until it has nothing to read. What is missing from the table then
        is exactly what is pending, no more than one entry left behind for each failed call
        and each save overtaken in inserting an employee, of which there are no more than
        employees (and the default department) have come; with neither, everything ever
        buffered is stored, trimmed away or fits no row. */
    method ConsumeUntilIdle(w: World, watch: nat) returns (end: Ending)
      requires Counted() && w.Valid() && w.s.todo == [] && w.s.recovery == Idle
      modifies this, w`s, w`trace, w`outages, w`overtakes
      ensures Counted() && w.Valid() && old(w.trace) <= w.trace && w.outages <= old(w.outages)
      ensures w.s.todo == [] && w.s.recovery == Idle && old(w.s).db.events <= w.s.db.events
      ensures end == Crashed ==> w.outages < old(w.outages)
      ensures end == Draining ==> Stuck(w.cfg, w.s)
      ensures end == Idling ==> Undelivered(w.s) == 0 && MissingIsPending(w.cfg, w.s)
      ensures Overtakes(old(w.s), old(w.overtakes), w.s, w.overtakes)
      ensures end == Idling ==> |Left(w.cfg, w.s)| <= (old(w.outages) - w.outages) + (w.overtakes - old(w.overtakes))
      ensures end == Idling && w.outages == old(w.outages) && w.overtakes == old(w.overtakes) ==>
        NothingWaiting(w.cfg, w.s)
    {
      end := DrainPending(w, true, watch);
      if end != Idling {
        return;
      }
      ghost var bound, drained := w.outages - w.overtakes, w.outages;
      NothingLeft(w.cfg, w.s);
      hide Run, Backlog, Left, Undelivered, Unsettled, Stuck, MissingIsPending, NothingWaiting, Known, Hopeless;
      var crashed := false;
      var processed := true;
      while processed && !crashed
        invariant Counted() && w.Valid() && old(w.trace) <= w.trace && w.outages <= drained
        invariant w.s.todo == [] && w.s.recovery == Idle && old(w.s).db.events <= w.s.db.events
        invariant crashed ==> w.outages < drained
        invariant Overtakes(old(w.s), old(w.overtakes), w.s, w.overtakes)
        invariant !crashed ==> LeftWithin(w.cfg, w.s, w.outages, w.overtakes, bound)
        invariant !processed && !crashed ==> Undelivered(w.s) == 0
        decreases Backlog(w.cfg, w.s) + w.outages + 4 * Undelivered(w.s) + if processed && !crashed then 1 else 0
      {
        processed, crashed := ReadAndProcess(w, false, true, bound);
      }
      if crashed { return Crashed; }
      IdleLeavesPending(w.cfg, w.seed, w.trace);
      if w.outages == old(w.outages) && w.overtakes == old(w.overtakes) { Converged(w.cfg, w.seed, w.trace); }
    }

    /** `_run`: start over after every crash, until the service idles (or keeps draining an
        event that fits no row). What it has left behind is bounded by the calls that failed,
        and the saves that were overtaken, since its last start. */
    method RunUntilIdle(w: World, watch: nat) returns (ghost outagesThen: nat, ghost overtakesThen: nat, end: Ending)
      requires Counted() && w.Valid() && w.s.todo == [] && w.s.recovery == Idle
      modifies this, w`s, w`trace, w`outages, w`overtakes
      ensures Counted() && w.Valid() && old(w.trace) <= w.trace && w.outages <= outagesThen <= old(w.outages)
      ensures old(w.overtakes) <= overtakesThen <= w.overtakes
      ensures Overtakes(old(w.s), old(w.overtakes), w.s, w.overtakes)
      ensures w.s.todo == [] && w.s.recovery == Idle && old(w.s).db.events <= w.s.db.events
      ensures end != Crashed && (end == Draining ==> Stuck(w.cfg, w.s))
      ensures end == Idling ==> MissingIsPending(w.cfg, w.s)
      ensures end == Idling ==> |Left(w.cfg, w.s)| <= (outagesThen - w.outages) + (w.overtakes - overtakesThen)
      ensures end == Idling && w.outages == outagesThen && w.overtakes == overtakesThen ==> NothingWaiting(w.cfg, w.s)
    {
      hide Run, Left, Undelivered, Stuck, MissingIsPending, NothingWaiting, Known;
      outagesThen, overtakesThen := w.outages, w.overtakes;
      end := ConsumeUntilIdle(w, watch);
      while end == Crashed
        invariant Counted() && w.Valid() && old(w.trace) <= w.trace && w.outages <= outagesThen <= old(w.outages)
        invariant old(w.overtakes) <= overtakesThen <= w.overtakes
        invariant Overtakes(old(w.s), old(w.overtakes), w.s, w.overtakes)
        invariant w.s.todo == [] && w.s.recovery == Idle && old(w.s).db.events <= w.s.db.events
        invariant end == Crashed ==> w.outages < outagesThen
        invariant end == Draining ==> Stuck(w.cfg, w.s)
        invariant end == Idling ==> MissingIsPending(w.cfg, w.s)
        invariant end == Idling ==> |Left(w.cfg, w.s)| <= (outagesThen - w.outages) + (w.overtakes - overtakesThen)
        invariant end == Idling && w.outages == outagesThen && w.overtakes == overtakesThen ==>
          NothingWaiting(w.cfg, w.s)
        decreases w.outages + if end == Crashed then 1 else 0
      {
        outagesThen, overtakesThen := w.outages, w.overtakes;
        end := ConsumeUntilIdle(w, watch);
      }
    }

    /** One more restart, no call failing any more, catches up with what was left behind; it
        leaves only what is overtaken anew, so nothing if no new employee comes. */
    method Restart(w: World, watch: nat) returns (end: Ending)
      requires Counted() && w.Valid() && w.outages == 0
      modifies this, w`s, w`trace, w`outages, w`overtakes
      ensures Counted() && w.Valid() && old(w.trace) <= w.trace
      ensures end == Idling || (end == Draining && Stuck(w.cfg, w.s))
      ensures end == Idling ==> MissingIsPending(w.cfg, w.s) && |Left(w.cfg, w.s)| <= w.overtakes - old(w.overtakes)
      ensures w.overtakes - old(w.overtakes) <= Known(w.s.db) - Known(old(w.s).db)
      ensures end == Idling && Known(w.s.db) == Known(old(w.s).db) ==> NothingWaiting(w.cfg, w.s)
    {
      hide Run, Left, Undelivered, Stuck, MissingIsPending, NothingWaiting, Known;
      CrashNow(w);
      end := ConsumeUntilIdle(w, watch);
    }
  }

  /** Saves are overtaken no more often than employees, or the default department, come. */
  ghost predicate Overtakes(s: System, n: nat, t: System, m: nat) {
    n <= m && m + Known(s.db) <= n + Known(t.db)
  }

  lemma KnownStays(c: Consumer, s: System, t: System)
    requires Alike(c, s, t)
    ensures Known(s.db) <= Known(t.db)
  {
    SubsetSize(s.db.employees.Keys, t.db.employees.Keys);
  }

  lemma OvertakenEarlier(c: Consumer, s: System, t: System, u: System, e: AccessEvent)
    requires Alike(c, s, t)
    ensures Overtaken(t.db, u.db, e) ==> Overtaken(s.db, u.db, e)
  {
  }

  lemma NothingLeft(cfg: Config, s: System)
    requires s.pending == {}
    ensures Left(cfg, s) == {}
  {
  }

  lemma StuckShrinks(cfg: Config, s: System, t: System)
    requires s.buffer.stream <= t.buffer.stream && Unsettled(cfg, t) <= Unsettled(cfg, s)
    ensures Stuck(cfg, t) ==> Stuck(cfg, s)
  {
    hide Settled;
    if Stuck(cfg, t) {
      var i :| i in Unsettled(cfg, t) && i < |t.buffer.stream| && Unfit(t.buffer.stream[i]);
      assert i in Unsettled(cfg, s) && i < |s.buffer.stream|;
    }
  }

  lemma AlikeHand(s: System)
    ensures forall t :: Alike(Recovery, s, t) ==>
      t.todo == s.todo && t.pending == s.pending && t.cursor == s.cursor
      && s.db.events <= t.db.events && s.buffer.stream <= t.buffer.stream
  {
  }

  lemma MalformedSettled(cfg: Config, m: Message)
    ensures m.Malformed? ==> forall s :: Settled(cfg, s, m)
  {
  }

  /** An entry in hand that is an event is the one in the stream. */
  lemma EntryFacts(s: System)
    requires s.todo != [] && EntryInv(s, s.todo[0])
    ensures s.todo[0].index in s.pending && s.todo[0].index < |s.buffer.stream|
    ensures s.todo[0].message.Valid? ==> s.buffer.stream[s.todo[0].index] == s.todo[0].message
    ensures Unfit(s.todo[0].message) ==> s.todo[0].message.Valid?
  {
  }
}
