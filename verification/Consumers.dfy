/** The two consumers as they are written: objects with status counters whose loops
    call Redis, Kafka and the database. Every call is one step of the pipeline, and
    between any two calls the rest of the system may take any steps of its own, so
    what holds of all runs of the pipeline holds of these loops. */
module Consumers {
  import opened Text
  import opened Sums
  import opened Events
  import opened Pipeline
  import opened PipelineSafety
  import opened PipelineGuarantees
  import AP = AntiPassback

  /** What a consumer can rely on while others run: rows and entries only accumulate,
      and the fields that only it moves stand still. */
  ghost predicate Steady(c: Consumer, s: System, t: System) {
    && s.db.events <= t.db.events
    && s.db.employees.Keys <= t.db.employees.Keys && s.db.departments <= t.db.departments
    && s.buffer.stream <= t.buffer.stream
    && s.trimmed <= t.trimmed
    && (c == Recovery ==> t.todo == s.todo && t.pending == s.pending && t.cursor == s.cursor)
    && (c == Kafka ==>
          && t.position == s.position && t.committed == s.committed && t.partition == s.partition
          && |t.topic| == |s.topic|
          && forall p :: 0 <= p < |s.topic| ==> s.topic[p] <= t.topic[p])
  }

  lemma AccessStepSteady(cfg: Config, s: System, step: Step, c: Consumer)
    ensures Steady(c, s, ApplyAccess(cfg, s, step)) && PhaseOf(ApplyAccess(cfg, s, step), c) == PhaseOf(s, c)
    ensures !step.Append? && !step.ForeignEntry? ==> ApplyAccess(cfg, s, step).buffer.stream == s.buffer.stream
    ensures ReadOf(ApplyAccess(cfg, s, step), c) == ReadOf(s, c)
  {
    hide RowIds, Skipped, Lowest, Between, AP.Decide;
  }

  lemma SaveStepSteady(cfg: Config, s: System, step: Step, c: Consumer)
    requires Saves(step) && step.who != c
    ensures Steady(c, s, ApplySave(cfg, s, step)) && PhaseOf(ApplySave(cfg, s, step), c) == PhaseOf(s, c)
    ensures ApplySave(cfg, s, step).buffer.stream == s.buffer.stream
    ensures ReadOf(ApplySave(cfg, s, step), c) == ReadOf(s, c)
  {
    hide ApplySave, Stores, Inserted, InHand;
    SaveFrame(cfg, s, step);
    SaveLeavesOther(cfg, s, step, c);
    OnlyInsertsChangeRows(cfg, s, step);
    if Stores(cfg, s, step) { RowsAccumulate(cfg, s, step); }
  }

  /** A save moves nothing that is the other consumer's. */
  lemma SaveLeavesOther(cfg: Config, s: System, step: Step, c: Consumer)
    requires Saves(step) && step.who != c
    ensures var t := ApplySave(cfg, s, step);
      && t.topic == s.topic && t.pending == s.pending && t.cursor == s.cursor
      && PhaseOf(t, c) == PhaseOf(s, c) && ReadOf(t, c) == ReadOf(s, c)
      && (c == Recovery ==> t.todo == s.todo)
      && (c == Kafka ==> t.position == s.position && t.committed == s.committed && t.partition == s.partition)
  {
    hide Inserted, RowIds, Skipped, KeyTaken, Fits, Load, Holds, InHand;
  }

  lemma RowsAccumulate(cfg: Config, s: System, step: Step)
    requires Stores(cfg, s, step)
    ensures var db := Inserted(s.db, InHand(s, step.who).event, ReadOf(s, step.who));
      s.db.events <= db.events && s.db.employees.Keys <= db.employees.Keys && s.db.departments <= db.departments
  {
    hide RowIds, Skipped, Fits, InHand;
  }

  lemma ConsumerStepSteady(cfg: Config, s: System, step: Step, c: Consumer)
    requires !By(step, c) && !Saves(step)
    ensures Steady(c, s, ApplyConsumer(cfg, s, step)) && PhaseOf(ApplyConsumer(cfg, s, step), c) == PhaseOf(s, c)
    ensures ApplyConsumer(cfg, s, step).buffer.stream == s.buffer.stream
    ensures ReadOf(ApplyConsumer(cfg, s, step), c) == ReadOf(s, c)
  {
    hide Lowest, Between, FetchAll, Range;
  }

  lemma OtherStepSteady(cfg: Config, s: System, step: Step, c: Consumer)
    requires !By(step, c)
    ensures Steady(c, s, Apply(cfg, s, step)) && PhaseOf(Apply(cfg, s, step), c) == PhaseOf(s, c)
    ensures !step.Append? && !step.ForeignEntry? ==> Apply(cfg, s, step).buffer.stream == s.buffer.stream
    ensures ReadOf(Apply(cfg, s, step), c) == ReadOf(s, c)
  {
    if Saves(step) {
      SaveStepSteady(cfg, s, step, c);
    } else if By(step, Kafka) || By(step, Recovery) {
      ConsumerStepSteady(cfg, s, step, c);
    } else {
      AccessStepSteady(cfg, s, step, c);
    }
  }

  /** The message in hand and everything settled survive as well. */
  ghost predicate Alike(c: Consumer, s: System, t: System) {
    Steady(c, s, t) && (Holds(s, c) ==> Holds(t, c) && InHand(t, c) == InHand(s, c))
  }

  lemma AlikeTrans(c: Consumer, s: System, t: System, u: System)
    requires Alike(c, s, t) && Alike(c, t, u)
    ensures Alike(c, s, u)
  {
  }

  lemma SettledStays(cfg: Config, c: Consumer, s: System, t: System, m: Message)
    requires Alike(c, s, t) && Settled(cfg, s, m)
    ensures Settled(cfg, t, m)
  {
    assert RowIds(s.db) <= RowIds(t.db);
  }

  /** What a save step does to the consumer that takes it. */
  lemma LookEffect(cfg: Config, seed: Seed, steps: seq<Step>, c: Consumer)
    requires var s := Run(cfg, seed, steps); Holds(s, c) && PhaseOf(s, c) == Looking && InHand(s, c).Valid?
    ensures var s := Run(cfg, seed, steps);
      Apply(cfg, s, Step.Look(c)) ==
        if Settled(cfg, s, InHand(s, c)) then WithPhase(s, c, Kept)
        else WithPhase(WithRead(s, c, Load(s.db, InHand(s, c).event)), c, Inserting)
  {
    Reachable(cfg, seed, steps);
    InHandGenuine(cfg, seed, Run(cfg, seed, steps), c);
  }

  /** The commit is refused: the row is there, the event does not fit, or a key is taken. */
  predicate Refused(cfg: Config, s: System, c: Consumer)
    requires Holds(s, c) && InHand(s, c).Valid?
  {
    var m := InHand(s, c);
    Settled(cfg, s, m) || !Fits(m.event) || KeyTaken(s.db, m.event, ReadOf(s, c))
  }

  lemma InsertEffect(cfg: Config, seed: Seed, steps: seq<Step>, c: Consumer, replied: bool)
    requires var s := Run(cfg, seed, steps); Holds(s, c) && PhaseOf(s, c) == Inserting && InHand(s, c).Valid?
    ensures var s := Run(cfg, seed, steps);
      var s' := Apply(cfg, s, Step.Insert(c, replied));
      var e := InHand(s, c).event;
      if Refused(cfg, s, c) then s' == WithPhase(s, c, Failed)
      else
        && s' == WithPhase(s.(db := Inserted(s.db, e, ReadOf(s, c))), c, if replied then Kept else Failed)
        && Settled(cfg, s', InHand(s, c))
  {
    Reachable(cfg, seed, steps);
    hide Fits, KeyTaken;
    var s := Run(cfg, seed, steps);
    InHandGenuine(cfg, seed, s, c);
    var s' := Apply(cfg, s, Step.Insert(c, replied));
    if s'.db != s.db { assert s'.db.events[|s.db.events|] == InHand(s, c).event; }
  }

  /** A phase that moves, with or without a row inserted, leaves the rest alike. */
  lemma PhaseAlike(s: System, c: Consumer, p: Phase)
    ensures var t := WithPhase(s, c, p);
      Alike(c, s, t) && PhaseOf(t, c) == p && t.buffer == s.buffer && t.db == s.db
  {
  }

  lemma InsertAlike(s: System, c: Consumer, e: AccessEvent, p: Phase)
    ensures var t := WithPhase(s.(db := Inserted(s.db, e, ReadOf(s, c))), c, p);
      Alike(c, s, t) && PhaseOf(t, c) == p && t.buffer == s.buffer && t.db == Inserted(s.db, e, ReadOf(s, c))
  {
  }

  lemma LookAlike(s: System, c: Consumer, l: Loaded)
    ensures var t := WithPhase(WithRead(s, c, l), c, Inserting);
      Alike(c, s, t) && PhaseOf(t, c) == Inserting && t.buffer == s.buffer && t.db == s.db && ReadOf(t, c) == l
  {
  }

  lemma RaiseEffect(cfg: Config, s: System, c: Consumer)
    requires PhaseOf(s, c) in {Looking, Inserting}
    ensures Apply(cfg, s, Step.Raise(c)) == WithPhase(s, c, Failed)
  {
  }

  /** Redis, Kafka and PostgreSQL together, as the consumers see them. */
  class World {
    const cfg: Config
    ghost const seed: Seed
    var s: System
    var outages: nat             // how many more calls the environment will fail
    ghost var overtakes: nat     // commits refused because a key was taken meanwhile
    ghost var trace: seq<Step>   // every step taken so far, by anyone

    ghost predicate Valid()
      reads this
    {
      s == Run(cfg, seed, trace)
    }

    constructor (cfg: Config, ghost seed: Seed, s: System, outages: nat)
      requires s == Start(seed)
      ensures Valid() && this.cfg == cfg && this.seed == seed && trace == []
    {
      this.cfg, this.seed, this.s, this.outages := cfg, seed, s, outages;
      this.overtakes, this.trace := 0, [];
    }

    /** One atomic call. */
    method Take(step: Step)
      requires Valid()
      modifies this`s, this`trace
      ensures Valid() && trace == old(trace) + [step] && s == Apply(cfg, old(s), step)
    {
      s := Apply(cfg, s, step);
      trace := trace + [step];
      assert trace[..|trace| - 1] == old(trace);
    }

    /** Whether the next call fails; the environment fails finitely many. */
    method Fails() returns (failed: bool)
      modifies this`outages
      ensures failed ==> outages == old(outages) - 1
      ensures !failed ==> outages == old(outages)
    {
      failed := false;
      if outages > 0 {
        failed := *;
        if failed { outages := outages - 1; }
      }
    }

    /** The rest of the system runs for a while; quietly means without appending. */
    method Others(c: Consumer, quiet: bool)
      requires Valid()
      modifies this`s, this`trace
      ensures Valid() && old(trace) <= trace
      ensures Alike(c, old(s), s) && PhaseOf(s, c) == PhaseOf(old(s), c) && ReadOf(s, c) == ReadOf(old(s), c)
      ensures quiet ==> s.buffer.stream == old(s).buffer.stream
    {
      hide Run, Apply;
      var steps: seq<Step> := *;
      for i := 0 to |steps|
        invariant Valid() && old(trace) <= trace
        invariant Steady(c, old(s), s) && PhaseOf(s, c) == PhaseOf(old(s), c) && ReadOf(s, c) == ReadOf(old(s), c)
        invariant quiet ==> s.buffer.stream == old(s).buffer.stream
      {
        var step := steps[i];
        if !By(step, c) && (quiet ==> !step.Append? && !step.ForeignEntry?) {
          OtherStepSteady(cfg, s, step, c);
          Take(step);
        }
      }
    }

    /** Anyone at all runs for a while. */
    method Everyone()
      requires Valid()
      modifies this`s, this`trace
      ensures Valid() && old(trace) <= trace
      ensures old(s).issued <= s.issued && old(s).buffered <= s.buffered && old(s).db.events <= s.db.events
      ensures old(s).buffer.stream <= s.buffer.stream
    {
      var steps: seq<Step> := *;
      for i := 0 to |steps|
        invariant Valid() && old(trace) <= trace
        invariant old(s).issued <= s.issued && old(s).buffered <= s.buffered && old(s).db.events <= s.db.events
        invariant old(s).buffer.stream <= s.buffer.stream
      {
        hide Apply, Run;
        StepGrows(cfg, s, steps[i]);
        Take(steps[i]);
      }
    }

    /** The reads of a save: the duplicate check, the employee, the default department. */
    method Look(c: Consumer)
      requires Valid() && Holds(s, c) && PhaseOf(s, c) == Looking && InHand(s, c).Valid?
      modifies this`s, this`trace
      ensures Valid() && trace == old(trace) + [Step.Look(c)]
      ensures Alike(c, old(s), s) && s.buffer == old(s).buffer && s.db == old(s).db
      ensures PhaseOf(s, c) == if Settled(cfg, old(s), InHand(old(s), c)) then Kept else Inserting
      ensures PhaseOf(s, c) == Inserting ==> ReadOf(s, c) == Load(old(s).db, InHand(old(s), c).event)
    {
      hide Apply, Run, Settled, Alike, WithPhase, WithRead, PhaseOf, Holds, InHand, Load;
      LookEffect(cfg, seed, trace, c);
      PhaseAlike(s, c, Kept);
      LookAlike(s, c, Load(s.db, InHand(s, c).event));
      Take(Step.Look(c));
    }

    /** The commit of a save. The keys refuse a second row, and an employee or default
        department inserted since it was read; the columns an event that does not fit; and
        a commit may take effect without a reply. */
    method Insert(c: Consumer, replied: bool)
      requires Valid() && Holds(s, c) && PhaseOf(s, c) == Inserting && InHand(s, c).Valid?
      modifies this`s, this`trace
      ensures Valid() && trace == old(trace) + [Step.Insert(c, replied)]
      ensures Alike(c, old(s), s) && s.buffer == old(s).buffer
      ensures var m := InHand(old(s), c);
        if Refused(cfg, old(s), c)
        then PhaseOf(s, c) == Failed && s.db == old(s).db && (Settled(cfg, old(s), m) ==> Settled(cfg, s, m))
        else
          && PhaseOf(s, c) == (if replied then Kept else Failed)
          && s.db == Inserted(old(s).db, m.event, ReadOf(old(s), c)) && Settled(cfg, s, m)
    {
      hide Apply, Run, Settled, Alike, WithPhase, PhaseOf, Holds, InHand, Inserted, Fits, KeyTaken, Refused, ReadOf;
      InsertEffect(cfg, seed, trace, c, replied);
      PhaseAlike(s, c, Failed);
      InsertAlike(s, c, InHand(s, c).event, if replied then Kept else Failed);
      ghost var before := s;
      Take(Step.Insert(c, replied));
      if Settled(cfg, before, InHand(before, c)) { SettledStays(cfg, c, before, s, InHand(before, c)); }
    }

    /** A save that raises. */
    method Raise(c: Consumer)
      requires Valid() && PhaseOf(s, c) in {Looking, Inserting}
      modifies this`s, this`trace
      ensures Valid() && trace == old(trace) + [Step.Raise(c)]
      ensures Alike(c, old(s), s) && s.buffer == old(s).buffer && s.db == old(s).db && PhaseOf(s, c) == Failed
    {
      hide Apply, Run, Alike, WithPhase;
      RaiseEffect(cfg, s, c);
      PhaseAlike(s, c, Failed);
      Take(Step.Raise(c));
    }
  }

  datatype SaveResult = Stored | AlreadyHandled | Raised

  /** `save_access_event`: skip-list, look for an existing row, insert, commit. The
      look and the commit are separate, so another consumer may win in between. */
  method SaveAccessEvent(w: World, c: Consumer, quiet: bool) returns (r: SaveResult)
    requires w.Valid() && Holds(w.s, c) && PhaseOf(w.s, c) == Looking && InHand(w.s, c).Valid?
    modifies w`s, w`trace, w`outages, w`overtakes
    ensures w.Valid() && old(w.trace) <= w.trace && w.outages <= old(w.outages)
    ensures Alike(c, old(w.s), w.s) && (quiet ==> w.s.buffer.stream == old(w.s).buffer.stream)
    ensures PhaseOf(w.s, c) == if r == Raised then Failed else Kept
    ensures r != Raised ==> Settled(w.cfg, w.s, InHand(old(w.s), c))
    ensures r == Stored ==> !Settled(w.cfg, old(w.s), InHand(old(w.s), c)) && Fits(InHand(old(w.s), c).event)
    ensures r == Stored ==> InHand(old(w.s), c).event in w.s.db.events
    ensures r == AlreadyHandled ==> Settled(w.cfg, old(w.s), InHand(old(w.s), c)) && w.s.db == old(w.s).db
    // an event is skipped exactly if a configured prefix begins its employee's id: then the
    // save touches nothing, and otherwise one that returns leaves the event's id in a row
    ensures var e := InHand(old(w.s), c).event;
      if exists p :: p in w.cfg.skipPrefixes && p <= e.employeeId then r != Stored && w.s.db == old(w.s).db
      else r != Raised ==> exists row :: row in w.s.db.events && row.requestId == e.requestId
    // it raises only because a call failed, the event does not fit its columns, or the
    // other consumer has meanwhile stored the event, or inserted its employee or the
    // default department
    ensures r == Raised && w.outages == old(w.outages) ==>
      var m := InHand(old(w.s), c);
      && !Settled(w.cfg, old(w.s), m)
      && (!Fits(m.event) || Settled(w.cfg, w.s, m)
          || (w.overtakes > old(w.overtakes) && Overtaken(old(w.s).db, w.s.db, m.event)))
    ensures w.overtakes in {old(w.overtakes), old(w.overtakes) + 1}
    ensures w.overtakes > old(w.overtakes) ==> Overtaken(old(w.s).db, w.s.db, InHand(old(w.s), c).event)
  {
    hide Run, Apply, Settled, Alike, Holds, InHand, PhaseOf, Fits, Load, KeyTaken, Overtaken, Inserted, ReadOf;
    ghost var s0, m := w.s, InHand(w.s, c);
    HandStays(c, s0);
    Named(w.cfg, w.seed, w.trace, c);
    HandledIsStored(w.cfg, s0, m);
    var failed := w.Fails();
    if failed {
      w.Raise(c);
      return Raised;
    }
    w.Look(c);
    ghost var s1 := w.s;
    if PhaseOf(w.s, c) == Kept {
      SettledStays(w.cfg, c, s0, s1, m);
      return AlreadyHandled;
    }
    w.Others(c, quiet);
    ghost var s2 := w.s;
    AlikeTrans(c, s0, s1, s2);
    HandStays(c, s0);
    TakenIsOvertaken(c, s0, s2, m);
    failed := w.Fails();
    var carriedOut: bool := *;
    if failed && !carriedOut {
      w.Raise(c);
    } else {
      LastRow(w.s.db, m.event, ReadOf(w.s, c));
      w.Insert(c, !failed);
    }
    AlikeTrans(c, s0, s2, w.s);
    if PhaseOf(w.s, c) == Failed && Overtaken(s0.db, w.s.db, m.event) { w.overtakes := w.overtakes + 1; }
    r := if PhaseOf(w.s, c) == Failed then Raised else Stored;
    HandledIsStored(w.cfg, w.s, m);
  }

  lemma LastRow(db: Database, e: AccessEvent, l: Loaded)
    ensures e in Inserted(db, e, l).events
  {
  }

  /** A message in hand is about the employee its request id names. */
  lemma Named(cfg: Config, seed: Seed, steps: seq<Step>, c: Consumer)
    requires var s := Run(cfg, seed, steps); Holds(s, c) && InHand(s, c).Valid?
    ensures var e := InHand(Run(cfg, seed, steps), c).event; EmployeeOf(e.requestId) == e.employeeId
  {
    Reachable(cfg, seed, steps);
    InHandGenuine(cfg, seed, Run(cfg, seed, steps), c);
  }

  /** What a consumer holds it still holds in any state like this one. */
  lemma HandStays(c: Consumer, s: System)
    ensures forall t :: Alike(c, s, t) && Holds(s, c) ==> Holds(t, c) && InHand(t, c) == InHand(s, c)
  {
  }

  /** A key is taken at the commit only because someone has inserted it since the read. */
  lemma TakenIsOvertaken(c: Consumer, s: System, t: System, m: Message)
    requires Alike(c, s, t)
    ensures m.Valid? && KeyTaken(t.db, m.event, Load(s.db, m.event)) ==> Overtaken(s.db, t.db, m.event)
  {
  }

  /** How many keys a save of the event may still find missing and then taken. */
  function Newness(db: Database, e: AccessEvent): nat {
    (if e.employeeId in db.employees then 0 else 1) + if "UNASSIGNED" in db.departments then 0 else 1
  }

  /** They only become fewer, and each time someone else was first. */
  lemma NewnessFalls(c: Consumer, s: System, t: System, e: AccessEvent)
    requires Alike(c, s, t)
    ensures Newness(t.db, e) <= Newness(s.db, e)
    ensures Overtaken(s.db, t.db, e) ==> Newness(t.db, e) < Newness(s.db, e)
  {
  }

  /** The employees, and the default department, that are there. */
  function Known(db: Database): nat { |db.employees.Keys| + if "UNASSIGNED" in db.departments then 1 else 0 }

  /** Whoever is overtaken, someone new has come. */
  lemma KnownGrows(c: Consumer, s: System, t: System, e: AccessEvent)
    requires Alike(c, s, t)
    ensures Known(s.db) <= Known(t.db)
    ensures Overtaken(s.db, t.db, e) ==> Known(s.db) < Known(t.db)
  {
    SubsetSize(s.db.employees.Keys, t.db.employees.Keys);
    if e.employeeId !in s.db.employees && e.employeeId in t.db.employees {
      SubsetSize(s.db.employees.Keys + {e.employeeId}, t.db.employees.Keys);
    }
  }
}
