/** The Kafka consumer: persist, mark, commit; retry the same message in place when a
    write fails, and never commit past a message that has not been handled. */
module KafkaConsumer {
  import opened Events
  import opened Pipeline
  import opened PipelineSafety
  import opened PipelineGuarantees
  import opened Consumers

  lemma KafkaFacts(cfg: Config, seed: Seed, steps: seq<Step>)
    ensures var s := Run(cfg, seed, steps);
      && OffsetsInv(s)
      && (forall p, o :: 0 <= p < |s.topic| && 0 <= o < s.committed[p] ==> Settled(cfg, s, s.topic[p][o]))
  {
    Reachable(cfg, seed, steps);
    HandledMeansHandled(cfg, seed, steps);
  }

  /** Every committed message has its row, unless a configured prefix begins its employee's
      id, or it could not be parsed. */
  lemma CommittedIsStored(cfg: Config, seed: Seed, steps: seq<Step>, p: nat, o: nat)
    requires var s := Run(cfg, seed, steps);
      && p < |s.topic| && p < |s.committed| && o < s.committed[p] && o < |s.topic[p]| && s.topic[p][o].Valid?
      && forall prefix :: prefix in cfg.skipPrefixes ==> !(prefix <= s.topic[p][o].event.employeeId)
    ensures var s := Run(cfg, seed, steps);
      exists row :: row in s.db.events && row.requestId == s.topic[p][o].event.requestId
  {
    KafkaFacts(cfg, seed, steps);
    var s := Run(cfg, seed, steps);
    Reachable(cfg, seed, steps);
    hide Run;
    assert s.topic[p][o] in s.topic[p];
    HandledIsStored(cfg, s, s.topic[p][o]);
  }

  // ----- the calls -----

  method Poll(w: World, from: nat) returns (got: bool)
    requires w.Valid() && w.s.kafka == Idle
    modifies w`s, w`trace
    ensures w.Valid() && old(w.trace) <= w.trace && w.s.db == old(w.s).db && w.s.committed == old(w.s).committed
    ensures got <==> from < |w.s.topic| && from < |old(w.s).position| && old(w.s).position[from] < |w.s.topic[from]|
    ensures got ==> w.s.kafka == Looking && Holds(w.s, Kafka) && w.s.partition == from
    ensures got ==> w.s.position == old(w.s).position[from := old(w.s).position[from] + 1]
    ensures w.s.topic == old(w.s).topic
    ensures !got ==> w.s == old(w.s)
  {
    w.Take(Step.Deliver(from));
    got := w.s.kafka == Looking;
  }

  method SkipPoison(w: World)
    requires w.Valid() && w.s.kafka == Looking && Holds(w.s, Kafka) && InHand(w.s, Kafka).Malformed?
    modifies w`s, w`trace
    ensures w.Valid() && old(w.trace) <= w.trace && Alike(Kafka, old(w.s), w.s) && w.s.kafka == Done
  {
    hide Run, Apply, Alike, Holds, InHand;
    PoisonEffect(w.cfg, w.s);
    PhaseAlike(w.s, Kafka, Done);
    w.Take(Step.Look(Kafka));
  }

  lemma PoisonEffect(cfg: Config, s: System)
    requires s.kafka == Looking && Holds(s, Kafka) && InHand(s, Kafka).Malformed?
    ensures Apply(cfg, s, Step.Look(Kafka)) == WithPhase(s, Kafka, Done)
  {
  }

  lemma RetryEffect(cfg: Config, s: System)
    requires s.kafka == Failed
    ensures Apply(cfg, s, Step.Retry) == WithPhase(s, Kafka, Looking)
  {
  }

  /** `_mark_persisted`: best effort; failing to set the marker is swallowed. */
  method MarkPersisted(w: World, stored: bool)
    requires w.Valid() && w.s.kafka == Kept && Holds(w.s, Kafka)
    modifies w`s, w`trace
    ensures w.Valid() && old(w.trace) <= w.trace && Alike(Kafka, old(w.s), w.s) && w.s.kafka == Done
    ensures stored && IdOf(InHand(old(w.s), Kafka)) != "" ==> IdOf(InHand(old(w.s), Kafka)) in w.s.markers
  {
    hide Run, Apply, Alike, Holds, InHand;
    MarkEffect(w.cfg, w.s, stored);
    w.Take(Step.Mark(stored));
  }

  lemma MarkEffect(cfg: Config, s: System, stored: bool)
    requires s.kafka == Kept && Holds(s, Kafka)
    ensures var t := Apply(cfg, s, Step.Mark(stored)); var id := IdOf(InHand(s, Kafka));
      Alike(Kafka, s, t) && t.kafka == Done && (stored && id != "" ==> id in t.markers)
  {
  }

  method SleepThenRetry(w: World)
    requires w.Valid() && w.s.kafka == Failed
    modifies w`s, w`trace
    ensures w.Valid() && old(w.trace) <= w.trace && Alike(Kafka, old(w.s), w.s) && w.s.kafka == Looking
  {
    hide Run, Apply, Alike;
    w.Others(Kafka, false);
    ghost var s := w.s;
    RetryEffect(w.cfg, s);
    PhaseAlike(s, Kafka, Looking);
    w.Take(Step.Retry);
    AlikeTrans(Kafka, old(w.s), s, w.s);
  }

  method CommitOffsets(w: World)
    requires w.Valid() && w.s.kafka == Done
    modifies w`s, w`trace
    ensures w.Valid() && old(w.trace) <= w.trace
    ensures w.s == old(w.s).(kafka := Idle, committed := old(w.s).position)
  {
    w.Take(Step.Commit);
  }

  // ----- the service -----

  class Service {
    var processed: nat
    var inserted: nat
    var duplicates: nat
    var failed: nat

    predicate Counted()
      reads this
    {
      processed == inserted + duplicates
    }

    constructor ()
      ensures Counted() && processed == failed == 0
    {
      processed, inserted, duplicates, failed := 0, 0, 0, 0;
    }

    /** `_handle_message`: true when the offset may be committed. */
    method HandleMessage(w: World) returns (handled: bool)
      requires Counted() && w.Valid() && w.s.kafka == Looking && Holds(w.s, Kafka)
      modifies this, w`s, w`trace, w`outages, w`overtakes
      ensures Counted() && w.Valid() && old(w.trace) <= w.trace && w.outages <= old(w.outages)
      ensures Alike(Kafka, old(w.s), w.s)
      ensures w.s.kafka == if handled then Done else Failed
      ensures var m := InHand(old(w.s), Kafka);
        && (handled ==> Settled(w.cfg, w.s, m))
        && (!handled ==> m.Valid?)
        && (!handled && w.outages == old(w.outages) ==>
              && !Settled(w.cfg, old(w.s), m)
              && (!Fits(m.event) || Settled(w.cfg, w.s, m) || Overtaken(old(w.s).db, w.s.db, m.event)))
        && inserted == old(inserted) + (if handled && m.Valid? && !Settled(w.cfg, old(w.s), m) then 1 else 0)
        && duplicates == old(duplicates) + (if handled && m.Valid? && Settled(w.cfg, old(w.s), m) then 1 else 0)
        && failed == old(failed) + if handled && m.Valid? then 0 else 1
      // for the recovery consumer, an event that is handled is marked, if Redis answers
      ensures handled && w.outages == old(w.outages) ==> MarkedIn(w.s, InHand(old(w.s), Kafka))
    {
      hide Run, Settled, Alike, Holds, InHand, Fits, Overtaken;
      ghost var s0, m := w.s, InHand(w.s, Kafka);
      HandStays(Kafka, s0);
      if InHand(w.s, Kafka).Malformed? {
        PoisonSettled(w.cfg, m);
        SkipPoison(w);
        failed := failed + 1;
        return true;
      }
      var r := SaveAccessEvent(w, Kafka, false);
      ghost var s1 := w.s;
      if r == Raised {
        failed := failed + 1;
        return false;
      }
      processed := processed + 1;
      if r == Stored { inserted := inserted + 1; } else { duplicates := duplicates + 1; }
      var lost := w.Fails();
      MarkPersisted(w, !lost);
      AlikeTrans(Kafka, s0, s1, w.s);
      SettledStays(w.cfg, Kafka, s1, w.s, m);
      handled := true;
    }

    /** `_handle_with_retry`: the same message until it is handled. A message that fits its
        columns is, calls failing finitely often; one that does not is watched for a while
        and is still in hand, uncommitted and in the way of its partition, unless it is
        skipped or its id is another event's. */
    method HandleWithRetry(w: World, watch: nat) returns (handled: bool)
      requires Counted() && w.Valid() && w.s.kafka == Looking && Holds(w.s, Kafka)
      modifies this, w`s, w`trace, w`outages, w`overtakes
      ensures Counted() && w.Valid() && old(w.trace) <= w.trace && w.outages <= old(w.outages)
      ensures Alike(Kafka, old(w.s), w.s) && w.s.kafka == if handled then Done else Looking
      ensures var m := InHand(old(w.s), Kafka);
        && (handled ==> Settled(w.cfg, w.s, m))
        && (!handled ==> m.Valid? && !Fits(m.event))
        && (m.Valid? && Unsavable(w.cfg, w.s, m.event) ==> !handled)
        && (handled && w.outages == old(w.outages) ==> MarkedIn(w.s, m))
    {
      hide Run, Settled, Alike, Holds, InHand, Fits, Overtaken, Newness, Unsavable;
      ghost var s0 := w.s;
      HandStays(Kafka, s0);
      AlikeSelf(Kafka, s0);
      var m := InHand(w.s, Kafka);
      var fits := m.Malformed? || Fits(m.event);
      var tries := 0;
      handled := false;
      while !handled && (fits || tries < watch)
        invariant Counted() && w.Valid() && old(w.trace) <= w.trace && w.outages <= old(w.outages)
        invariant Alike(Kafka, s0, w.s)
        invariant w.s.kafka == if handled then Done else Looking
        invariant handled ==> Settled(w.cfg, w.s, m)
        invariant handled && w.outages == old(w.outages) ==> MarkedIn(w.s, m)
        decreases if fits then w.outages else 0, if fits then (if Settled(w.cfg, w.s, m) then 0 else 1) else 0,
                  if fits && m.Valid? then Newness(w.s.db, m.event) else 0,
                  if fits || tries > watch then 0 else watch - tries, if handled then 0 else 1
      {
        ghost var a := w.s;
        HandStays(Kafka, s0);
        handled := HandleMessage(w);
        tries := tries + 1;
        ghost var b := w.s;
        AlikeTrans(Kafka, s0, a, b);
        if m.Valid? { NewnessFalls(Kafka, a, b, m.event); }
        if !handled {
          SleepThenRetry(w);
          AlikeTrans(Kafka, s0, b, w.s);
          NewnessFalls(Kafka, b, w.s, m.event);
          if Settled(w.cfg, b, m) { SettledStays(w.cfg, Kafka, b, w.s, m); }
        }
        if Settled(w.cfg, a, m) { SettledStays(w.cfg, Kafka, a, b, m); }
      }
      if m.Valid? { OpenInHand(w.cfg, w.seed, w.trace, m.event); }
    }

    /** One turn of `_consume_forever`: take the next message of a partition, if there is
        one, handle it, commit. A turn in which no call fails ends committed, unless it
        still retries an event that does not fit. A commit that raises, carried out or
        not, loses nothing: the offsets go back to what is committed. */
    method ConsumeOne(w: World, from: nat, watch: nat) returns (got: bool, committed: bool)
      requires Counted() && w.Valid() && w.s.kafka == Idle
      modifies this, w`s, w`trace, w`outages, w`overtakes
      ensures Counted() && w.Valid() && old(w.trace) <= w.trace && w.outages <= old(w.outages)
      ensures CommittedAreHandled(w.cfg, w.s)
      ensures TopicsGrow(old(w.s), w.s)
      ensures |old(w.s).position| == |old(w.s).topic|
      ensures got <==> from < |old(w.s).topic| && old(w.s).position[from] < |old(w.s).topic[from]|
      ensures !got ==> w.s == old(w.s)
      ensures got && w.outages == old(w.outages) ==> committed || w.s.kafka == Looking
      ensures got && committed && w.outages == old(w.outages) ==>
        MarkedIn(w.s, old(w.s).topic[from][old(w.s).position[from]])
      ensures got ==> var next := old(w.s).position[from := old(w.s).position[from] + 1];
        if committed then w.s.kafka == Idle && w.s.committed == w.s.position == next
        else if w.s.kafka == Idle then w.s.committed == w.s.position && w.s.committed in {old(w.s).committed, next}
        else
          // still retrying an event that does not fit
          && w.s.kafka == Looking && w.s.committed == old(w.s).committed && w.s.position == next
          && Holds(w.s, Kafka) && InHand(w.s, Kafka).Valid? && !Fits(InHand(w.s, Kafka).event)
          && w.s.partition == from && InHand(w.s, Kafka) == old(w.s).topic[from][old(w.s).position[from]]
    {
      hide Run, Settled, Fits, CommittedAreHandled;
      KafkaFacts(w.cfg, w.seed, w.trace);
      committed := false;
      got := Poll(w, from);
      if got {
        ghost var polled := w.s;
        HandStays(Kafka, polled);
        var handled := HandleWithRetry(w, watch);
        if handled {
          var raised := w.Fails();
          var carriedOut: bool := *;
          if raised && !carriedOut {
            w.Take(Step.Crash(Kafka));
          } else {
            CommitOffsets(w);
            committed := !raised;
          }
        }
      }
      Committed(w.cfg, w.seed, w.trace);
    }

    /** One turn of the loop after others have run. */
    method TakeTurn(w: World, from: nat, watch: nat, ghost first: System, ghost calls: nat, ghost turns: multiset<nat>)
      returns (stuck: bool)
      requires Counted() && w.Valid() && w.s.kafka == Idle && w.outages <= calls
      requires Advanced(first, w.s, calls - w.outages, turns)
      modifies this, w`s, w`trace, w`outages, w`overtakes
      ensures Counted() && w.Valid() && old(w.trace) <= w.trace && w.outages <= old(w.outages)
      ensures CommittedAreHandled(w.cfg, w.s)
      ensures stuck ==> StuckSince(first, w.s)
      ensures !stuck ==> w.s.kafka == Idle && Advanced(first, w.s, calls - w.outages, turns + multiset{from})
    {
      hide Run, Settled, Fits, CommittedAreHandled, Alike, Holds, InHand, Advanced, MarkedIn, Counted;
      ghost var before := w.s;
      w.Others(Kafka, false);
      OffsetsStand(before, w.s);
      ghost var taken, failed := w.s, calls - w.outages;
      AdvancedStays(first, before, taken, failed, turns);
      var got, committed := ConsumeOne(w, from, watch);
      stuck := w.s.kafka != Idle;
      if stuck {
        KafkaFacts(w.cfg, w.seed, w.trace);
        NotPast(first, taken, w.s, failed, turns);
      } else {
        AdvancedTurn(first, taken, w.s, failed, calls - w.outages, turns, from, got, committed);
      }
    }

    /** `_consume_forever`, turn by turn, whichever partition the client hands out at each
        turn, while others run in between. Every turn of a partition that still has a
        message of those it began with commits one more of them, or a call has failed: so
        with no call failing, and every message fitting its columns, a partition is committed
        to the end of what it began with after as many turns. */
    method ConsumeTurns(w: World, schedule: seq<nat>, watch: nat) returns (stuck: bool)
      requires Counted() && w.Valid() && w.s.kafka == Idle
      modifies this, w`s, w`trace, w`outages, w`overtakes
      ensures Counted() && w.Valid() && old(w.trace) <= w.trace && w.outages <= old(w.outages)
      ensures CommittedAreHandled(w.cfg, w.s)
      ensures if stuck then StuckSince(old(w.s), w.s)
              else
                && w.s.kafka == Idle && NoneTakenBack(old(w.s), w.s)
                && forall p :: 0 <= p < |old(w.s).topic| ==>
                     Least(|old(w.s).topic[p]|, old(w.s).committed[p] + multiset(schedule)[p])
                       <= w.s.committed[p] + (old(w.outages) - w.outages)
      ensures AllFit(w.s.topic) ==> !stuck
    {
      hide Run, Settled, Fits, CommittedAreHandled, Advanced, StuckSince, Counted, NoneTakenBack;
      Committed(w.cfg, w.seed, w.trace);
      KafkaFacts(w.cfg, w.seed, w.trace);
      IdleIsCommitted(w.cfg, w.seed, w.trace);
      ghost var first, calls := w.s, w.outages;
      AdvancedNow(first, calls);
      stuck := false;
      for i := 0 to |schedule|
        invariant Counted() && w.Valid() && old(w.trace) <= w.trace && w.outages <= calls && !stuck
        invariant CommittedAreHandled(w.cfg, w.s)
        invariant w.s.kafka == Idle && Advanced(first, w.s, calls - w.outages, multiset(schedule[..i]))
      {
        assert schedule[..i + 1] == schedule[..i] + [schedule[i]];
        stuck := TakeTurn(w, schedule[i], watch, first, calls, multiset(schedule[..i]));
        if stuck {
          StuckIsUnfit(first, w.s);
          return;
        }
      }
      assert schedule[..|schedule|] == schedule;
      AdvancedMeans(first, w.s, calls - w.outages, multiset(schedule));
    }
  }

  /** Partitions only grow, and no commit is undone. */
  ghost predicate NoneTakenBack(s: System, t: System) {
    && TopicsGrow(s, t) && |s.topic| == |s.committed| == |t.committed|
    && forall p :: 0 <= p < |t.committed| ==> s.committed[p] <= t.committed[p]
  }

  /** Nothing is taken back, but the first uncommitted message of a partition fits no row and
      is being retried. */
  ghost predicate StuckSince(s: System, t: System) {
    var p := t.partition;
    && NoneTakenBack(s, t)
    && t.kafka == Looking && p < |t.topic| && p < |t.committed| && t.committed[p] < |t.topic[p]|
    && var m := t.topic[p][t.committed[p]]; m.Valid? && !Fits(m.event)
  }

  lemma StuckIsUnfit(s: System, t: System)
    requires StuckSince(s, t)
    ensures !AllFit(t.topic)
  {
    hide Fits;
  }

  /** How far the partitions have come since `first`, given the turns each has had and the
      calls that have failed. */
  ghost predicate Advanced(first: System, s: System, failed: nat, turns: multiset<nat>) {
    && TopicsGrow(first, s) && |first.topic| == |first.committed| == |s.committed| && s.committed == s.position
    && forall p :: 0 <= p < |s.committed| ==>
         && first.committed[p] <= s.committed[p]
         && Least(|first.topic[p]|, first.committed[p] + turns[p]) <= s.committed[p] + failed
  }

  lemma AdvancedNow(s: System, calls: nat)
    requires |s.topic| == |s.committed| && s.committed == s.position
    ensures Advanced(s, s, 0, multiset{})
  {
  }

  lemma AdvancedStays(first: System, s: System, t: System, failed: nat, turns: multiset<nat>)
    requires Advanced(first, s, failed, turns) && TopicsGrow(s, t)
    requires t.committed == s.committed && t.position == s.position
    ensures Advanced(first, t, failed, turns)
  {
  }

  lemma AdvancedMeans(first: System, s: System, failed: nat, turns: multiset<nat>)
    requires Advanced(first, s, failed, turns)
    ensures NoneTakenBack(first, s)
    ensures |first.topic| == |first.committed| == |s.committed|
    ensures forall p :: 0 <= p < |first.topic| ==>
      Least(|first.topic[p]|, first.committed[p] + turns[p]) <= s.committed[p] + failed
  {
  }

  lemma NotPast(first: System, s: System, t: System, failed: nat, turns: multiset<nat>)
    requires Advanced(first, s, failed, turns) && TopicsGrow(s, t) && t.committed == s.committed
    ensures NoneTakenBack(first, t) && s.position == t.committed
  {
  }

  lemma AdvancedTurn(first: System, s: System, t: System, failed: nat, failed': nat, turns: multiset<nat>, from: nat,
                     got: bool, committed: bool)
    requires Advanced(first, s, failed, turns) && TopicsGrow(s, t) && failed <= failed'
    requires got <==> from < |s.topic| && s.position[from] < |s.topic[from]|
    requires !got ==> t == s
    requires got ==> t.committed == t.position && t.committed in {s.committed, s.position[from := s.position[from] + 1]}
    requires got && committed ==> t.committed == s.position[from := s.position[from] + 1]
    requires got && !committed ==> failed < failed'
    ensures Advanced(first, t, failed', turns + multiset{from})
  {
  }

  /** While others run, offsets stand still and messages only come. */
  lemma OffsetsStand(s: System, t: System)
    requires Alike(Kafka, s, t)
    ensures TopicsGrow(s, t) && t.committed == s.committed && t.position == s.position
  {
  }

  /** The persisted marker of the event is set. */
  predicate MarkedIn(s: System, m: Message) {
    m.Valid? && m.event.requestId != "" ==> m.event.requestId in s.markers
  }

  function Least(a: nat, b: nat): nat { if a < b then a else b }

  /** Messages stay where they are; more may come behind them. */
  ghost predicate TopicsGrow(s: System, t: System) {
    |t.topic| == |s.topic| && forall p :: 0 <= p < |s.topic| ==> s.topic[p] <= t.topic[p]
  }

  ghost predicate AllFit(topic: seq<seq<Message>>) {
    forall p, o :: 0 <= p < |topic| && 0 <= o < |topic[p]| && topic[p][o].Valid? ==> Fits(topic[p][o].event)
  }

  /** With nothing in flight, the next message of each partition is the first not committed. */
  lemma {:induction false} IdleIsCommitted(cfg: Config, seed: Seed, steps: seq<Step>)
    ensures var s := Run(cfg, seed, steps); s.kafka == Idle ==> s.committed == s.position
  {
    if steps != [] {
      var front, last := steps[..|steps| - 1], steps[|steps| - 1];
      IdleIsCommitted(cfg, seed, front);
      hide Run;
      IdleStep(cfg, Run(cfg, seed, front), last);
      RunNext(cfg, seed, front, last);
      assert front + [last] == steps;
    } else {
      RunNext(cfg, seed, [], Step.Retry);
    }
  }

  lemma IdleStep(cfg: Config, s: System, step: Step)
    requires s.kafka == Idle ==> s.committed == s.position
    ensures var t := Apply(cfg, s, step); t.kafka == Idle ==> t.committed == t.position
  {
    hide Apply;
    if By(step, Kafka) { OwnStepIdle(cfg, s, step); } else { OtherStepSteady(cfg, s, step, Kafka); }
  }

  lemma OwnStepIdle(cfg: Config, s: System, step: Step)
    requires By(step, Kafka) && (s.kafka == Idle ==> s.committed == s.position)
    ensures var t := Apply(cfg, s, step); t.kafka == Idle ==> t.committed == t.position
  {
    hide ApplyAccess, Inserted, RowIds, Skipped, KeyTaken, Fits, Load, InHand, Holds, Lowest, Between, FetchAll, Range;
  }

  lemma OpenInHand(cfg: Config, seed: Seed, steps: seq<Step>, e: AccessEvent)
    requires Holds(Run(cfg, seed, steps), Kafka) && InHand(Run(cfg, seed, steps), Kafka) == Valid(e)
    ensures Unsavable(cfg, Run(cfg, seed, steps), e) ==> !Settled(cfg, Run(cfg, seed, steps), Valid(e))
  {
    Reachable(cfg, seed, steps);
    InHandGenuine(cfg, seed, Run(cfg, seed, steps), Kafka);
    hide Run, Settled, Unsavable;
    if Unsavable(cfg, Run(cfg, seed, steps), e) { UnfitStaysOpen(cfg, seed, steps, e); }
  }

  lemma AlikeSelf(c: Consumer, s: System)
    ensures Alike(c, s, s)
  {
  }

  lemma PoisonSettled(cfg: Config, m: Message)
    ensures m.Malformed? ==> forall s :: Settled(cfg, s, m)
  {
  }

  ghost predicate CommittedAreHandled(cfg: Config, s: System) {
    forall p, o ::
      0 <= p < |s.topic| && p < |s.committed| && 0 <= o < s.committed[p] && o < |s.topic[p]| ==>
        Settled(cfg, s, s.topic[p][o])
  }

  lemma Committed(cfg: Config, seed: Seed, steps: seq<Step>)
    ensures CommittedAreHandled(cfg, Run(cfg, seed, steps))
  {
    HandledMeansHandled(cfg, seed, steps);
  }
}
