/** The asynchronous event publisher as a transition system: any number of producers
    checking `closed` and then sending into a bounded queue, any number of workers
    taking, collecting, attempting, backing off and draining, and Close. */
module AsyncPublisher {
  import opened Events

  datatype Phase =
    | Waiting      // the select at the top of the worker loop
    | Collecting   // collectBatch
    | Publishing   // about to attempt the batch
    | Backoff      // the attempt failed, waiting to retry
    | Draining     // drain, filling a batch
    | Flushing     // drain, about to publish a full batch once
    | LastFlush    // drain saw the queue empty, about to publish the rest once
    | Exited

  datatype Worker = Worker(phase: Phase, batch: seq<AccessEvent>)

  datatype Counters = Counters(calls: nat, queued: nat, dropped: nat, retried: nat, published: nat)

  /** What became of events: the fields no code reads, kept to state what is conserved. */
  datatype History = History(
    accepted: seq<AccessEvent>,         // every event a send put into the queue, in order
    delivered: seq<AccessEvent>,        // every event of a successful attempt, in order
    abandoned: multiset<AccessEvent>,   // given up on after Close
    failedOnce: set<AccessEvent>,       // events that were in a failed attempt
    atClose: nat)                       // how many had been accepted when `done` closed

  datatype State = State(
    queue: seq<AccessEvent>,
    closed: bool,
    done: bool,
    producers: multiset<AccessEvent>,   // passed the closed check, not sent yet
    workers: seq<Worker>,
    stats: Counters,
    past: History)

  datatype Config = Config(queueSize: nat, workers: nat, batchSize: nat)

  datatype Action =
    | Take | SeeDone | Collect | StopCollecting | Attempt(ok: bool) | RetryNow | GiveUp
    | DrainTake | DrainEmpty | Flush(ok: bool)

  datatype Step =
    | CheckClosed(event: AccessEvent)
    | Send(event: AccessEvent)
    | SetClosed
    | CloseDone
    | Work(w: nat, action: Action)

  // ----- producers and Close -----

  function ApplyProducer(cfg: Config, s: State, step: Step): State {
    match step
    case CheckClosed(e) =>
      var stats := s.stats.(calls := s.stats.calls + 1);
      if s.closed then s.(stats := stats.(dropped := stats.dropped + 1))
      else s.(stats := stats, producers := s.producers + multiset{e})
    case Send(e) =>
      if e !in s.producers then s
      else if |s.queue| < cfg.queueSize
      then s.(producers := s.producers - multiset{e}, queue := s.queue + [e],
              stats := s.stats.(queued := s.stats.queued + 1),
              past := s.past.(accepted := s.past.accepted + [e]))
      else s.(producers := s.producers - multiset{e}, stats := s.stats.(dropped := s.stats.dropped + 1))
    case SetClosed => s.(closed := true)
    case CloseDone =>
      if s.closed && !s.done then s.(done := true, past := s.past.(atClose := |s.past.accepted|)) else s
    case Work(_, _) => s
  }

  // ----- workers -----

  /** What a worker's action does to it and to the batch in its hands. */
  datatype Effect =
    | Nothing
    | Pull(next: Phase)                    // the head of the queue joins the batch
    | Turn(next: Phase)                    // only the phase moves
    | Fail                                 // an attempt failed, to be retried
    | Deliver(next: Phase)                 // the batch reached the inner publisher
    | Abandon(next: Phase, failed: bool)   // the batch is given up (after a last failure)

  /** Batches hold at most batchSize events, one at least. */
  function Limit(cfg: Config): nat { if cfg.batchSize == 0 then 1 else cfg.batchSize }

  function EffectOf(cfg: Config, s: State, w: Worker, action: Action): Effect {
    match (w.phase, action)
    case (Waiting, Take) => if s.queue != [] then Pull(Collecting) else Nothing
    case (Waiting, SeeDone) => if s.done then Turn(Draining) else Nothing
    case (Collecting, Collect) => if |w.batch| < cfg.batchSize && s.queue != [] then Pull(Collecting) else Nothing
    case (Collecting, StopCollecting) => Turn(Publishing)
    case (Publishing, Attempt(ok)) => if ok then Deliver(Waiting) else Fail
    case (Backoff, RetryNow) => Turn(Publishing)
    case (Backoff, GiveUp) => if s.done then Abandon(Waiting, false) else Nothing
    case (Draining, DrainTake) =>
      if s.queue != [] then Pull(if |w.batch| + 1 >= cfg.batchSize then Flushing else Draining) else Nothing
    case (Draining, DrainEmpty) =>
      if s.queue == [] then Turn(if w.batch == [] then Exited else LastFlush) else Nothing
    case (Flushing, Flush(ok)) => if ok then Deliver(Draining) else Abandon(Draining, true)
    case (LastFlush, Flush(ok)) => if ok then Deliver(Exited) else Abandon(Exited, true)
    case _ => Nothing
  }

  function Elements(batch: seq<AccessEvent>): set<AccessEvent> {
    set e | e in batch
  }

  function Perform(s: State, w: nat, effect: Effect): State
    requires w < |s.workers| && (effect.Pull? ==> s.queue != [])
  {
    var batch := s.workers[w].batch;
    match effect
    case Nothing => s
    case Pull(next) => s.(queue := s.queue[1..], workers := s.workers[w := Worker(next, batch + [s.queue[0]])])
    case Turn(next) => s.(workers := s.workers[w := Worker(next, batch)])
    case Fail =>
      s.(workers := s.workers[w := Worker(Backoff, batch)],
         stats := s.stats.(retried := s.stats.retried + |batch|),
         past := s.past.(failedOnce := s.past.failedOnce + Elements(batch)))
    case Deliver(next) =>
      s.(workers := s.workers[w := Worker(next, [])],
         stats := s.stats.(published := s.stats.published + |batch|),
         past := s.past.(delivered := s.past.delivered + batch))
    case Abandon(next, failed) =>
      s.(workers := s.workers[w := Worker(next, [])],
         past := s.past.(abandoned := s.past.abandoned + multiset(batch),
                         failedOnce := if failed then s.past.failedOnce + Elements(batch) else s.past.failedOnce))
  }

  function Apply(cfg: Config, s: State, step: Step): State {
    if !step.Work? then ApplyProducer(cfg, s, step)
    else if step.w >= |s.workers| then s
    else Perform(s, step.w, EffectOf(cfg, s, s.workers[step.w], step.action))
  }

  function Start(cfg: Config): State {
    State([], false, false, multiset{}, seq(cfg.workers, _ => Worker(Waiting, [])),
          Counters(0, 0, 0, 0, 0), History([], [], multiset{}, {}, 0))
  }

  function Run(cfg: Config, steps: seq<Step>): State {
    if steps == [] then Start(cfg)
    else Apply(cfg, Run(cfg, steps[..|steps| - 1]), steps[|steps| - 1])
  }

  // ----- conservation -----

  /** How often an event is in workers' hands. */
  function InHands(workers: seq<Worker>, e: AccessEvent): nat {
    if workers == [] then 0
    else InHands(workers[..|workers| - 1], e) + multiset(workers[|workers| - 1].batch)[e]
  }

  lemma {:induction false} InHandsUpdate(workers: seq<Worker>, w: nat, to: Worker, e: AccessEvent)
    requires w < |workers|
    ensures InHands(workers[w := to], e) + multiset(workers[w].batch)[e] == InHands(workers, e) + multiset(to.batch)[e]
  {
    var n := |workers| - 1;
    var after := workers[w := to];
    if w < n {
      InHandsUpdate(workers[..n], w, to, e);
      assert after[..n] == workers[..n][w := to] && after[n] == workers[n];
    } else {
      assert after[..n] == workers[..n] && after[n] == to;
    }
  }

  /** Every accepted event is, as often as it was accepted, in the queue, in a worker's
      hands, delivered or abandoned. */
  ghost predicate ConservedFor(s: State, e: AccessEvent) {
    multiset(s.past.accepted)[e] ==
      multiset(s.queue)[e] + InHands(s.workers, e) + multiset(s.past.delivered)[e] + s.past.abandoned[e]
  }

  lemma EffectConserves(s: State, w: nat, effect: Effect, e: AccessEvent)
    requires ConservedFor(s, e) && w < |s.workers| && (effect.Pull? ==> s.queue != [])
    ensures ConservedFor(Perform(s, w, effect), e)
  {
    hide InHands, Elements;
    var s' := Perform(s, w, effect);
    InHandsUpdate(s.workers, w, s'.workers[w], e);
    var batch := s.workers[w].batch;
    if effect.Pull? {
      var head := s.queue[0];
      assert s.queue == [head] + s'.queue;
      assert multiset(s.queue)[e] == multiset{head}[e] + multiset(s'.queue)[e];
      assert multiset(batch + [head])[e] == multiset(batch)[e] + multiset{head}[e];
    } else {
      assert s'.workers == s.workers[w := s'.workers[w]];
      assert multiset(s.past.delivered + batch)[e] == multiset(s.past.delivered)[e] + multiset(batch)[e];
    }
  }

  /** Producers and Close touch neither workers nor what became of events; a send that
      finds room is accepted at the tail of the queue. */
  lemma ProducerMoves(cfg: Config, s: State, step: Step)
    ensures var t := ApplyProducer(cfg, s, step);
      && t.workers == s.workers && t.past.delivered == s.past.delivered
      && t.past.abandoned == s.past.abandoned && t.past.failedOnce == s.past.failedOnce
      && if step.Send? && step.event in s.producers && |s.queue| < cfg.queueSize
         then t.queue == s.queue + [step.event] && t.past.accepted == s.past.accepted + [step.event]
         else t.queue == s.queue && t.past.accepted == s.past.accepted
  {
  }

  lemma ProducerConserves(cfg: Config, s: State, step: Step, e: AccessEvent)
    requires ConservedFor(s, e)
    ensures ConservedFor(ApplyProducer(cfg, s, step), e)
  {
    hide ApplyProducer, InHands;
    ProducerMoves(cfg, s, step);
  }

  /** The counters: every Publish call is queued, dropped or still between its two
      steps, and the published count is the number of events delivered. */
  ghost predicate Counted(s: State) {
    && s.stats.queued == |s.past.accepted| && s.stats.published == |s.past.delivered|
    && s.stats.calls == s.stats.queued + s.stats.dropped + |s.producers|
  }

  // ----- invariants -----

  ghost predicate WorkerInv(cfg: Config, s: State, w: Worker) {
    && |w.batch| <= Limit(cfg)
    && (w.phase in {Waiting, Exited} ==> w.batch == [])
    && (w.phase in {Draining, Flushing, LastFlush, Exited} ==> s.done)
    && (w.phase == Draining ==> |w.batch| < Limit(cfg))
    && (w.phase == Backoff ==> Elements(w.batch) <= s.past.failedOnce)
    && (w.phase in {LastFlush, Exited} ==> |s.queue| + s.past.atClose <= |s.past.accepted|)
  }

  ghost predicate QueueInv(cfg: Config, s: State) {
    && |s.queue| <= cfg.queueSize
    // FIFO: the queue always holds the most recently accepted events
    && |s.queue| <= |s.past.accepted| && s.queue == s.past.accepted[|s.past.accepted| - |s.queue|..]
    && (s.done ==> s.closed && s.past.atClose <= |s.past.accepted|)
    && (!s.done ==> s.past.abandoned == multiset{})
    && (forall e :: e in s.past.abandoned ==> e in s.past.failedOnce)
  }

  ghost predicate WorkersInv(cfg: Config, s: State) {
    && |s.workers| == cfg.workers
    && forall i :: 0 <= i < |s.workers| ==> WorkerInv(cfg, s, s.workers[i])
  }

  ghost predicate Inv(cfg: Config, s: State) {
    (forall e :: ConservedFor(s, e)) && Counted(s) && QueueInv(cfg, s) && WorkersInv(cfg, s)
  }

  lemma ProducerKeepsCounters(cfg: Config, s: State, step: Step)
    requires Counted(s)
    ensures Counted(ApplyProducer(cfg, s, step))
  {
  }

  lemma ProducerKeepsQueue(cfg: Config, s: State, step: Step)
    requires QueueInv(cfg, s)
    ensures QueueInv(cfg, ApplyProducer(cfg, s, step))
  {
    hide ApplyProducer;
    ProducerMoves(cfg, s, step);
    CloseMoves(cfg, s, step);
  }

  lemma CloseMoves(cfg: Config, s: State, step: Step)
    ensures var t := ApplyProducer(cfg, s, step);
      && (s.closed ==> t.closed) && (s.done ==> t.done && t.past.atClose == s.past.atClose)
      && (t.done && !s.done ==> s.closed && t.past.atClose == |s.past.accepted|)
  {
  }

  lemma ProducerKeepsWorkers(cfg: Config, s: State, step: Step)
    requires WorkersInv(cfg, s)
    ensures WorkersInv(cfg, ApplyProducer(cfg, s, step))
  {
    var s' := ApplyProducer(cfg, s, step);
    forall i | 0 <= i < |s'.workers| ensures WorkerInv(cfg, s', s'.workers[i]) {
      assert WorkerInv(cfg, s, s.workers[i]);
    }
  }

  lemma ProducerKeeps(cfg: Config, s: State, step: Step)
    requires Counted(s) && QueueInv(cfg, s) && WorkersInv(cfg, s)
    ensures var s' := ApplyProducer(cfg, s, step);
      Counted(s') && QueueInv(cfg, s') && WorkersInv(cfg, s')
  {
    hide *;
    ProducerKeepsCounters(cfg, s, step);
    ProducerKeepsQueue(cfg, s, step);
    ProducerKeepsWorkers(cfg, s, step);
  }

  lemma WorkKeepsCounters(s: State, w: nat, effect: Effect)
    requires Counted(s) && w < |s.workers| && (effect.Pull? ==> s.queue != [])
    ensures Counted(Perform(s, w, effect)) && |Perform(s, w, effect).workers| == |s.workers|
  {
  }

  /** Only an effect that follows from a failed attempt gives a batch up, after `done`. */
  lemma AbandonsLate(cfg: Config, s: State, w: Worker, action: Action)
    requires WorkerInv(cfg, s, w)
    ensures var effect := EffectOf(cfg, s, w, action);
      && (effect.Abandon? ==> s.done && (effect.failed || Elements(w.batch) <= s.past.failedOnce))
      && (effect.Pull? ==> s.queue != [])
  {
  }

  lemma EffectKeepsQueue(cfg: Config, s: State, w: nat, effect: Effect)
    requires QueueInv(cfg, s) && w < |s.workers| && (effect.Pull? ==> s.queue != [])
    requires effect.Abandon? ==> s.done && (effect.failed || Elements(s.workers[w].batch) <= s.past.failedOnce)
    ensures QueueInv(cfg, Perform(s, w, effect))
  {
    var batch := s.workers[w].batch;
    assert forall e :: e in multiset(batch) <==> e in Elements(batch);
  }

  lemma WorkKeepsQueue(cfg: Config, s: State, w: nat, action: Action)
    requires QueueInv(cfg, s) && w < |s.workers| && WorkerInv(cfg, s, s.workers[w])
    ensures QueueInv(cfg, Perform(s, w, EffectOf(cfg, s, s.workers[w], action)))
  {
    hide *;
    AbandonsLate(cfg, s, s.workers[w], action);
    EffectKeepsQueue(cfg, s, w, EffectOf(cfg, s, s.workers[w], action));
  }

  /** What an action's effect promises of the worker that takes it. */
  ghost predicate FitsWorker(cfg: Config, s: State, w: Worker, effect: Effect) {
    match effect
    case Nothing => true
    case Pull(next) =>
      && s.queue != [] && |w.batch| < Limit(cfg)
      && (next == Collecting
          || (s.done && (next == Flushing || (next == Draining && |w.batch| + 1 < Limit(cfg)))))
    case Turn(next) =>
      || next == Publishing
      || (next == Draining && w.batch == [] && s.done)
      || (s.done && s.queue == [] && s.past.atClose <= |s.past.accepted|
          && (next == LastFlush || (next == Exited && w.batch == [])))
    case Fail => true
    case Deliver(next) =>
      || next == Waiting
      || (s.done && (next == Draining || (next == Exited && |s.queue| + s.past.atClose <= |s.past.accepted|)))
    case Abandon(next, _) =>
      || next == Waiting
      || (s.done && (next == Draining || (next == Exited && |s.queue| + s.past.atClose <= |s.past.accepted|)))
  }

  lemma EffectFitsWorker(cfg: Config, s: State, w: Worker, action: Action)
    requires QueueInv(cfg, s) && WorkerInv(cfg, s, w)
    ensures FitsWorker(cfg, s, w, EffectOf(cfg, s, w, action))
  {
    hide Elements;
  }

  lemma FittingEffectKeeps(cfg: Config, s: State, w: nat, effect: Effect)
    requires w < |s.workers| && WorkerInv(cfg, s, s.workers[w]) && FitsWorker(cfg, s, s.workers[w], effect)
    ensures WorkerInv(cfg, Perform(s, w, effect), Perform(s, w, effect).workers[w])
  {
  }

  lemma WorkKeepsActor(cfg: Config, s: State, w: nat, action: Action)
    requires QueueInv(cfg, s) && w < |s.workers| && WorkerInv(cfg, s, s.workers[w])
    ensures var s' := Perform(s, w, EffectOf(cfg, s, s.workers[w], action));
      WorkerInv(cfg, s', s'.workers[w])
  {
    hide EffectOf, Perform, WorkerInv, QueueInv;
    EffectFitsWorker(cfg, s, s.workers[w], action);
    FittingEffectKeeps(cfg, s, w, EffectOf(cfg, s, s.workers[w], action));
  }

  lemma WorkKeepsOthers(cfg: Config, s: State, w: nat, effect: Effect, i: nat)
    requires w < |s.workers| && i < |s.workers| && i != w && (effect.Pull? ==> s.queue != [])
    requires WorkerInv(cfg, s, s.workers[i])
    ensures WorkerInv(cfg, Perform(s, w, effect), Perform(s, w, effect).workers[i])
  {
  }

  lemma WorkKeeps(cfg: Config, s: State, w: nat, action: Action)
    requires Inv(cfg, s) && w < |s.workers|
    ensures Inv(cfg, Perform(s, w, EffectOf(cfg, s, s.workers[w], action)))
  {
    var effect := EffectOf(cfg, s, s.workers[w], action);
    var s' := Perform(s, w, effect);
    hide QueueInv, WorkerInv, ConservedFor, Counted, EffectOf, Perform;
    WorkKeepsCounters(s, w, effect);
    WorkKeepsQueue(cfg, s, w, action);
    forall e ensures ConservedFor(s', e) { EffectConserves(s, w, effect, e); }
    forall i | 0 <= i < |s'.workers| ensures WorkerInv(cfg, s', s'.workers[i]) {
      assert WorkerInv(cfg, s, s.workers[i]);
      if i == w { WorkKeepsActor(cfg, s, w, action); } else { WorkKeepsOthers(cfg, s, w, effect, i); }
    }
  }

  lemma StepKeeps(cfg: Config, s: State, step: Step)
    requires Inv(cfg, s)
    ensures Inv(cfg, Apply(cfg, s, step))
  {
    hide QueueInv, WorkersInv, ConservedFor, Counted, EffectOf, Perform, ApplyProducer;
    if !step.Work? {
      ProducerKeeps(cfg, s, step);
      forall e ensures ConservedFor(ApplyProducer(cfg, s, step), e) { ProducerConserves(cfg, s, step, e); }
    } else if step.w < |s.workers| {
      WorkKeeps(cfg, s, step.w, step.action);
    }
  }

  lemma {:induction false} NoHands(n: nat, e: AccessEvent)
    ensures InHands(seq(n, _ => Worker(Waiting, [])), e) == 0
  {
    if n > 0 {
      NoHands(n - 1, e);
      assert seq(n, _ => Worker(Waiting, []))[..n - 1] == seq(n - 1, _ => Worker(Waiting, []));
    }
  }

  lemma StartInv(cfg: Config)
    ensures Inv(cfg, Start(cfg))
  {
    forall e ensures ConservedFor(Start(cfg), e) { NoHands(cfg.workers, e); }
  }

  /** Every reachable state of any run satisfies the invariants. */
  lemma {:induction false} Reachable(cfg: Config, steps: seq<Step>)
    ensures Inv(cfg, Run(cfg, steps))
  {
    hide Inv, Apply, Start;
    if steps == [] {
      StartInv(cfg);
    } else {
      Reachable(cfg, steps[..|steps| - 1]);
      StepKeeps(cfg, Run(cfg, steps[..|steps| - 1]), steps[|steps| - 1]);
    }
  }

  // ----- what the publisher promises -----

  /** For any number of producers and workers, any pattern of failing attempts and a
      Close at any point: accepted = queue + batches in hand + delivered + abandoned,
      within the bounds; nothing is abandoned before Close, nor without a failed attempt. */
  lemma Conservation(cfg: Config, steps: seq<Step>)
    ensures var s := Run(cfg, steps);
      && (forall e :: multiset(s.past.accepted)[e] ==
            multiset(s.queue)[e] + InHands(s.workers, e) + multiset(s.past.delivered)[e] + s.past.abandoned[e])
      && |s.queue| <= cfg.queueSize
      && (forall i :: 0 <= i < |s.workers| ==> |s.workers[i].batch| <= Limit(cfg))
      && (!s.done ==> s.past.abandoned == multiset{})
      && (forall e :: e in s.past.abandoned ==> s.done && e in s.past.failedOnce)
      && s.stats.calls == s.stats.queued + s.stats.dropped + |s.producers|
      && s.stats.queued == |s.past.accepted| && s.stats.published == |s.past.delivered|
  {
    Reachable(cfg, steps);
    var s := Run(cfg, steps);
    forall e ensures multiset(s.past.accepted)[e] ==
      multiset(s.queue)[e] + InHands(s.workers, e) + multiset(s.past.delivered)[e] + s.past.abandoned[e]
    {
      assert ConservedFor(s, e);
    }
    forall i | 0 <= i < |s.workers| ensures |s.workers[i].batch| <= Limit(cfg) {
      assert WorkerInv(cfg, s, s.workers[i]);
    }
  }

  lemma {:induction false} EmptyHands(workers: seq<Worker>, e: AccessEvent)
    requires forall i :: 0 <= i < |workers| ==> workers[i].batch == []
    ensures InHands(workers, e) == 0
  {
    if workers != [] { EmptyHands(workers[..|workers| - 1], e); }
  }

  /** Close drains: once every worker has exited, every event accepted before Close was
      delivered or, after a failed attempt, abandoned; with no failed attempt all of
      them were delivered. What is still in the queue was sent by producers that had
      passed the closed check before Close and sent after it. */
  lemma CloseDrains(cfg: Config, steps: seq<Step>)
    requires cfg.workers > 0
    requires forall i :: 0 <= i < |Run(cfg, steps).workers| ==> Run(cfg, steps).workers[i].phase == Exited
    ensures var s := Run(cfg, steps);
      && s.done && s.past.atClose + |s.queue| <= |s.past.accepted|
      && s.queue == s.past.accepted[|s.past.accepted| - |s.queue|..]
      && (forall e ::
        multiset(s.past.accepted[..s.past.atClose])[e] <= multiset(s.past.delivered)[e] + s.past.abandoned[e])
      && (s.past.failedOnce == {} ==>
            forall e :: multiset(s.past.accepted[..s.past.atClose])[e] <= multiset(s.past.delivered)[e])
  {
    Reachable(cfg, steps);
    var s := Run(cfg, steps);
    assert WorkerInv(cfg, s, s.workers[0]);
    assert s.workers[0].phase == Exited;
    var settled := |s.past.accepted| - |s.queue|;
    assert s.past.accepted == s.past.accepted[..settled] + s.queue;
    assert s.past.accepted[..settled] == s.past.accepted[..s.past.atClose] + s.past.accepted[s.past.atClose..settled];
    forall e
      ensures multiset(s.past.accepted[..s.past.atClose])[e] <= multiset(s.past.delivered)[e] + s.past.abandoned[e]
    {
      assert ConservedFor(s, e);
      forall i | 0 <= i < |s.workers| ensures s.workers[i].batch == [] {
        assert WorkerInv(cfg, s, s.workers[i]);
        assert s.workers[i].phase == Exited;
      }
      EmptyHands(s.workers, e);
    }
    if s.past.failedOnce == {} {
      assert forall e :: s.past.abandoned[e] == 0 by {
        assert forall e :: e in s.past.abandoned ==> e in s.past.failedOnce;
      }
    }
  }

  ghost predicate InOrder(s: State) {
    && |s.workers| == 1
    && (s.past.abandoned == multiset{} ==> s.past.accepted == s.past.delivered + s.workers[0].batch + s.queue)
  }

  lemma ProducerOrder(cfg: Config, s: State, step: Step)
    requires InOrder(s)
    ensures InOrder(ApplyProducer(cfg, s, step))
  {
    if step.Send? {
      var held := s.past.delivered + s.workers[0].batch;
      assert held + (s.queue + [step.event]) == held + s.queue + [step.event];
    }
  }

  lemma EffectOrder(s: State, effect: Effect)
    requires InOrder(s) && (effect.Pull? ==> s.queue != [])
    ensures InOrder(Perform(s, 0, effect))
  {
    var s' := Perform(s, 0, effect);
    if effect.Pull? {
      assert s.queue == [s.queue[0]] + s'.queue;
    } else if effect.Abandon? && s.workers[0].batch != [] {
      assert s.workers[0].batch[0] in s'.past.abandoned;
    }
  }

  lemma StartsInOrder(cfg: Config)
    requires cfg.workers == 1
    ensures InOrder(Start(cfg))
  {
  }

  lemma StepInOrder(cfg: Config, s: State, step: Step)
    requires InOrder(s)
    ensures InOrder(Apply(cfg, s, step))
  {
    hide EffectOf, Perform, ApplyProducer;
    if !step.Work? {
      ProducerOrder(cfg, s, step);
    } else if step.w < |s.workers| {
      PullsSomething(cfg, s, s.workers[0], step.action);
      EffectOrder(s, EffectOf(cfg, s, s.workers[0], step.action));
    }
  }

  /** With one worker, as long as nothing has been abandoned (so at least until Close),
      events are delivered in the order they were accepted: delivered is a prefix of
      accepted, followed by the batch in hand and the queue. */
  lemma {:induction false} OneWorkerInOrder(cfg: Config, steps: seq<Step>)
    requires cfg.workers == 1
    ensures InOrder(Run(cfg, steps))
  {
    hide InOrder, Apply;
    if steps == [] {
      StartsInOrder(cfg);
    } else {
      OneWorkerInOrder(cfg, steps[..|steps| - 1]);
      StepInOrder(cfg, Run(cfg, steps[..|steps| - 1]), steps[|steps| - 1]);
    }
  }

  // ----- what Close can cost, and when it costs nothing -----

  lemma RunNext(cfg: Config, steps: seq<Step>, step: Step)
    ensures Run(cfg, steps + [step]) == Apply(cfg, Run(cfg, steps), step)
    ensures Run(cfg, []) == Start(cfg)
  {
    assert (steps + [step])[..|steps|] == steps;
  }

  /** Taking some steps from a state. */
  function After(cfg: Config, s: State, steps: seq<Step>): State
    decreases |steps|
  {
    if steps == [] then s else After(cfg, Apply(cfg, s, steps[0]), steps[1..])
  }

  lemma {:induction false} RunOn(cfg: Config, steps: seq<Step>, more: seq<Step>)
    ensures Run(cfg, steps + more) == After(cfg, Run(cfg, steps), more)
    decreases |more|
  {
    hide Run, Apply;
    if more == [] {
      assert steps + more == steps;
    } else {
      RunNext(cfg, steps, more[0]);
      RunOn(cfg, steps + [more[0]], more[1..]);
      assert steps + more == steps + [more[0]] + more[1..];
    }
  }

  lemma ThreeAfter(cfg: Config, s: State, a: Step, b: Step, c: Step)
    ensures After(cfg, s, [a, b, c]) == Apply(cfg, Apply(cfg, Apply(cfg, s, a), b), c)
  {
    hide Apply;
    assert [a, b, c][1..] == [b, c] && [b, c][1..] == [c] && [c][1..] == [];
    assert After(cfg, s, [a, b, c]) == After(cfg, Apply(cfg, s, a), [b, c]);
    assert After(cfg, Apply(cfg, s, a), [b, c]) == After(cfg, Apply(cfg, Apply(cfg, s, a), b), [c]);
  }

  /** The only worker waits, nothing is in its hands or in the queue. */
  function Rest(queue: seq<AccessEvent>, closed: bool, producers: multiset<AccessEvent>, worker: Worker,
                stats: Counters, past: History): State {
    State(queue, closed, closed, producers, [worker], stats, past)
  }

  function Untouched(accepted: seq<AccessEvent>): History { History(accepted, [], multiset{}, {}, 0) }

  lemma OneWorkerStarts(cfg: Config)
    requires cfg.workers == 1
    ensures Start(cfg) == Rest([], false, multiset{}, Worker(Waiting, []), Counters(0, 0, 0, 0, 0), Untouched([]))
  {
  }

  /** A producer that has passed the closed check sends after the last worker has exited:
      its event is accepted and stays in the queue. */
  lemma SentAfterDrain(cfg: Config, e: AccessEvent)
    requires cfg.workers == 1 && cfg.queueSize > 0
    ensures var s :=
      Run(cfg, [CheckClosed(e), SetClosed, CloseDone] + [Work(0, SeeDone), Work(0, DrainEmpty), Send(e)]);
      s.workers == [Worker(Exited, [])] && s.queue == [e] && s.past.accepted == [e]
  {
    var first, second := [CheckClosed(e), SetClosed, CloseDone], [Work(0, SeeDone), Work(0, DrainEmpty), Send(e)];
    RunOn(cfg, [], first);
    assert [] + first == first;
    RunOn(cfg, first, second);
    OneWorkerStarts(cfg);
    RunNext(cfg, [], SetClosed);
    ThreeAfter(cfg, Start(cfg), CheckClosed(e), SetClosed, CloseDone);
    var s := Rest([], true, multiset{e}, Worker(Waiting, []), Counters(1, 0, 0, 0, 0), Untouched([]));
    CheckedThenClosed(cfg, e);
    ThreeAfter(cfg, s, Work(0, SeeDone), Work(0, DrainEmpty), Send(e));
    DrainedThenSent(cfg, e, s);
  }

  lemma CheckedThenClosed(cfg: Config, e: AccessEvent)
    requires cfg.workers == 1
    ensures Apply(cfg, Apply(cfg, Apply(cfg, Start(cfg), CheckClosed(e)), SetClosed), CloseDone)
         == Rest([], true, multiset{e}, Worker(Waiting, []), Counters(1, 0, 0, 0, 0), Untouched([]))
  {
    OneWorkerStarts(cfg);
  }

  lemma DrainedThenSent(cfg: Config, e: AccessEvent, s: State)
    requires cfg.queueSize > 0
    requires s == Rest([], true, multiset{e}, Worker(Waiting, []), Counters(1, 0, 0, 0, 0), Untouched([]))
    ensures var t := Apply(cfg, Apply(cfg, Apply(cfg, s, Work(0, SeeDone)), Work(0, DrainEmpty)), Send(e));
      t.workers == [Worker(Exited, [])] && t.queue == [e] && t.past.accepted == [e]
  {
    var s1 := Apply(cfg, s, Work(0, SeeDone));
    assert s1 == s.(workers := [Worker(Draining, [])]);
    var s2 := Apply(cfg, s1, Work(0, DrainEmpty));
    assert s2 == s.(workers := [Worker(Exited, [])]);
  }

  /** The k-th step is the call that closes, and no producer is between check and send. */
  ghost predicate ClosesQuietly(cfg: Config, steps: seq<Step>, k: nat) {
    k < |steps| && steps[k] == SetClosed && !Run(cfg, steps[..k]).closed && Run(cfg, steps[..k]).producers == multiset{}
  }

  ghost predicate QuietSince(s: State, accepted: nat) {
    && s.closed && s.producers == multiset{} && |s.past.accepted| == accepted
    && (s.done ==> s.past.atClose == accepted)
  }

  lemma QuietStep(cfg: Config, s: State, step: Step, accepted: nat)
    requires QuietSince(s, accepted)
    ensures QuietSince(Apply(cfg, s, step), accepted)
  {
    hide InHands, Elements;
  }

  lemma QuietStart(cfg: Config, s: State)
    requires s.producers == multiset{} && !s.done
    ensures QuietSince(Apply(cfg, s, SetClosed), |s.past.accepted|)
  {
  }

  lemma {:induction false} QuietFrom(cfg: Config, steps: seq<Step>, k: nat)
    requires ClosesQuietly(cfg, steps, k)
    ensures QuietSince(Run(cfg, steps), |Run(cfg, steps[..k]).past.accepted|)
    decreases |steps|
  {
    hide QuietSince, Apply;
    var front, last := steps[..|steps| - 1], steps[|steps| - 1];
    assert front + [last] == steps;
    RunNext(cfg, front, last);
    assert front[..k] == steps[..k];
    if k < |front| {
      QuietFrom(cfg, front, k);
      QuietStep(cfg, Run(cfg, front), last, |Run(cfg, steps[..k]).past.accepted|);
    } else {
      assert front == steps[..k];
      NotDone(cfg, front);
      QuietStart(cfg, Run(cfg, front));
    }
  }

  lemma NotDone(cfg: Config, steps: seq<Step>)
    ensures !Run(cfg, steps).closed ==> !Run(cfg, steps).done
  {
    Reachable(cfg, steps);
  }

  /** If no producer stands between its check and its send when the publisher is closed,
      nothing is stranded: the queue is empty once all workers have exited. */
  lemma QuietCloseStrandsNothing(cfg: Config, steps: seq<Step>, k: nat)
    requires cfg.workers > 0 && ClosesQuietly(cfg, steps, k)
    requires forall i :: 0 <= i < |Run(cfg, steps).workers| ==> Run(cfg, steps).workers[i].phase == Exited
    ensures Run(cfg, steps).queue == []
    ensures forall e :: multiset(Run(cfg, steps).past.accepted)[e]
                     == multiset(Run(cfg, steps).past.delivered)[e] + Run(cfg, steps).past.abandoned[e]
  {
    CloseDrains(cfg, steps);
    QuietFrom(cfg, steps, k);
    Conservation(cfg, steps);
    var s := Run(cfg, steps);
    Reachable(cfg, steps);
    hide Run;
    forall i | 0 <= i < |s.workers| ensures s.workers[i].batch == [] {
      assert WorkerInv(cfg, s, s.workers[i]) && s.workers[i].phase == Exited;
    }
    forall e ensures InHands(s.workers, e) == 0 { EmptyHands(s.workers, e); }
  }

  // ----- a continuation that strands -----

  /** How far a worker is from leaving, apart from the queue. */
  function Distance(p: Phase): nat {
    match p
    case Collecting => 7
    case Publishing => 6
    case Backoff => 6
    case Waiting => 5
    case Flushing => 4
    case Draining => 3
    case LastFlush => 1
    case Exited => 0
  }

  /** What a worker does next when nothing fails and no one waits any longer. */
  function NextAction(s: State, p: Phase): Action {
    match p
    case Collecting => StopCollecting
    case Publishing => Attempt(true)
    case Backoff => GiveUp
    case Waiting => SeeDone
    case Draining => if s.queue != [] then DrainTake else DrainEmpty
    case _ => Flush(true)
  }

  /** Only worker w and the queue have moved, the queue towards empty. */
  ghost predicate OnlyWorker(w: nat, s: State, t: State) {
    && w < |s.workers| == |t.workers| && (forall i :: 0 <= i < |s.workers| && i != w ==> t.workers[i] == s.workers[i])
    && t.producers == s.producers && t.closed == s.closed && t.done == s.done
    && |t.queue| <= |s.queue|
  }

  lemma NextStep(cfg: Config, s: State, w: nat)
    requires w < |s.workers| && s.workers[w].phase != Exited && s.done
    ensures var t := Apply(cfg, s, Work(w, NextAction(s, s.workers[w].phase)));
      && OnlyWorker(w, s, t)
      && (|t.queue| < |s.queue| || Distance(t.workers[w].phase) < Distance(s.workers[w].phase))
      && (t.workers[w].phase == Exited ==> t.queue == s.queue && (s.workers[w].phase == LastFlush || s.queue == []))
      && (t.workers[w].phase == LastFlush ==> t.queue == [])
  {
    hide InHands, Elements;
  }

  /** A worker can leave, at an empty queue. */
  lemma {:induction false} WorkerExits(cfg: Config, s: State, w: nat) returns (more: seq<Step>, t: State)
    requires w < |s.workers| && s.done && (s.workers[w].phase == LastFlush ==> s.queue == [])
    ensures t == After(cfg, s, more) && OnlyWorker(w, s, t) && t.workers[w].phase == Exited
    ensures s.workers[w].phase != Exited ==> t.queue == []
    decreases |s.queue|, Distance(s.workers[w].phase)
  {
    hide Apply, NextAction;
    if s.workers[w].phase == Exited {
      more, t := [], s;
    } else {
      var step := Work(w, NextAction(s, s.workers[w].phase));
      NextStep(cfg, s, w);
      var next := Apply(cfg, s, step);
      var rest;
      rest, t := WorkerExits(cfg, next, w);
      more := [step] + rest;
      assert more[0] == step && more[1..] == rest;
    }
  }

  lemma {:induction false} AfterAfter(cfg: Config, s: State, a: seq<Step>, b: seq<Step>)
    ensures After(cfg, s, a + b) == After(cfg, After(cfg, s, a), b)
    decreases |a|
  {
    hide Apply;
    if a == [] {
      assert a + b == b;
    } else {
      assert (a + b)[0] == a[0] && (a + b)[1..] == a[1..] + b;
      AfterAfter(cfg, Apply(cfg, s, a[0]), a[1..], b);
    }
  }

  /** The first n workers can leave, one after the other. */
  lemma {:induction false} WorkersExit(cfg: Config, s: State, n: nat) returns (more: seq<Step>, t: State)
    requires n <= |s.workers| && s.done
    requires forall i :: 0 <= i < |s.workers| ==> s.workers[i].phase !in {LastFlush, Exited}
    ensures t == After(cfg, s, more) && |t.workers| == |s.workers|
    ensures t.producers == s.producers && t.done && |t.queue| <= |s.queue| && (n > 0 ==> t.queue == [])
    ensures forall i :: 0 <= i < |s.workers| ==>
      if i < n then t.workers[i].phase == Exited else t.workers[i] == s.workers[i]
  {
    hide Apply, After;
    if n == 0 {
      more, t := [], s;
      NothingAfter(cfg, s);
    } else {
      var first, u := WorkersExit(cfg, s, n - 1);
      var second;
      second, t := WorkerExits(cfg, u, n - 1);
      more := first + second;
      AfterAfter(cfg, s, first, second);
    }
  }

  lemma NothingAfter(cfg: Config, s: State)
    ensures After(cfg, s, []) == s
  {
  }

  // ----- Close ends -----

  function Weight(p: Phase): nat {
    match p
    case Collecting => 8
    case Backoff => 8
    case Publishing => 7
    case Waiting => 6
    case Flushing => 5
    case Draining => 4
    case LastFlush => 1
    case Exited => 0
  }

  function Weights(workers: seq<Worker>): nat {
    if workers == [] then 0 else Weights(workers[..|workers| - 1]) + Weight(workers[|workers| - 1].phase)
  }

  lemma {:induction false} WeightsUpdate(workers: seq<Worker>, w: nat, to: Worker)
    requires w < |workers|
    ensures Weights(workers[w := to]) + Weight(workers[w].phase) == Weights(workers) + Weight(to.phase)
  {
    var n, after := |workers| - 1, workers[w := to];
    if w < n {
      WeightsUpdate(workers[..n], w, to);
      assert after[..n] == workers[..n][w := to] && after[n] == workers[n];
    } else {
      assert after[..n] == workers[..n] && after[n] == to;
    }
  }

  /** How many steps are left for all to have gone, no attempt failing. */
  function ToGo(s: State): nat { Weights(s.workers) + 3 * |s.queue| + 4 * |s.producers| }

  /** A worker does something, or a producer finishes its call. */
  predicate Moves(cfg: Config, s: State, step: Step) {
    var t := Apply(cfg, s, step);
    t.workers != s.workers || t.queue != s.queue || t.producers != s.producers
  }

  predicate Fails(step: Step) { step.Work? && step.action == Attempt(false) }

  /** Every effect but a failed attempt makes its worker, or the queue, lighter. */
  ghost predicate Lightens(s: State, p: Phase, effect: Effect) {
    match effect
    case Nothing => true
    case Pull(next) => s.queue != [] && Weight(next) < Weight(p) + 3
    case Turn(next) => Weight(next) < Weight(p)
    case Fail => p == Publishing
    case Deliver(next) => Weight(next) < Weight(p)
    case Abandon(next, _) => Weight(next) < Weight(p)
  }

  lemma EffectLightens(cfg: Config, s: State, w: Worker, action: Action)
    ensures Lightens(s, w.phase, EffectOf(cfg, s, w, action))
    ensures EffectOf(cfg, s, w, action).Fail? ==> action == Attempt(false)
  {
  }

  lemma PerformCounts(s: State, w: nat, effect: Effect)
    requires w < |s.workers| && Lightens(s, s.workers[w].phase, effect)
    ensures var t := Perform(s, w, effect);
      && t.producers == s.producers
      && (effect == Nothing ==> t == s)
      && Weights(t.workers) + 3 * |t.queue| + (if effect == Nothing then 0 else 1)
         <= Weights(s.workers) + 3 * |s.queue| + if effect.Fail? then 2 else 0
  {
    var t := Perform(s, w, effect);
    WeightsUpdate(s.workers, w, t.workers[w]);
    hide Weights, Elements;
    assert t.workers == s.workers[w := t.workers[w]];
  }

  lemma WorkCounts(cfg: Config, s: State, step: Step)
    requires s.done && step.Work? && step.w < |s.workers|
    ensures ToGo(Apply(cfg, s, step)) + (if Moves(cfg, s, step) then 1 else 0)
         <= ToGo(s) + if Fails(step) then 2 else 0
  {
    var w := s.workers[step.w];
    var effect := EffectOf(cfg, s, w, step.action);
    EffectLightens(cfg, s, w, step.action);
    PerformCounts(s, step.w, effect);
    hide Perform, EffectOf, Weights, Lightens;
  }

  lemma ProducerCounts(cfg: Config, s: State, step: Step)
    requires s.done && s.closed && !step.Work?
    ensures ToGo(Apply(cfg, s, step)) + (if Moves(cfg, s, step) then 1 else 0) <= ToGo(s)
  {
    hide Weights;
  }

  function MovesIn(cfg: Config, s: State, steps: seq<Step>): nat
    decreases |steps|
  {
    if steps == [] then 0
    else (if Moves(cfg, s, steps[0]) then 1 else 0) + MovesIn(cfg, Apply(cfg, s, steps[0]), steps[1..])
  }

  function FailuresIn(steps: seq<Step>): nat {
    if steps == [] then 0 else (if Fails(steps[0]) then 1 else 0) + FailuresIn(steps[1..])
  }

  /** Once `done` has closed, however everyone's steps interleave, no more steps move anything
      than the workers, the queue and the producers of that moment allow, and two for every
      failing attempt: so the wait in Close ends. */
  lemma {:induction false} CloseEnds(cfg: Config, s: State, steps: seq<Step>)
    requires s.done && s.closed
    ensures MovesIn(cfg, s, steps) + ToGo(After(cfg, s, steps)) <= ToGo(s) + 2 * FailuresIn(steps)
    decreases |steps|
  {
    hide ToGo, Moves, Apply;
    if steps != [] {
      StepCounts(cfg, s, steps[0]);
      CloseEnds(cfg, Apply(cfg, s, steps[0]), steps[1..]);
    }
  }

  lemma StepCounts(cfg: Config, s: State, step: Step)
    requires s.done && s.closed
    ensures Apply(cfg, s, step).done && Apply(cfg, s, step).closed
    ensures ToGo(Apply(cfg, s, step)) + (if Moves(cfg, s, step) then 1 else 0)
         <= ToGo(s) + if Fails(step) then 2 else 0
  {
    StaysClosed(cfg, s, step);
    hide Apply, ToGo, Fails, Moves;
    if !step.Work? {
      ProducerCounts(cfg, s, step);
    } else if step.w < |s.workers| {
      WorkCounts(cfg, s, step);
    } else {
      NobodyMoves(cfg, s, step);
    }
  }

  lemma StaysClosed(cfg: Config, s: State, step: Step)
    requires s.done && s.closed
    ensures Apply(cfg, s, step).done && Apply(cfg, s, step).closed
  {
    hide Elements;
  }

  lemma NobodyMoves(cfg: Config, s: State, step: Step)
    requires step.Work? && step.w >= |s.workers|
    ensures Apply(cfg, s, step) == s && !Moves(cfg, s, step)
  {
  }

  /** And until all have gone, each worker that has not can do something. */
  lemma NobodyIsStuck(cfg: Config, s: State, w: nat)
    requires s.done && w < |s.workers| && s.workers[w].phase != Exited
    ensures Moves(cfg, s, Work(w, NextAction(s, s.workers[w].phase)))
  {
    NextStep(cfg, s, w);
    hide Apply, NextAction;
  }

  /** All workers have exited and an event is in the queue. */
  ghost predicate Strands(cfg: Config, steps: seq<Step>) {
    && (forall i :: 0 <= i < |Run(cfg, steps).workers| ==> Run(cfg, steps).workers[i].phase == Exited)
    && Run(cfg, steps).queue != []
  }

  /** Before `done` no worker drains. */
  lemma NobodyDrains(cfg: Config, steps: seq<Step>)
    requires !Run(cfg, steps).closed
    ensures var s := Run(cfg, steps);
      !s.done && |s.workers| == cfg.workers
      && forall i :: 0 <= i < |s.workers| ==> s.workers[i].phase !in {LastFlush, Exited}
  {
    Reachable(cfg, steps);
    NotDone(cfg, steps);
    hide Run;
    var s := Run(cfg, steps);
    forall i | 0 <= i < |s.workers| ensures s.workers[i].phase !in {LastFlush, Exited} {
      assert WorkerInv(cfg, s, s.workers[i]);
    }
  }

  lemma ClosingMoves(cfg: Config, s: State)
    requires !s.done
    ensures var t := Apply(cfg, Apply(cfg, s, SetClosed), CloseDone);
      t.done && t.workers == s.workers && t.producers == s.producers && t.queue == s.queue
  {
  }

  lemma SendMoves(cfg: Config, t: State, e: AccessEvent)
    requires e in t.producers && |t.queue| < cfg.queueSize
    ensures var u := Apply(cfg, t, Send(e)); u.workers == t.workers && u.queue == t.queue + [e]
  {
  }

  /** Closing at this point, the publisher can strand an event, that is, let every worker
      exit with one in the queue, if and only if a producer stands between its check and its
      send. */
  lemma StrandsExactly(cfg: Config, steps: seq<Step>)
    requires cfg.workers > 0 && cfg.queueSize > 0 && !Run(cfg, steps).closed
    ensures (exists more: seq<Step> :: Strands(cfg, steps + [SetClosed] + more)) <==>
            Run(cfg, steps).producers != multiset{}
  {
    hide Apply, Run, After;
    if Run(cfg, steps).producers == multiset{} {
      forall more: seq<Step> ensures !Strands(cfg, steps + [SetClosed] + more) {
        var all := steps + [SetClosed] + more;
        assert all[..|steps|] == steps && all[|steps|] == SetClosed;
        if Strands(cfg, all) { QuietCloseStrandsNothing(cfg, all, |steps|); }
      }
    } else {
      var e :| e in Run(cfg, steps).producers;
      var more := Stranding(cfg, steps, e);
      assert Strands(cfg, steps + [SetClosed] + more);
    }
  }

  /** The run that strands a waiting producer's event. */
  lemma Stranding(cfg: Config, steps: seq<Step>, e: AccessEvent) returns (more: seq<Step>)
    requires cfg.workers > 0 && cfg.queueSize > 0 && !Run(cfg, steps).closed && e in Run(cfg, steps).producers
    ensures Strands(cfg, steps + [SetClosed] + more) && Run(cfg, steps + [SetClosed] + more).queue == [e]
  {
    hide Apply, Run, After;
    NobodyDrains(cfg, steps);
    ClosingMoves(cfg, Run(cfg, steps));
    RunNext(cfg, steps, SetClosed);
    RunNext(cfg, steps + [SetClosed], CloseDone);
    var closed := steps + [SetClosed] + [CloseDone];
    var leave, t := WorkersExit(cfg, Run(cfg, closed), cfg.workers);
    RunOn(cfg, closed, leave);
    RunNext(cfg, closed + leave, Send(e));
    SendMoves(cfg, t, e);
    more := [CloseDone] + leave + [Send(e)];
    assert steps + [SetClosed] + more == closed + leave + [Send(e)];
  }

  /** An attempt that fails and a Close before the retry: the event is given up. */
  lemma GivenUpAfterClose(cfg: Config, e: AccessEvent)
    requires cfg.workers == 1 && cfg.queueSize > 0
    ensures var s := Run(cfg, [CheckClosed(e), Send(e), Work(0, Take)]
                              + [Work(0, StopCollecting), Work(0, Attempt(false)), SetClosed]
                              + [CloseDone, Work(0, GiveUp)]);
      s.past.accepted == [e] && s.past.abandoned == multiset{e} && s.past.delivered == []
  {
    hide *;
    var first := [CheckClosed(e), Send(e), Work(0, Take)];
    var second := [Work(0, StopCollecting), Work(0, Attempt(false)), SetClosed];
    RunOn(cfg, [], first);
    assert [] + first == first;
    RunOn(cfg, first, second);
    RunNext(cfg, [], SetClosed);
    ThreeAfter(cfg, Start(cfg), CheckClosed(e), Send(e), Work(0, Take));
    var s := Taken(cfg, e);
    ThreeAfter(cfg, s, Work(0, StopCollecting), Work(0, Attempt(false)), SetClosed);
    var t := FailedThenClosed(cfg, e, s);
    RunNext(cfg, first + second, CloseDone);
    RunNext(cfg, first + second + [CloseDone], Work(0, GiveUp));
    assert first + second + [CloseDone] + [Work(0, GiveUp)] == first + second + [CloseDone, Work(0, GiveUp)];
    GivesUp(cfg, e, t);
  }

  lemma GivesUp(cfg: Config, e: AccessEvent, t: State)
    requires t.closed && !t.done && t.workers == [Worker(Backoff, [e])] && t.past == Untouched([e]).(failedOnce := {e})
    ensures var s := Apply(cfg, Apply(cfg, t, CloseDone), Work(0, GiveUp));
      s.past.accepted == [e] && s.past.abandoned == multiset{e} && s.past.delivered == []
  {
    var u := Apply(cfg, t, CloseDone);
    assert u == t.(done := true, past := t.past.(atClose := 1));
  }

  lemma Taken(cfg: Config, e: AccessEvent) returns (s: State)
    requires cfg.workers == 1 && cfg.queueSize > 0
    ensures s == Apply(cfg, Apply(cfg, Apply(cfg, Start(cfg), CheckClosed(e)), Send(e)), Work(0, Take))
    ensures s == Rest([], false, multiset{}, Worker(Collecting, [e]), Counters(1, 1, 0, 0, 0), Untouched([e]))
  {
    OneWorkerStarts(cfg);
    var s1 := Apply(cfg, Start(cfg), CheckClosed(e));
    assert s1 == Rest([], false, multiset{e}, Worker(Waiting, []), Counters(1, 0, 0, 0, 0), Untouched([]));
    var s2 := Apply(cfg, s1, Send(e));
    assert s2 == Rest([e], false, multiset{}, Worker(Waiting, []), Counters(1, 1, 0, 0, 0), Untouched([e]));
    s := Apply(cfg, s2, Work(0, Take));
  }

  lemma FailedThenClosed(cfg: Config, e: AccessEvent, s: State) returns (t: State)
    requires s == Rest([], false, multiset{}, Worker(Collecting, [e]), Counters(1, 1, 0, 0, 0), Untouched([e]))
    ensures t == Apply(cfg, Apply(cfg, Apply(cfg, s, Work(0, StopCollecting)), Work(0, Attempt(false))), SetClosed)
    ensures t.closed && !t.done && t.workers == [Worker(Backoff, [e])]
    ensures t.past == Untouched([e]).(failedOnce := {e})
  {
    var s1 := Apply(cfg, s, Work(0, StopCollecting));
    assert s1 == s.(workers := [Worker(Publishing, [e])]);
    var s2 := Apply(cfg, s1, Work(0, Attempt(false)));
    assert s2.workers == [Worker(Backoff, [e])];
    t := Apply(cfg, s2, SetClosed);
  }

  predicate AttemptFails(step: Step) { step.Work? && (step.action == Attempt(false) || step.action == Flush(false)) }

  /** If no attempt fails, nothing is ever abandoned. */
  lemma {:induction false} NoFailureAbandonsNothing(cfg: Config, steps: seq<Step>)
    requires forall k :: 0 <= k < |steps| ==> !AttemptFails(steps[k])
    ensures Run(cfg, steps).past.failedOnce == {} && Run(cfg, steps).past.abandoned == multiset{}
  {
    if steps != [] {
      var front, last := steps[..|steps| - 1], steps[|steps| - 1];
      NoFailureAbandonsNothing(cfg, front);
      assert front + [last] == steps && !AttemptFails(steps[|steps| - 1]);
      RunNext(cfg, front, last);
      NoFailureStep(cfg, Run(cfg, front), last);
    }
    Conservation(cfg, steps);
    assert forall e :: e !in Run(cfg, steps).past.abandoned;
  }

  lemma NoFailureStep(cfg: Config, s: State, step: Step)
    requires !AttemptFails(step)
    ensures Apply(cfg, s, step).past.failedOnce == s.past.failedOnce
  {
    hide EffectOf, Perform;
    if step.Work? && step.w < |s.workers| {
      var effect := EffectOf(cfg, s, s.workers[step.w], step.action);
      EffectFails(cfg, s, s.workers[step.w], step.action);
      PullsSomething(cfg, s, s.workers[step.w], step.action);
      NoFailureEffect(s, step.w, effect);
    }
  }

  lemma EffectFails(cfg: Config, s: State, w: Worker, action: Action)
    ensures var effect := EffectOf(cfg, s, w, action);
      effect.Fail? || (effect.Abandon? && effect.failed) ==> action == Attempt(false) || action == Flush(false)
  {
  }

  lemma PullsSomething(cfg: Config, s: State, w: Worker, action: Action)
    ensures EffectOf(cfg, s, w, action).Pull? ==> s.queue != []
  {
  }

  lemma NoFailureEffect(s: State, w: nat, effect: Effect)
    requires w < |s.workers| && (effect.Pull? ==> s.queue != [])
    requires !effect.Fail? && (effect.Abandon? ==> !effect.failed)
    ensures Perform(s, w, effect).past.failedOnce == s.past.failedOnce
  {
  }
}
