/** The publisher object and its loops as they are written: Publish, Close, the worker
    loop, collectBatch, publishBatchWithRecovery and drain. Each access to the shared
    object is one step of the transition system, and everyone else may step in between. */
module PublisherLoops {
  import opened Events
  import opened AsyncPublisher

  datatype PublishResult = Queued | Closed | QueueFull

  /** How many accepted events have left the queue: the position of its head. */
  function Dequeued(s: State): int { |s.past.accepted| - |s.queue| }

  /** What a worker can rely on while others run. */
  ghost predicate Later(s: State, t: State) {
    && (s.closed ==> t.closed) && (s.done ==> t.done)
    && s.past.accepted <= t.past.accepted && s.past.delivered <= t.past.delivered
    && s.past.abandoned <= t.past.abandoned && s.past.failedOnce <= t.past.failedOnce
    && |t.workers| == |s.workers|
    && s.stats.dropped <= t.stats.dropped && s.stats.queued <= t.stats.queued
    // events only ever leave the queue at its head
    && Dequeued(s) <= Dequeued(t)
    // a closed publisher lets no new producer in
    && (s.closed ==> |t.queue| + |t.producers| <= |s.queue| + |s.producers|)
  }

  lemma ProducerLater(cfg: Config, s: State, step: Step)
    ensures Later(s, ApplyProducer(cfg, s, step)) && ApplyProducer(cfg, s, step).workers == s.workers
  {
  }

  lemma EffectLater(s: State, w: nat, effect: Effect)
    requires w < |s.workers| && (effect.Pull? ==> s.queue != [])
    ensures Later(s, Perform(s, w, effect))
  {
  }

  lemma StepLater(cfg: Config, s: State, step: Step)
    ensures Later(s, Apply(cfg, s, step))
    ensures forall w :: 0 <= w < |s.workers| && !(step.Work? && step.w == w) ==>
      Apply(cfg, s, step).workers[w] == s.workers[w]
  {
    ProducerLater(cfg, s, step);
    if step.Work? && step.w < |s.workers| {
      EffectLater(s, step.w, EffectOf(cfg, s, s.workers[step.w], step.action));
    }
  }

  /** Nobody but worker w touches worker w, and nobody else sends the events `mine`. */
  ghost predicate Undisturbed(w: nat, mine: multiset<AccessEvent>, s: State, t: State) {
    && Later(s, t)
    && (w < |s.workers| ==> t.workers[w] == s.workers[w])
    && (mine <= s.producers ==> mine <= t.producers)
  }

  lemma OtherStep(cfg: Config, s: State, step: Step, w: nat, mine: multiset<AccessEvent>)
    requires !(step.Work? && step.w == w) && !(step.Send? && step.event in mine)
    ensures Undisturbed(w, mine, s, Apply(cfg, s, step))
  {
    StepLater(cfg, s, step);
  }

  lemma UndisturbedTrans(w: nat, mine: multiset<AccessEvent>, s: State, t: State, u: State)
    requires Undisturbed(w, mine, s, t) && Undisturbed(w, mine, t, u)
    ensures Undisturbed(w, mine, s, u)
  {
  }

  lemma LaterTrans(s: State, t: State, u: State)
    requires Later(s, t) && Later(t, u)
    ensures Later(s, u)
  {
  }

  /** So it is from any point of a run to any later one. */
  lemma {:induction false} LaterInRun(cfg: Config, a: seq<Step>, b: seq<Step>)
    requires a <= b
    ensures Later(Run(cfg, a), Run(cfg, b))
  {
    hide Run, Apply, Later;
    if |a| == |b| {
      assert a == b;
      LaterSelf(Run(cfg, a));
    } else {
      var front, last := b[..|b| - 1], b[|b| - 1];
      LaterInRun(cfg, a, front);
      RunNext(cfg, front, last);
      assert front + [last] == b;
      StepLater(cfg, Run(cfg, front), last);
      LaterTrans(Run(cfg, a), Run(cfg, front), Run(cfg, b));
    }
  }

  lemma LaterSelf(s: State)
    ensures Later(s, s)
  {
  }

  function Power2(n: nat): (r: nat)
    ensures r > 0
  {
    if n == 0 then 1 else 2 * Power2(n - 1)
  }

  lemma FlushEffect(cfg: Config, s: State, w: nat, phase: Phase, next: Phase, ok: bool)
    requires w < |s.workers| && s.workers[w].phase == phase
    requires (phase, next) in {(Flushing, Draining), (LastFlush, Exited)}
    ensures var s', batch := Apply(cfg, s, Work(w, Flush(ok))), s.workers[w].batch;
      && w < |s'.workers| && s'.workers[w] == Worker(next, [])
      && s'.queue == s.queue && s'.producers == s.producers && s'.closed == s.closed
      && (ok ==> s'.past.delivered == s.past.delivered + batch)
      && (!ok ==> s'.past.abandoned == s.past.abandoned + multiset(batch) && Elements(batch) <= s'.past.failedOnce)
  {
  }

  lemma AttemptEffect(cfg: Config, s: State, w: nat, batch: seq<AccessEvent>, ok: bool)
    requires w < |s.workers| && s.workers[w] == Worker(Publishing, batch)
    ensures var s' := Apply(cfg, s, Work(w, Attempt(ok)));
      && w < |s'.workers| && s'.workers[w] == (if ok then Worker(Waiting, []) else Worker(Backoff, batch))
      && (ok ==> s'.past.delivered == s.past.delivered + batch)
      && (!ok ==> Elements(batch) <= s'.past.failedOnce)
  {
  }

  lemma DropEffect(cfg: Config, s: State, w: nat, batch: seq<AccessEvent>)
    requires w < |s.workers| && s.workers[w] == Worker(Backoff, batch) && s.done
    ensures var s' := Apply(cfg, s, Work(w, GiveUp));
      && w < |s'.workers| && s'.workers[w] == Worker(Waiting, []) && s'.done
      && s'.past.abandoned == s.past.abandoned + multiset(batch) && s'.past.failedOnce == s.past.failedOnce
  {
  }

  class AsyncEventPublisher {
    const cfg: Config
    const retryInitial: nat
    const retryMax: nat
    var queue: seq<AccessEvent>
    var closed: bool
    var done: bool
    var stats: Counters
    var outages: nat                  // how many more inner publishes will fail
    var producers: multiset<AccessEvent>
    var workers: seq<Worker>          // what each worker goroutine holds
    var past: History
    ghost var trace: seq<Step>        // every step taken so far, by anyone

    function Snapshot(): State
      reads this
    {
      State(queue, closed, done, producers, workers, stats, past)
    }

    ghost predicate Valid()
      reads this
    {
      Snapshot() == Run(cfg, trace) && 0 < retryInitial <= retryMax
    }

    /** `NewAsyncEventPublisher`: non-positive settings fall back to defaults. */
    constructor (queueSize: int, workerCount: int, batchSize: int, retryInitial: int, retryMax: int, outages: nat)
      ensures Valid() && trace == []
      ensures cfg.queueSize == if queueSize > 0 then queueSize else 100000
      ensures cfg.workers == if workerCount > 0 then workerCount else 1
      ensures cfg.batchSize == if batchSize > 0 then batchSize else 100
      ensures this.retryInitial == if retryInitial > 0 then retryInitial else 100
      ensures this.retryMax == this.retryInitial
           || (this.retryMax > this.retryInitial && this.retryMax == if retryMax > 0 then retryMax else 5000)
      ensures this.outages == outages
    {
      var c := Config(if queueSize <= 0 then 100000 else queueSize,
                      if workerCount <= 0 then 1 else workerCount,
                      if batchSize <= 0 then 100 else batchSize);
      var initial := if retryInitial <= 0 then 100 else retryInitial;
      var max := if retryMax <= 0 then 5000 else retryMax;
      this.cfg, this.retryInitial, this.retryMax := c, initial, if max < initial then initial else max;
      queue, closed, done, stats, this.outages := [], false, false, Counters(0, 0, 0, 0, 0), outages;
      producers, past, trace := multiset{}, History([], [], multiset{}, {}, 0), [];
      workers := seq(c.workers, _ => Worker(Waiting, []));
    }

    /** One step of the shared object. */
    method Take(step: Step)
      requires Valid()
      modifies this
      ensures outages == old(outages)
      ensures Valid() && trace == old(trace) + [step] && Snapshot() == Apply(cfg, old(Snapshot()), step)
    {
      hide Run, Apply;
      var t := Apply(cfg, Snapshot(), step);
      RunNext(cfg, trace, step);
      queue, closed, done, stats, producers, workers, past :=
        t.queue, t.closed, t.done, t.stats, t.producers, t.workers, t.past;
      trace := trace + [step];
    }

    /** Everyone but worker w, and but the producers about to send `mine`. */
    method Others(w: nat, mine: multiset<AccessEvent>)
      requires Valid()
      modifies this
      ensures Valid() && old(trace) <= trace && outages == old(outages)
      ensures Undisturbed(w, mine, old(Snapshot()), Snapshot())
      ensures w < |old(workers)| ==> w < |workers| && workers[w] == old(workers)[w]
      ensures (old(closed) ==> closed && |queue| + |producers| <= |old(queue)| + |old(producers)|)
          && (old(done) ==> done)
    {
      var steps: seq<Step> := *;
      ghost var s0 := Snapshot();
      for i := 0 to |steps|
        invariant Valid() && old(trace) <= trace && outages == old(outages)
        invariant Undisturbed(w, mine, s0, Snapshot())
      {
        hide Undisturbed, Apply, Run;
        var step := steps[i];
        if !(step.Work? && step.w == w) && !(step.Send? && step.event in mine) {
          ghost var s := Snapshot();
          OtherStep(cfg, s, step, w, mine);
          Take(step);
          UndisturbedTrans(w, mine, s0, s, Snapshot());
        }
      }
    }

    /** `p.closed.Load()`. */
    method CheckOpen(e: AccessEvent) returns (open: bool)
      requires Valid()
      modifies this
      ensures Valid() && old(trace) <= trace && outages == old(outages)
      ensures open == !old(closed) && closed == old(closed)
      ensures open ==>
        multiset{e} <= producers && stats.dropped == old(stats).dropped && stats.queued == old(stats).queued
      ensures !open ==> stats.dropped == old(stats).dropped + 1
    {
      Take(CheckClosed(e));
      open := !closed;
    }

    /** The select with a send and a default. */
    method TrySend(e: AccessEvent) returns (sent: bool)
      requires Valid() && e in producers
      modifies this
      ensures Valid() && old(trace) <= trace && outages == old(outages)
      ensures sent <==> |old(queue)| < cfg.queueSize
      ensures sent ==> queue == old(queue) + [e] && past.accepted == old(past).accepted + [e]
      ensures sent ==> stats.queued == old(stats).queued + 1
      ensures !sent ==> queue == old(queue) && stats.dropped == old(stats).dropped + 1
    {
      sent := |queue| < cfg.queueSize;
      Take(Send(e));
    }

    /** `Publish`: the closed check and the send are two steps; the event is queued, or
        the call is counted as dropped and reports why. */
    method Publish(e: AccessEvent) returns (r: PublishResult)
      requires Valid()
      modifies this
      ensures Valid() && old(trace) <= trace && outages == old(outages)
      ensures (r == Closed <==> old(closed)) && (r == Closed ==> closed)
      ensures r == Queued ==> past.accepted != [] && past.accepted[|past.accepted| - 1] == e && e in queue
      ensures r == QueueFull ==> |queue| >= cfg.queueSize
      ensures r == Closed ==> stats.dropped == old(stats).dropped + 1
      ensures r == QueueFull ==> stats.dropped > old(stats).dropped
      ensures r == Queued ==> stats.queued > old(stats).queued
    {
      var open := CheckOpen(e);
      if !open {
        return Closed;
      }
      Others(|workers|, multiset{e});
      assert multiset{e} <= producers;
      var sent := TrySend(e);
      r := if sent then Queued else QueueFull;
    }

    /** `Close`: the compare-and-swap, then closing `done`. False if already closed. */
    method Close() returns (first: bool)
      requires Valid()
      modifies this
      ensures Valid() && old(trace) <= trace && closed
      ensures first == !old(closed)
      ensures first ==> done
    {
      first := !closed;
      Take(SetClosed);
      if first {
        Others(|workers|, multiset{});
        Take(CloseDone);
      }
    }

    // ----- worker steps -----

    ghost predicate At(w: nat, phase: Phase, batch: seq<AccessEvent>)
      reads this
    {
      w < |workers| && workers[w] == Worker(phase, batch)
    }

    /** Receiving from the queue into the batch: in the select, in collectBatch, in drain. */
    method Receive(w: nat, action: Action, batch: seq<AccessEvent>, phase: Phase, next: Phase)
      returns (longer: seq<AccessEvent>)
      requires Valid() && At(w, phase, batch) && queue != []
      requires EffectOf(cfg, Snapshot(), Worker(phase, batch), action) == Pull(next)
      modifies this
      ensures Valid() && old(trace) <= trace && outages == old(outages)
      ensures longer == batch + [old(queue)[0]] && queue == old(queue)[1..] && At(w, next, longer)
      ensures past == old(past)
      ensures closed == old(closed) && done == old(done) && producers == old(producers)
    {
      longer := batch + [queue[0]];
      Take(Work(w, action));
    }

    /** An action of worker w that only moves its phase. */
    method Turn(w: nat, action: Action, batch: seq<AccessEvent>, phase: Phase, next: Phase)
      requires Valid() && At(w, phase, batch)
      requires EffectOf(cfg, Snapshot(), Worker(phase, batch), action) == Effect.Turn(next)
      modifies this
      ensures Valid() && old(trace) <= trace && outages == old(outages) && At(w, next, batch)
      ensures queue == old(queue) && closed == old(closed) && done == old(done) && producers == old(producers)
      ensures past == old(past)
    {
      Take(Work(w, action));
    }

    /** `done` closed while waiting to retry: the batch is dropped. */
    method DropBatch(w: nat, batch: seq<AccessEvent>)
      requires Valid() && At(w, Backoff, batch) && done
      modifies this
      ensures Valid() && old(trace) <= trace && outages == old(outages) && At(w, Waiting, []) && done
      ensures past.abandoned == old(past).abandoned + multiset(batch) && past.failedOnce == old(past).failedOnce
    {
      hide Run, Apply;
      DropEffect(cfg, Snapshot(), w, batch);
      Take(Work(w, GiveUp));
    }

    /** Whether the inner publisher accepts the batch this time. */
    method InnerPublish() returns (ok: bool)
      modifies this`outages
      ensures outages == if ok then old(outages) else old(outages) - 1
    {
      ok := true;
      if outages > 0 {
        ok := *;
        if !ok { outages := outages - 1; }
      }
    }

    /** `publishBatchOnce` from the retry loop. */
    method AttemptBatch(w: nat, batch: seq<AccessEvent>) returns (ok: bool)
      requires Valid() && At(w, Publishing, batch)
      modifies this
      ensures Valid() && old(trace) <= trace
      ensures outages == if ok then old(outages) else old(outages) - 1
      ensures if ok then At(w, Waiting, []) else At(w, Backoff, batch)
      ensures ok ==> past.delivered == old(past).delivered + batch
      ensures !ok ==> Elements(batch) <= past.failedOnce
    {
      ok := InnerPublish();
      hide Run, Apply;
      AttemptEffect(cfg, Snapshot(), w, batch, ok);
      Take(Work(w, Attempt(ok)));
    }

    /** `publishBatchOnce` from drain: whatever happens, the batch is done with. */
    method FlushBatch(w: nat, batch: seq<AccessEvent>, phase: Phase, next: Phase) returns (ok: bool)
      requires Valid() && At(w, phase, batch) && (phase, next) in {(Flushing, Draining), (LastFlush, Exited)}
      modifies this
      ensures Valid() && old(trace) <= trace && outages <= old(outages) && At(w, next, [])
      ensures queue == old(queue) && producers == old(producers) && closed == old(closed)
      ensures ok ==> past.delivered == old(past).delivered + batch
      ensures !ok ==> past.abandoned == old(past).abandoned + multiset(batch) && Elements(batch) <= past.failedOnce
    {
      ok := InnerPublish();
      hide Run, Apply;
      FlushEffect(cfg, Snapshot(), w, phase, next, ok);
      Take(Work(w, Flush(ok)));
    }

    // ----- the worker's loops -----

    /** The head of the queue is the accepted event at the position the queue has reached. */
    lemma HeadFacts()
      requires Valid()
      ensures 0 <= Dequeued(Snapshot())
      ensures queue != [] ==> queue[0] == past.accepted[Dequeued(Snapshot())]
    {
      Reachable(cfg, trace);
      assert QueueInv(cfg, Snapshot());
    }

    /** One look of `collectBatch` at its select: `done`, an event, or nothing yet. */
    method CollectNext(w: nat, batch: seq<AccessEvent>) returns (longer: seq<AccessEvent>, sawDone: bool)
      requires Valid() && At(w, Collecting, batch) && |batch| < cfg.batchSize
      modifies this
      ensures Valid() && old(trace) <= trace && outages == old(outages) && At(w, Collecting, longer)
      ensures sawDone ==> done && longer == batch
      ensures !sawDone && longer == batch ==> queue == []
      ensures longer != batch ==>
        var at := Dequeued(Snapshot()) - 1;
        && Dequeued(old(Snapshot())) <= at && 0 <= at < |past.accepted| && longer == batch + [past.accepted[at]]
    {
      hide Run, Apply, Perform, Undisturbed;
      ghost var start := trace;
      Others(w, multiset{});
      LaterInRun(cfg, start, trace);
      longer, sawDone := batch, false;
      var pickDone: bool := *;
      if done && (pickDone || queue == []) {
        sawDone := true;
      } else if queue != [] {
        HeadFacts();
        longer := Receive(w, Collect, batch, Collecting, Collecting);
      }
    }

    /** The events after the first are accepted ones, at ascending positions from `from` on. */
    ghost predicate TakenAt(batch: seq<AccessEvent>, taken: seq<nat>, from: int)
      reads this
    {
      && |taken| == |batch| - 1
      && (forall i :: 0 <= i < |taken| ==>
            from <= taken[i] < Dequeued(Snapshot()) && taken[i] < |past.accepted|
            && past.accepted[taken[i]] == batch[i + 1])
      && (forall i, j :: 0 <= i < j < |taken| ==> taken[i] < taken[j])
    }

    /** `collectBatch`: fill up to batchSize until the timer fires, after `patience` looks at
        the queue, or `done` closes. After the first, the events are accepted ones in order,
        taken off the head of the queue at the positions `taken`. It does not stop early
        while there is something in the queue. */
    method CollectBatch(w: nat, first: AccessEvent, patience: nat)
      returns (batch: seq<AccessEvent>, ghost taken: seq<nat>)
      requires Valid() && At(w, Collecting, [first])
      modifies this
      ensures Valid() && old(trace) <= trace && outages == old(outages)
      ensures At(w, Publishing, batch) && 1 <= |batch| <= Limit(cfg) && batch[0] == first
      ensures TakenAt(batch, taken, Dequeued(old(Snapshot())))
      ensures |batch| < Limit(cfg) && !done ==>
        Dequeued(Snapshot())
          >= Dequeued(old(Snapshot())) + (if patience < |old(queue)| then patience else |old(queue)|)
    {
      hide Run, Apply, Perform, Later;
      batch, taken := [first], [];
      ghost var start, from, most := trace, Dequeued(Snapshot()), |queue|;
      var looks := 0;
      var sawDone := false;
      while |batch| < cfg.batchSize && looks < patience && !sawDone
        invariant Valid() && start <= trace && outages == old(outages)
        invariant At(w, Collecting, batch) && 1 <= |batch| <= Limit(cfg) && batch[0] == first
        invariant TakenAt(batch, taken, from)
        invariant looks <= patience && (sawDone ==> done)
        invariant sawDone || Dequeued(Snapshot()) >= from + if looks < most then looks else most
        decreases patience - looks, if sawDone then 0 else 1
      {
        ghost var upTo, shorter := trace, batch;
        batch, sawDone := CollectNext(w, batch);
        Since(start, trace);
        Since(upTo, trace);
        if batch != shorter { taken := taken + [Dequeued(Snapshot()) - 1]; }
        if !sawDone { looks := looks + 1; }
      }
      Turn(w, StopCollecting, batch, Collecting, Publishing);
    }

    /** What later parts of a run keep of earlier ones. */
    lemma Since(a: seq<Step>, b: seq<Step>)
      requires a <= b
      ensures Run(cfg, a).past.accepted <= Run(cfg, b).past.accepted
      ensures Dequeued(Run(cfg, a)) <= Dequeued(Run(cfg, b))
      ensures Run(cfg, a).done ==> Run(cfg, b).done
    {
      LaterInRun(cfg, a, b);
    }

    lemma FailedFacts(w: nat, batch: seq<AccessEvent>)
      requires Valid() && At(w, Backoff, batch)
      ensures Elements(batch) <= past.failedOnce
    {
      Reachable(cfg, trace);
      assert WorkerInv(cfg, Snapshot(), workers[w]);
    }

    /** The time to wait after so many waits. */
    function BackoffAfter(waits: nat): nat {
      if retryInitial * Power2(waits) > retryMax then retryMax else retryInitial * Power2(waits)
    }

    lemma BackoffNext(waits: nat)
      requires 0 < retryInitial <= retryMax
      ensures BackoffAfter(0) == retryInitial && retryInitial <= BackoffAfter(waits) <= retryMax
      ensures BackoffAfter(waits + 1) ==
              if 2 * BackoffAfter(waits) > retryMax then retryMax else 2 * BackoffAfter(waits)
    {
    }

    /** `publishBatchWithRecovery`: attempt, back off, attempt again. A batch is given
        up only after `done` has closed and an attempt at it has failed. The time to wait
        doubles with every wait, up to its maximum. */
    method PublishBatchWithRecovery(w: nat, batch: seq<AccessEvent>) returns (delivered: bool, backoff: nat)
      requires Valid() && At(w, Publishing, batch) && batch != []
      modifies this
      ensures Valid() && old(trace) <= trace && outages <= old(outages)
      ensures At(w, Waiting, []) && retryInitial <= backoff <= retryMax
      ensures var waits: int := old(outages) - outages - if delivered then 0 else 1;
        waits >= 0 && backoff == BackoffAfter(waits)
      ensures delivered ==>
        && |old(past).delivered| + |batch| <= |past.delivered|
        && past.delivered[|past.delivered| - |batch|..] == batch
      ensures !delivered ==>
        done && Elements(batch) <= past.failedOnce && old(past).abandoned + multiset(batch) <= past.abandoned
    {
      hide Run, Apply, Perform, Undisturbed, BackoffAfter;
      backoff := retryInitial;
      BackoffNext(0);
      ghost var start := trace;
      while true
        invariant Valid() && old(trace) <= trace && outages <= old(outages)
        invariant At(w, Publishing, batch) && retryInitial <= backoff <= retryMax
        invariant backoff == BackoffAfter(old(outages) - outages)
        decreases outages
      {
        LaterInRun(cfg, start, trace);
        var ok := AttemptBatch(w, batch);
        if ok {
          return true, backoff;
        }
        Others(w, multiset{});
        var timer: bool := *;
        if done && !timer {
          LaterInRun(cfg, start, trace);
          FailedFacts(w, batch);
          DropBatch(w, batch);
          return false, backoff;
        }
        Turn(w, RetryNow, batch, Backoff, Publishing);
        BackoffNext(old(outages) - outages - 1);
        backoff := if 2 * backoff > retryMax then retryMax else 2 * backoff;
      }
    }

    lemma ExitFacts(w: nat)
      requires Valid() && w < |workers| && workers[w].phase in {Draining, Exited}
      ensures done && closed
      ensures workers[w].phase == Exited ==> |queue| + past.atClose <= |past.accepted|
    {
      Reachable(cfg, trace);
      assert WorkerInv(cfg, Snapshot(), workers[w]);
    }

    /** One turn of drain's select: receive, or see the queue empty and finish. */
    method DrainNext(w: nat, batch: seq<AccessEvent>) returns (rest: seq<AccessEvent>, more: bool)
      requires Valid() && At(w, Draining, batch)
      modifies this
      ensures Valid() && old(trace) <= trace && outages <= old(outages)
      ensures closed == old(closed) && producers == old(producers)
      ensures if more then At(w, Draining, rest) && |queue| < |old(queue)| else At(w, Exited, [])
    {
      hide Run, Apply, Perform;
      if queue != [] {
        rest := Receive(w, DrainTake, batch, Draining, if |batch| + 1 >= cfg.batchSize then Flushing else Draining);
        more := true;
        if |rest| >= cfg.batchSize {
          var _ := FlushBatch(w, rest, Flushing, Draining);
          rest := [];
        }
      } else {
        Turn(w, DrainEmpty, batch, Draining, if batch == [] then Exited else LastFlush);
        if batch != [] {
          var _ := FlushBatch(w, batch, LastFlush, Exited);
        }
        rest, more := [], false;
      }
    }

    /** `drain`: after `done`, empty the queue in batches, one attempt each, and exit.
        Terminates because a closed publisher lets no new producer in; what it leaves in
        the queue was accepted after Close. */
    method Drain(w: nat)
      requires Valid() && At(w, Draining, [])
      modifies this
      ensures Valid() && old(trace) <= trace && outages <= old(outages)
      ensures At(w, Exited, []) && done && |queue| + past.atClose <= |past.accepted|
    {
      ExitFacts(w);
      hide Run, Undisturbed;
      var batch: seq<AccessEvent> := [];
      var more := true;
      while more
        invariant Valid() && old(trace) <= trace && outages <= old(outages)
        invariant closed && (if more then At(w, Draining, batch) else At(w, Exited, []))
        decreases if more then 1 else 0, |queue| + |producers|
      {
        Others(w, multiset{});
        batch, more := DrainNext(w, batch);
      }
      ExitFacts(w);
    }

    /** An event has been delivered since, or given up after `done` and a failed attempt. */
    ghost predicate DoneWith(e: AccessEvent, since: History)
      reads this
    {
      || (|since.delivered| <= |past.delivered| && e in past.delivered[|since.delivered|..])
      || (done && e in past.failedOnce && since.abandoned[e] < past.abandoned[e])
    }

    /** What is in the queue, and what is about to be sent to it. */
    ghost function Coming(): nat
      reads this
    {
      |queue| + |producers|
    }

    /** One round of the worker's select. With the queue empty and `done` open it blocks; with
        the queue empty and `done` closed it exits. Otherwise it exits, or takes the head of
        the queue and is done with it when the round ends. */
    method SelectOnce(w: nat) returns (exited: bool)
      requires Valid() && At(w, Waiting, [])
      modifies this
      ensures Valid() && old(trace) <= trace && outages <= old(outages)
      ensures if exited then At(w, Exited, []) && done else At(w, Waiting, [])
      ensures exited ==> old(done) && |queue| + past.atClose <= |past.accepted|
      ensures old(queue) == [] && old(done) ==> exited
      ensures old(queue) == [] && !old(done) ==> Snapshot() == old(Snapshot())
      ensures old(queue) != [] && !exited ==>
        && DoneWith(old(queue)[0], old(past)) && Dequeued(old(Snapshot())) < Dequeued(Snapshot())
        && (old(closed) ==> Coming() < old(Coming()))
    {
      hide Run, Apply, Perform, Undisturbed;
      exited := false;
      var pickDone: bool := *;
      if done && (pickDone || queue == []) {
        Turn(w, SeeDone, [], Waiting, Draining);
        Drain(w);
        return true;
      }
      if queue != [] {
        var batch := Receive(w, Action.Take, [], Waiting, Collecting);
        ghost var received := trace;
        var patience: nat := *;
        var collected, _ := CollectBatch(w, batch[0], patience);
        LaterInRun(cfg, received, trace);
        var _, _ := PublishBatchWithRecovery(w, collected);
        LaterInRun(cfg, received, trace);
        assert collected[0] in multiset(collected) && collected[0] in Elements(collected);
      }
    }

    /** `worker`, for as many rounds of its select as we watch it. After n rounds at least n
        of the events that were in the queue at first have left it, if there were as many;
        and once `done` has closed, it exits within as many rounds as events can still come. */
    method RunWorker(w: nat, rounds: nat) returns (exited: bool)
      requires Valid() && At(w, Waiting, [])
      modifies this
      ensures Valid() && old(trace) <= trace && outages <= old(outages)
      ensures if exited then At(w, Exited, []) && done else At(w, Waiting, [])
      ensures exited ==> |queue| + past.atClose <= |past.accepted|
      ensures !exited ==>
        Dequeued(Snapshot()) >= Dequeued(old(Snapshot())) + (if rounds < |old(queue)| then rounds else |old(queue)|)
      ensures old(done) && rounds > old(Coming()) ==> exited
      // a worker alone has by then delivered them, in order
      ensures cfg.workers == 1 && !done ==>
        && 0 <= Dequeued(Snapshot()) <= |past.accepted|
        && past.delivered == past.accepted[..Dequeued(Snapshot())]
    {
      hide Run, Apply, Perform, Undisturbed;
      exited := false;
      ghost var first, start := Snapshot(), trace;
      DoneIsClosed();
      for i := 0 to rounds
        invariant Valid() && start <= trace && outages <= old(outages) && At(w, Waiting, [])
        invariant Dequeued(Snapshot()) >= Dequeued(first) + if i < |first.queue| then i else |first.queue|
        invariant first.done ==> done && closed && Coming() + i <= |first.queue| + |first.producers|
      {
        ghost var before := trace;
        Others(w, multiset{});
        LaterInRun(cfg, before, trace);
        LaterInRun(cfg, start, trace);
        ghost var chosen := trace;
        exited := SelectOnce(w);
        LaterInRun(cfg, chosen, trace);
        if exited { return; }
      }
      if cfg.workers == 1 && !done { AloneInOrder(w); }
    }

    lemma DoneIsClosed()
      requires Valid()
      ensures done ==> closed
    {
      Reachable(cfg, trace);
    }

    lemma AloneInOrder(w: nat)
      requires Valid() && At(w, Waiting, []) && cfg.workers == 1 && !done
      ensures 0 <= Dequeued(Snapshot()) <= |past.accepted|
      ensures past.delivered == past.accepted[..Dequeued(Snapshot())]
    {
      hide Run, Apply;
      Reachable(cfg, trace);
      OneWorkerInOrder(cfg, trace);
      assert past.abandoned == multiset{} && InOrder(Snapshot());
      assert |queue| <= |past.accepted|;
      assert past.delivered + workers[0].batch + queue == past.delivered + queue;
    }
  }
}
