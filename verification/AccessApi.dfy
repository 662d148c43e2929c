/** The Access API's own objects: the Redis store with its two scripts, the publisher
    that appends batches to the stream, and the swipe handler that ties them together. The
    publisher and the handler take steps of the pipeline, everyone else in between. */
module AccessApi {
  import opened Text
  import opened Events
  import opened Pipeline
  import opened PipelineGuarantees
  import opened Consumers
  import opened PublisherLoops
  import Queueing = AsyncPublisher
  import AP = AntiPassback

  /** How many more Redis calls the environment will fail. A failed call may have been
      carried out anyway: the reply was lost. */
  class RedisStore {
    var states: AP.States
    var buffer: Buffer
    var outages: nat

    constructor (outages: nat)
      ensures states == map[] && buffer == Buffer({}, []) && this.outages == outages
    {
      states, buffer, this.outages := map[], Buffer({}, []), outages;
    }

    method Fails() returns (failed: bool)
      modifies this`outages
      ensures outages == old(outages) - if failed then 1 else 0
    {
      failed := false;
      if outages > 0 {
        failed := *;
        if failed { outages := outages - 1; }
      }
    }

    /** `DecideAccess`: None when Redis did not answer. */
    method DecideAccess(employee: string, direction: string) returns (r: Option<AP.Decision>)
      modifies this`states, this`outages
      ensures var (decision, after) := AP.Decide(AP.Lookup(old(states), employee), direction);
        && (r.Some? ==> r.value == decision && states == AP.Store(old(states), employee, after))
        && (r.None? ==> states == old(states) || states == AP.Store(old(states), employee, after))
      ensures outages <= old(outages) && (r.None? ==> outages < old(outages))
    {
      var refused := Fails();
      if refused { return None; }
      var d: AP.Decision;
      if employee !in states {
        if direction == "IN" {
          states := states[employee := "IN"];
          d := AP.Decision(true, "UNKNOWN", "IN", "ACCESS_ALLOWED");
        } else {
          d := AP.Decision(false, "UNKNOWN", "UNKNOWN", "NO_ENTRY_RECORD");
        }
      } else {
        var current := states[employee];
        if current == direction {
          d := AP.Decision(false, current, current, "ANTI_PASSBACK_VIOLATION");
        } else if current == "IN" && direction == "OUT" {
          states := states[employee := "OUT"];
          d := AP.Decision(true, current, "OUT", "ACCESS_ALLOWED");
        } else if current == "OUT" && direction == "IN" {
          states := states[employee := "IN"];
          d := AP.Decision(true, current, "IN", "ACCESS_ALLOWED");
        } else {
          d := AP.Decision(false, current, current, "ANTI_PASSBACK_VIOLATION");
        }
      }
      assert employee !in old(states) ==> old(states) - {employee} == old(states);
      assert employee in old(states) ==> old(states)[employee := old(states)[employee]] == old(states);
      var lost := Fails();
      r := if lost then None else Some(d);
    }

    /** `AppendEventOnce`: the reply says nothing about whether the key was new. */
    method AppendEventOnce(e: AccessEvent) returns (ok: bool)
      modifies this`buffer, this`outages
      ensures ok ==> buffer == AppendOnce(old(buffer), e)
      ensures !ok ==> buffer == old(buffer) || buffer == AppendOnce(old(buffer), e)
      ensures outages <= old(outages) && (!ok ==> outages < old(outages))
    {
      var refused := Fails();
      if refused { return false; }
      if e.requestId !in buffer.dedupe {
        buffer := Buffer(buffer.dedupe + {e.requestId}, buffer.stream + [Valid(e)]);
      }
      var lost := Fails();
      ok := !lost;
    }
  }

  // ----- the stream publisher -----

  /** Whether every event of the batch is known to be buffered. */
  ghost predicate AllBuffered(s: System, batch: seq<nat>) {
    forall k :: k in batch ==> k < |s.issued| && s.issued[k].requestId in s.buffered
  }

  ghost predicate AllIssued(s: System, batch: seq<nat>) { forall k :: k in batch ==> k < |s.issued| }

  lemma BufferedAccounted(cfg: Config, seed: Seed, steps: seq<Step>, s: System, id: string)
    requires s == Run(cfg, seed, steps)
    ensures id in s.buffered ==> Accounted(cfg, s, id)
  {
    hide Accounted, Run;
    NothingBufferedIsLost(cfg, seed, steps);
  }

  class RedisEventPublisher {
    var published: nat
    var failed: nat

    constructor ()
      ensures published == failed == 0
    {
      published, failed := 0, 0;
    }

    /** `AppendEventOnce` for the k-th issued event. A call that fails may have been
        carried out. */
    method AppendIssued(w: World, k: nat) returns (ok: bool)
      requires w.Valid() && k < |w.s.issued|
      modifies w`s, w`trace, w`outages
      ensures w.Valid() && old(w.trace) <= w.trace && w.outages <= old(w.outages)
      ensures old(w.s).issued == w.s.issued && old(w.s).buffered <= w.s.buffered
      ensures old(w.s).buffer.stream <= w.s.buffer.stream && old(w.s).db.events <= w.s.db.events
      ensures ok ==> w.s.issued[k].requestId in w.s.buffered
      ensures !ok ==> w.outages < old(w.outages)
    {
      hide Run;
      var failing := w.Fails();
      var carriedOut: bool := *;
      if !failing || carriedOut { w.Take(Append(k, !failing)); }
      ok := !failing;
    }

    /** The same with anyone acting before and after it. */
    method BufferIssued(w: World, k: nat) returns (ok: bool)
      requires w.Valid() && k < |w.s.issued|
      modifies w`s, w`trace, w`outages
      ensures w.Valid() && old(w.trace) <= w.trace && old(w.s).issued <= w.s.issued
      ensures ok ==> var id := w.s.issued[k].requestId; id in w.s.buffered && Accounted(w.cfg, w.s, id)
      ensures w.outages <= old(w.outages) && (!ok ==> w.outages < old(w.outages))
    {
      hide Run, Accounted;
      w.Everyone();
      ok := AppendIssued(w, k);
      ghost var id := w.s.issued[k].requestId;
      w.Everyone();
      BufferedAccounted(w.cfg, w.seed, w.trace, w.s, id);
    }

    /** `PublishBatch`: append one by one, stop at the first error; handlers, other workers
        and the consumers run in between. Success means that every event is buffered. */
    method PublishBatch(w: World, batch: seq<nat>) returns (ok: bool)
      requires w.Valid() && AllIssued(w.s, batch)
      modifies this, w`s, w`trace, w`outages
      ensures w.Valid() && old(w.trace) <= w.trace && w.outages <= old(w.outages)
      ensures old(w.s).issued <= w.s.issued && old(w.s).buffered <= w.s.buffered
      ensures old(w.s).buffer.stream <= w.s.buffer.stream
      ensures ok ==> AllBuffered(w.s, batch) && published == old(published) + |batch| && failed == old(failed)
      ensures !ok ==> published == old(published) && failed == old(failed) + |batch| && w.outages < old(w.outages)
    {
      hide Run;
      for i := 0 to |batch|
        invariant w.Valid() && old(w.trace) <= w.trace && w.outages <= old(w.outages)
        invariant old(w.s).issued <= w.s.issued && old(w.s).buffered <= w.s.buffered
        invariant old(w.s).buffer.stream <= w.s.buffer.stream
        invariant published == old(published) && failed == old(failed)
        invariant AllIssued(w.s, batch) && AllBuffered(w.s, batch[..i])
      {
        w.Everyone();
        assert batch[i] in batch;
        var appended := AppendIssued(w, batch[i]);
        if !appended {
          failed := failed + |batch|;
          return false;
        }
        assert batch[..i + 1] == batch[..i] + [batch[i]];
      }
      assert batch[..|batch|] == batch;
      published := published + |batch|;
      ok := true;
    }

    /** `publishBatchWithRecovery` over this publisher, against any interleaving: attempts
        that fail anywhere, carried out or not, any finite number of times, and then one
        that succeeds, or, when the publisher is closing, giving up after a failed one. An
        id whose dedupe key lives is in the stream exactly once after success. */
    method PublishWithRecovery(w: World, batch: seq<nat>, closing: bool) returns (delivered: bool, attempts: nat)
      requires w.Valid() && AllIssued(w.s, batch)
      modifies this, w`s, w`trace, w`outages
      ensures w.Valid() && old(w.trace) <= w.trace
      ensures old(w.s).buffer.stream <= w.s.buffer.stream
      ensures attempts == 0 <==> batch == []
      ensures delivered ==> AllBuffered(w.s, batch) && published == old(published) + |batch|
      ensures !delivered ==> closing && attempts > 0 && published == old(published)
      ensures failed == old(failed) + (if delivered && batch != [] then attempts - 1 else attempts) * |batch|
      ensures AllIssued(w.s, batch)
      ensures forall k :: k in batch ==>
        var id := w.s.issued[k].requestId;
        var n := Occurrences(w.s.buffer.stream, id);
        (n <= 1 <==> NeverReappended(w.cfg, w.seed, w.trace, id)) && (delivered ==> n > 0)
    {
      hide Run, NeverReappended, Occurrences;
      delivered, attempts := batch == [], 0;
      var givenUp := false;
      while !delivered && !givenUp
        invariant w.Valid() && old(w.trace) <= w.trace && AllIssued(w.s, batch)
        invariant old(w.s).buffer.stream <= w.s.buffer.stream
        invariant delivered ==> AllBuffered(w.s, batch) && (attempts > 0 <==> batch != [])
        invariant givenUp ==> closing && attempts > 0 && !delivered
        invariant batch == [] ==> delivered && attempts == 0
        invariant published == old(published) + if delivered then |batch| else 0
        invariant failed == old(failed) + (if delivered && batch != [] then attempts - 1 else attempts) * |batch|
        decreases w.outages, if delivered then 0 else 1, if givenUp then 0 else 1
      {
        delivered := PublishBatch(w, batch);
        attempts := attempts + 1;
        if !delivered && closing { givenUp := *; }
      }
      forall k | k in batch
        ensures var id := w.s.issued[k].requestId; var n := Occurrences(w.s.buffer.stream, id);
          (n <= 1 <==> NeverReappended(w.cfg, w.seed, w.trace, id)) && (delivered ==> n > 0)
      {
        StreamedOnceExactly(w.cfg, w.seed, w.trace, w.s.issued[k].requestId);
      }
    }
  }

  // ----- the swipe handler -----

  datatype SwipeRequest = SwipeRequest(employeeId: string, gateId: string, direction: string)

  datatype SwipeResult =
    | FieldsRequired
    | InvalidDirection
    | CacheUnavailable
    | Swiped(event: AccessEvent, eventBuffered: bool, kafkaQueued: bool)

  /** The request after trimming and upper-casing, if the handler accepts it. */
  predicate Acceptable(req: SwipeRequest) {
    && TrimSpace(req.employeeId) != "" && TrimSpace(req.gateId) != ""
    && ToUpper(TrimSpace(req.direction)) in {"IN", "OUT"}
  }

  /** A request whose id its column does not hold is accepted as it is; the event made of it
      fits no row. */
  lemma UnfitAccepted(cfg: Config, seed: Seed, e: string, gate: string, nanos: nat, now: nat)
    requires e != "" && TrimSpace(e) == e && !ColumnHolds(e, 64)
    requires gate != "" && TrimSpace(gate) == gate
    ensures Acceptable(SwipeRequest(e, gate, "IN"))
    ensures var issued := Run(cfg, seed, [Step.Swipe(e, gate, "IN", nanos, 0, now, true)]).issued;
      |issued| == 1 && issued[0].employeeId == e && issued[0].decision == "GRANTED" && !Fits(issued[0])
  {
    TrimKeeps("IN");
    assert ToUpper("IN") == "IN";
    UnfitSwipe(cfg, seed, e, gate, nanos, now);
  }

  /** There are such ids: one of 65 characters, and one of three with U+0000 in the middle. */
  lemma UnfitIds() returns (long: string, odd: string)
    ensures |long| == 65 && TrimSpace(long) == long && !ColumnHolds(long, 64)
    ensures |odd| == 3 && TrimSpace(odd) == odd && !ColumnHolds(odd, 64)
  {
    long, odd := seq(65, _ => 'a'), ['a', '\0', 'b'];
    assert odd[1] == '\0';
    TrimKeeps(long);
    TrimKeeps(odd);
  }

  /** An event tells the truth about the stored states before and after the swipe. */
  ghost predicate Reports(e: AccessEvent, employee: string, gate: string, direction: string, before: AP.States,
                          after: AP.States) {
    var prior, next := AP.Lookup(before, employee), AP.Lookup(after, employee);
    && e.employeeId == employee && EmployeeOf(e.requestId) == employee
    && e.gateId == gate && e.direction == direction
    && e.previousState == AP.Reported(prior) && e.currentState == AP.Reported(next)
    && (e.decision == "GRANTED" <==> AP.MayPass(prior, direction))
    && (e.decision == "GRANTED" ==> next == Some(direction) && e.reason == "ACCESS_ALLOWED")
    && (e.decision != "GRANTED" ==> e.decision == "DENIED" && after == before && e.reason == AP.WhyNot(prior))
    && (forall other :: other != employee ==> AP.Lookup(after, other) == AP.Lookup(before, other))
  }

  predicate Stamped(e: AccessEvent, employee: string, nanos: nat, latencyMs: nat, now: nat) {
    e.requestId == NewRequestId(employee, nanos) && e.latencyMs == latencyMs && e.timestamp == now
  }

  lemma EventReports(employee: string, gate: string, direction: string, before: AP.States,
                     nanos: nat, latencyMs: nat, now: nat)
    ensures var (d, next) := AP.Decide(AP.Lookup(before, employee), direction);
      Reports(MakeEvent(employee, gate, direction, d, nanos, latencyMs, now), employee, gate, direction,
              before, AP.Store(before, employee, next))
    ensures var d := AP.Decide(AP.Lookup(before, employee), direction).0;
      Stamped(MakeEvent(employee, gate, direction, d, nanos, latencyMs, now), employee, nanos, latencyMs, now)
  {
    RequestIdNamesEmployee(employee, nanos);
    AP.SwipeFrame(before, employee, direction);
    AP.DecidesFor(AP.Lookup(before, employee), direction);
  }

  lemma EmptyStays()
    ensures TrimSpace("") == "" && ToUpper("") == ""
  {
  }

  /** An acceptable swipe goes without an answer, or its event without being buffered, only
      if a call to Redis failed; and its event is not queued only if the publisher is closed
      or full. */
  ghost predicate OnlyForCause(r: SwipeResult, callFailed: bool, publisher: AsyncEventPublisher)
    reads publisher
  {
    && (r.CacheUnavailable? ==> callFailed)
    && (r.Swiped? && !r.eventBuffered ==> callFailed)
    && (r.Swiped? && !r.kafkaQueued ==> publisher.closed || |publisher.queue| >= publisher.cfg.queueSize)
  }

  class App {
    var totalSwipes: nat
    var grantedSwipes: nat
    var deniedSwipes: nat
    var bufferedEvents: nat

    predicate Counted()
      reads this
    {
      totalSwipes == grantedSwipes + deniedSwipes && bufferedEvents <= totalSwipes
    }

    constructor ()
      ensures Counted() && totalSwipes == 0
    {
      totalSwipes, grantedSwipes, deniedSwipes, bufferedEvents := 0, 0, 0, 0;
    }

    /** `DecideAccess` and the event made of its reply. Without a reply there is no event,
        although the script may have run. */
    method DecideAndRecord(w: World, employee: string, gate: string, direction: string, nanos: nat, latencyMs: nat,
                           now: nat)
      returns (event: Option<AccessEvent>)
      requires w.Valid()
      modifies w`s, w`trace, w`outages
      ensures w.Valid() && w.outages <= old(w.outages)
      ensures event.Some? ==>
        && w.trace == old(w.trace) + [Step.Swipe(employee, gate, direction, nanos, latencyMs, now, true)]
        && w.s.issued == old(w.s).issued + [event.value] && w.s.buffered == old(w.s).buffered
        && Reports(event.value, employee, gate, direction, old(w.s).states, w.s.states)
        && Stamped(event.value, employee, nanos, latencyMs, now)
      ensures event.None? ==>
        && w.outages < old(w.outages) && w.s.issued == old(w.s).issued && w.s.buffered == old(w.s).buffered
        && (w.trace == old(w.trace)
            || w.trace == old(w.trace) + [Step.Swipe(employee, gate, direction, nanos, latencyMs, now, false)])
    {
      hide Run, AP.Decide, Reports, Stamped;
      var failing := w.Fails();
      var carriedOut: bool := *;
      EventReports(employee, gate, direction, w.s.states, nanos, latencyMs, now);
      if !failing || carriedOut {
        w.Take(Step.Swipe(employee, gate, direction, nanos, latencyMs, now, !failing));
      }
      event := if failing then None else Some(w.s.issued[|w.s.issued| - 1]);
    }

    method Queue(publisher: AsyncEventPublisher, e: AccessEvent) returns (queued: bool)
      requires publisher.Valid()
      modifies publisher
      ensures publisher.Valid() && (queued ==> LastAccepted(publisher.past, e))
      ensures !queued ==> publisher.closed || |publisher.queue| >= publisher.cfg.queueSize
    {
      var r := publisher.Publish(e);
      queued := r == Queued;
    }

    /** The handler once the request is accepted. */
    method Handle(w: World, redis: RedisEventPublisher, publisher: AsyncEventPublisher, swipe: Step)
      returns (r: SwipeResult, ghost decided: nat)
      requires Counted() && w.Valid() && publisher.Valid() && swipe.Swipe? && swipe.replied
      modifies this, w`s, w`trace, w`outages, publisher
      ensures Counted() && w.Valid() && publisher.Valid() && old(w.trace) <= w.trace
      ensures r.Swiped? || r.CacheUnavailable?
      ensures r.CacheUnavailable? ==> w.s.issued == old(w.s).issued && totalSwipes == old(totalSwipes)
      ensures OnlyForCause(r, w.outages < old(w.outages), publisher)
      ensures r.Swiped? ==>
        && DecidedAt(w.cfg, w.seed, w.trace, decided, swipe, r.event) && r.event in w.s.issued
        && (r.eventBuffered ==> r.event.requestId in w.s.buffered && Accounted(w.cfg, w.s, r.event.requestId))
        && (r.kafkaQueued ==> LastAccepted(publisher.past, r.event))
        && totalSwipes == old(totalSwipes) + 1
        && grantedSwipes == old(grantedSwipes) + (if r.event.decision == "GRANTED" then 1 else 0)
        && bufferedEvents == old(bufferedEvents) + if r.eventBuffered then 1 else 0
    {
      hide Run, Reports, Stamped, Accounted, DecidedAt, LastAccepted;
      hide Queueing.Run;
      decided := |w.trace|;
      ghost var before := w.s.states;
      var made := DecideAndRecord(w, swipe.employee, swipe.gate, swipe.direction, swipe.nanos, swipe.latencyMs,
                                  swipe.now);
      if made.None? {
        return CacheUnavailable, decided;
      }
      var event, k := made.value, |w.s.issued| - 1;
      assert w.s.issued[k] == event;
      ghost var upTo := w.trace;
      DecidedNow(w.cfg, w.seed, old(w.trace), swipe, event);
      totalSwipes := totalSwipes + 1;
      if event.decision == "GRANTED" { grantedSwipes := grantedSwipes + 1; } else { deniedSwipes := deniedSwipes + 1; }
      var eventBuffered := redis.BufferIssued(w, k);
      if eventBuffered { bufferedEvents := bufferedEvents + 1; }
      DecidedStays(w.cfg, w.seed, upTo, w.trace, decided, swipe, event);
      var queued := Queue(publisher, event);
      r := Swiped(event, eventBuffered, queued);
    }

    /** `Swipe`: decide, build the event, buffer it, hand it to the publisher, while anyone
        else may act between any two of these. The event tells the stored states at the
        moment of its decision; "buffered" means that it is accounted for from then on;
        "queued" that the publisher has accepted it; and a request that is not acceptable
        touches nothing. */
    method Swipe(w: World, redis: RedisEventPublisher, publisher: AsyncEventPublisher,
                 req: SwipeRequest, nanos: nat, latencyMs: nat, now: nat) returns (r: SwipeResult, ghost decided: nat)
      requires Counted() && w.Valid() && publisher.Valid()
      modifies this, w`s, w`trace, w`outages, publisher
      ensures Counted() && w.Valid() && publisher.Valid() && old(w.trace) <= w.trace
      ensures r.FieldsRequired? <==>
        TrimSpace(req.employeeId) == "" || TrimSpace(req.gateId) == "" || req.direction == ""
      ensures r.FieldsRequired? || r.InvalidDirection? <==> !Acceptable(req)
      ensures OnlyForCause(r, w.outages < old(w.outages), publisher)
      ensures !Acceptable(req) ==> w.trace == old(w.trace) && totalSwipes == old(totalSwipes)
      ensures r.CacheUnavailable? ==> w.s.issued == old(w.s).issued && totalSwipes == old(totalSwipes)
      ensures r.Swiped? ==>
        && DecidedAt(w.cfg, w.seed, w.trace, decided, SwipeOf(req, nanos, latencyMs, now), r.event)
            && r.event in w.s.issued
        && (r.eventBuffered ==> r.event.requestId in w.s.buffered && Accounted(w.cfg, w.s, r.event.requestId))
        && (r.kafkaQueued ==> LastAccepted(publisher.past, r.event))
        && totalSwipes == old(totalSwipes) + 1
        && grantedSwipes == old(grantedSwipes) + (if r.event.decision == "GRANTED" then 1 else 0)
        && bufferedEvents == old(bufferedEvents) + if r.eventBuffered then 1 else 0
    {
      hide TrimSpace, ToUpper, Run, Accounted, DecidedAt, LastAccepted;
      decided := |w.trace|;
      EmptyStays();
      if req.employeeId == "" || req.gateId == "" || req.direction == "" {
        return FieldsRequired, decided;
      }
      var employee, gate, direction :=
        TrimSpace(req.employeeId), TrimSpace(req.gateId), ToUpper(TrimSpace(req.direction));
      if employee == "" || gate == "" {
        return FieldsRequired, decided;
      }
      if direction != "IN" && direction != "OUT" {
        return InvalidDirection, decided;
      }
      r, decided := Handle(w, redis, publisher, SwipeOf(req, nanos, latencyMs, now));
    }
  }

  /** The decision step a request asks for. */
  function SwipeOf(req: SwipeRequest, nanos: nat, latencyMs: nat, now: nat): Step {
    Step.Swipe(TrimSpace(req.employeeId), TrimSpace(req.gateId), ToUpper(TrimSpace(req.direction)), nanos, latencyMs,
               now, true)
  }

  ghost predicate LastAccepted(past: Queueing.History, e: AccessEvent) {
    past.accepted != [] && past.accepted[|past.accepted| - 1] == e
  }

  /** The step at this position of the trace decided the event, which reports the stored
      states before and after it. */
  ghost predicate DecidedAt(cfg: Config, seed: Seed, trace: seq<Step>, at: nat, swipe: Step, e: AccessEvent) {
    && at < |trace| && trace[at] == swipe && swipe.Swipe?
    && Stamped(e, swipe.employee, swipe.nanos, swipe.latencyMs, swipe.now)
    && Reports(e, swipe.employee, swipe.gate, swipe.direction, Run(cfg, seed, trace[..at]).states,
               Run(cfg, seed, trace[..at + 1]).states)
  }

  lemma DecidedNow(cfg: Config, seed: Seed, before: seq<Step>, swipe: Step, e: AccessEvent)
    requires swipe.Swipe? && Stamped(e, swipe.employee, swipe.nanos, swipe.latencyMs, swipe.now)
    requires Reports(e, swipe.employee, swipe.gate, swipe.direction, Run(cfg, seed, before).states,
                     Run(cfg, seed, before + [swipe]).states)
    ensures DecidedAt(cfg, seed, before + [swipe], |before|, swipe, e)
  {
    hide Run, Reports, Stamped;
    assert (before + [swipe])[..|before|] == before && (before + [swipe])[..|before| + 1] == before + [swipe];
  }

  lemma DecidedStays(cfg: Config, seed: Seed, a: seq<Step>, b: seq<Step>, at: nat, swipe: Step, e: AccessEvent)
    requires a <= b && DecidedAt(cfg, seed, a, at, swipe, e)
    ensures DecidedAt(cfg, seed, b, at, swipe, e)
  {
    hide Run, Reports, Stamped;
    assert b[..at] == a[..at] && b[..at + 1] == a[..at + 1];
  }
}
