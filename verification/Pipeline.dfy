/** The swipe-event pipeline as a transition system. Swipes are decided, appended to
    the Redis stream and produced to Kafka; the Kafka consumer and the Redis recovery
    consumer read them independently and save them into one database. Every Redis
    script, Kafka call and database read or commit is one atomic step, any of them
    may fail, and the steps of all parties interleave freely. */
module Pipeline {
  import opened Text
  import opened Events
  import AntiPassback

  datatype Config = Config(skipPrefixes: seq<string>, batchSize: nat)

  /** `employee_id.startswith(prefixes)`: load-test employees are never saved. */
  predicate Skipped(cfg: Config, employee: string) {
    exists i :: 0 <= i < |cfg.skipPrefixes| && cfg.skipPrefixes[i] <= employee
  }

  /** Exactly those whose id a configured prefix begins. */
  lemma SkippedExactly(cfg: Config, employee: string)
    ensures Skipped(cfg, employee) <==> exists p :: p in cfg.skipPrefixes && p <= employee
  {
    assert forall i :: 0 <= i < |cfg.skipPrefixes| ==> cfg.skipPrefixes[i] in cfg.skipPrefixes;
    if p :| p in cfg.skipPrefixes && p <= employee {
      var i :| 0 <= i < |cfg.skipPrefixes| && cfg.skipPrefixes[i] == p;
      assert cfg.skipPrefixes[i] <= employee;
    }
  }

  datatype Consumer = Kafka | Recovery

  /** Where a consumer stands with the message in its hands.
      Got: about to look up the persisted marker (recovery only).
      Looking: about to parse, check for an existing row and read the employee.
      Inserting: found no row, about to commit. Kept: the save returned. Failed: the save raised.
      Done: about to commit the offset (Kafka only). */
  datatype Phase = Idle | Got | Looking | Inserting | Kept | Failed | Done

  /** A stream entry in the hands of the recovery consumer, as it was read. */
  datatype Entry = Entry(index: nat, message: Message)

  datatype System = System(
    // Access API and Redis
    states: AntiPassback.States,
    issued: seq<AccessEvent>,        // every event a swipe made, in decision order; a
                                     // decision whose reply was lost makes none
    buffered: set<string>,           // request ids whose AppendEventOnce reported success
    buffer: Buffer,                  // dedupe keys and every entry ever appended
    trimmed: nat,                    // how many of the oldest entries MAXLEN removed
    markers: set<string>,            // live persisted markers
    // recovery consumer group
    cursor: nat,                     // entries below were delivered to the group (or trimmed first)
    pending: set<nat>,               // delivered, not acknowledged
    todo: seq<Entry>,                // the rest of the batch in hand
    recovery: Phase,
    // Kafka topic and consumer group
    topic: seq<seq<Message>>,
    position: seq<nat>,
    committed: seq<nat>,
    partition: nat,
    kafka: Phase,
    // what the consumer whose save is under way has read
    readKafka: Loaded,
    readRecovery: Loaded,
    // PostgreSQL
    db: Database)

  datatype Step =
    // Access API
    | Swipe(employee: string, gate: string, direction: string, nanos: nat, latencyMs: nat, now: nat, replied: bool)
    | Append(event: nat, replied: bool)
    | Produce(event: nat, to: nat)
    // environment
    | Forget(employee: string)
    | ExpireDedupe(id: string)
    | ExpireMarker(id: string)
    | Trim(upTo: nat)
    | ForeignEntry(id: string)
    | ForeignMessage(to: nat)
    // both consumers
    | Look(who: Consumer)
    | Insert(who: Consumer, replied: bool)
    | Raise(who: Consumer)
    | Crash(who: Consumer)
    // Kafka consumer
    | Deliver(from: nat)
    | Mark(stored: bool)
    | Retry
    | Commit
    // recovery consumer
    | ReadPending
    | ReadNew
    | CheckMarker(answered: bool)
    | Ack
    | Leave

  predicate By(step: Step, c: Consumer) {
    match step
    case Look(who) => who == c
    case Insert(who, _) => who == c
    case Raise(who) => who == c
    case Crash(who) => who == c
    case Deliver(_) => c == Kafka
    case Mark(_) => c == Kafka
    case Retry => c == Kafka
    case Commit => c == Kafka
    case ReadPending => c == Recovery
    case ReadNew => c == Recovery
    case CheckMarker(_) => c == Recovery
    case Ack => c == Recovery
    case Leave => c == Recovery
    case _ => false
  }

  // ----- reading the state -----

  function PhaseOf(s: System, c: Consumer): Phase {
    if c == Kafka then s.kafka else s.recovery
  }

  function WithPhase(s: System, c: Consumer, p: Phase): System {
    if c == Kafka then s.(kafka := p) else s.(recovery := p)
  }

  function ReadOf(s: System, c: Consumer): Loaded {
    if c == Kafka then s.readKafka else s.readRecovery
  }

  function WithRead(s: System, c: Consumer, l: Loaded): System {
    if c == Kafka then s.(readKafka := l) else s.(readRecovery := l)
  }

  predicate HoldsKafka(s: System) {
    && s.partition < |s.topic| && s.partition < |s.position|
    && 0 < s.position[s.partition] <= |s.topic[s.partition]|
  }

  predicate Holds(s: System, c: Consumer) {
    if c == Kafka then HoldsKafka(s) else s.todo != []
  }

  /** The message a consumer has in hand. */
  function InHand(s: System, c: Consumer): Message
    requires Holds(s, c)
  {
    if c == Kafka then s.topic[s.partition][s.position[s.partition] - 1] else s.todo[0].message
  }

  /** Up to `count` elements of `pending` in [lo, hi), lowest first; count 0 means all. */
  function Lowest(pending: set<nat>, lo: nat, hi: nat, count: nat): seq<nat>
    decreases hi - lo
  {
    if lo >= hi then []
    else if lo !in pending then Lowest(pending, lo + 1, hi, count)
    else if count == 1 then [lo]
    else [lo] + Lowest(pending, lo + 1, hi, if count == 0 then 0 else count - 1)
  }

  /** The entry at an index as XREADGROUP returns it: a trimmed one has no fields. */
  function Fetched(s: System, i: nat): Entry
    requires i < |s.buffer.stream|
  {
    Entry(i, if i < s.trimmed then Malformed("") else s.buffer.stream[i])
  }

  function FetchAll(s: System, indices: seq<nat>): (r: seq<Entry>)
    requires forall k :: 0 <= k < |indices| ==> indices[k] < |s.buffer.stream|
    ensures |r| == |indices|
    ensures forall k :: 0 <= k < |r| ==> r[k] == Fetched(s, indices[k])
  {
    seq(|indices|, k requires 0 <= k < |indices| => Fetched(s, indices[k]))
  }

  function Max(a: nat, b: nat): nat { if a < b then b else a }

  function NewEnd(s: System, batchSize: nat): nat {
    var start := Max(s.cursor, s.trimmed);
    if batchSize == 0 || |s.buffer.stream| <= start + batchSize then |s.buffer.stream|
    else start + batchSize
  }

  function Range(lo: nat, hi: nat): (r: seq<nat>)
    requires lo <= hi
    ensures |r| == hi - lo && forall k :: 0 <= k < |r| ==> r[k] == lo + k
  {
    seq(hi - lo, k requires k >= 0 => lo + k)
  }

  function Between(lo: nat, hi: nat): (r: set<nat>)
    requires lo <= hi
    ensures |r| == hi - lo && forall i :: i in r <==> lo <= i < hi
    decreases hi - lo
  {
    if lo == hi then {} else {lo} + Between(lo + 1, hi)
  }

  // ----- the steps -----

  function NextEntry(s: System): System
    requires s.todo != []
  {
    s.(todo := s.todo[1..], recovery := if |s.todo| == 1 then Idle else Got)
  }

  function ApplyAccess(cfg: Config, s: System, step: Step): System {
    match step
    case Swipe(employee, gate, direction, nanos, latencyMs, now, replied) =>
      // the script has run; without its reply the handler makes no event
      var (d, after) := AntiPassback.Decide(AntiPassback.Lookup(s.states, employee), direction);
      var t := s.(states := AntiPassback.Store(s.states, employee, after));
      if replied
      then t.(issued := s.issued + [MakeEvent(employee, gate, direction, d, nanos, latencyMs, now)])
      else t
    case Append(k, replied) =>
      if k >= |s.issued| then s
      else s.(buffer := AppendOnce(s.buffer, s.issued[k]),
              buffered := if replied then s.buffered + {s.issued[k].requestId} else s.buffered)
    case Produce(k, p) =>
      if k >= |s.issued| || p >= |s.topic| then s
      else s.(topic := s.topic[p := s.topic[p] + [Valid(s.issued[k])]])
    case Forget(employee) => s.(states := s.states - {employee})
    case ExpireDedupe(id) => s.(buffer := s.buffer.(dedupe := s.buffer.dedupe - {id}))
    case ExpireMarker(id) => s.(markers := s.markers - {id})
    case Trim(n) => if s.trimmed <= n <= |s.buffer.stream| then s.(trimmed := n) else s
    case ForeignEntry(id) => s.(buffer := s.buffer.(stream := s.buffer.stream + [Malformed(id)]))
    case ForeignMessage(p) =>
      if p >= |s.topic| then s else s.(topic := s.topic[p := s.topic[p] + [Malformed("")]])
    case _ => s
  }

  function ApplySave(cfg: Config, s: System, step: Step): System {
    match step
    case Look(c) =>
      if !Holds(s, c) || PhaseOf(s, c) != Looking then s
      else (match InHand(s, c)
        case Malformed(_) => WithPhase(s, c, if c == Kafka then Done else Kept)
        case Valid(e) =>
          if Skipped(cfg, e.employeeId) || e.requestId in RowIds(s.db) then WithPhase(s, c, Kept)
          else WithPhase(WithRead(s, c, Load(s.db, e)), c, Inserting))
    case Insert(c, replied) =>
      if !Holds(s, c) || PhaseOf(s, c) != Inserting then s
      else (match InHand(s, c)
        case Malformed(_) => s
        case Valid(e) =>
          // the keys refuse a second row, and a new employee or default department that
          // someone else has inserted since; the columns an event that does not fit; and
          // a commit whose reply is lost raises too
          if e.requestId in RowIds(s.db) || !Fits(e) || KeyTaken(s.db, e, ReadOf(s, c)) then WithPhase(s, c, Failed)
          else WithPhase(s.(db := Inserted(s.db, e, ReadOf(s, c))), c, if replied then Kept else Failed))
    case Raise(c) => if PhaseOf(s, c) in {Looking, Inserting} then WithPhase(s, c, Failed) else s
    case Crash(Kafka) =>
      if s.kafka == Idle then s else s.(kafka := Idle, position := s.committed)
    case Crash(Recovery) => s.(todo := [], recovery := Idle)
    case _ => s
  }

  function ApplyConsumer(cfg: Config, s: System, step: Step): System {
    match step
    case Deliver(p) =>
      if s.kafka == Idle && p < |s.topic| && p < |s.position| && s.position[p] < |s.topic[p]|
      then s.(kafka := Looking, partition := p, position := s.position[p := s.position[p] + 1])
      else s
    case Mark(stored) =>
      if s.kafka != Kept || !HoldsKafka(s) then s
      else
        var id := IdOf(InHand(s, Kafka));
        s.(kafka := Done, markers := if stored && id != "" then s.markers + {id} else s.markers)
    case Retry => if s.kafka == Failed then s.(kafka := Looking) else s
    case Commit => if s.kafka == Done then s.(kafka := Idle, committed := s.position) else s
    case ReadPending =>
      var batch := Lowest(s.pending, 0, s.cursor, cfg.batchSize);
      if s.recovery != Idle || batch == [] || exists k :: 0 <= k < |batch| && batch[k] >= |s.buffer.stream| then s
      else s.(todo := FetchAll(s, batch), recovery := Got)
    case ReadNew =>
      var start, end := Max(s.cursor, s.trimmed), NewEnd(s, cfg.batchSize);
      if s.recovery != Idle || start >= end then s
      else s.(todo := FetchAll(s, Range(start, end)), recovery := Got, cursor := end,
              pending := s.pending + Between(start, end))
    case CheckMarker(answered) =>
      if s.recovery != Got || s.todo == [] then s
      else
        var id := IdOf(s.todo[0].message);
        s.(recovery := if id != "" && answered && id in s.markers then Kept else Looking)
    case Ack =>
      if s.recovery != Kept || s.todo == [] then s
      else NextEntry(s).(pending := s.pending - {s.todo[0].index})
    case Leave => if s.recovery != Failed || s.todo == [] then s else NextEntry(s)
    case _ => s
  }

  predicate Saves(step: Step) {
    step.Look? || step.Insert? || step.Raise? || step.Crash?
  }

  /** One step of the system; a step whose guard is false changes nothing. */
  function Apply(cfg: Config, s: System, step: Step): System {
    if Saves(step) then ApplySave(cfg, s, step)
    else if By(step, Kafka) || By(step, Recovery) then ApplyConsumer(cfg, s, step)
    else ApplyAccess(cfg, s, step)
  }

  /** What the system starts from: empty queues, and any seeded employees. */
  datatype Seed = Seed(employees: map<string, Employee>, departments: set<string>, partitions: nat)

  function Start(seed: Seed): System {
    System(map[], [], {}, Buffer({}, []), 0, {}, 0, {}, [], Idle,
           seq(seed.partitions, _ => []), seq(seed.partitions, _ => 0), seq(seed.partitions, _ => 0), 0, Idle,
           Loaded(None, false), Loaded(None, false), Database([], seed.employees, seed.departments))
  }

  function Run(cfg: Config, seed: Seed, steps: seq<Step>): System {
    if steps == [] then Start(seed)
    else Apply(cfg, Run(cfg, seed, steps[..|steps| - 1]), steps[|steps| - 1])
  }
}
