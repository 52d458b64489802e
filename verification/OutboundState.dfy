/** The outbound queue as a state machine whose steps are its critical sections.

    The producer (Core 1) runs one admission at a time as a sequence of atomic steps: a reading of
    the free heap, a collection, or one stretch of code under the queue lock.  Between any two of
    them Core 0 may take or complete entries.  What a reading of the free heap returns and what the
    serializer does are arbitrary: nothing is assumed of a garbage collection. */
module OutboundState {
  import opened Common

  // Lower values are more important.
  const CRITICAL: int := 10
  const HEALTH: int := 70

  type Priority = x: int | CRITICAL <= x <= HEALTH witness CRITICAL

  /** A queued message.  `id` stands for the identity of the entry object: its place in the order
      of admission. */
  datatype Entry = Entry(id: nat, kind: Kind, priority: Priority, payload: bytes)

  /** The message being admitted; its payload is empty until it has been serialized. */
  datatype Item = Item(kind: Kind, priority: Priority, payload: bytes)

  datatype Limits = Limits(floor: int, preferred: int, maxMessages: Option<nat>)

  datatype Lane = Lane(
    queue: seq<Entry>,
    inFlight: Option<Entry>,
    queuedBytes: int,
    highWatermark: int,
    highWatermarkBytes: int,
    messagesEvicted: nat,
    telemetryEvicted: nat,
    messagesRejected: nat,
    serializationRejected: nat,
    oversizedRejected: nat,
    oversizedDiscarded: nat)
  {
    function Depth(): nat { |queue| + (if inFlight.Some? then 1 else 0) }
  }

  /** What has become of every entry so far, and the free heap measured when each was retained. */
  datatype Ledger = Ledger(
    admitted: seq<Entry>,
    measured: seq<int>,
    taken: seq<Entry>,
    completed: seq<Entry>,
    discarded: seq<Entry>,
    evicted: seq<Entry>)

  datatype Outcome = Admitted | Refused | OutOfMemory | Malformed | TooLarge

  datatype Serialized =
    | Bytes(payload: bytes)
    | NoMemory           // MemoryError
    | NotJsonSafe        // an unsupported value, key or float
    | Oversized          // MessageTooLargeError
    | Unserializable     // any other SerializationError

  /** Where the producer is. */
  datatype Phase =
    | Over(outcome: Outcome)         // not inside an admission; how the last one ended
    | Serializing(collected: bool)
    | FirstReading                   // the preferred reserve, before any collection
    | SecondReading                  // the preferred reserve again
    | ThirdReading                   // the hard floor: soft or hard pressure
    | SoftRelief
    | Gate(displacing: bool)         // about to append behind the count ceiling
    | Relieved(displacing: bool)     // evicted at the ceiling: about to append
    | FloorReading                   // top of the displacement loop
    | Displace
    | Collecting(next: Phase)        // about to run gc.collect()

  datatype System = System(lane: Lane, ledger: Ledger, item: Item, phase: Phase)

  /** What the producer's next step meets: the free heap if it reads it, the serializer's answer if
      it calls it. */
  datatype Observed = Observed(free: int, serialized: Serialized)

  datatype Event =
    | Offer(item: Item, serialized: bool)   // put_with_kind (true) or put (false) begins
    | Core1(observed: Observed)
    | Take
    | Complete(entry: Entry, discarded: bool)

  datatype Run = Boot | Then(before: Run, event: Event)

  // ---------------------------------------------------------------------------------------
  // Eviction
  // ---------------------------------------------------------------------------------------

  /** The priority of the least important class queued. */
  function Worst(q: seq<Entry>): (r: Priority)
    ensures forall i :: 0 <= i < |q| ==> q[i].priority <= r
    ensures q != [] ==> exists i :: 0 <= i < |q| && q[i].priority == r
  {
    if q == [] then CRITICAL
    else
      var before := Worst(q[..|q| - 1]);
      if q[|q| - 1].priority > before then q[|q| - 1].priority else before
  }

  /** The index of the oldest entry of that priority, or the length when there is none. */
  function OldestOf(q: seq<Entry>, priority: Priority): (i: nat)
    ensures i <= |q|
    ensures forall k :: 0 <= k < i ==> q[k].priority != priority
    ensures i < |q| ==> q[i].priority == priority
  {
    if q == [] || q[0].priority == priority then 0 else 1 + OldestOf(q[1..], priority)
  }

  /** The entry an incoming message of priority `p` displaces, if any. */
  function Victim(q: seq<Entry>, p: Priority): (r: Option<nat>)
    ensures r.Some? ==> r.value < |q|
  {
    var worst := Worst(q);
    if q == [] || p > worst || (worst == CRITICAL && p == CRITICAL) then None
    else Some(OldestOf(q, worst))
  }

  /** What displacement promises: the victim is never CRITICAL, is no more important than the
      incoming message, belongs to the least important class queued and is the oldest of it; there
      is no victim exactly when nothing queued is both evictable and no more important. */
  lemma {:induction false} VictimIsFair(q: seq<Entry>, p: Priority)
    ensures Victim(q, p).Some? ==>
      var v := q[Victim(q, p).value];
      && v.priority > CRITICAL && v.priority >= p
      && (forall i :: 0 <= i < |q| ==> q[i].priority <= v.priority)
      && (forall i :: 0 <= i < Victim(q, p).value ==> q[i].priority < v.priority)
    ensures Victim(q, p).None? <==> forall i :: 0 <= i < |q| ==> q[i].priority < p || q[i].priority == CRITICAL
  {
  }

  function Without(q: seq<Entry>, i: nat): seq<Entry>
    requires i < |q|
  {
    q[..i] + q[i + 1..]
  }

  // ---------------------------------------------------------------------------------------
  // The producer's steps
  // ---------------------------------------------------------------------------------------

  /** What a step of the producer does to the queue and its counters. */
  datatype Effect =
    | Nothing
    | Evict(index: nat)
    | Append(free: int)          // `free` measured with the entry retained
    | Serialize(payload: bytes)
    | CountRejected
    | CountOversized
    | CountUnserializable

  datatype Move = Move(effect: Effect, next: Phase)

  predicate BelowLimit(m: Limits, lane: Lane) {
    m.maxMessages.None? || lane.Depth() < m.maxMessages.value
  }

  /** Where an append that was not made leads. */
  function NotAppended(displacing: bool): Phase { if displacing then Displace else FloorReading }

  /** Appending is undone when the free heap measured after it is below the floor. */
  function AppendMove(m: Limits, free: int, displacing: bool): Move {
    if free >= m.floor then Move(Append(free), Over(Admitted))
    else Move(Nothing, Collecting(NotAppended(displacing)))
  }

  /** Displace the victim and collect, or what to do when there is none. */
  function EvictMove(s: System, next: Phase, otherwise: Move): Move {
    var victim := Victim(s.lane.queue, s.item.priority);
    if victim.Some? then Move(Evict(victim.value), Collecting(next)) else otherwise
  }

  function SerializerMove(s: System, answer: Serialized, collected: bool): Move {
    match answer
    case Bytes(payload) => Move(Serialize(payload), FirstReading)
    case NoMemory =>
      if !collected then Move(Nothing, Collecting(Serializing(true)))
      else EvictMove(s, Serializing(true), Move(Nothing, Over(OutOfMemory)))
    case NotJsonSafe => Move(Nothing, Over(Malformed))
    case Oversized => Move(CountOversized, Over(TooLarge))
    case Unserializable => Move(CountUnserializable, Over(Malformed))
  }

  /** One step of `put`/`put_with_kind`; nothing outside an admission. */
  function ProducerMove(m: Limits, s: System, o: Observed): Move {
    match s.phase
    case Over(_) => Move(Nothing, s.phase)
    case Serializing(collected) => SerializerMove(s, o.serialized, collected)
    case FirstReading => Move(Nothing, if o.free >= m.preferred then SecondReading else Collecting(SecondReading))
    case SecondReading => Move(Nothing, if o.free >= m.preferred then Gate(false) else ThirdReading)
    case ThirdReading => Move(Nothing, if o.free >= m.floor then SoftRelief else FloorReading)
    case SoftRelief => EvictMove(s, Gate(false), Move(Nothing, Gate(false)))
    case Gate(displacing) =>
      if BelowLimit(m, s.lane) then AppendMove(m, o.free, displacing)
      else EvictMove(s, Relieved(displacing), Move(Nothing, NotAppended(displacing)))
    case Relieved(displacing) => AppendMove(m, o.free, displacing)
    case FloorReading => Move(Nothing, if o.free >= m.floor then Gate(true) else Displace)
    case Displace => EvictMove(s, FloorReading, Move(CountRejected, Over(Refused)))
    case Collecting(next) => Move(Nothing, next)
  }

  function Dropping(lane: Lane, i: nat): Lane
    requires i < |lane.queue|
  {
    var e := lane.queue[i];
    lane.(queue := Without(lane.queue, i),
          queuedBytes := lane.queuedBytes - |e.payload|,
          messagesEvicted := lane.messagesEvicted + 1,
          telemetryEvicted := lane.telemetryEvicted + (if e.kind == Telemetry then 1 else 0))
  }

  /** Removing the entry at `i`, as `_evict_oldest_by_priority_locked` does. */
  function Evicting(s: System, i: nat): System
    requires i < |s.lane.queue|
  {
    s.(lane := Dropping(s.lane, i), ledger := s.ledger.(evicted := s.ledger.evicted + [s.lane.queue[i]]))
  }

  function Max(a: int, b: int): int { if a > b then a else b }

  /** Retaining the item, as `_append_locked` does. */
  function Appending(s: System, free: int): System {
    var e := Entry(|s.ledger.admitted|, s.item.kind, s.item.priority, s.item.payload);
    var bytes := s.lane.queuedBytes + |e.payload|;
    var depth := s.lane.Depth() + 1;
    s.(lane := s.lane.(queue := s.lane.queue + [e], queuedBytes := bytes,
                       highWatermark := Max(depth, s.lane.highWatermark),
                       highWatermarkBytes := Max(bytes, s.lane.highWatermarkBytes)),
       ledger := s.ledger.(admitted := s.ledger.admitted + [e], measured := s.ledger.measured + [free]))
  }

  function Applying(s: System, effect: Effect): System {
    match effect
    case Nothing => s
    case Evict(i) => if i < |s.lane.queue| then Evicting(s, i) else s
    case Append(free) => Appending(s, free)
    case Serialize(payload) => s.(item := s.item.(payload := payload))
    case CountRejected => s.(lane := s.lane.(messagesRejected := s.lane.messagesRejected + 1))
    case CountOversized => s.(lane := s.lane.(oversizedRejected := s.lane.oversizedRejected + 1))
    case CountUnserializable => s.(lane := s.lane.(serializationRejected := s.lane.serializationRejected + 1))
  }

  function Producer(m: Limits, s: System, o: Observed): System {
    var move := ProducerMove(m, s, o);
    Applying(s, move.effect).(phase := move.next)
  }

  /** `put` or `put_with_kind` is called; the producer is one thread, so only when it is not inside
      another admission. */
  function Offering(s: System, item: Item, serialized: bool): System {
    if !s.phase.Over? then s
    else if !serialized then s.(item := item.(payload := []), phase := Serializing(false))
    else if |item.payload| > MAX_OUTBOUND_MESSAGE_BYTES then
      s.(item := item, lane := s.lane.(oversizedRejected := s.lane.oversizedRejected + 1), phase := Over(TooLarge))
    else s.(item := item, phase := FirstReading)
  }

  // ---------------------------------------------------------------------------------------
  // Core 0's steps
  // ---------------------------------------------------------------------------------------

  /** `take`: the entry in flight stays there until it is completed. */
  function Taking(s: System): System {
    if s.lane.inFlight.Some? || s.lane.queue == [] then s
    else s.(lane := s.lane.(queue := s.lane.queue[1..], inFlight := Some(s.lane.queue[0])),
            ledger := s.ledger.(taken := s.ledger.taken + [s.lane.queue[0]]))
  }

  /** `complete_in_flight`: only the very entry in flight is released. */
  function Completing(s: System, e: Entry, discarded: bool): System {
    if s.lane.inFlight != Some(e) then s
    else
      var lane := s.lane.(inFlight := None, queuedBytes := s.lane.queuedBytes - |e.payload|);
      if discarded then
        s.(lane := lane.(oversizedDiscarded := lane.oversizedDiscarded + 1),
           ledger := s.ledger.(discarded := s.ledger.discarded + [e]))
      else s.(lane := lane, ledger := s.ledger.(completed := s.ledger.completed + [e]))
  }

  function Step(m: Limits, s: System, e: Event): System {
    match e
    case Offer(item, serialized) => Offering(s, item, serialized)
    case Core1(o) => Producer(m, s, o)
    case Take => Taking(s)
    case Complete(entry, discarded) => Completing(s, entry, discarded)
  }

  const BOOTED: System := System(
    Lane([], None, 0, 0, 0, 0, 0, 0, 0, 0, 0), Ledger([], [], [], [], [], []),
    Item(Log, CRITICAL, []), Over(Malformed))

  /** The state after a run: any interleaving of admissions, takes and completions. */
  function After(m: Limits, r: Run): System {
    match r
    case Boot => BOOTED
    case Then(before, event) => Step(m, After(m, before), event)
  }
}
