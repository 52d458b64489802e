/** The outbound queue itself: each method is shown to follow the state machine of OutboundState,
    one event for each reading of the heap, collection and critical section, so that what holds of
    every run holds of the queue. */
module OutboundQueue {
  import opened Common
  import opened OutboundState
  import opened OutboundSafety
  import opened OutboundPressure

  /** What Core 0 does while the producer does not hold the queue lock. */
  datatype Core0Call = CallTake | CallComplete(entry: Entry, discarded: bool)

  datatype PutResult =
    | Returned(admitted: bool)
    | ValueError
    | TooLargeError
    | MemoryError

  function ResultOf(outcome: Outcome): PutResult {
    match outcome
    case Admitted => Returned(true)
    case Refused => Returned(false)
    case OutOfMemory => MemoryError
    case Malformed => ValueError
    case TooLarge => TooLargeError
  }

  /** What reaches the caller of `put` when the serializer has failed for good. */
  function Raised(answer: Serialized): PutResult
    requires !answer.Bytes?
  {
    match answer
    case NoMemory => MemoryError
    case Oversized => TooLargeError
    case _ => ValueError
  }

  const NOTHING_SEEN: Observed := Observed(0, NoMemory)

  /** Where a critical section that tried to evict one entry leads. */
  function AfterRelief(phase: Phase, evicted: bool): Phase
    requires phase in {SoftRelief, Serializing(true)} || phase.Gate?
  {
    match phase
    case SoftRelief => if evicted then Collecting(Gate(false)) else Gate(false)
    case Serializing(_) => if evicted then Collecting(Serializing(true)) else Over(OutOfMemory)
    case Gate(displacing) => if evicted then Collecting(Relieved(displacing)) else NotAppended(displacing)
  }

  lemma {:induction false} AppendStep(m: Limits, s: System, o: Observed)
    requires s.phase.Relieved? || (s.phase.Gate? && BelowLimit(m, s.lane))
    ensures Producer(m, s, o)
            == if o.free >= m.floor then Appending(s, o.free).(phase := Over(Admitted))
               else s.(phase := Collecting(NotAppended(s.phase.displacing)))
  {
  }

  lemma {:induction false} ReliefStep(m: Limits, s: System)
    requires s.phase in {SoftRelief, Serializing(true)} || (s.phase.Gate? && !BelowLimit(m, s.lane))
    ensures var victim := Victim(s.lane.queue, s.item.priority);
            Producer(m, s, NOTHING_SEEN)
            == (if victim.Some? then Evicting(s, victim.value) else s).(phase := AfterRelief(s.phase, victim.Some?))
  {
  }

  lemma {:induction false} DisplaceStep(m: Limits, s: System)
    requires s.phase == Displace
    ensures var victim := Victim(s.lane.queue, s.item.priority);
            Producer(m, s, NOTHING_SEEN)
            == if victim.Some? then Evicting(s, victim.value).(phase := Collecting(FloorReading))
               else s.(lane := s.lane.(messagesRejected := s.lane.messagesRejected + 1), phase := Over(Refused))
  {
  }

  lemma {:induction false} OldestFrom(q: seq<Entry>, priority: Priority, i: nat)
    requires i < |q|
    ensures OldestOf(q[i..], priority) == if q[i].priority == priority then 0 else 1 + OldestOf(q[i + 1..], priority)
  {
    assert q[i..][1..] == q[i + 1..];
  }

  lemma {:induction false} SerializeStep(m: Limits, s: System, answer: Serialized)
    requires s.phase.Serializing? && (answer.NoMemory? ==> !s.phase.collected)
    ensures Producer(m, s, Observed(0, answer))
            == match answer
               case Bytes(payload) => s.(item := s.item.(payload := payload), phase := FirstReading)
               case NoMemory => s.(phase := Collecting(Serializing(true)))
               case NotJsonSafe => s.(phase := Over(Malformed))
               case Oversized =>
                 s.(lane := s.lane.(oversizedRejected := s.lane.oversizedRejected + 1), phase := Over(TooLarge))
               case Unserializable =>
                 s.(lane := s.lane.(serializationRejected := s.lane.serializationRejected + 1), phase := Over(Malformed))
  {
  }

  class OutboundQueue {
    const limits: Limits
    const heap: nat -> int                  // what successive gc.mem_free() calls return
    const serializer: nat -> Serialized     // what successive serializer calls do
    const core0: nat -> seq<Core0Call>      // what Core 0 does at each release of the queue lock

    var readings: nat
    var attempts: nat
    var releases: nat

    var queue: seq<Entry>
    var inFlight: Option<Entry>
    var queuedBytes: int
    var highWatermark: int
    var highWatermarkBytes: int
    var messagesEvicted: nat
    var telemetryEvicted: nat
    var messagesRejected: nat
    var serializationRejected: nat
    var oversizedRejected: nat
    var oversizedDiscarded: nat
    var nextId: nat                         // the identity of the next entry object

    var locked: bool                        // the queue lock, as the producer holds it
    var admitting: bool                     // the heap-admission lock

    ghost var run: Run

    ghost function Sys(): System reads `run { After(limits, run) }

    ghost function Fields(): Lane
      reads this
    {
      Lane(queue, inFlight, queuedBytes, highWatermark, highWatermarkBytes, messagesEvicted, telemetryEvicted,
           messagesRejected, serializationRejected, oversizedRejected, oversizedDiscarded)
    }

    ghost predicate Valid()
      reads this
    {
      Fields() == Sys().lane && nextId == |Sys().ledger.admitted|
    }

    /** Every entry given up so far, in order. */
    ghost function GivenUp(): seq<Entry> reads `run { Sys().ledger.evicted }

    /** What no step inside an admission changes: the state it began in and the message. */
    ghost function Context(): (System, Item)
      reads `run
    {
      (Opening(limits, run), Sys().item)
    }

    /** The last of the heap readings made since `start`, with the latest entry already in the queue,
        was at or above the floor, and is the one recorded for that entry. */
    ghost predicate RetainedAboveFloor(start: nat)
      reads `readings, `run
    {
      && start < readings && heap(readings - 1) >= limits.floor
      && var measured := Sys().ledger.measured;
      && measured != [] && measured[|measured| - 1] == heap(readings - 1)
    }

    constructor (limits: Limits, heap: nat -> int, serializer: nat -> Serialized, core0: nat -> seq<Core0Call>)
      ensures Valid() && !locked && !admitting && run == Boot
      ensures this.limits == limits && this.heap == heap && this.serializer == serializer
    {
      this.limits, this.heap, this.serializer, this.core0 := limits, heap, serializer, core0;
      readings, attempts, releases := 0, 0, 0;
      queue, inFlight, queuedBytes, nextId := [], None, 0, 0;
      highWatermark, highWatermarkBytes := 0, 0;
      messagesEvicted, telemetryEvicted, messagesRejected := 0, 0, 0;
      serializationRejected, oversizedRejected, oversizedDiscarded := 0, 0, 0;
      locked, admitting := false, false;
      run := Boot;
    }

    // -------------------------------------------------------------------------------------
    // Core 0
    // -------------------------------------------------------------------------------------

    method Take() returns (entry: Option<Entry>)
      requires Valid() && !locked
      modifies `queue, `inFlight, `run
      ensures Valid() && run == Then(old(run), Event.Take)
      ensures entry == (if old(inFlight).Some? then old(inFlight) else if old(queue) == [] then None else Some(old(queue)[0]))
      ensures inFlight == entry && |queue| <= old(|queue|)
      ensures Context() == old(Context()) && Sys().phase == old(Sys().phase)
      ensures Sys().ledger.measured == old(Sys().ledger.measured) && GivenUp() == old(GivenUp())
    {
      run := Then(run, Event.Take);
      if inFlight.Some? {
        return inFlight;
      }
      if queue == [] {
        return None;
      }
      inFlight, queue := Some(queue[0]), queue[1..];
      return inFlight;
    }

    method CompleteInFlight(entry: Entry, discarded: bool) returns (released: bool)
      requires Valid() && !locked
      modifies `inFlight, `queuedBytes, `oversizedDiscarded, `run
      ensures Valid() && run == Then(old(run), Complete(entry, discarded))
      ensures released == (old(inFlight) == Some(entry))
      ensures inFlight == (if released then None else old(inFlight))
      ensures Context() == old(Context()) && Sys().phase == old(Sys().phase)
      ensures Sys().ledger.measured == old(Sys().ledger.measured) && GivenUp() == old(GivenUp())
    {
      run := Then(run, Complete(entry, discarded));
      if inFlight == Some(entry) {
        inFlight := None;
        queuedBytes := queuedBytes - |entry.payload|;
        if discarded {
          oversizedDiscarded := oversizedDiscarded + 1;
        }
        return true;
      }
      return false;
    }

    method Core0Runs(call: Core0Call)
      requires Valid() && !locked
      modifies `queue, `inFlight, `queuedBytes, `oversizedDiscarded, `run
      ensures Valid() && |queue| <= old(|queue|)
      ensures Context() == old(Context()) && Sys().phase == old(Sys().phase)
      ensures Sys().ledger.measured == old(Sys().ledger.measured) && GivenUp() == old(GivenUp())
    {
      match call
      case CallTake => var _ := Take();
      case CallComplete(entry, discarded) => var _ := CompleteInFlight(entry, discarded);
    }

    /** Leaving a critical section: Core 0 may then run. */
    method Unlock()
      requires Valid() && locked
      modifies this
      ensures Valid() && !locked && admitting == old(admitting)
      ensures Context() == old(Context()) && Sys().phase == old(Sys().phase)
      ensures Sys().ledger.measured == old(Sys().ledger.measured) && GivenUp() == old(GivenUp())
      ensures |queue| <= old(|queue|) && readings == old(readings) && attempts == old(attempts)
    {
      locked := false;
      var calls := core0(releases);
      releases := releases + 1;
      for i := 0 to |calls|
        invariant Valid() && !locked && admitting == old(admitting)
        invariant Context() == old(Context()) && Sys().phase == old(Sys().phase)
        invariant Sys().ledger.measured == old(Sys().ledger.measured) && GivenUp() == old(GivenUp())
        invariant |queue| <= old(|queue|) && readings == old(readings) && attempts == old(attempts)
      {
        Core0Runs(calls[i]);
      }
    }

    method Lock()
      requires !locked
      modifies `locked
      ensures locked
    {
      locked := true;
    }

    // -------------------------------------------------------------------------------------
    // The heap
    // -------------------------------------------------------------------------------------

    method MemFree() returns (free: int)
      modifies `readings
      ensures free == heap(old(readings)) && readings == old(readings) + 1
    {
      free := heap(readings);
      readings := readings + 1;
    }

    /** `_preferred_restored` */
    method PreferredRestored() returns (restored: bool)
      requires Valid() && Sys().phase in {FirstReading, SecondReading}
      modifies `readings, `run
      ensures Valid() && Context() == old(Context()) && readings == old(readings) + 1 && GivenUp() == old(GivenUp())
      ensures restored <==> heap(old(readings)) >= limits.preferred
      ensures Sys().phase == (if old(Sys().phase) == FirstReading
                              then if restored then SecondReading else Collecting(SecondReading)
                              else if restored then Gate(false) else ThirdReading)
    {
      var free := MemFree();
      run := Then(run, Core1(Observed(free, NoMemory)));
      restored := free >= limits.preferred;
    }

    /** `_reserve_restored`, between critical sections. */
    method ReserveRestored() returns (restored: bool)
      requires Valid() && Sys().phase in {ThirdReading, FloorReading}
      modifies `readings, `run
      ensures Valid() && Context() == old(Context()) && readings == old(readings) + 1 && GivenUp() == old(GivenUp())
      ensures restored <==> heap(old(readings)) >= limits.floor
      ensures Sys().phase == (if old(Sys().phase) == ThirdReading
                              then if restored then SoftRelief else FloorReading
                              else if restored then Gate(true) else Displace)
    {
      var free := MemFree();
      run := Then(run, Core1(Observed(free, NoMemory)));
      restored := free >= limits.floor;
    }

    /** gc.collect(): never while the queue lock is held. */
    method Collect()
      requires Valid() && !locked && Sys().phase.Collecting?
      modifies `run
      ensures Valid() && Context() == old(Context()) && GivenUp() == old(GivenUp())
      ensures Sys().phase == old(Sys().phase).next
    {
      run := Then(run, Core1(NOTHING_SEEN));
    }

    // -------------------------------------------------------------------------------------
    // Eviction
    // -------------------------------------------------------------------------------------

    /** One queued entry is given up. */
    method Drop(index: nat)
      requires index < |queue|
      modifies `queue, `queuedBytes, `messagesEvicted, `telemetryEvicted
      ensures Fields() == Dropping(old(Fields()), index)
    {
      var entry := queue[index];
      queue := queue[..index] + queue[index + 1..];
      queuedBytes := queuedBytes - |entry.payload|;
      messagesEvicted := messagesEvicted + 1;
      if entry.kind == Telemetry {
        telemetryEvicted := telemetryEvicted + 1;
      }
    }

    /** `_evict_oldest_by_priority_locked` */
    method EvictOldestByPriorityLocked(priority: Priority) returns (evicted: bool)
      requires locked
      modifies `queue, `queuedBytes, `messagesEvicted, `telemetryEvicted
      ensures evicted == (OldestOf(old(queue), priority) < |old(queue)|)
      ensures !evicted ==> Fields() == old(Fields())
      ensures evicted ==> Fields() == Dropping(old(Fields()), OldestOf(old(queue), priority))
    {
      var index := 0;
      while index < |queue|
        invariant index <= |queue| && Fields() == old(Fields())
        invariant OldestOf(queue, priority) == index + OldestOf(queue[index..], priority)
      {
        var entry := queue[index];
        OldestFrom(queue, priority, index);
        if entry.priority == priority {
          Drop(index);
          return true;
        }
        index := index + 1;
      }
      return false;
    }

    /** The scan of `_evict_one_eligible_locked` for the least important class queued. */
    method WorstQueued() returns (worst: Priority)
      requires locked
      ensures worst == Worst(queue)
    {
      worst := CRITICAL;
      for index := 0 to |queue|
        invariant worst == Worst(queue[..index])
      {
        assert queue[..index + 1][..index] == queue[..index];
        if queue[index].priority > worst {
          worst := queue[index].priority;
        }
      }
      assert queue[..|queue|] == queue;
    }

    /** `_evict_one_eligible_locked` */
    method EvictOneEligibleLocked(priority: Priority) returns (evicted: bool)
      requires Valid() && locked
      modifies `queue, `queuedBytes, `messagesEvicted, `telemetryEvicted
      ensures evicted == Victim(old(queue), priority).Some?
      ensures !evicted ==> Fields() == old(Fields())
      ensures evicted ==> Fields() == Dropping(old(Fields()), Victim(old(queue), priority).value)
      ensures evicted ==> |queue| < |old(queue)|
    {
      if queue == [] {
        return false;
      }
      var worst := WorstQueued();
      if priority > worst {
        return false;
      }
      if worst == CRITICAL && priority == CRITICAL {
        return false;
      }
      var _ := EvictOldestByPriorityLocked(worst);
      return true;
    }

    // -------------------------------------------------------------------------------------
    // Admission
    // -------------------------------------------------------------------------------------

    /** `_below_count_limit_locked` */
    method BelowCountLimitLocked() returns (below: bool)
      requires locked
      ensures below == BelowLimit(limits, Fields())
    {
      if limits.maxMessages.None? {
        return true;
      }
      var depth := |queue| + (if inFlight.Some? then 1 else 0);
      return depth < limits.maxMessages.value;
    }

    /** What `_append_locked` does once the entry at the end of the queue is to stay. */
    method CountRetained(size: nat)
      modifies `queuedBytes, `highWatermark, `highWatermarkBytes, `nextId
      ensures nextId == old(nextId) + 1 && queuedBytes == old(queuedBytes) + size
      ensures highWatermark == Max(Fields().Depth(), old(highWatermark))
      ensures highWatermarkBytes == Max(queuedBytes, old(highWatermarkBytes))
    {
      nextId := nextId + 1;
      queuedBytes := queuedBytes + size;
      var depth := |queue| + (if inFlight.Some? then 1 else 0);
      if depth > highWatermark {
        highWatermark := depth;
      }
      if queuedBytes > highWatermarkBytes {
        highWatermarkBytes := queuedBytes;
      }
    }

    /** The message is in the queue, and nothing else has been done about it. */
    ghost predicate Trying(s: System)
      reads this
    {
      && s == Sys() && (s.phase.Relieved? || (s.phase.Gate? && BelowLimit(limits, s.lane)))
      && nextId == |s.ledger.admitted|
      && Fields() == s.lane.(queue := s.lane.queue + [Entry(nextId, s.item.kind, s.item.priority, s.item.payload)])
    }

    /** `free` is at or above the floor: the message stays. */
    method Retain(ghost free: int, ghost s: System)
      requires Trying(s) && free >= limits.floor
      modifies `queuedBytes, `highWatermark, `highWatermarkBytes, `nextId, `run
      ensures Valid() && run == Then(old(run), Core1(Observed(free, NoMemory)))
      ensures Sys() == Appending(s, free).(phase := Over(Admitted))
    {
      AppendStep(limits, s, Observed(free, NoMemory));
      CountRetained(|queue[|queue| - 1].payload|);
      run := Then(run, Core1(Observed(free, NoMemory)));
    }

    /** `free` is below the floor: the message is taken out again. */
    method Undo(ghost free: int, ghost s: System)
      requires Trying(s) && free < limits.floor
      modifies `queue, `run
      ensures Valid() && run == Then(old(run), Core1(Observed(free, NoMemory)))
      ensures Sys() == s.(phase := Collecting(NotAppended(s.phase.displacing))) && Fields() == s.lane
    {
      AppendStep(limits, s, Observed(free, NoMemory));
      queue := queue[..|queue| - 1];
      run := Then(run, Core1(Observed(free, NoMemory)));
      assert queue == s.lane.queue;
    }

    /** `_append_locked`: retained only if the free heap measured with the entry in the queue is at
        or above the floor; otherwise everything is as it was. */
    method AppendLocked(kind: Kind, payload: bytes, priority: Priority) returns (appended: bool)
      requires Valid() && locked && Sys().item == Item(kind, priority, payload)
      requires Sys().phase.Relieved? || (Sys().phase.Gate? && BelowLimit(limits, Fields()))
      modifies `queue, `queuedBytes, `highWatermark, `highWatermarkBytes, `nextId, `readings, `run
      ensures Valid() && Context() == old(Context()) && readings == old(readings) + 1 && GivenUp() == old(GivenUp())
      ensures appended == (heap(old(readings)) >= limits.floor)
      ensures appended ==> Sys().phase == Over(Admitted) && RetainedAboveFloor(old(readings))
      ensures !appended ==> Sys().phase == Collecting(NotAppended(old(Sys().phase).displacing)) && Fields() == old(Fields())
    {
      ghost var s := Sys();
      queue := queue + [Entry(nextId, kind, priority, payload)];
      var free := MemFree();
      if free < limits.floor {
        Undo(free, s);
        appended := false;
      } else {
        Retain(free, s);
        appended := true;
      }
    }

    /** One critical section that evicts at most one entry: soft pressure, the count ceiling, or
        serialization recovery. */
    method Relieve(priority: Priority) returns (evicted: bool)
      requires Valid() && locked && Sys().item.priority == priority
      requires Sys().phase in {SoftRelief, Serializing(true)} || (Sys().phase.Gate? && !BelowLimit(limits, Fields()))
      modifies `queue, `queuedBytes, `messagesEvicted, `telemetryEvicted, `run
      ensures Valid() && Context() == old(Context())
      ensures evicted == Victim(old(queue), priority).Some? && (evicted ==> |queue| < |old(queue)|)
      ensures GivenUp() == old(GivenUp()) + GivenUpFirst(old(queue), priority)
      ensures !evicted ==> Fields() == old(Fields())
      ensures Sys().phase == AfterRelief(old(Sys().phase), evicted)
    {
      ReliefStep(limits, Sys());
      evicted := EvictOneEligibleLocked(priority);
      run := Then(run, Core1(NOTHING_SEEN));
    }

    method RelieveAndRelease(priority: Priority) returns (evicted: bool)
      requires Valid() && locked && Sys().item.priority == priority
      requires Sys().phase in {SoftRelief, Serializing(true)} || (Sys().phase.Gate? && !BelowLimit(limits, Fields()))
      modifies this
      ensures Valid() && !locked && admitting == old(admitting) && Context() == old(Context()) && attempts == old(attempts)
      ensures |queue| <= old(|queue|) && (evicted ==> |queue| < old(|queue|)) && readings == old(readings)
      ensures evicted == Victim(old(queue), priority).Some?
      ensures GivenUp() == old(GivenUp()) + GivenUpFirst(old(queue), priority)
      ensures Sys().phase == AfterRelief(old(Sys().phase), evicted)
    {
      evicted := Relieve(priority);
      Unlock();
    }

    /** The append ends its critical section; when it was undone, the heap is collected. */
    method AppendOrCollect(kind: Kind, payload: bytes, priority: Priority) returns (appended: bool)
      requires Valid() && locked && Sys().item == Item(kind, priority, payload)
      requires Sys().phase.Relieved? || (Sys().phase.Gate? && BelowLimit(limits, Fields()))
      modifies this
      ensures Valid() && !locked && admitting == old(admitting) && Context() == old(Context()) && attempts == old(attempts)
      ensures |queue| <= old(|queue|) || appended
      ensures readings == old(readings) + 1 && GivenUp() == old(GivenUp())
      ensures appended == (heap(old(readings)) >= limits.floor) && (appended ==> RetainedAboveFloor(old(readings)))
      ensures Sys().phase == (if appended then Over(Admitted) else NotAppended(old(Sys().phase).displacing))
    {
      appended := AppendLocked(kind, payload, priority);
      Unlock();
      if !appended {
        Collect();
      }
    }

    /** At the count ceiling: one entry is evicted, if any may be, to make room. */
    method MakeRoomAndAppend(kind: Kind, payload: bytes, priority: Priority) returns (appended: bool)
      requires Valid() && locked && Sys().item == Item(kind, priority, payload)
      requires Sys().phase.Gate? && !BelowLimit(limits, Fields())
      modifies this
      ensures Valid() && !locked && admitting == old(admitting) && Context() == old(Context()) && attempts == old(attempts)
      ensures |queue| <= old(|queue|) || appended
      ensures readings >= old(readings) && (appended ==> RetainedAboveFloor(old(readings)))
      ensures Sys().phase == (if appended then Over(Admitted) else NotAppended(old(Sys().phase).displacing))
      ensures old(GivenUp()) <= GivenUp()
    {
      appended := false;
      var evicted := RelieveAndRelease(priority);
      if evicted {
        Collect();
        Lock();
        appended := AppendOrCollect(kind, payload, priority);
      }
    }

    /** `_try_append_with_count_gate` */
    method TryAppendWithCountGate(kind: Kind, payload: bytes, priority: Priority) returns (appended: bool)
      requires Valid() && !locked && Sys().item == Item(kind, priority, payload) && Sys().phase.Gate?
      modifies this
      ensures Valid() && !locked && admitting == old(admitting) && Context() == old(Context()) && attempts == old(attempts)
      ensures |queue| <= old(|queue|) || appended
      ensures readings >= old(readings) && (appended ==> RetainedAboveFloor(old(readings)))
      ensures Sys().phase == (if appended then Over(Admitted) else NotAppended(old(Sys().phase).displacing))
      ensures old(GivenUp()) <= GivenUp()
      ensures BelowLimit(limits, old(Fields())) ==>
                && GivenUp() == old(GivenUp()) && readings == old(readings) + 1
                && appended == (heap(old(readings)) >= limits.floor)
    {
      Lock();
      var below := BelowCountLimitLocked();
      if below {
        appended := AppendOrCollect(kind, payload, priority);
      } else {
        appended := MakeRoomAndAppend(kind, payload, priority);
      }
    }

    /** One call of the serializer, with the permanent failures counted. */
    method TrySerialize(collected: bool) returns (answer: Serialized)
      requires Valid() && Sys().phase == Serializing(collected)
      modifies `attempts, `oversizedRejected, `serializationRejected, `run
      ensures Valid() && attempts == old(attempts) + 1 && answer == serializer(old(attempts))
      ensures GivenUp() == old(GivenUp()) && (answer.Bytes? || answer.NoMemory? ==> Fields() == old(Fields()))
      ensures Opening(limits, run) == old(Opening(limits, run))
      ensures Sys().item
              == if answer.Bytes? then old(Sys().item).(payload := answer.payload) else old(Sys().item)
      ensures Sys().phase
              == match answer
                 case Bytes(_) => FirstReading
                 case NoMemory => if collected then Serializing(true) else Collecting(Serializing(true))
                 case NotJsonSafe => Over(Malformed)
                 case Oversized => Over(TooLarge)
                 case Unserializable => Over(Malformed)
    {
      ghost var s := Sys();
      answer := serializer(attempts);
      attempts := attempts + 1;
      if answer != NoMemory || !collected {
        SerializeStep(limits, s, answer);
        run := Then(run, Core1(Observed(0, answer)));
        assert Sys() == Producer(limits, s, Observed(0, answer));
      }
      if answer == Oversized {
        oversizedRejected := oversizedRejected + 1;
      } else if answer == Unserializable {
        serializationRejected := serializationRejected + 1;
      }
    }

    /** One entry gives its bytes up to the serializer, if any may. */
    method RelieveForSerializing(priority: Priority) returns (evicted: bool)
      requires Valid() && !locked && Sys().item.priority == priority && Sys().phase == Serializing(true)
      modifies this
      ensures Valid() && !locked && admitting == old(admitting) && Context() == old(Context()) && attempts == old(attempts)
      ensures readings == old(readings) && (evicted ==> |queue| < old(|queue|))
      ensures GivenUp() == old(GivenUp()) + GivenUpFirst(old(queue), priority)
      ensures evicted == Victim(old(queue), priority).Some?
      ensures Sys().phase == (if evicted then Collecting(Serializing(true)) else Over(OutOfMemory))
    {
      Lock();
      evicted := RelieveAndRelease(priority);
    }

    /** The calls of the serializer since `start` have all failed for want of memory, and the next one
        has been paid for. */
    ghost predicate Recovered(start: nat, before: seq<Entry>, lane: Lane)
      reads this
    {
      && attempts >= start && (forall i :: start <= i < attempts ==> serializer(i) == NoMemory)
      && PaidFor(attempts - start + 1, before, GivenUp())
      && (attempts <= start + 1 ==> Fields() == lane)
    }

    /** The serializer wanted memory: the first time a collection alone, after that one entry and a
        collection, as long as any entry may be given up. */
    method RecoverMemory(priority: Priority, collected: bool) returns (again: bool)
      requires Valid() && !locked && Sys().item.priority == priority
      requires Sys().phase == (if collected then Serializing(true) else Collecting(Serializing(true)))
      modifies this
      ensures Valid() && !locked && admitting == old(admitting) && Context() == old(Context()) && attempts == old(attempts)
      ensures readings == old(readings)
      ensures Sys().phase == (if again then Serializing(true) else Over(OutOfMemory))
      ensures !collected ==> again && Fields() == old(Fields()) && GivenUp() == old(GivenUp())
      ensures collected ==>
                && again == Victim(old(queue), priority).Some?
                && GivenUp() == old(GivenUp()) + GivenUpFirst(old(queue), priority)
                && (again ==> |queue| < |old(queue)|)
    {
      again := true;
      if collected {
        again := RelieveForSerializing(priority);
      }
      if again {
        Collect();
      }
    }

    /** `_serialize_with_recovery`: one collection before anything queued is given up. */
    method SerializeWithRecovery(priority: Priority) returns (answer: Serialized)
      requires Valid() && !locked && Sys().item.priority == priority && Sys().phase == Serializing(false)
      modifies this
      ensures Valid() && !locked && admitting == old(admitting)
      ensures attempts > old(attempts) && answer == serializer(attempts - 1) && readings == old(readings)
      ensures forall i :: old(attempts) <= i < attempts - 1 ==> serializer(i) == NoMemory
      ensures PaidFor(attempts - old(attempts), old(GivenUp()), GivenUp())
      ensures answer.NoMemory? ==> attempts >= old(attempts) + 2
      ensures answer.Bytes? && attempts <= old(attempts) + 2 ==> Fields() == old(Fields())
      ensures Opening(limits, run) == old(Opening(limits, run))
      ensures Sys().item
              == if answer.Bytes? then old(Sys().item).(payload := answer.payload) else old(Sys().item)
      ensures Sys().phase
              == match answer
                 case Bytes(_) => FirstReading
                 case NoMemory => Over(OutOfMemory)
                 case NotJsonSafe => Over(Malformed)
                 case Oversized => Over(TooLarge)
                 case Unserializable => Over(Malformed)
    {
      var collected := false;
      while true
        invariant Valid() && !locked && admitting == old(admitting)
        invariant readings == old(readings) && (collected <==> attempts > old(attempts))
        invariant Recovered(old(attempts), old(GivenUp()), old(Fields()))
        invariant Context() == old(Context()) && Sys().phase == Serializing(collected)
        decreases |queue|, !collected
      {
        answer := TrySerialize(collected);
        if answer != NoMemory {
          return;
        }
        var again := RecoverMemory(priority, collected);
        if !again {
          return;
        }
        collected := true;
      }
    }

    method DisplaceOrRejectLocked(priority: Priority) returns (evicted: bool)
      requires Valid() && locked && Sys().item.priority == priority && Sys().phase == Displace
      modifies `queue, `queuedBytes, `messagesEvicted, `telemetryEvicted, `messagesRejected, `run
      ensures Valid() && Context() == old(Context())
      ensures evicted ==> |queue| < old(|queue|)
      ensures !evicted ==> queue == old(queue)
      ensures Sys().phase == (if evicted then Collecting(FloorReading) else Over(Refused))
      ensures evicted == Victim(old(queue), priority).Some?
      ensures GivenUp() == old(GivenUp()) + GivenUpFirst(old(queue), priority)
    {
      DisplaceStep(limits, Sys());
      evicted := EvictOneEligibleLocked(priority);
      if !evicted {
        messagesRejected := messagesRejected + 1;
      }
      run := Then(run, Core1(NOTHING_SEEN));
    }

    method DisplaceOrReject(priority: Priority) returns (evicted: bool)
      requires Valid() && !locked && Sys().item.priority == priority && Sys().phase == Displace
      modifies this
      ensures Valid() && !locked && admitting == old(admitting) && Context() == old(Context()) && attempts == old(attempts)
      ensures evicted ==> |queue| < old(|queue|)
      ensures readings == old(readings) && evicted == Victim(old(queue), priority).Some?
      ensures GivenUp() == old(GivenUp()) + GivenUpFirst(old(queue), priority)
      ensures Sys().phase == (if evicted then Collecting(FloorReading) else Over(Refused))
    {
      Lock();
      evicted := DisplaceOrRejectLocked(priority);
      Unlock();
    }

    /** One pass of the displacement loop: the message is admitted or refused, or an entry fewer is
        queued. */
    method DisplacementPass(kind: Kind, payload: bytes, priority: Priority) returns (ended: Option<bool>)
      requires Valid() && !locked && Sys().item == Item(kind, priority, payload) && Sys().phase == FloorReading
      modifies this
      ensures Valid() && !locked && admitting == old(admitting) && Context() == old(Context()) && attempts == old(attempts)
      ensures Sys().phase == (if ended.None? then FloorReading else Over(if ended.value then Admitted else Refused))
      ensures ended.None? ==> |queue| < |old(queue)|
      ensures readings > old(readings) && (ended == Some(true) ==> RetainedAboveFloor(old(readings)))
      ensures old(GivenUp()) <= GivenUp()
      ensures heap(old(readings)) < limits.floor ==>
                && GivenUp() == old(GivenUp()) + GivenUpFirst(old(queue), priority) && readings == old(readings) + 1
                && ended == (if Victim(old(queue), priority).Some? then None else Some(false))
    {
      var restored := ReserveRestored();
      if restored {
        var appended := TryAppendWithCountGate(kind, payload, priority);
        if appended {
          return Some(true);
        }
      }
      var evicted := DisplaceOrReject(priority);
      if !evicted {
        return Some(false);
      }
      Collect();
      return None;
    }

    /** The displacement loop of `_admit_heap_governed`: it ends because each pass leaves one entry
        fewer, and nothing else appends while the heap-admission lock is held. */
    method DisplaceUntilAdmitted(kind: Kind, payload: bytes, priority: Priority) returns (admitted: bool)
      requires Valid() && !locked && admitting && Sys().item == Item(kind, priority, payload) && Sys().phase == FloorReading
      modifies this
      ensures Valid() && !locked && admitting && Context() == old(Context()) && attempts == old(attempts)
      ensures readings >= old(readings) && (admitted ==> RetainedAboveFloor(old(readings)))
      ensures Sys().phase == Over(if admitted then Admitted else Refused)
      ensures LateRelief(limits, heap, old(readings), old(queue), priority, old(GivenUp()), GivenUp(), admitted, readings)
    {
      var ended: Option<bool> := None;
      while ended.None?
        invariant Valid() && !locked && admitting
        invariant Context() == old(Context()) && attempts == old(attempts)
        invariant Sys().phase == (if ended.None? then FloorReading else Over(if ended.value then Admitted else Refused))
        invariant readings >= old(readings) && (ended == Some(true) ==> RetainedAboveFloor(old(readings)))
        invariant if readings == old(readings) then ended.None? && queue == old(queue) && GivenUp() == old(GivenUp())
                  else LateRelief(limits, heap, old(readings), old(queue), priority, old(GivenUp()), GivenUp(),
                                  ended == Some(true), readings)
        invariant readings > old(readings) && heap(old(readings)) < limits.floor && Victim(old(queue), priority).None? ==>
                    ended.Some?
        decreases ended.None?, |queue|
      {
        ended := DisplacementPass(kind, payload, priority);
      }
      return ended.value;
    }

    /** Soft pressure: one eligible entry is reclaimed, if any, and the message is admitted. */
    method RelieveAndAppend(kind: Kind, payload: bytes, priority: Priority) returns (admitted: bool)
      requires Valid() && !locked && Sys().item == Item(kind, priority, payload) && Sys().phase == SoftRelief
      modifies this
      ensures Valid() && !locked && admitting == old(admitting) && Context() == old(Context()) && attempts == old(attempts)
      ensures readings >= old(readings) && (admitted ==> RetainedAboveFloor(old(readings)))
      ensures Sys().phase == (if admitted then Over(Admitted) else FloorReading)
      ensures old(GivenUp()) + GivenUpFirst(old(queue), priority) <= GivenUp()
      ensures limits.maxMessages.None? ==>
                && GivenUp() == old(GivenUp()) + GivenUpFirst(old(queue), priority)
                && readings == old(readings) + 1 && admitted == (heap(old(readings)) >= limits.floor)
    {
      Lock();
      var evicted := RelieveAndRelease(priority);
      if evicted {
        Collect();
      }
      admitted := TryAppendWithCountGate(kind, payload, priority);
    }

    /** The preferred reserve, read again after a collection when it is short. */
    method PreferredReserve() returns (restored: bool)
      requires Valid() && !locked && Sys().phase == FirstReading
      modifies `readings, `run
      ensures Valid() && Context() == old(Context()) && readings == old(readings) + 2 && GivenUp() == old(GivenUp())
      ensures restored <==> heap(old(readings) + 1) >= limits.preferred
      ensures Sys().phase == (if restored then Gate(false) else ThirdReading)
    {
      restored := PreferredRestored();
      if !restored {
        Collect();
      }
      restored := PreferredRestored();
    }

    /** Between the two thresholds: relief when the floor holds. */
    method AdmitUnderSoftPressure(kind: Kind, payload: bytes, priority: Priority) returns (admitted: bool)
      requires Valid() && !locked && Sys().item == Item(kind, priority, payload) && Sys().phase == ThirdReading
      modifies this
      ensures Valid() && !locked && admitting == old(admitting) && Context() == old(Context()) && attempts == old(attempts)
      ensures readings >= old(readings) && (admitted ==> RetainedAboveFloor(old(readings)))
      ensures Sys().phase == (if admitted then Over(Admitted) else FloorReading)
      ensures heap(old(readings)) < limits.floor ==>
                !admitted && GivenUp() == old(GivenUp()) && queue == old(queue) && readings == old(readings) + 1
      ensures heap(old(readings)) >= limits.floor ==>
                && old(GivenUp()) + GivenUpFirst(old(queue), priority) <= GivenUp()
                && (limits.maxMessages.None? ==>
                      && GivenUp() == old(GivenUp()) + GivenUpFirst(old(queue), priority)
                      && readings == old(readings) + 2 && admitted == (heap(old(readings) + 1) >= limits.floor))
    {
      var restored := ReserveRestored();
      admitted := false;
      if restored {
        admitted := RelieveAndAppend(kind, payload, priority);
      }
    }

    /** The two-threshold decision: normal admission, or relief under soft pressure. */
    method AdmitAboveFloor(kind: Kind, payload: bytes, priority: Priority) returns (admitted: bool)
      requires Valid() && !locked && Sys().item == Item(kind, priority, payload) && Sys().phase == FirstReading
      modifies this
      ensures Valid() && !locked && admitting == old(admitting) && Context() == old(Context()) && attempts == old(attempts)
      ensures readings >= old(readings) && (admitted ==> RetainedAboveFloor(old(readings)))
      ensures Sys().phase == (if admitted then Over(Admitted) else FloorReading)
      ensures EarlyRelief(limits, heap, old(readings), old(Fields()), priority, old(GivenUp()), GivenUp(), queue, admitted,
                       readings)
    {
      var restored := PreferredReserve();
      if restored {
        admitted := TryAppendWithCountGate(kind, payload, priority);
      } else {
        admitted := AdmitUnderSoftPressure(kind, payload, priority);
      }
    }

    /** The stages of `_admit_heap_governed`, under the heap-admission lock. */
    method AdmitInStages(kind: Kind, payload: bytes, priority: Priority) returns (admitted: bool)
      requires Valid() && !locked && admitting
      requires Sys().item == Item(kind, priority, payload) && Sys().phase == FirstReading
      modifies this
      ensures Valid() && !locked && admitting && Context() == old(Context()) && attempts == old(attempts)
      ensures readings >= old(readings) && (admitted ==> RetainedAboveFloor(old(readings)))
      ensures Sys().phase == Over(if admitted then Admitted else Refused)
      ensures PressureHeeded(limits, heap, old(readings), old(Fields()), priority, old(GivenUp()), GivenUp(),
                             admitted, readings)
    {
      admitted := AdmitAboveFloor(kind, payload, priority);
      ghost var (early, between, q, k) := (admitted, GivenUp(), queue, readings);
      if !admitted {
        admitted := DisplaceUntilAdmitted(kind, payload, priority);
      }
      PressureIsHeeded(limits, heap, old(readings), old(Fields()), priority, old(GivenUp()), between, q, early, k,
                       GivenUp(), admitted, readings);
    }

    /** `_admit_heap_governed` */
    method AdmitHeapGoverned(kind: Kind, payload: bytes, priority: Priority) returns (admitted: bool)
      requires Valid() && !locked && !admitting
      requires Sys().item == Item(kind, priority, payload) && Sys().phase == FirstReading
      modifies this
      ensures Valid() && !locked && !admitting && Context() == old(Context()) && attempts == old(attempts)
      ensures readings >= old(readings) && (admitted ==> RetainedAboveFloor(old(readings)))
      ensures Sys().phase == Over(if admitted then Admitted else Refused)
      ensures PressureHeeded(limits, heap, old(readings), old(Fields()), priority, old(GivenUp()), GivenUp(),
                             admitted, readings)
    {
      admitting := true;
      admitted := AdmitInStages(kind, payload, priority);
      admitting := false;
    }

    // -------------------------------------------------------------------------------------
    // The producer's entry points
    // -------------------------------------------------------------------------------------

    /** `put` once the metadata has been checked and the admission has begun. */
    method SerializeAndAdmit(kind: Kind, priority: Priority) returns (result: PutResult)
      requires Valid() && !locked && !admitting && Sys().phase == Serializing(false)
      requires Sys().item.kind == kind && Sys().item.priority == priority
      modifies this
      ensures Valid() && !locked && !admitting && Opening(limits, run) == old(Opening(limits, run))
      ensures Sys().phase.Over? && result == ResultOf(Sys().phase.outcome)
      ensures result == Returned(true) ==>
                && attempts > old(attempts) && serializer(attempts - 1) == Bytes(Sys().item.payload)
                && RetainedAboveFloor(old(readings))
      ensures serializer(old(attempts)).Bytes? ==>
                PressureHeeded(limits, heap, old(readings), old(Fields()), priority, old(GivenUp()), GivenUp(),
                               result == Returned(true), readings)
    {
      var answer := SerializeWithRecovery(priority);
      if answer.Bytes? {
        var admitted := AdmitHeapGoverned(kind, answer.payload, priority);
        result := Returned(admitted);
      } else {
        result := Raised(answer);
      }
    }

    /** `put`: the machine's run goes on from where it was with this admission, to its end. */
    method Put(kind: Kind, priority: int) returns (result: PutResult)
      requires Valid() && !locked && !admitting && Sys().phase.Over?
      modifies this
      ensures Valid() && !locked && !admitting && Sys().phase.Over?
      ensures !(CRITICAL <= priority <= HEALTH) ==> result == ValueError && run == old(run) && Fields() == old(Fields())
      ensures CRITICAL <= priority <= HEALTH ==>
                && result == ResultOf(Sys().phase.outcome) && Settled(limits, old(Sys()), Sys(), kind, priority)
                && Opening(limits, run) == Offering(old(Sys()), Item(kind, priority, []), false)
      ensures CRITICAL <= priority <= HEALTH && result == Returned(true) ==>
                && attempts > old(attempts) && serializer(attempts - 1) == Bytes(Sys().item.payload)
                && RetainedAboveFloor(old(readings))
      ensures CRITICAL <= priority <= HEALTH && serializer(old(attempts)).Bytes? ==>
                PressureHeeded(limits, heap, old(readings), old(Fields()), priority, old(GivenUp()), GivenUp(),
                               result == Returned(true), readings)
    {
      if !(CRITICAL <= priority <= HEALTH) {
        return ValueError;
      }
      ghost var before, item := Sys(), Item(kind, priority, []);
      run := Then(run, Offer(item, false));
      result := SerializeAndAdmit(kind, priority);
      AdmissionSettles(limits, before, item, false, run);
    }

    /** `put_with_kind` */
    method PutWithKind(kind: Kind, payload: bytes, priority: int) returns (result: PutResult)
      requires Valid() && !locked && !admitting && Sys().phase.Over?
      modifies this
      ensures Valid() && !locked && !admitting && Sys().phase.Over?
      ensures !(CRITICAL <= priority <= HEALTH) ==> result == ValueError && run == old(run) && Fields() == old(Fields())
      ensures CRITICAL <= priority <= HEALTH ==>
                && result == ResultOf(Sys().phase.outcome) && Settled(limits, old(Sys()), Sys(), kind, priority)
                && Opening(limits, run) == Offering(old(Sys()), Item(kind, priority, payload), true)
      ensures CRITICAL <= priority <= HEALTH && result == Returned(true) ==>
                Sys().item.payload == payload && RetainedAboveFloor(old(readings))
      ensures CRITICAL <= priority <= HEALTH ==> (result == TooLargeError <==> |payload| > MAX_OUTBOUND_MESSAGE_BYTES)
      ensures CRITICAL <= priority <= HEALTH && result != TooLargeError ==>
                PressureHeeded(limits, heap, old(readings), old(Fields()), priority, old(GivenUp()), GivenUp(),
                               result == Returned(true), readings)
    {
      if !(CRITICAL <= priority <= HEALTH) {
        return ValueError;
      }
      ghost var before, item := Sys(), Item(kind, priority, payload);
      if |payload| > MAX_OUTBOUND_MESSAGE_BYTES {
        oversizedRejected := oversizedRejected + 1;
        run := Then(run, Offer(item, true));
        result := TooLargeError;
      } else {
        run := Then(run, Offer(item, true));
        var admitted := AdmitHeapGoverned(kind, payload, priority);
        result := Returned(admitted);
      }
      AdmissionSettles(limits, before, item, true, run);
    }
  }
}
