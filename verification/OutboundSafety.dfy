/** What every interleaving of admissions, takes and completions keeps. */
module OutboundSafety {
  import opened Common
  import opened OutboundState

  // ---------------------------------------------------------------------------------------
  // The count ceiling
  // ---------------------------------------------------------------------------------------

  /** Room was made at the ceiling and the append that will use it has not yet run. */
  predicate RoomHeld(phase: Phase) {
    match phase
    case Relieved(_) => true
    case Collecting(next) => RoomHeld(next)
    case _ => false
  }

  predicate WithinCeiling(s: System, ceiling: nat) {
    && s.lane.Depth() <= ceiling
    && (RoomHeld(s.phase) ==> s.lane.Depth() < ceiling)
    && s.lane.highWatermark <= ceiling
  }

  /** What an effect does to the depth and its watermark. */
  lemma {:induction false} EffectDepth(s: System, effect: Effect)
    requires effect.Evict? ==> effect.index < |s.lane.queue|
    ensures var (d, t) := (s.lane.Depth(), Applying(s, effect).lane);
            if effect.Append? then t.Depth() == d + 1 && t.highWatermark == Max(d + 1, s.lane.highWatermark)
            else t.Depth() == (if effect.Evict? then d - 1 else d) && t.highWatermark == s.lane.highWatermark
  {
  }

  /** An append has room below the ceiling; room is made by an eviction, and then held. */
  lemma {:induction false} RoomIsMade(m: Limits, s: System, o: Observed)
    requires m.maxMessages.Some? && WithinCeiling(s, m.maxMessages.value)
    ensures var move := ProducerMove(m, s, o);
            && (move.effect.Evict? ==> move.effect.index < |s.lane.queue|)
            && (move.effect.Append? ==> s.lane.Depth() < m.maxMessages.value && !RoomHeld(move.next))
            && (RoomHeld(move.next) ==> RoomHeld(s.phase) || move.effect.Evict?)
  {
    match s.phase
    case Relieved(_) =>
    case Collecting(_) =>
    case _ =>
  }

  lemma {:induction false} StepWithinCeiling(m: Limits, s: System, e: Event)
    requires m.maxMessages.Some? && WithinCeiling(s, m.maxMessages.value)
    ensures WithinCeiling(Step(m, s, e), m.maxMessages.value)
  {
    match e
    case Core1(o) =>
      RoomIsMade(m, s, o);
      EffectDepth(s, ProducerMove(m, s, o).effect);
    case _ =>
  }

  /** The ceiling holds in every interleaving, although the append after a count eviction does not
      look at it again. */
  lemma {:induction false} CeilingHolds(m: Limits, r: Run)
    requires m.maxMessages.Some?
    ensures WithinCeiling(After(m, r), m.maxMessages.value)
  {
    if r.Then? {
      CeilingHolds(m, r.before);
      StepWithinCeiling(m, After(m, r.before), r.event);
    }
  }

  lemma {:induction false} AtTheGate(m: Limits, r: Run, item: Item) returns (r': Run, s': System)
    requires m.floor <= m.preferred <= 1 && After(m, r).phase.Over? && item.payload == []
    ensures After(m, r') == s' == After(m, r).(item := item, phase := Gate(false))
  {
    var o := Core1(Observed(1, NoMemory));
    var s := After(m, r).(item := item);
    r' := Then(r, Offer(item, true));
    assert After(m, r') == s.(phase := FirstReading);
    r' := Then(r', o);
    assert After(m, r') == s.(phase := SecondReading);
    r' := Then(r', o);
    s' := s.(phase := Gate(false));
    assert After(m, r') == s';
  }

  lemma {:induction false} RoomMade(m: Limits, r: Run, s: System, item: Item) returns (r': Run, s': System)
    requires After(m, r) == s && s.phase == Gate(false) && s.item == item && !BelowLimit(m, s.lane)
    requires |s.lane.queue| == 1 && s.lane.inFlight.None? && s.lane.queue[0].priority == item.priority > CRITICAL
    ensures After(m, r') == s' == Evicting(s, 0).(phase := Relieved(false))
  {
    var o := Core1(Observed(1, NoMemory));
    VictimIsFair(s.lane.queue, item.priority);
    r' := Then(r, o);
    assert After(m, r') == Evicting(s, 0).(phase := Collecting(Relieved(false)));
    r' := Then(r', o);
    s' := Evicting(s, 0).(phase := Relieved(false));
  }

  /** It rests on the heap-admission lock: were another producer's append, itself below the ceiling,
      to slip in after a count eviction, the append that follows would break it. */
  lemma {:induction false} CeilingNeedsTheAdmissionLock()
    ensures var m := Limits(1, 1, Some(1));
            exists r: Run, free: int ::
              var s := After(m, r);
              && BelowLimit(m, s.lane)
              && free >= m.floor
              && var t := Appending(s, free);
              && t.lane.Depth() <= 1
              && Producer(m, t, Observed(free, NoMemory)).lane.Depth() > 1
  {
    var m := Limits(1, 1, Some(1));
    var item := Item(Log, 50, []);
    var r1, s1 := AtTheGate(m, Boot, item);
    var r2 := Then(r1, Core1(Observed(1, NoMemory)));
    var s2 := Appending(s1, 1).(phase := Over(Admitted));
    assert After(m, r2) == s2;
    var r3, s3 := AtTheGate(m, r2, item);
    var r, s := RoomMade(m, r3, s3, item);
    assert Appending(s, 1).lane.Depth() == 1;
    assert Producer(m, Appending(s, 1), Observed(1, NoMemory)).lane.Depth() == 2;
  }

  // ---------------------------------------------------------------------------------------
  // Conservation
  // ---------------------------------------------------------------------------------------

  function PayloadBytes(q: seq<Entry>): int {
    if q == [] then 0 else PayloadBytes(q[..|q| - 1]) + |q[|q| - 1].payload|
  }

  function InFlightBytes(lane: Lane): int {
    if lane.inFlight.Some? then |lane.inFlight.value.payload| else 0
  }

  lemma {:induction false} BytesJoin(a: seq<Entry>, b: seq<Entry>)
    ensures PayloadBytes(a + b) == PayloadBytes(a) + PayloadBytes(b)
  {
    if b == [] {
      assert a + b == a;
    } else {
      var n := |b| - 1;
      BytesJoin(a, b[..n]);
      assert (a + b)[..|a + b| - 1] == a + b[..n];
    }
  }

  lemma {:induction false} BytesWithout(q: seq<Entry>, i: nat)
    requires i < |q|
    ensures PayloadBytes(q) == PayloadBytes(Without(q, i)) + |q[i].payload|
  {
    BytesJoin(q[..i], q[i + 1..]);
    BytesJoin(q[..i], q[i..]);
    BytesJoin([q[i]], q[i + 1..]);
    assert q == q[..i] + q[i..] && q[i..] == [q[i]] + q[i + 1..];
    assert PayloadBytes([q[i]]) == |q[i].payload| by {
      assert [q[i]][..0] == [];
    }
  }

  lemma {:induction false} EntriesWithout(q: seq<Entry>, i: nat)
    requires i < |q|
    ensures multiset(q) == multiset(Without(q, i)) + multiset{q[i]}
  {
    assert q == q[..i] + ([q[i]] + q[i + 1..]);
  }

  function InFlightEntries(lane: Lane): multiset<Entry> {
    if lane.inFlight.Some? then multiset{lane.inFlight.value} else multiset{}
  }

  /** Every entry ever admitted is queued, in flight, completed, discarded or evicted: exactly once. */
  predicate Conserved(lane: Lane, ledger: Ledger) {
    multiset(ledger.admitted)
      == multiset(lane.queue) + InFlightEntries(lane) + multiset(ledger.completed)
         + multiset(ledger.discarded) + multiset(ledger.evicted)
  }

  function TelemetryIn(q: seq<Entry>): nat {
    if q == [] then 0
    else TelemetryIn(q[..|q| - 1]) + (if q[|q| - 1].kind == Telemetry then 1 else 0)
  }

  /** The counters and byte totals are what the entries say. */
  predicate Counted(lane: Lane, ledger: Ledger) {
    && lane.queuedBytes == PayloadBytes(lane.queue) + InFlightBytes(lane)
    && lane.messagesEvicted == |ledger.evicted|
    && lane.telemetryEvicted == TelemetryIn(ledger.evicted)
    && lane.oversizedDiscarded == |ledger.discarded|
  }

  lemma {:induction false} EvictingConserves(s: System, i: nat)
    requires i < |s.lane.queue| && Conserved(s.lane, s.ledger)
    ensures Conserved(Evicting(s, i).lane, Evicting(s, i).ledger)
  {
    EntriesWithout(s.lane.queue, i);
  }

  lemma {:induction false} EvictingCounts(s: System, i: nat)
    requires i < |s.lane.queue| && Counted(s.lane, s.ledger)
    ensures Counted(Evicting(s, i).lane, Evicting(s, i).ledger)
  {
    var after := Evicting(s, i).ledger.evicted;
    BytesWithout(s.lane.queue, i);
    assert after[..|after| - 1] == s.ledger.evicted;
  }

  predicate Accounted(s: System) { Conserved(s.lane, s.ledger) && Counted(s.lane, s.ledger) }

  lemma {:induction false} AppendingAccounted(s: System, free: int, t: System)
    requires Accounted(s) && t == Appending(s, free)
    ensures Accounted(t)
  {
    assert t.lane.queue[..|t.lane.queue| - 1] == s.lane.queue;
  }

  /** The phase, the item and the counters of refusals take no part in the accounts. */
  lemma {:induction false} StillAccounted(s: System, t: System)
    requires Accounted(s) && t.ledger == s.ledger
    requires t.lane == s.lane.(highWatermark := t.lane.highWatermark, highWatermarkBytes := t.lane.highWatermarkBytes,
                               messagesRejected := t.lane.messagesRejected,
                               serializationRejected := t.lane.serializationRejected,
                               oversizedRejected := t.lane.oversizedRejected)
    ensures Accounted(t)
  {
  }

  lemma {:induction false} EvictingAccounted(s: System, i: nat, t: System)
    requires i < |s.lane.queue| && Accounted(s) && t == Evicting(s, i)
    ensures Accounted(t)
  {
    EvictingConserves(s, i);
    EvictingCounts(s, i);
  }

  lemma {:induction false} EffectAccounted(s: System, effect: Effect, t: System)
    requires Accounted(s) && t == Applying(s, effect)
    ensures Accounted(t)
  {
    match effect
    case Evict(i) =>
      if i < |s.lane.queue| {
        EvictingAccounted(s, i, t);
      }
    case Append(free) => AppendingAccounted(s, free, t);
    case _ => StillAccounted(s, t);
  }

  lemma {:induction false} ApplyingConserves(s: System, effect: Effect, next: Phase)
    requires Accounted(s)
    ensures Accounted(Applying(s, effect).(phase := next))
  {
    var t := Applying(s, effect);
    EffectAccounted(s, effect, t);
    StillAccounted(t, t.(phase := next));
  }

  lemma {:induction false} TakingConserves(s: System)
    requires Accounted(s)
    ensures Accounted(Taking(s))
  {
    if s.lane.inFlight.None? && s.lane.queue != [] {
      BytesWithout(s.lane.queue, 0);
      EntriesWithout(s.lane.queue, 0);
      assert Without(s.lane.queue, 0) == s.lane.queue[1..];
    }
  }

  lemma {:induction false} CompletingConserves(s: System, e: Entry, discarded: bool)
    requires Accounted(s)
    ensures Accounted(Completing(s, e, discarded))
  {
    var t := Completing(s, e, discarded);
    assert Counted(t.lane, t.ledger);
    assert Conserved(t.lane, t.ledger);
  }

  lemma {:induction false} OfferingConserves(s: System, item: Item, serialized: bool)
    requires Accounted(s)
    ensures Accounted(Offering(s, item, serialized))
  {
  }

  lemma {:induction false} StepConserves(m: Limits, s: System, e: Event)
    requires Accounted(s)
    ensures Accounted(Step(m, s, e))
  {
    match e
    case Core1(o) => var move := ProducerMove(m, s, o); ApplyingConserves(s, move.effect, move.next);
    case Take => TakingConserves(s);
    case Offer(item, serialized) => OfferingConserves(s, item, serialized);
    case Complete(entry, discarded) => CompletingConserves(s, entry, discarded);
  }

  lemma {:induction false} NothingIsLost(m: Limits, r: Run)
    ensures Accounted(After(m, r))
  {
    if r.Then? {
      NothingIsLost(m, r.before);
      StepConserves(m, After(m, r.before), r.event);
    }
  }

  // ---------------------------------------------------------------------------------------
  // The high watermarks
  // ---------------------------------------------------------------------------------------

  function PeakDepth(m: Limits, r: Run): int {
    var depth := After(m, r).lane.Depth();
    if r.Boot? then depth else Max(depth, PeakDepth(m, r.before))
  }

  function PeakBytes(m: Limits, r: Run): int {
    var bytes := After(m, r).lane.queuedBytes;
    if r.Boot? then bytes else Max(bytes, PeakBytes(m, r.before))
  }

  predicate Covers(lane: Lane) {
    lane.highWatermark >= lane.Depth() && lane.highWatermarkBytes >= lane.queuedBytes
  }

  lemma {:induction false} ProducerWatermarks(m: Limits, s: System, o: Observed)
    requires Covers(s.lane)
    ensures var t := Producer(m, s, o);
            && Covers(t.lane)
            && t.lane.highWatermark == Max(t.lane.Depth(), s.lane.highWatermark)
            && t.lane.highWatermarkBytes == Max(t.lane.queuedBytes, s.lane.highWatermarkBytes)
  {
  }

  /** Each high watermark is the peak of its metric over the whole run. */
  lemma {:induction false} WatermarksArePeaks(m: Limits, r: Run)
    ensures Covers(After(m, r).lane)
    ensures After(m, r).lane.highWatermark == PeakDepth(m, r)
    ensures After(m, r).lane.highWatermarkBytes == PeakBytes(m, r)
  {
    if r.Then? {
      WatermarksArePeaks(m, r.before);
      if r.event.Core1? {
        ProducerWatermarks(m, After(m, r.before), r.event.observed);
      }
    }
  }

  // ---------------------------------------------------------------------------------------
  // Order
  // ---------------------------------------------------------------------------------------

  predicate Increasing(q: seq<Entry>) {
    forall i, j :: 0 <= i < j < |q| ==> q[i].id < q[j].id
  }

  /** Everything taken so far, in the order it was first taken, followed by what is still queued, is
      in the order of admission; the entry in flight is the last one taken. */
  predicate InOrder(s: System) {
    && (forall i :: 0 <= i < |s.ledger.admitted| ==> s.ledger.admitted[i].id == i)
    && Increasing(s.ledger.taken + s.lane.queue)
    && (forall e :: e in s.ledger.taken + s.lane.queue ==>
          e.id < |s.ledger.admitted| && s.ledger.admitted[e.id] == e)
    && (s.lane.inFlight.Some? ==>
          s.ledger.taken != [] && s.lane.inFlight.value == s.ledger.taken[|s.ledger.taken| - 1])
  }

  lemma {:induction false} WithoutInOrder(taken: seq<Entry>, q: seq<Entry>, i: nat)
    requires i < |q| && Increasing(taken + q)
    ensures Increasing(taken + Without(q, i))
    ensures forall e :: e in taken + Without(q, i) ==> e in taken + q
  {
    var a, b := taken + q, taken + Without(q, i);
    forall k | 0 <= k < |b|
      ensures b[k] == a[if k < |taken| + i then k else k + 1]
    {
    }
  }

  lemma {:induction false} EvictingInOrder(s: System, i: nat)
    requires i < |s.lane.queue| && InOrder(s)
    ensures InOrder(Evicting(s, i))
  {
    WithoutInOrder(s.ledger.taken, s.lane.queue, i);
  }

  lemma {:induction false} AppendingInOrder(s: System, free: int)
    requires InOrder(s)
    ensures InOrder(Appending(s, free))
  {
    var t := Appending(s, free);
    var e := t.lane.queue[|t.lane.queue| - 1];
    var a, b := s.ledger.taken + s.lane.queue, t.ledger.taken + t.lane.queue;
    assert b == a + [e];
    forall k | 0 <= k < |a|
      ensures a[k].id < e.id
    {
      assert a[k] in a;
    }
  }

  lemma {:induction false} ApplyingInOrder(s: System, effect: Effect, next: Phase)
    requires InOrder(s)
    ensures InOrder(Applying(s, effect).(phase := next))
  {
    match effect
    case Evict(i) => if i < |s.lane.queue| { EvictingInOrder(s, i); }
    case Append(free) => AppendingInOrder(s, free);
    case _ =>
  }

  lemma {:induction false} TakingInOrder(s: System)
    requires InOrder(s)
    ensures InOrder(Taking(s))
  {
    if s.lane.inFlight.None? && s.lane.queue != [] {
      var q := s.lane.queue;
      assert s.ledger.taken + q == (s.ledger.taken + [q[0]]) + q[1..];
    }
  }

  lemma {:induction false} StepInOrder(m: Limits, s: System, e: Event)
    requires InOrder(s)
    ensures InOrder(Step(m, s, e))
  {
    match e
    case Core1(o) => var move := ProducerMove(m, s, o); ApplyingInOrder(s, move.effect, move.next);
    case Take => TakingInOrder(s);
    case Offer(item, serialized) => assert InOrder(Offering(s, item, serialized));
    case Complete(entry, discarded) => assert InOrder(Completing(s, entry, discarded));
  }

  /** Entries leave through `take` in the order of admission. */
  lemma {:induction false} TakenInAdmissionOrder(m: Limits, r: Run)
    ensures InOrder(After(m, r))
  {
    if r.Then? {
      TakenInAdmissionOrder(m, r.before);
      StepInOrder(m, After(m, r.before), r.event);
    }
  }

  // ---------------------------------------------------------------------------------------
  // What is evicted, what is refused, what is admitted
  // ---------------------------------------------------------------------------------------

  /** A collection is never the last step of an admission. */
  predicate CollectsWithin(phase: Phase) {
    phase.Collecting? ==> !phase.next.Over? && !phase.next.Collecting?
  }

  /** Nothing CRITICAL is ever evicted; every entry retained was measured, while retained, to leave
      the free heap at or above the floor; a message was refused, or given up for want of memory,
      only because nothing queued was eligible, and that is still so. */
  predicate Principled(m: Limits, s: System) {
    && (forall e :: e in s.ledger.evicted ==> e.priority > CRITICAL)
    && |s.ledger.measured| == |s.ledger.admitted|
    && (forall free :: free in s.ledger.measured ==> free >= m.floor)
    && (s.phase in {Over(Refused), Over(OutOfMemory)} ==> Victim(s.lane.queue, s.item.priority).None?)
    && CollectsWithin(s.phase)
  }

  /** What each move of an admission keeps to. */
  predicate FairMove(m: Limits, s: System, move: Move) {
    && CollectsWithin(move.next)
    && (move.effect.Append? ==> move.effect.free >= m.floor && move.next == Over(Admitted))
    && (move.effect.Evict? ==> Some(move.effect.index) == Victim(s.lane.queue, s.item.priority) && !move.next.Over?)
    && (move.next in {Over(Refused), Over(OutOfMemory)} ==>
          Victim(s.lane.queue, s.item.priority).None? && move.effect in {Nothing, CountRejected})
  }

  lemma {:induction false} EvictMoveIsFair(m: Limits, s: System, next: Phase, otherwise: Move)
    requires !next.Over? && !next.Collecting?
    requires Victim(s.lane.queue, s.item.priority).None? ==> FairMove(m, s, otherwise)
    ensures FairMove(m, s, EvictMove(s, next, otherwise))
  {
  }

  lemma {:induction false} SerializerMoveIsFair(m: Limits, s: System, answer: Serialized, collected: bool)
    ensures FairMove(m, s, SerializerMove(s, answer, collected))
  {
    EvictMoveIsFair(m, s, Serializing(true), Move(Nothing, Over(OutOfMemory)));
  }

  lemma {:induction false} GateMoveIsFair(m: Limits, s: System, free: int, displacing: bool)
    ensures FairMove(m, s, AppendMove(m, free, displacing))
    ensures FairMove(m, s, EvictMove(s, Relieved(displacing), Move(Nothing, NotAppended(displacing))))
  {
    EvictMoveIsFair(m, s, Relieved(displacing), Move(Nothing, NotAppended(displacing)));
  }

  lemma {:induction false} MovesAreFair(m: Limits, s: System, o: Observed)
    requires CollectsWithin(s.phase)
    ensures var move := ProducerMove(m, s, o);
            if s.phase.Over? then move == Move(Nothing, s.phase) else FairMove(m, s, move)
  {
    match s.phase
    case Serializing(collected) => SerializerMoveIsFair(m, s, o.serialized, collected);
    case SoftRelief => EvictMoveIsFair(m, s, Gate(false), Move(Nothing, Gate(false)));
    case Gate(displacing) => GateMoveIsFair(m, s, o.free, displacing);
    case Relieved(displacing) => GateMoveIsFair(m, s, o.free, displacing);
    case Displace => EvictMoveIsFair(m, s, FloorReading, Move(CountRejected, Over(Refused)));
    case _ =>
  }

  lemma {:induction false} ProducerPrincipled(m: Limits, s: System, o: Observed)
    requires Principled(m, s)
    ensures Principled(m, Producer(m, s, o))
  {
    MovesAreFair(m, s, o);
    VictimIsFair(s.lane.queue, s.item.priority);
  }

  lemma {:induction false} TakingPrincipled(m: Limits, s: System)
    requires Principled(m, s)
    ensures Principled(m, Taking(s))
  {
  }

  lemma {:induction false} EvictionAndRefusalArePrincipled(m: Limits, r: Run)
    ensures Principled(m, After(m, r))
  {
    if r.Then? {
      var s := After(m, r.before);
      EvictionAndRefusalArePrincipled(m, r.before);
      match r.event
      case Core1(o) => ProducerPrincipled(m, s, o);
      case Take => TakingPrincipled(m, s);
      case Offer(item, serialized) => assert Principled(m, Offering(s, item, serialized));
      case Complete(e, discarded) => assert Principled(m, Completing(s, e, discarded));
    }
  }

  // ---------------------------------------------------------------------------------------
  // How much pressure costs
  // ---------------------------------------------------------------------------------------

  /** The state just after the last admission began. */
  function Opening(m: Limits, r: Run): System {
    if r.Boot? then BOOTED
    else if r.event.Offer? && After(m, r.before).phase.Over? then After(m, r)
    else Opening(m, r.before)
  }

  /** A run in which every reading of the free heap is at least `level` and the serializer never
      runs out of memory. */
  predicate Roomy(r: Run, level: int) {
    r.Then? ==>
      && Roomy(r.before, level)
      && (r.event.Core1? ==> r.event.observed.free >= level && !r.event.observed.serialized.NoMemory?)
  }

  /** With the preferred reserve always free and no count ceiling, nothing is evicted or refused. */
  lemma {:induction false} ReserveKeepsEverything(m: Limits, r: Run)
    requires m.maxMessages.None? && m.floor <= m.preferred && Roomy(r, m.preferred)
    ensures var s := After(m, r);
            && s.ledger.evicted == [] && s.lane.messagesRejected == 0
            && (s.phase.Over? || s.phase in {Serializing(false), FirstReading, SecondReading, Gate(false)})
            && s.phase != Over(Refused)
  {
    if r.Then? {
      ReserveKeepsEverything(m, r.before);
    }
  }

  /** Not yet past the one eviction that soft pressure makes. */
  predicate Unrelieved(phase: Phase) {
    phase in {Serializing(false), FirstReading, Collecting(SecondReading), SecondReading, ThirdReading, SoftRelief}
  }

  predicate Relievable(phase: Phase) {
    phase.Over? || Unrelieved(phase) || phase in {Collecting(Gate(false)), Gate(false)}
  }

  /** With only the hard floor always free, an admission evicts at most one entry, counted from
      the state it began in, and none is refused: the preferred reserve is not a rejection wall. */
  lemma {:induction false} SoftPressureCostsOneEach(m: Limits, r: Run)
    requires m.maxMessages.None? && m.floor <= m.preferred && Roomy(r, m.floor)
    ensures var s := After(m, r);
            && |s.ledger.evicted| + (if Unrelieved(s.phase) then 1 else 0) <= |Opening(m, r).ledger.evicted| + 1
            && s.lane.messagesRejected == 0 && Relievable(s.phase) && s.phase != Over(Refused)
  {
    if r.Then? {
      SoftPressureCostsOneEach(m, r.before);
    }
  }

  // ---------------------------------------------------------------------------------------
  // Termination
  // ---------------------------------------------------------------------------------------

  function PhaseRank(phase: Phase): nat {
    match phase
    case Over(_) => 0
    case Displace => 1
    case Gate(displacing) => if displacing then 3 else 6
    case Relieved(displacing) => if displacing then 3 else 6
    case FloorReading => 4
    case SoftRelief => 7
    case ThirdReading => 8
    case SecondReading => 9
    case FirstReading => 11
    case Serializing(collected) => if collected then 12 else 14
    case Collecting(next) => PhaseRank(next) + 1
  }

  function Rank(s: System): nat {
    if s.phase.Over? then 0 else 8 * |s.lane.queue| + PhaseRank(s.phase)
  }

  /** A move gives up a queued entry, ends the admission, or comes nearer to its end than `rank`. */
  predicate Nearer(s: System, rank: nat, move: Move) {
    && (move.effect.Append? ==> move.next.Over?)
    && (if move.effect.Evict? then move.effect.index < |s.lane.queue| && PhaseRank(move.next) < rank + 8
        else PhaseRank(move.next) < rank)
  }

  lemma {:induction false} EvictNearer(s: System, rank: nat, next: Phase, otherwise: Move)
    requires PhaseRank(next) + 1 < rank + 8 && Nearer(s, rank, otherwise)
    ensures Nearer(s, rank, EvictMove(s, next, otherwise))
  {
  }

  lemma {:induction false} SerializerNearer(s: System, answer: Serialized, collected: bool)
    requires s.phase == Serializing(collected)
    ensures Nearer(s, PhaseRank(s.phase), SerializerMove(s, answer, collected))
  {
    EvictNearer(s, 12, Serializing(true), Move(Nothing, Over(OutOfMemory)));
  }

  lemma {:induction false} GateNearer(m: Limits, s: System, free: int)
    requires s.phase.Gate? || s.phase.Relieved?
    ensures Nearer(s, PhaseRank(s.phase), AppendMove(m, free, s.phase.displacing))
    ensures s.phase.Gate? ==>
              var d := s.phase.displacing;
              Nearer(s, PhaseRank(s.phase), EvictMove(s, Relieved(d), Move(Nothing, NotAppended(d))))
  {
    if s.phase.Gate? {
      var d := s.phase.displacing;
      EvictNearer(s, PhaseRank(s.phase), Relieved(d), Move(Nothing, NotAppended(d)));
    }
  }

  lemma {:induction false} MoveNearer(m: Limits, s: System, o: Observed)
    requires !s.phase.Over?
    ensures Nearer(s, PhaseRank(s.phase), ProducerMove(m, s, o))
  {
    match s.phase
    case Serializing(collected) => SerializerNearer(s, o.serialized, collected);
    case SoftRelief => EvictNearer(s, 7, Gate(false), Move(Nothing, Gate(false)));
    case Gate(_) => GateNearer(m, s, o.free);
    case Relieved(_) => GateNearer(m, s, o.free);
    case Displace => EvictNearer(s, 1, FloorReading, Move(CountRejected, Over(Refused)));
    case _ =>
  }

  lemma {:induction false} EffectLength(s: System, effect: Effect)
    requires effect.Evict? ==> effect.index < |s.lane.queue|
    ensures |Applying(s, effect).lane.queue|
            == |s.lane.queue| + (if effect.Append? then 1 else if effect.Evict? then -1 else 0)
  {
  }

  lemma {:induction false} ProducerRank(m: Limits, s: System, o: Observed)
    requires !s.phase.Over?
    ensures Rank(Producer(m, s, o)) < Rank(s)
  {
    MoveNearer(m, s, o);
    EffectLength(s, ProducerMove(m, s, o).effect);
  }

  function Following(m: Limits, s: System, es: seq<Event>): System
    decreases |es|
  {
    if es == [] then s else Following(m, Step(m, s, es[0]), es[1..])
  }

  function ProducerSteps(es: seq<Event>): nat {
    if es == [] then 0 else (if es[0].Core1? then 1 else 0) + ProducerSteps(es[1..])
  }

  /** An admission ends within `Rank` steps of the producer, whatever the heap and the serializer do
      and however Core 0 interleaves. */
  lemma {:induction false} AdmissionEnds(m: Limits, s: System, es: seq<Event>)
    requires forall e :: e in es ==> !e.Offer?
    ensures ProducerSteps(es) >= Rank(s) ==> Following(m, s, es).phase.Over?
    ensures s.phase.Over? ==> Following(m, s, es).phase == s.phase
    decreases |es|
  {
    if es == [] {
      assert Rank(s) == 0 ==> s.phase.Over?;
    } else {
      var e := es[0];
      assert !e.Offer?;
      if e.Core1? && !s.phase.Over? {
        ProducerRank(m, s, e.observed);
      }
      AdmissionEnds(m, Step(m, s, e), es[1..]);
    }
  }

  // ---------------------------------------------------------------------------------------
  // One admission, from its beginning
  // ---------------------------------------------------------------------------------------

  /** `b` is reached within the admission that began at `a`: the message is admitted at most once,
      and exactly when the admission ends so; only entries no more important than it were evicted,
      after those evicted before. */
  predicate Within(a: System, b: System) {
    && b.item.kind == a.item.kind && b.item.priority == a.item.priority
    && b.ledger.admitted
       == (if b.phase == Over(Admitted)
           then a.ledger.admitted + [Entry(|a.ledger.admitted|, b.item.kind, b.item.priority, b.item.payload)]
           else a.ledger.admitted)
    && a.ledger.evicted <= b.ledger.evicted
    && (forall i :: |a.ledger.evicted| <= i < |b.ledger.evicted| ==> b.ledger.evicted[i].priority >= a.item.priority)
    && b.lane.messagesRejected
       == a.lane.messagesRejected + (if b.phase == Over(Refused) then 1 else 0)
    && b.lane.oversizedRejected
       == a.lane.oversizedRejected + (if b.phase == Over(TooLarge) && !a.phase.Over? then 1 else 0)
    && 0 <= b.lane.serializationRejected - a.lane.serializationRejected
         <= (if b.phase == Over(Malformed) && !a.phase.Over? then 1 else 0)
    && a.phase !in {Over(Admitted), Over(Refused)}
    && (a.phase.Over? ==> b.phase == a.phase)
  }

  lemma {:induction false} EvictingWithin(a: System, s: System, i: nat, next: Phase)
    requires Within(a, s) && !s.phase.Over? && !next.Over?
    requires i < |s.lane.queue| && s.lane.queue[i].priority >= s.item.priority
    ensures Within(a, Evicting(s, i).(phase := next))
  {
  }

  lemma {:induction false} ProducerWithin(m: Limits, a: System, s: System, o: Observed)
    requires Within(a, s) && CollectsWithin(s.phase)
    ensures Within(a, Producer(m, s, o))
  {
    MovesAreFair(m, s, o);
    var move := ProducerMove(m, s, o);
    if !s.phase.Over? {
      match move.effect {
        case Evict(i) =>
          VictimIsFair(s.lane.queue, s.item.priority);
          EvictingWithin(a, s, i, move.next);
        case _ =>
      }
    }
  }

  lemma {:induction false} AdmissionSoFar(m: Limits, r: Run)
    ensures Within(Opening(m, r), After(m, r))
  {
    if r.Then? {
      var s := After(m, r.before);
      AdmissionSoFar(m, r.before);
      EvictionAndRefusalArePrincipled(m, r.before);
      match r.event
      case Core1(o) => ProducerWithin(m, Opening(m, r.before), s, o);
      case Take =>
      case Offer(item, serialized) =>
      case Complete(e, discarded) =>
    }
  }

  /** What a finished admission has done, told from the state before it: admitted exactly when it
      ends so, with the floor measured to hold; nothing CRITICAL and nothing more important than the
      message evicted; refused, or given up for want of memory, with nothing eligible queued; counted as
      refused, or as too large, exactly when it ends so. */
  predicate Settled(m: Limits, before: System, after: System, kind: Kind, priority: Priority) {
    && after.phase.Over?
    && (if after.phase == Over(Admitted) then
          && |after.ledger.measured| == |after.ledger.admitted| == |before.ledger.admitted| + 1
          && after.ledger.admitted
             == before.ledger.admitted + [Entry(|before.ledger.admitted|, kind, priority, after.item.payload)]
          && after.ledger.measured[|before.ledger.admitted|] >= m.floor
        else after.ledger.admitted == before.ledger.admitted)
    && before.ledger.evicted <= after.ledger.evicted
    && (forall i :: |before.ledger.evicted| <= i < |after.ledger.evicted| ==>
          after.ledger.evicted[i].priority >= priority && after.ledger.evicted[i].priority > CRITICAL)
    && (after.phase in {Over(Refused), Over(OutOfMemory)} ==>
          forall e :: e in after.lane.queue ==> e.priority < priority || e.priority == CRITICAL)
    && after.lane.messagesRejected
       == before.lane.messagesRejected + (if after.phase == Over(Refused) then 1 else 0)
    && after.lane.oversizedRejected
       == before.lane.oversizedRejected + (if after.phase == Over(TooLarge) then 1 else 0)
    && 0 <= after.lane.serializationRejected - before.lane.serializationRejected
         <= (if after.phase == Over(Malformed) then 1 else 0)
  }

  lemma {:induction false} SettledFrom(m: Limits, before: System, item: Item, serialized: bool, after: System)
    requires before.phase.Over? && Within(Offering(before, item, serialized), after)
    requires Principled(m, after) && after.phase.Over?
    ensures Settled(m, before, after, item.kind, item.priority)
  {
    VictimIsFair(after.lane.queue, after.item.priority);
    var n := |before.ledger.evicted|;
    forall i | n <= i < |after.ledger.evicted|
      ensures after.ledger.evicted[i].priority > CRITICAL
    {
      assert after.ledger.evicted[i] in after.ledger.evicted;
    }
    if after.phase == Over(Admitted) {
      assert after.ledger.measured[|before.ledger.admitted|] in after.ledger.measured;
    }
  }

  lemma {:induction false} AdmissionSettles(m: Limits, before: System, item: Item, serialized: bool, r: Run)
    requires before.phase.Over? && Opening(m, r) == Offering(before, item, serialized)
    requires After(m, r).phase.Over?
    ensures Settled(m, before, After(m, r), item.kind, item.priority)
  {
    AdmissionSoFar(m, r);
    EvictionAndRefusalArePrincipled(m, r);
    SettledFrom(m, before, item, serialized, After(m, r));
  }
}
