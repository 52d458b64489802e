/** What the readings of the free heap and the serializer's failures decide in one admission, with
    Core 0 taking and completing between any two steps of the producer. */
module OutboundPressure {
  import opened Common
  import opened OutboundState
  import opened OutboundSafety

  /** What Core 0 does before the producer's next step, and what that step meets. */
  datatype Round = Round(pause: seq<Event>, meets: Observed)

  predicate Paused(es: seq<Event>) {
    forall e :: e in es ==> e.Take? || e.Complete?
  }

  function Resumed(m: Limits, s: System, r: Round): System { Following(m, s, r.pause) }

  function Met(m: Limits, s: System, r: Round): System { Step(m, Resumed(m, s, r), Core1(r.meets)) }

  /** Core 0 leaves the admission where it is. */
  predicate SameAdmission(s: System, t: System) {
    && t.phase == s.phase && t.item == s.item
    && t.ledger.admitted == s.ledger.admitted && t.ledger.evicted == s.ledger.evicted
  }

  lemma {:induction false} PauseKeeps(m: Limits, s: System, es: seq<Event>)
    requires Paused(es)
    ensures SameAdmission(s, Following(m, s, es))
    decreases |es|
  {
    if es != [] {
      assert es[0] in es;
      PauseKeeps(m, Step(m, s, es[0]), es[1..]);
    }
  }

  /** Nothing has been appended or given up between `s` and `t`. */
  predicate Untouched(s: System, t: System) {
    t.item == s.item && t.ledger.admitted == s.ledger.admitted && t.ledger.evicted == s.ledger.evicted
  }

  /** From `s` to `t` the victim of `s`, if any, is given up and a collection follows; the producer then
      goes on at `next`, or at `otherwise` when there is none. */
  predicate GivesUp(s: System, t: System, next: Phase, otherwise: Phase) {
    var victim := Victim(s.lane.queue, s.item.priority);
    if victim.Some? then
      && t.ledger.evicted == s.ledger.evicted + [s.lane.queue[victim.value]]
      && t.lane.queue == Without(s.lane.queue, victim.value) && t.phase == Collecting(next)
    else t.ledger.evicted == s.ledger.evicted && t.lane.queue == s.lane.queue && t.phase == otherwise
  }

  /** The preferred reserve is read, after a collection once more when it was short, and nothing is
      given up for it before the second reading; with the reserve there the message goes to the gate. */
  lemma {:induction false} ReserveDecides(m: Limits, s: System, first: Round, collection: Round, second: Round)
    requires s.phase == FirstReading && Paused(first.pause) && Paused(collection.pause) && Paused(second.pause)
    ensures var s1 := Met(m, s, first);
            var short := first.meets.free < m.preferred;
            var s2 := if short then Met(m, s1, collection) else s1;
            var t := Met(m, s2, second);
            && (short <==> s1.phase.Collecting?) && Untouched(s, t)
            && t.phase == if second.meets.free >= m.preferred then Gate(false) else ThirdReading
  {
    var s1 := Met(m, s, first);
    PauseKeeps(m, s, first.pause);
    PauseKeeps(m, s1, collection.pause);
    var s2 := if first.meets.free < m.preferred then Met(m, s1, collection) else s1;
    PauseKeeps(m, s2, second.pause);
  }

  /** With the reserve still short, the floor tells soft pressure from hard: above it exactly one
      eligible entry is given up, if there is any, before the message goes to the gate. */
  lemma {:induction false} SoftPressureRelieves(m: Limits, s: System, third: Round, relief: Round)
    requires s.phase == ThirdReading && Paused(third.pause) && Paused(relief.pause)
    ensures var u := Met(m, s, third);
            && Untouched(s, u)
            && (if third.meets.free < m.floor then u.phase == FloorReading
                else GivesUp(Resumed(m, u, relief), Met(m, u, relief), Gate(false), Gate(false)))
  {
    var u := Met(m, s, third);
    PauseKeeps(m, s, third.pause);
    PauseKeeps(m, u, relief.pause);
  }

  /** Hard pressure: while the floor does not hold one entry after another is displaced, each time with
      a collection and a new reading, and the message is refused once nothing is eligible. */
  lemma {:induction false} HardPressureDisplaces(m: Limits, s: System, reading: Round, displacement: Round)
    requires s.phase == FloorReading && Paused(reading.pause) && Paused(displacement.pause)
    ensures var u := Met(m, s, reading);
            && Untouched(s, u)
            && (if reading.meets.free >= m.floor then u.phase == Gate(true)
                else GivesUp(Resumed(m, u, displacement), Met(m, u, displacement), FloorReading, Over(Refused)))
  {
    var u := Met(m, s, reading);
    PauseKeeps(m, s, reading.pause);
    PauseKeeps(m, u, displacement.pause);
  }

  predicate AppendsOrUndoes(m: Limits, s: System, t: System, free: int, back: Phase) {
    && t.ledger.evicted == s.ledger.evicted
    && (if free >= m.floor then
          var e := Entry(|s.ledger.admitted|, s.item.kind, s.item.priority, s.item.payload);
          && t.phase == Over(Admitted) && t.lane.queue == s.lane.queue + [e] && t.ledger.admitted == s.ledger.admitted + [e]
        else t.phase == Collecting(back) && t.lane == s.lane && t.ledger == s.ledger)
  }

  /** What is given up first for a message of priority `p`: the victim, if there is any. */
  function GivenUpFirst(q: seq<Entry>, p: Priority): seq<Entry> {
    var victim := Victim(q, p);
    if victim.Some? then [q[victim.value]] else []
  }

  /** Calls of the serializer cost one queued entry each from the third on: the second is paid for by a
      collection. */
  predicate PaidFor(calls: int, before: seq<Entry>, after: seq<Entry>) {
    before <= after && |after| == |before| + (if calls > 2 then calls - 2 else 0)
  }

  /** What the readings from `heap(k)` on have decided up to the displacement loop: the entries given
      up were `before` and are `after`, and the queue was `lane.queue` and is `queue`. */
  ghost predicate EarlyRelief(m: Limits, heap: nat -> int, k: nat, lane: Lane, p: Priority, before: seq<Entry>,
          after: seq<Entry>, queue: seq<Entry>, admitted: bool, readings: nat)
  {
    var (preferred, soft) := (heap(k + 1) >= m.preferred, heap(k + 2) >= m.floor);
    && before <= after
    && (preferred && BelowLimit(m, lane) ==> after == before && readings == k + 3 && admitted == soft)
    && (!preferred && soft ==>
          && before + GivenUpFirst(lane.queue, p) <= after
          && (m.maxMessages.None? ==>
                && after == before + GivenUpFirst(lane.queue, p)
                && readings == k + 4 && admitted == (heap(k + 3) >= m.floor)))
    && (!preferred && !soft ==> !admitted && after == before && queue == lane.queue && readings == k + 3)
  }

  /** The gate: below the ceiling the message is appended when the floor holds with it, and taken out
      again otherwise; at the ceiling one entry makes room first. */
  lemma {:induction false} GateDecides(m: Limits, s: System, r: Round, displacing: bool)
    requires s.phase == Gate(displacing) && Paused(r.pause)
    ensures var (u, t) := (Resumed(m, s, r), Met(m, s, r));
            var back := if displacing then Displace else FloorReading;
            if m.maxMessages.Some? && u.lane.Depth() >= m.maxMessages.value then
              GivesUp(u, t, Relieved(displacing), back) && t.ledger.admitted == s.ledger.admitted
            else AppendsOrUndoes(m, u, t, r.meets.free, back)
  {
    PauseKeeps(m, s, r.pause);
  }

  /** After room was made the ceiling is not looked at again. */
  lemma {:induction false} RoomIsUsed(m: Limits, s: System, r: Round, displacing: bool)
    requires s.phase == Relieved(displacing) && Paused(r.pause)
    ensures AppendsOrUndoes(m, Resumed(m, s, r), Met(m, s, r), r.meets.free, if displacing then Displace else FloorReading)
  {
    PauseKeeps(m, s, r.pause);
  }

  /** The serializer's first want of memory costs a collection and nothing queued; each one after that
      costs one eligible entry, and the message when there is none; any other failure ends it. */
  lemma {:induction false} SerializerDecides(m: Limits, s: System, r: Round, collected: bool)
    requires s.phase == Serializing(collected) && Paused(r.pause)
    ensures var (u, t) := (Resumed(m, s, r), Met(m, s, r));
            match r.meets.serialized
            case Bytes(payload) => t == u.(item := s.item.(payload := payload), phase := FirstReading)
            case NoMemory =>
              if collected then GivesUp(u, t, Serializing(true), Over(OutOfMemory))
              else t == u.(phase := Collecting(Serializing(true)))
            case Oversized =>
              t == u.(phase := Over(TooLarge), lane := u.lane.(oversizedRejected := u.lane.oversizedRejected + 1))
            case Unserializable =>
              t == u.(phase := Over(Malformed), lane := u.lane.(serializationRejected := u.lane.serializationRejected + 1))
            case NotJsonSafe => t == u.(phase := Over(Malformed))
  {
    PauseKeeps(m, s, r.pause);
  }

  // ---------------------------------------------------------------------------------------
  // The same over the readings of one admission, when Core 0 runs only as the queue lock is released
  // ---------------------------------------------------------------------------------------

  /** What the displacement loop has done from the reading `heap(k)` on. */
  ghost predicate LateRelief(m: Limits, heap: nat -> int, k: nat, queue: seq<Entry>, p: Priority, before: seq<Entry>,
          after: seq<Entry>, admitted: bool, readings: nat)
  {
    && before <= after
    && (heap(k) < m.floor ==>
          && before + GivenUpFirst(queue, p) <= after
          && (Victim(queue, p).None? ==> !admitted && after == before && readings == k + 1))
  }

  /** What the readings `heap(k)`, `heap(k + 1)`, ... of one admission have decided by its end. */
  ghost predicate PressureHeeded(m: Limits, heap: nat -> int, k: nat, lane: Lane, p: Priority,
          before: seq<Entry>, after: seq<Entry>, admitted: bool, readings: nat)
  {
    var (preferred, soft) := (heap(k + 1) >= m.preferred, heap(k + 2) >= m.floor);
    && before <= after
    // the reserve is there: nothing is given up for it
    && (preferred && BelowLimit(m, lane) && heap(k + 2) >= m.floor ==> admitted && after == before && readings == k + 3)
    // soft pressure: one entry is given up first, if any is eligible, and only one
    && (!preferred && soft ==> before + GivenUpFirst(lane.queue, p) <= after)
    && (!preferred && soft && m.maxMessages.None? && heap(k + 3) >= m.floor ==>
          admitted && after == before + GivenUpFirst(lane.queue, p) && readings == k + 4)
    // hard pressure: one entry is displaced before anything is appended, or the message is refused
    && (!preferred && !soft && heap(k + 3) < m.floor ==>
          && before + GivenUpFirst(lane.queue, p) <= after
          && (Victim(lane.queue, p).None? ==> !admitted && after == before && readings == k + 4))
  }

  lemma {:induction false} PressureIsHeeded(m: Limits, heap: nat -> int, k: nat, lane: Lane, p: Priority,
          before: seq<Entry>, between: seq<Entry>, queue: seq<Entry>, early: bool, readings: nat,
          after: seq<Entry>, admitted: bool, end: nat)
    requires EarlyRelief(m, heap, k, lane, p, before, between, queue, early, readings)
    requires if early then admitted && after == between && end == readings
             else LateRelief(m, heap, readings, queue, p, between, after, admitted, end)
    ensures PressureHeeded(m, heap, k, lane, p, before, after, admitted, end)
  {
  }
}
