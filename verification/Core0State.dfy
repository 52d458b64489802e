/** Core 0's messages and commands as a state machine.

    A publish takes two steps: the frame goes out, and later its PUBACK arrives or the wait fails.
    Inbound messages are dispatched in between, by the same thread, so the machine accepts them in
    either place.  What the serializer produces, whether a write reaches the socket, what the event
    queue and the configuration manager answer: all of it is arbitrary.  A MemoryError, or an
    exception no handler here catches, halts the machine (the board is reset by its supervisor). */
module Core0State {
  import opened Common
  import MqttWire

  const MAX_PENDING_RESPONSES: int := 4
  const RECENT_CAPACITY: int := 16

  type CommandId = string

  // ---------------------------------------------------------------------------------------
  // Inbound commands
  // ---------------------------------------------------------------------------------------

  datatype Target = Foreign | Addressed | Broadcast

  /** The `command` field. */
  datatype Name =
    | NotAName           // missing, not a string, or empty
    | OverLong
    | Unregistered
    | Reboot
    | GetDetails
    | ReadConfig
    | WriteConfig

  datatype Outcome = Succeeds | RaisesConfigError | Escapes

  /** `config` within a write-config payload. */
  datatype Candidate =
    | NoConfig
    | NotADict
    | Given(result: Outcome)         // what begin_write makes of it

  datatype Payload =
    | NoPayload
    | NotAnObject
    | Object(otherKeys: bool, candidate: Candidate)

  /** A decoded inbound message as far as dispatch looks at it, with what the event queue and
      `read_persisted` will answer. */
  datatype Inbound =
    | NotACommand                    // undecodable, another schema or topic, info_response
    | Command(target: Target, id: Option<CommandId>, unknownFields: bool, name: Name, payload: Payload,
              eventAdmitted: bool, read: Outcome)

  // ---------------------------------------------------------------------------------------
  // Outbound messages
  // ---------------------------------------------------------------------------------------

  datatype Cause = ResponseTooLarge | ResponseInvalid

  datatype Code =
    | UnknownFields
    | InvalidCommand
    | InvalidPayload
    | UnsupportedCommand
    | RebootAlreadyPending
    | EventQueuePressure
    | ConfigUnavailable
    | MissingKey
    | InvalidValue
    | ConfigRejected
    | Substitute(cause: Cause)

  datatype Answer = Success | Error(code: Code)

  /** The container of a command response: what it answers, and the marks publishing leaves on it.
      `id` stands for the identity of the object, which is the logical message it carries. */
  datatype Response = Response(
    id: nat,
    command: CommandId,
    answer: Answer,
    sequence: Option<nat>,           // _wire_sequence
    frozen: Option<bytes>,           // _payload_bytes
    clearsReboot: bool)              // _clears_pending_reboot

  /** The pending reboot: the container of its success acknowledgement. */
  datatype RebootRequest = RebootRequest(ack: Response, substituteQueued: bool)

  /** An entry taken from the outbound queue. */
  datatype Entry = Entry(id: nat, kind: Kind, payload: bytes, sequence: Option<nat>)

  /** The application message of a PUBLISH: what it is a frame of, and the bytes. */
  datatype Frame = Frame(sequence: nat, message: nat, topic: Kind, payload: bytes)

  datatype Disposition = Answered | RebootHeld | Forwarded | Ignored

  /** Everything sent so far. */
  datatype Wire = Wire(
    created: nat,                    // messages identified so far
    claims: seq<nat>,                // claims[k] is the message that claimed sequence k
    frames: seq<Frame>)              // every frame handed to the socket

  /** The commands so far. */
  datatype History = History(
    accepted: seq<CommandId>,        // every command whose id was claimed
    dispositions: seq<Disposition>,  // what became of each of them
    owed: seq<CommandId>,            // the commands responses were queued for
    answered: seq<CommandId>)        // the commands whose response was acknowledged

  datatype Phase =
    | Ready
    | AwaitingResponse               // PUBACK of the head of the pending responses
    | AwaitingReboot                 // PUBACK of the reboot acknowledgement
    | AwaitingEntry                  // PUBACK of the entry in flight
    | HasReset                       // machine.reset() on the explicit reboot path
    | Halted

  datatype System = System(
    nextSequence: nat,
    pending: seq<Response>,
    recent: seq<CommandId>,
    reboot: Option<RebootRequest>,
    inFlight: Option<Entry>,
    phase: Phase,
    wire: Wire,
    history: History)

  /** The envelope members Core 0 adds, as a function of the sequence; the rest is fixed at boot. */
  type Envelope = nat -> bytes

  function Spliced(body: bytes, fragment: bytes): bytes {
    if body == [] then [] else MqttWire.Joined(body, fragment)
  }

  // ---------------------------------------------------------------------------------------
  // Accepting a command
  // ---------------------------------------------------------------------------------------

  /** `_queue_core0_response` */
  function Queueing(s: System, command: CommandId, answer: Answer, clearsReboot: bool): System {
    if |s.pending| >= MAX_PENDING_RESPONSES then s
    else
      s.(pending := s.pending + [Response(s.wire.created, command, answer, None, None, clearsReboot)],
         wire := s.wire.(created := s.wire.created + 1),
         history := s.history.(owed := s.history.owed + [command]))
  }

  /** `_remember_command_id` */
  function Remembering(s: System, id: CommandId): System {
    var recent := s.recent + [id];
    s.(recent := if |recent| > RECENT_CAPACITY then recent[1..] else recent,
       history := s.history.(accepted := s.history.accepted + [id]))
  }

  function Disposing(s: System, d: Disposition): System {
    s.(history := s.history.(dispositions := s.history.dispositions + [d]))
  }

  /** What an accepted command calls for. */
  datatype Reaction = Respond(answer: Answer) | HoldReboot | Forward | Ignore | Break

  function FromManager(outcome: Outcome, code: Code): Reaction {
    match outcome
    case Succeeds => Respond(Success)
    case RaisesConfigError => Respond(Error(code))
    case Escapes => Break
  }

  function ReactionToWrite(p: Payload): Reaction
    requires p.Object?
  {
    if p.otherKeys then Respond(Error(UnknownFields))
    else
      match p.candidate
      case NoConfig => Respond(Error(MissingKey))
      case NotADict => Respond(Error(InvalidValue))
      case Given(result) => FromManager(result, ConfigRejected)
  }

  /** The checks of an accepted command, in order. */
  function ReactionTo(m: Inbound, rebootPending: bool): Reaction
    requires m.Command?
  {
    if m.unknownFields then Respond(Error(UnknownFields))
    else if m.name.NotAName? then Respond(Error(InvalidCommand))
    else if m.payload.NoPayload? then Respond(Error(InvalidPayload))
    else if m.name.OverLong? then Respond(Error(InvalidCommand))
    else if m.payload.NotAnObject? then Respond(Error(InvalidPayload))
    else
      var empty := !m.payload.otherKeys && m.payload.candidate.NoConfig?;
      match m.name
      case WriteConfig => if m.target.Broadcast? then Ignore else ReactionToWrite(m.payload)
      case Reboot =>
        if !empty then Respond(Error(UnknownFields))
        else if rebootPending then Respond(Error(RebootAlreadyPending)) else HoldReboot
      case GetDetails =>
        if !empty then Respond(Error(UnknownFields))
        else if m.eventAdmitted then Forward else Respond(Error(EventQueuePressure))
      case ReadConfig => if !empty then Respond(Error(UnknownFields)) else FromManager(m.read, ConfigUnavailable)
      case _ => Respond(Error(UnsupportedCommand))
  }

  function Reacting(s: System, id: CommandId, r: Reaction): System {
    match r
    case Respond(answer) => Disposing(Queueing(s, id, answer, false), Answered)
    case HoldReboot =>
      Disposing(s.(reboot := Some(RebootRequest(Response(s.wire.created, id, Success, None, None, false), false)),
                   wire := s.wire.(created := s.wire.created + 1)), RebootHeld)
    case Forward => Disposing(s, Forwarded)
    case Ignore => Disposing(s, Ignored)
    case Break => s.(phase := Halted)
  }

  /** `_on_mqtt_message` */
  function Receiving(s: System, m: Inbound): System {
    if m.NotACommand? || m.target.Foreign? || m.id.None? || m.id.value in s.recent
       || |s.pending| >= MAX_PENDING_RESPONSES then s
    else Reacting(Remembering(s, m.id.value), m.id.value, ReactionTo(m, s.reboot.Some?))
  }

  // ---------------------------------------------------------------------------------------
  // Publishing
  // ---------------------------------------------------------------------------------------

  /** `serialize_and_validate_message` */
  datatype Serialized = Bytes(body: bytes) | NoMemory | TooBig | NotSerializable

  datatype Verdict = Goes(payload: bytes) | Cannot(cause: Cause) | Breaks

  /** `_claim_wire_sequence`: the sequence a container with mark `sequence` publishes under. */
  function SequenceOf(s: System, sequence: Option<nat>): nat {
    if sequence.Some? then sequence.value else s.nextSequence
  }

  function Claiming(s: System, id: nat, sequence: Option<nat>): System {
    if sequence.Some? then s
    else s.(nextSequence := s.nextSequence + 1, wire := s.wire.(claims := s.wire.claims + [id]))
  }

  /** The checks of `_publish_entry` on a body about to go out under `sequence`. */
  function Checking(env: Envelope, body: bytes, sequence: nat): Verdict {
    if body == [] || body[|body| - 1] != 125 then Breaks
    else if |body| + |env(sequence)| + 1 > MAX_OUTBOUND_MESSAGE_BYTES then Cannot(ResponseTooLarge)
    else Goes(Spliced(body, env(sequence)))
  }

  /** The marks a publish attempt leaves on a response container. */
  function Marked(s: System, c: Response, made: Serialized): Response {
    var marked := c.(sequence := Some(SequenceOf(s, c.sequence)));
    if c.frozen.None? && made.Bytes? then marked.(frozen := Some(made.body)) else marked
  }

  function Judged(env: Envelope, s: System, c: Response, made: Serialized): Verdict {
    var marked := Marked(s, c, made);
    if marked.frozen.Some? then Checking(env, marked.frozen.value, marked.sequence.value)
    else
      match made
      case TooBig => Cannot(ResponseTooLarge)
      case NotSerializable => Cannot(ResponseInvalid)
      case _ => Breaks
  }

  /** A frame goes out, unless the write fails first, and its PUBACK is then awaited. */
  function Writing(s: System, f: Frame, written: bool, awaiting: Phase): System {
    if written then s.(wire := s.wire.(frames := s.wire.frames + [f]), phase := awaiting) else s
  }

  function Served(s: System, marked: Response, verdict: Verdict, written: bool): System
    requires s.pending != [] && marked.sequence.Some?
  {
    var c := s.pending[0];
    var claimed := Claiming(s, c.id, c.sequence);
    match verdict
    case Goes(payload) =>
      Writing(claimed.(pending := s.pending[0 := marked]),
              Frame(marked.sequence.value, c.id, CommandResponse, payload), written, AwaitingResponse)
    case Cannot(cause) =>
      if c.answer.Error? && c.answer.code.Substitute? then claimed.(pending := s.pending[0 := marked])
      else
        var id := s.wire.created;
        claimed.(pending := s.pending[0 := Response(id, c.command, Error(Substitute(cause)), None, None, false)],
                 wire := claimed.wire.(created := id + 1))
    case Breaks => claimed.(pending := s.pending[0 := marked], phase := Halted)
  }

  /** `_service_pending_core0_response`, up to the PUBACK. */
  function Serving(env: Envelope, s: System, made: Serialized, written: bool): System {
    if !s.phase.Ready? || s.pending == [] || s.inFlight.Some? then s
    else Served(s, Marked(s, s.pending[0], made), Judged(env, s, s.pending[0], made), written)
  }

  function RebootAttempted(s: System, marked: Response, verdict: Verdict, written: bool): System
    requires s.reboot.Some? && marked.sequence.Some?
  {
    var c := s.reboot.value.ack;
    var claimed := Claiming(s, c.id, c.sequence).(reboot := Some(RebootRequest(marked, false)));
    match verdict
    case Goes(payload) =>
      Writing(claimed, Frame(marked.sequence.value, c.id, CommandResponse, payload), written, AwaitingReboot)
    case Cannot(cause) =>
      if |s.pending| >= MAX_PENDING_RESPONSES then claimed
      else Queueing(claimed, c.command, Error(Substitute(cause)), true).(reboot := Some(RebootRequest(marked, true)))
    case Breaks => claimed.(phase := Halted)
  }

  /** `_perform_reboot`, up to the PUBACK. */
  function Rebooting(env: Envelope, s: System, made: Serialized, written: bool): System {
    if !s.phase.Ready? || s.reboot.None? || s.inFlight.Some? || s.reboot.value.substituteQueued then s
    else
      var c := s.reboot.value.ack;
      RebootAttempted(s, Marked(s, c, made), Judged(env, s, c, made), written)
  }

  /** `take` moves an entry into flight. */
  function TakingEntry(s: System, kind: Kind, payload: bytes): System {
    if !s.phase.Ready? || s.inFlight.Some? then s
    else
      s.(inFlight := Some(Entry(s.wire.created, kind, payload, None)),
         wire := s.wire.(created := s.wire.created + 1))
  }

  function EntryAttempted(s: System, e: Entry, verdict: Verdict, written: bool, owner: Option<CommandId>): System {
    var sequence := SequenceOf(s, e.sequence);
    var claimed := Claiming(s, e.id, e.sequence);
    match verdict
    case Goes(payload) =>
      Writing(claimed.(inFlight := Some(e.(sequence := Some(sequence)))),
              Frame(sequence, e.id, e.kind, payload), written, AwaitingEntry)
    case _ =>
      if e.kind.CommandResponse? && owner.Some? then
        Queueing(claimed.(inFlight := None), owner.value, Error(Substitute(ResponseTooLarge)), false)
      else claimed.(inFlight := None)
  }

  /** Publishing the entry in flight, up to the PUBACK.  One that can never fit is discarded, and a
      discarded command response is answered with a substitute when its `owner` can be read back. */
  function SendingEntry(env: Envelope, s: System, written: bool, owner: Option<CommandId>): System {
    if !s.phase.Ready? || s.inFlight.None? then s
    else
      var e := s.inFlight.value;
      if e.payload == [] || e.payload[|e.payload| - 1] != 125 then s.(phase := Halted)
      else EntryAttempted(s, e, Checking(env, e.payload, SequenceOf(s, e.sequence)), written, owner)
  }

  /** The PUBACK arrives. */
  function Acknowledging(s: System): System {
    match s.phase
    case AwaitingResponse =>
      if s.pending == [] then s
      else
        var c := s.pending[0];
        s.(pending := s.pending[1..], phase := Ready,
           reboot := if c.clearsReboot then None else s.reboot,
           history := s.history.(answered := s.history.answered + [c.command]))
    case AwaitingReboot => s.(reboot := None, phase := HasReset)
    case AwaitingEntry => s.(inFlight := None, phase := Ready)
    case _ => s
  }

  predicate Awaiting(phase: Phase) { phase in {AwaitingResponse, AwaitingReboot, AwaitingEntry} }

  datatype Event =
    | Receive(message: Inbound)
    | Serve(made: Serialized, written: bool)
    | AttemptReboot(made: Serialized, written: bool)
    | TakeEntry(kind: Kind, payload: bytes)
    | SendEntry(written: bool, owner: Option<CommandId>)
    | Acknowledged
    | Failed                         // the connection fails before the PUBACK

  function Step(env: Envelope, s: System, e: Event): System {
    match e
    case Receive(m) => if s.phase.Ready? || Awaiting(s.phase) then Receiving(s, m) else s
    case Serve(made, written) => Serving(env, s, made, written)
    case AttemptReboot(made, written) => Rebooting(env, s, made, written)
    case TakeEntry(kind, payload) => TakingEntry(s, kind, payload)
    case SendEntry(written, owner) => SendingEntry(env, s, written, owner)
    case Acknowledged => Acknowledging(s)
    case Failed => if Awaiting(s.phase) then s.(phase := Ready) else s
  }

  datatype Run = Boot | Then(before: Run, event: Event)

  const BOOTED: System := System(0, [], [], None, None, Ready, Wire(0, [], []), History([], [], [], []))

  function After(env: Envelope, r: Run): System {
    match r
    case Boot => BOOTED
    case Then(before, event) => Step(env, After(env, before), event)
  }

  /** `b` continues the run `a`. */
  predicate Extends(a: Run, b: Run) {
    a == b || (b.Then? && Extends(a, b.before))
  }

  lemma {:induction false} ExtendsThrough(a: Run, b: Run, c: Run)
    requires Extends(a, b) && Extends(b, c)
    ensures Extends(a, c)
    decreases c
  {
    if b != c {
      ExtendsThrough(a, b, c.before);
    }
  }
}
