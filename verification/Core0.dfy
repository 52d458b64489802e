/** Core 0's publishing and command handling, method by method.  Each follows the machine of
    Core0State, so what holds of every run holds of the object between any two calls. */
module Core0 {
  import opened Common
  import opened Core0State

  /** What the MQTT client does with one publish: the write goes through or fails; the messages that
      arrive while the PUBACK is awaited are dispatched; then the PUBACK comes or it does not. */
  datatype Exchange = Exchange(written: bool, inbound: seq<Inbound>, acknowledged: bool)

  datatype Published =
    | Acked
    | Lost        // OSError or MQTTException: the message is kept for a later attempt
    | Unsendable  // a permanent failure of these bytes
    | Escaped     // an exception nothing here handles

  /** The run `r` continued by the messages received, in order. */
  function Receives(r: Run, messages: seq<Inbound>): Run {
    if messages == [] then r
    else Then(Receives(r, messages[..|messages| - 1]), Receive(messages[|messages| - 1]))
  }

  /** What a publish attempt adds to the run `r` that begins it: every message that arrives before the
      PUBACK is received, in order, and then the exchange ends as it ends. */
  ghost predicate Attempted(r: Run, x: Exchange, result: Published, after: Run) {
    match result
    case Acked => x.written && x.acknowledged && after == Then(Receives(r, x.inbound), Acknowledged)
    case Lost =>
      !(x.written && x.acknowledged) && after == if x.written then Then(Receives(r, x.inbound), Failed) else r
    case Unsendable => after == r
    case Escaped => exists k :: 0 <= k <= |x.inbound| && after == Receives(r, x.inbound[..k])
  }

  lemma {:induction false} ReceivesExtends(r: Run, messages: seq<Inbound>)
    ensures Extends(r, Receives(r, messages))
    decreases |messages|
  {
    if messages != [] {
      ReceivesExtends(r, messages[..|messages| - 1]);
    }
  }

  lemma {:induction false} AttemptExtends(r: Run, x: Exchange, result: Published, after: Run)
    requires Attempted(r, x, result, after)
    ensures Extends(r, after)
  {
    ReceivesExtends(r, x.inbound);
    if result.Escaped? {
      var k :| 0 <= k <= |x.inbound| && after == Receives(r, x.inbound[..k]);
      ReceivesExtends(r, x.inbound[..k]);
    }
  }

  /** What the run loop starts in an event, if anything. */
  datatype Attempt = Reboots | Serves | Takes | Publishes

  function AttemptOf(e: Event): seq<Attempt> {
    match e
    case AttemptReboot(_, _) => [Reboots]
    case Serve(_, _) => [Serves]
    case TakeEntry(_, _) => [Takes]
    case SendEntry(_, _) => [Publishes]
    case _ => []
  }

  /** What the run loop has started since `a`, in order. */
  function Attempts(a: Run, b: Run): seq<Attempt>
    requires Extends(a, b)
    decreases b
  {
    if a == b then [] else Attempts(a, b.before) + AttemptOf(b.event)
  }

  function Events(r: Run): nat { if r == Boot then 0 else Events(r.before) + 1 }

  lemma {:induction false} ExtendsLonger(a: Run, b: Run)
    requires Extends(a, b)
    ensures Events(a) <= Events(b)
  {
    if a != b {
      ExtendsLonger(a, b.before);
    }
  }

  lemma {:induction false} AttemptsThrough(a: Run, b: Run, c: Run)
    requires Extends(a, b) && Extends(b, c)
    ensures Extends(a, c) && Attempts(a, c) == Attempts(a, b) + Attempts(b, c)
    decreases c
  {
    ExtendsThrough(a, b, c);
    if b != c {
      ExtendsLonger(a, b);
      ExtendsLonger(b, c.before);
      AttemptsThrough(a, b, c.before);
    }
  }

  lemma {:induction false} ReceivesAttempts(r: Run, messages: seq<Inbound>)
    ensures Extends(r, Receives(r, messages)) && Attempts(r, Receives(r, messages)) == []
    decreases |messages|
  {
    ReceivesExtends(r, messages);
    if messages != [] {
      ReceivesAttempts(r, messages[..|messages| - 1]);
    }
  }

  /** An inbound message adds at most one response, at the end, and never alters a pending reboot. */
  lemma {:induction false} ReceivingAppends(s: System, m: Inbound)
    ensures var t := Receiving(s, m);
            && |s.pending| <= |t.pending| && t.pending[..|s.pending|] == s.pending
            && (s.reboot.Some? ==> t.reboot == s.reboot)
            && t.phase in {s.phase, Halted}
  {
  }

  lemma {:induction false} RebootingKeeps(env: Envelope, s: System, made: Serialized, written: bool)
    requires s.phase.Ready?
    ensures var t := Rebooting(env, s, made, written);
            t.inFlight == s.inFlight && |s.pending| <= |t.pending| && t.phase in {Ready, AwaitingReboot, Halted}
  {
  }

  lemma {:induction false} ServingKeeps(env: Envelope, s: System, made: Serialized, written: bool)
    requires s.phase.Ready?
    ensures var t := Serving(env, s, made, written);
            t.inFlight == s.inFlight && t.phase in {Ready, AwaitingResponse, Halted}
  {
  }

  lemma {:induction false} ServingIs(env: Envelope, r: Run, s: System, made: Serialized, written: bool)
    requires After(env, r) == s && s.phase.Ready? && s.inFlight.None? && s.pending != []
    ensures After(env, Then(r, Serve(made, written)))
            == Served(s, Marked(s, s.pending[0], made), Judged(env, s, s.pending[0], made), written)
  {
  }

  lemma {:induction false} RebootingIs(env: Envelope, r: Run, s: System, made: Serialized, written: bool)
    requires After(env, r) == s && s.phase.Ready? && s.inFlight.None? && s.reboot.Some? && !s.reboot.value.substituteQueued
    ensures After(env, Then(r, AttemptReboot(made, written)))
            == RebootAttempted(s, Marked(s, s.reboot.value.ack, made), Judged(env, s, s.reboot.value.ack, made), written)
  {
  }

  lemma {:induction false} SendingIs(env: Envelope, r: Run, s: System, written: bool, owner: Option<CommandId>)
    requires After(env, r) == s && s.phase.Ready? && s.inFlight.Some?
    ensures After(env, Then(r, SendEntry(written, owner))) == SendingEntry(env, s, written, owner)
  {
  }

  /** How far the loop has come: the run, and how many answers of the serializer and the socket it
      has used. */
  datatype Progress = Progress(run: Run, serializations: nat, exchanges: nat)

  /** What one pass of the run loop finds due, open, polled and offered, in the order it looks. */
  datatype Agenda = Agenda(
    dueFirst: bool,
    polled: Option<Inbound>,
    dueAgain: bool,
    readyToServe: bool,
    readyToPublish: bool,
    offered: Option<(Kind, bytes)>,
    owner: Option<CommandId>)

  class Core0 {
    const envelope: Envelope
    const serializer: nat -> Serialized
    const socket: nat -> Exchange

    var serializations: nat
    var exchanges: nat

    var nextSequence: nat
    var pending: seq<Response>               // _pending_core0_responses
    var recent: seq<CommandId>               // _recent_command_ids
    var pendingReboot: Option<RebootRequest>
    var inFlight: Option<Entry>              // of the outbound queue
    var nextId: nat                          // the identity of the next message object
    var stopped: bool                        // reset, or an exception escaped

    ghost var sys: System
    ghost var run: Run

    /** The fields are those of `sys`. */
    ghost predicate Matches()
      reads this
    {
      && nextSequence == sys.nextSequence && pending == sys.pending && recent == sys.recent
      && pendingReboot == sys.reboot && inFlight == sys.inFlight && nextId == sys.wire.created
      && stopped == (sys.phase.Halted? || sys.phase.HasReset?)
    }

    ghost predicate Valid()
      reads this
    {
      Matches() && sys == After(envelope, run)
    }

    ghost function Now(): Progress
      reads this
    {
      Progress(run, serializations, exchanges)
    }

    /** The serializer is called unless the bytes are frozen. */
    ghost function Calls(c: Response): nat { if c.frozen.None? then 1 else 0 }

    /** The socket is used unless nothing can go out. */
    ghost function Sends(v: Verdict): nat { if v.Goes? then 1 else 0 }

    /** `p` after an attempt on `c` in the state `s` that has led to the run `after`. */
    ghost function Onward(p: Progress, s: System, c: Response, after: Run): Progress {
      var verdict := Judged(envelope, s, c, serializer(p.serializations));
      Progress(after, p.serializations + Calls(c), p.exchanges + Sends(verdict))
    }

    constructor (envelope: Envelope, serializer: nat -> Serialized, socket: nat -> Exchange)
      ensures Valid() && run == Boot
    {
      this.envelope, this.serializer, this.socket := envelope, serializer, socket;
      serializations, exchanges, nextSequence, nextId := 0, 0, 0, 0;
      pending, recent, pendingReboot, inFlight, stopped := [], [], None, None, false;
      sys, run := BOOTED, Boot;
    }

    // -------------------------------------------------------------------------------------
    // Commands
    // -------------------------------------------------------------------------------------

    /** `_queue_core0_response` */
    method QueueCore0Response(command: CommandId, answer: Answer, clearsReboot: bool) returns (queued: bool)
      requires Matches()
      modifies `pending, `nextId, `sys
      ensures Matches() && sys == Queueing(old(sys), command, answer, clearsReboot)
      ensures queued == (|old(pending)| < MAX_PENDING_RESPONSES)
    {
      sys := Queueing(sys, command, answer, clearsReboot);
      if |pending| >= MAX_PENDING_RESPONSES {
        return false;
      }
      pending := pending + [Response(nextId, command, answer, None, None, clearsReboot)];
      nextId := nextId + 1;
      return true;
    }

    /** `_remember_command_id` */
    method RememberCommandId(id: CommandId)
      requires Matches()
      modifies `recent, `sys
      ensures Matches() && sys == Remembering(old(sys), id)
    {
      sys := Remembering(sys, id);
      recent := recent + [id];
      if |recent| > RECENT_CAPACITY {
        recent := recent[1..];
      }
    }

    /** Answer an accepted command. */
    method Respond(id: CommandId, answer: Answer)
      requires Matches()
      modifies `pending, `nextId, `sys
      ensures Matches() && sys == Reacting(old(sys), id, Reaction.Respond(answer))
    {
      var _ := QueueCore0Response(id, answer, false);
      sys := Disposing(sys, Answered);
    }

    /** `_handle_reboot_command` */
    method HandleRebootCommand(id: CommandId, payload: Payload)
      requires Matches() && payload.Object?
      modifies `pending, `nextId, `pendingReboot, `sys
      ensures Matches()
      ensures sys
              == Reacting(old(sys), id,
                          if payload.otherKeys || !payload.candidate.NoConfig? then Reaction.Respond(Error(UnknownFields))
                          else if old(pendingReboot).Some? then Reaction.Respond(Error(RebootAlreadyPending)) else HoldReboot)
    {
      if payload.otherKeys || !payload.candidate.NoConfig? {
        Respond(id, Error(UnknownFields));
        return;
      }
      if pendingReboot.Some? {
        Respond(id, Error(RebootAlreadyPending));
        return;
      }
      sys := Reacting(sys, id, HoldReboot);
      pendingReboot := Some(RebootRequest(Response(nextId, id, Success, None, None, false), false));
      nextId := nextId + 1;
    }

    /** `_handle_get_details_command` */
    method HandleGetDetailsCommand(id: CommandId, payload: Payload, admitted: bool)
      requires Matches() && payload.Object?
      modifies `pending, `nextId, `sys
      ensures Matches()
      ensures sys
              == Reacting(old(sys), id,
                          if payload.otherKeys || !payload.candidate.NoConfig? then Reaction.Respond(Error(UnknownFields))
                          else if admitted then Forward else Reaction.Respond(Error(EventQueuePressure)))
    {
      if payload.otherKeys || !payload.candidate.NoConfig? {
        Respond(id, Error(UnknownFields));
        return;
      }
      if !admitted {
        Respond(id, Error(EventQueuePressure));
        return;
      }
      sys := Disposing(sys, Forwarded);
    }

    /** An exception escapes. */
    method Halt(ghost reached: System)
      modifies `stopped, `sys
      ensures stopped && sys == reached.(phase := Halted)
    {
      stopped := true;
      sys := reached.(phase := Halted);
    }

    /** The answer to a command the configuration manager has worked on. */
    method AnswerFromManager(id: CommandId, outcome: Outcome, code: Code)
      requires Matches() && !stopped
      modifies `pending, `nextId, `stopped, `sys
      ensures Matches() && sys == Reacting(old(sys), id, FromManager(outcome, code))
    {
      match outcome
      case Succeeds => Respond(id, Success);
      case RaisesConfigError => Respond(id, Error(code));
      case Escapes =>
        Halt(sys);
    }

    /** `_handle_read_config_command` */
    method HandleReadConfigCommand(id: CommandId, payload: Payload, outcome: Outcome)
      requires Matches() && !stopped && payload.Object?
      modifies `pending, `nextId, `stopped, `sys
      ensures Matches()
      ensures sys
              == Reacting(old(sys), id,
                          if payload.otherKeys || !payload.candidate.NoConfig? then Reaction.Respond(Error(UnknownFields))
                          else FromManager(outcome, ConfigUnavailable))
    {
      if payload.otherKeys || !payload.candidate.NoConfig? {
        Respond(id, Error(UnknownFields));
        return;
      }
      AnswerFromManager(id, outcome, ConfigUnavailable);
    }

    /** `_handle_write_config_command` */
    method HandleWriteConfigCommand(id: CommandId, payload: Payload)
      requires Matches() && !stopped && payload.Object?
      modifies `pending, `nextId, `stopped, `sys
      ensures Matches() && sys == Reacting(old(sys), id, ReactionToWrite(payload))
    {
      if payload.otherKeys {
        Respond(id, Error(UnknownFields));
        return;
      }
      match payload.candidate
      case NoConfig => Respond(id, Error(MissingKey));
      case NotADict => Respond(id, Error(InvalidValue));
      case Given(result) => AnswerFromManager(id, result, ConfigRejected);
    }

    /** `_on_mqtt_message`, from the decoded document on. */
    method OnMqttMessage(m: Inbound)
      requires Matches() && !stopped
      modifies `pending, `nextId, `recent, `pendingReboot, `stopped, `sys
      ensures Matches() && sys == Receiving(old(sys), m)
    {
      if m.NotACommand? || m.target.Foreign? || m.id.None? {
        return;
      }
      var id := m.id.value;
      if id in recent {
        return;
      }
      if |pending| >= MAX_PENDING_RESPONSES {
        return;
      }
      RememberCommandId(id);
      if m.unknownFields {
        Respond(id, Error(UnknownFields));
        return;
      }
      if m.name.NotAName? {
        Respond(id, Error(InvalidCommand));
        return;
      }
      if m.payload.NoPayload? {
        Respond(id, Error(InvalidPayload));
        return;
      }
      if m.name.OverLong? {
        Respond(id, Error(InvalidCommand));
        return;
      }
      if m.payload.NotAnObject? {
        Respond(id, Error(InvalidPayload));
        return;
      }
      if m.name.Unregistered? {
        Respond(id, Error(UnsupportedCommand));
        return;
      }
      if m.name.WriteConfig? && m.target.Broadcast? {
        sys := Disposing(sys, Ignored);
        return;
      }
      match m.name
      case Reboot => HandleRebootCommand(id, m.payload);
      case GetDetails => HandleGetDetailsCommand(id, m.payload, m.eventAdmitted);
      case ReadConfig => HandleReadConfigCommand(id, m.payload, m.read);
      case WriteConfig => HandleWriteConfigCommand(id, m.payload);
    }

    // -------------------------------------------------------------------------------------
    // Publishing
    // -------------------------------------------------------------------------------------

    /** `_claim_wire_sequence` for the container of message `id` marked `sequence`. */
    method ClaimWireSequence(id: nat, sequence: Option<nat>) returns (claimed: nat)
      requires Matches()
      modifies `nextSequence, `sys
      ensures Matches() && sys == Claiming(old(sys), id, sequence)
      ensures claimed == SequenceOf(old(sys), sequence)
    {
      sys := Claiming(sys, id, sequence);
      if sequence.Some? {
        return sequence.value;
      }
      claimed := nextSequence;
      nextSequence := nextSequence + 1;
    }

    /** `_publish_core0_command_response` up to the wire: claim, serialize once, check the length. */
    method BuildResponse(c: Response) returns (marked: Response, verdict: Verdict)
      requires Matches()
      modifies `nextSequence, `serializations, `sys
      ensures Matches() && sys == Claiming(old(sys), c.id, c.sequence)
      ensures marked == Marked(old(sys), c, serializer(old(serializations)))
      ensures serializations == old(serializations) + Calls(c)
      ensures verdict == Judged(envelope, old(sys), c, serializer(old(serializations)))
    {
      var sequence := ClaimWireSequence(c.id, c.sequence);
      marked := c.(sequence := Some(sequence));
      if marked.frozen.None? {
        var made := serializer(serializations);
        serializations := serializations + 1;
        match made {
          case NoMemory => return marked, Breaks;
          case TooBig => return marked, Cannot(ResponseTooLarge);
          case NotSerializable => return marked, Cannot(ResponseInvalid);
          case Bytes(body) => marked := marked.(frozen := Some(body));
        }
      }
      verdict := Checking(envelope, marked.frozen.value, sequence);
    }

    /** The write of the frame, which begins event `e`. */
    method Send(f: Frame, awaiting: Phase, ghost e: Event) returns (x: Exchange)
      requires Matches() && sys.phase.Ready? && Awaiting(awaiting)
      requires After(envelope, Then(run, e)) == Writing(sys, f, socket(exchanges).written, awaiting)
      modifies `exchanges, `sys, `run
      ensures Valid() && x == socket(old(exchanges)) && run == Then(old(run), e) && exchanges == old(exchanges) + 1
      ensures sys.phase == if x.written then awaiting else Ready
    {
      x := socket(exchanges);
      exchanges := exchanges + 1;
      sys := Writing(sys, f, x.written, awaiting);
      run := Then(run, e);
    }

    /** The connection fails before the PUBACK. */
    ghost method GiveUp()
      requires Valid() && Awaiting(sys.phase)
      modifies `sys, `run
      ensures Valid() && sys.phase.Ready? && run == Then(old(run), Failed)
    {
      sys := sys.(phase := Ready);
      run := Then(run, Failed);
    }

    /** The messages that arrive before a PUBACK, until a handler lets an exception escape. */
    method DispatchWhileAwaiting(inbound: seq<Inbound>)
      requires Valid() && Awaiting(sys.phase)
      modifies `pending, `nextId, `recent, `pendingReboot, `stopped, `sys, `run
      ensures Valid()
      ensures !stopped ==> run == Receives(old(run), inbound)
      ensures stopped ==> exists k :: 0 <= k <= |inbound| && run == Receives(old(run), inbound[..k])
      ensures sys.phase == if stopped then Halted else old(sys.phase)
      ensures |old(pending)| <= |pending| && pending[..|old(pending)|] == old(pending)
      ensures old(pendingReboot).Some? ==> pendingReboot == old(pendingReboot)
    {
      for i := 0 to |inbound|
        invariant Valid() && sys.phase == old(sys.phase) && run == Receives(old(run), inbound[..i])
        invariant |old(pending)| <= |pending| && pending[..|old(pending)|] == old(pending)
        invariant old(pendingReboot).Some? ==> pendingReboot == old(pendingReboot)
      {
        ReceivingAppends(sys, inbound[i]);
        ghost var before := pending;
        OnMqttMessage(inbound[i]);
        run := Then(run, Receive(inbound[i]));
        assert inbound[..i + 1][..i] == inbound[..i];
        assert pending[..|old(pending)|] == pending[..|before|][..|old(pending)|];
        if stopped {
          return;
        }
      }
      assert inbound[..|inbound|] == inbound;
    }

    /** The publish itself, which is event `e`: the frame goes out, and the messages that arrive
        before its PUBACK are dispatched. */
    method PublishQos1(f: Frame, awaiting: Phase, ghost e: Event) returns (result: Published)
      requires Matches() && sys.phase.Ready? && Awaiting(awaiting)
      requires After(envelope, Then(run, e)) == Writing(sys, f, socket(exchanges).written, awaiting)
      modifies `exchanges, `pending, `nextId, `recent, `pendingReboot, `stopped, `sys, `run
      ensures Valid() && (result.Acked? || result.Lost? || result.Escaped?) && exchanges == old(exchanges) + 1
      ensures result.Acked? ==>
                && socket(old(exchanges)).written && socket(old(exchanges)).acknowledged
                && run == Receives(Then(old(run), e), socket(old(exchanges)).inbound)
      ensures !result.Acked? ==> Attempted(Then(old(run), e), socket(old(exchanges)), result, run)
      ensures sys.phase == if result.Acked? then awaiting else if result.Lost? then Ready else Halted
      ensures |old(pending)| <= |pending| && pending[..|old(pending)|] == old(pending)
      ensures old(pendingReboot).Some? ==> pendingReboot == old(pendingReboot)
    {
      var x := Send(f, awaiting, e);
      if !x.written {
        return Lost;
      }
      DispatchWhileAwaiting(x.inbound);
      if stopped {
        return Escaped;
      }
      if !x.acknowledged {
        GiveUp();
        return Lost;
      }
      return Acked;
    }

    /** A PUBACK has been matched: `after` is what the caller has then done. */
    ghost method RecordAcknowledged()
      requires sys == After(envelope, run)
      modifies `sys, `run
      ensures sys == Acknowledging(old(sys)) == After(envelope, run)
      ensures run == Then(old(run), Acknowledged)
    {
      sys := Acknowledging(sys);
      run := Then(run, Acknowledged);
    }

    /** `_is_response_substitute` */
    predicate IsResponseSubstitute(c: Response) {
      c.answer.Error? && c.answer.code.Substitute?
    }

    /** The head can never be sent: its substitute takes its place, unless it is one already. */
    method ReplaceHead(response: Response, marked: Response, cause: Cause)
      requires Matches() && pending != []
      modifies `pending, `nextId, `sys
      ensures Matches()
      ensures sys
              == if IsResponseSubstitute(response) then old(sys).(pending := old(pending)[0 := marked])
                 else old(sys).(pending := old(pending)[0 := Response(old(nextId), response.command,
                                                                      Error(Substitute(cause)), None, None, false)],
                                wire := old(sys).wire.(created := old(nextId) + 1))
    {
      if IsResponseSubstitute(response) {
        pending := pending[0 := marked];
        sys := sys.(pending := pending);
      } else {
        pending := pending[0 := Response(nextId, response.command, Error(Substitute(cause)), None, None, false)];
        nextId := nextId + 1;
        sys := sys.(pending := pending, wire := sys.wire.(created := nextId));
      }
    }

    /** Nothing goes out for the head: it is replaced for good, or an exception escapes. */
    method FailHead(marked: Response, verdict: Verdict, ghost before: System, ghost e: Event) returns (result: Published)
      requires Matches() && !verdict.Goes? && pending == before.pending != [] && marked.sequence.Some?
      requires sys == Claiming(before, pending[0].id, pending[0].sequence) && sys.phase.Ready?
      requires After(envelope, Then(run, e)) == Served(before, marked, verdict, socket(exchanges).written)
      modifies `pending, `nextId, `stopped, `sys, `run
      ensures Valid() && Attempted(Then(old(run), e), socket(exchanges), result, run)
      ensures sys.phase == if result.Escaped? then Halted else Ready
    {
      run := Then(run, e);
      if verdict.Cannot? {
        ReplaceHead(pending[0], marked, verdict.cause);
        result := Unsendable;
      } else {
        pending := pending[0 := marked];
        Halt(sys.(pending := pending));
        assert run == Receives(run, socket(exchanges).inbound[..0]);
        result := Escaped;
      }
    }

    ghost function ServeEvent(): Event
      reads this
    {
      Serve(serializer(serializations), socket(exchanges).written)
    }

    /** The acknowledged head leaves; if it answered for a held reboot, the reboot is released. */
    method RetireHead()
      requires Valid() && sys.phase.AwaitingResponse? && pending != []
      modifies `pending, `pendingReboot, `sys, `run
      ensures Valid() && sys.phase.Ready? && run == Then(old(run), Acknowledged)
      ensures pending == old(pending)[1..]
      ensures pendingReboot == if old(pending)[0].clearsReboot then None else old(pendingReboot)
    {
      var response := pending[0];
      pending := pending[1..];
      if response.clearsReboot {
        pendingReboot := None;
      }
      RecordAcknowledged();
    }

    /** The head of the pending responses is published and, once acknowledged, leaves. */
    method PublishHead(response: Response, marked: Response, payload: bytes, ghost e: Event) returns (result: Published)
      requires Matches() && sys.phase.Ready? && pending != [] && pending[0] == response && marked.sequence.Some?
      requires After(envelope, Then(run, e))
               == Writing(sys.(pending := pending[0 := marked]),
                          Frame(marked.sequence.value, response.id, CommandResponse, payload),
                          socket(exchanges).written, AwaitingResponse)
      modifies `exchanges, `pending, `nextId, `recent, `pendingReboot, `stopped, `sys, `run
      ensures Valid() && Attempted(Then(old(run), e), socket(old(exchanges)), result, run)
      ensures (result.Acked? || result.Lost? || result.Escaped?) && exchanges == old(exchanges) + 1
      ensures sys.phase == if result.Escaped? then Halted else Ready
    {
      pending := pending[0 := marked];
      sys := sys.(pending := pending);
      result := PublishQos1(Frame(marked.sequence.value, response.id, CommandResponse, payload), AwaitingResponse, e);
      if result.Acked? {
        RetireHead();
      }
    }

    /** `_service_pending_core0_response` */
    method ServicePendingCore0Response() returns (result: Published)
      requires Valid() && sys.phase.Ready? && inFlight.None? && pending != []
      modifies this
      ensures Valid() && Attempted(Then(old(run), old(ServeEvent())), socket(old(exchanges)), result, run)
      ensures serializations == old(serializations) + Calls(old(pending)[0])
      ensures exchanges
              == old(exchanges) + Sends(Judged(envelope, old(sys), old(pending)[0], serializer(old(serializations))))
      ensures sys.phase == if result.Escaped? then Halted else Ready
    {
      ghost var e, before := ServeEvent(), sys;
      var response := pending[0];
      var marked, verdict := BuildResponse(response);
      ServingIs(envelope, run, before, e.made, e.written);
      if verdict.Goes? {
        result := PublishHead(response, marked, verdict.payload, e);
      } else {
        result := FailHead(marked, verdict, before, e);
      }
    }

    // -------------------------------------------------------------------------------------
    // The reboot
    // -------------------------------------------------------------------------------------

    ghost function RebootEvent(): Event
      reads this
    {
      AttemptReboot(serializer(serializations), socket(exchanges).written)
    }

    /** The acknowledgement can never be sent: one substitute is queued, once there is room. */
    method AnswerRebootWithSubstitute(request: Response, marked: Response, cause: Cause)
      requires Matches() && pendingReboot.Some?
      modifies `pendingReboot, `pending, `nextId, `sys
      ensures Matches()
      ensures var held := old(sys).(reboot := Some(RebootRequest(marked, false)));
              sys == if |old(pending)| >= MAX_PENDING_RESPONSES then held
                     else Queueing(held, request.command, Error(Substitute(cause)), true)
                            .(reboot := Some(RebootRequest(marked, true)))
    {
      pendingReboot := Some(RebootRequest(marked, false));
      sys := sys.(reboot := pendingReboot);
      var queued := QueueCore0Response(request.command, Error(Substitute(cause)), true);
      if queued {
        pendingReboot := Some(RebootRequest(marked, true));
        sys := sys.(reboot := pendingReboot);
      }
    }

    /** Nothing goes out for the acknowledgement: a substitute is queued, or an exception escapes. */
    method FailReboot(marked: Response, verdict: Verdict, ghost before: System, ghost e: Event) returns (result: Published)
      requires Matches() && !verdict.Goes? && sys.phase.Ready? && marked.sequence.Some?
      requires pendingReboot == before.reboot && pendingReboot.Some?
      requires sys == Claiming(before, pendingReboot.value.ack.id, pendingReboot.value.ack.sequence)
      requires After(envelope, Then(run, e)) == RebootAttempted(before, marked, verdict, socket(exchanges).written)
      modifies `pendingReboot, `pending, `nextId, `stopped, `sys, `run
      ensures Valid() && Attempted(Then(old(run), e), socket(exchanges), result, run)
      ensures sys.phase == if result.Escaped? then Halted else Ready
      ensures !result.Acked? && pendingReboot.Some?
    {
      run := Then(run, e);
      if verdict.Cannot? {
        AnswerRebootWithSubstitute(pendingReboot.value.ack, marked, verdict.cause);
        result := Unsendable;
      } else {
        pendingReboot := Some(RebootRequest(marked, false));
        Halt(sys.(reboot := pendingReboot));
        assert run == Receives(run, socket(exchanges).inbound[..0]);
        result := Escaped;
      }
    }

    /** The acknowledgement got its PUBACK: the board is reset. */
    method ResetBoard()
      requires Valid() && sys.phase.AwaitingReboot?
      modifies `pendingReboot, `stopped, `sys, `run
      ensures Valid() && sys.phase.HasReset? && run == Then(old(run), Acknowledged)
      ensures pendingReboot.None?
    {
      pendingReboot := None;
      stopped := true;
      RecordAcknowledged();
    }

    method PublishRebootAck(request: Response, marked: Response, payload: bytes,
            ghost e: Event) returns (result: Published)
      requires Matches() && sys.phase.Ready? && pendingReboot.Some? && marked.sequence.Some?
      requires After(envelope, Then(run, e))
               == Writing(sys.(reboot := Some(RebootRequest(marked, false))),
                          Frame(marked.sequence.value, request.id, CommandResponse, payload),
                          socket(exchanges).written, AwaitingReboot)
      modifies `exchanges, `pending, `nextId, `recent, `pendingReboot, `stopped, `sys, `run
      ensures Valid() && Attempted(Then(old(run), e), socket(old(exchanges)), result, run)
      ensures (result.Acked? || result.Lost? || result.Escaped?) && exchanges == old(exchanges) + 1
      ensures sys.phase == if result.Acked? then HasReset else if result.Lost? then Ready else Halted
      ensures pendingReboot.None? <==> result.Acked?
    {
      pendingReboot := Some(RebootRequest(marked, false));
      sys := sys.(reboot := pendingReboot);
      result := PublishQos1(Frame(marked.sequence.value, request.id, CommandResponse, payload), AwaitingReboot, e);
      if result.Acked? {
        ResetBoard();
      }
    }

    /** One attempt to publish the success acknowledgement of the pending reboot. */
    method AttemptRebootAck() returns (result: Published)
      requires Valid() && sys.phase.Ready? && inFlight.None?
      requires pendingReboot.Some? && !pendingReboot.value.substituteQueued
      modifies this
      ensures Valid() && Attempted(Then(old(run), old(RebootEvent())), socket(old(exchanges)), result, run)
      ensures var ack := old(pendingReboot).value.ack;
              && serializations == old(serializations) + Calls(ack)
              && exchanges == old(exchanges) + Sends(Judged(envelope, old(sys), ack, serializer(old(serializations))))
      ensures sys.phase == if result.Acked? then HasReset else if result.Escaped? then Halted else Ready
      ensures pendingReboot.None? <==> result.Acked?
      ensures inFlight == old(inFlight)
    {
      ghost var e, before := RebootEvent(), sys;
      var request := pendingReboot.value.ack;
      var marked, verdict := BuildResponse(request);
      RebootingIs(envelope, run, before, e.made, e.written);
      if verdict.Goes? {
        result := PublishRebootAck(request, marked, verdict.payload, e);
      } else {
        result := FailReboot(marked, verdict, before, e);
      }
    }

    /** `_perform_reboot`: done when no reboot was pending or the board is reset. */
    method PerformReboot() returns (done: bool, result: Published)
      requires Valid() && sys.phase.Ready?
      modifies this
      ensures Valid()
      ensures if old(pendingReboot).None? || inFlight.Some? || old(pendingReboot).value.substituteQueued then
                run == old(run) && serializations == old(serializations) && exchanges == old(exchanges)
              else
                && Attempted(Then(old(run), old(RebootEvent())), socket(old(exchanges)), result, run)
                && var ack := old(pendingReboot).value.ack;
                && serializations == old(serializations) + Calls(ack)
                && exchanges == old(exchanges) + Sends(Judged(envelope, old(sys), ack, serializer(old(serializations))))
      ensures done <==> old(pendingReboot).None? || result.Acked?
      ensures result.Acked? ==> old(pendingReboot).Some? && sys.phase.HasReset? && pendingReboot.None?
      ensures !result.Acked? ==> (sys.phase.Ready? || sys.phase.Halted?) && pendingReboot.Some? == old(pendingReboot).Some?
      ensures inFlight == old(inFlight)
    {
      if pendingReboot.None? {
        return true, Unsendable;
      }
      if inFlight.Some? {
        return false, Unsendable;
      }
      if pendingReboot.value.substituteQueued {
        return false, Unsendable;
      }
      result := AttemptRebootAck();
      done := result.Acked?;
    }

    // -------------------------------------------------------------------------------------
    // Entries of the outbound queue
    // -------------------------------------------------------------------------------------

    /** `take`: the entry in flight, or the next the queue offers. */
    method TakeOutbound(kind: Kind, payload: bytes)
      requires Valid() && sys.phase.Ready? && inFlight.None?
      modifies `inFlight, `nextId, `sys, `run
      ensures Valid() && sys.phase.Ready? && run == Then(old(run), TakeEntry(kind, payload))
      ensures inFlight == Some(Entry(old(nextId), kind, payload, None))
    {
      sys := TakingEntry(sys, kind, payload);
      run := Then(run, TakeEntry(kind, payload));
      inFlight := Some(Entry(nextId, kind, payload, None));
      nextId := nextId + 1;
    }

    /** An entry that can never fit leaves flight; a command response is answered with a substitute. */
    method DiscardEntry(entry: Entry, owner: Option<CommandId>)
      requires Matches()
      modifies `inFlight, `pending, `nextId, `sys
      ensures Matches() && inFlight.None?
      ensures var gone := old(sys).(inFlight := None);
              sys == if entry.kind.CommandResponse? && owner.Some?
                     then Queueing(gone, owner.value, Error(Substitute(ResponseTooLarge)), false) else gone
    {
      inFlight := None;
      sys := sys.(inFlight := None);
      if entry.kind.CommandResponse? && owner.Some? {
        var _ := QueueCore0Response(owner.value, Error(Substitute(ResponseTooLarge)), false);
      }
    }

    /** The entry got its PUBACK and leaves flight. */
    method CompleteEntry()
      requires Valid() && sys.phase.AwaitingEntry?
      modifies `inFlight, `sys, `run
      ensures Valid() && sys.phase.Ready? && run == Then(old(run), Acknowledged)
      ensures inFlight.None?
    {
      inFlight := None;
      RecordAcknowledged();
    }

    method PublishEntry(entry: Entry, sequence: nat, payload: bytes, ghost e: Event) returns (result: Published)
      requires Matches() && sys.phase.Ready? && inFlight == Some(entry)
      requires After(envelope, Then(run, e))
               == Writing(sys.(inFlight := Some(entry.(sequence := Some(sequence)))),
                          Frame(sequence, entry.id, entry.kind, payload), socket(exchanges).written, AwaitingEntry)
      modifies `exchanges, `pending, `nextId, `recent, `pendingReboot, `stopped, `sys, `run, `inFlight
      ensures Valid() && Attempted(Then(old(run), e), socket(old(exchanges)), result, run)
      ensures (result.Acked? || result.Lost? || result.Escaped?) && exchanges == old(exchanges) + 1
      ensures sys.phase == if result.Escaped? then Halted else Ready
      ensures inFlight.None? <==> result.Acked?
    {
      inFlight := Some(entry.(sequence := Some(sequence)));
      sys := sys.(inFlight := inFlight);
      result := PublishQos1(Frame(sequence, entry.id, entry.kind, payload), AwaitingEntry, e);
      if result.Acked? {
        CompleteEntry();
      }
    }

    /** `p` after an attempt on the entry `e` in the state `s` that has led to the run `after`. */
    ghost function Used(p: Progress, s: System, e: Entry, after: Run): Progress {
      var verdict := Checking(envelope, e.payload, SequenceOf(s, e.sequence));
      Progress(after, p.serializations, p.exchanges + Sends(verdict))
    }

    /** The splice of a body that is not an object raises before anything is claimed. */
    method BreakOnEntry(ghost e: Event) returns (result: Published)
      requires Matches() && After(envelope, Then(run, e)) == sys.(phase := Halted)
      modifies `stopped, `sys, `run
      ensures Valid() && result.Escaped? && Attempted(Then(old(run), e), socket(exchanges), result, run)
      ensures sys.phase.Halted?
    {
      Halt(sys);
      run := Then(run, e);
      assert run == Receives(run, socket(exchanges).inbound[..0]);
      result := Escaped;
    }

    /** The attempt on a body that can be spliced. */
    method AttemptEntry(entry: Entry, owner: Option<CommandId>, ghost e: Event) returns (result: Published)
      requires Valid() && sys.phase.Ready? && inFlight == Some(entry)
      requires entry.payload != [] && entry.payload[|entry.payload| - 1] == 125
      requires After(envelope, Then(run, e))
               == EntryAttempted(sys, entry, Checking(envelope, entry.payload, SequenceOf(sys, entry.sequence)),
                                 socket(exchanges).written, owner)
      modifies `exchanges, `pending, `nextId, `recent, `pendingReboot, `stopped, `sys, `run, `nextSequence, `inFlight
      ensures Valid() && Attempted(Then(old(run), e), socket(old(exchanges)), result, run)
      ensures sys.phase == if result.Escaped? then Halted else Ready
      ensures inFlight.None? <==> result.Acked? || result.Unsendable?
      ensures exchanges
              == old(exchanges) + Sends(Checking(envelope, entry.payload, SequenceOf(old(sys), entry.sequence)))
    {
      var sequence := ClaimWireSequence(entry.id, entry.sequence);
      var verdict := Checking(envelope, entry.payload, sequence);
      if verdict.Goes? {
        result := PublishEntry(entry, sequence, verdict.payload, e);
      } else {
        DiscardEntry(entry, owner);
        run := Then(run, e);
        result := Unsendable;
      }
    }

    /** One attempt on the entry in flight, as the run loop makes it: `owner` is the command a
        discarded response is read back to answer, if it can be. */
    method PublishInFlight(owner: Option<CommandId>) returns (result: Published)
      requires Valid() && sys.phase.Ready? && inFlight.Some?
      modifies `exchanges, `pending, `nextId, `recent, `pendingReboot, `stopped, `sys, `run, `nextSequence, `inFlight
      ensures Valid()
      ensures Attempted(Then(old(run), SendEntry(old(socket(exchanges).written), owner)), socket(old(exchanges)), result, run)
      ensures sys.phase == if result.Escaped? then Halted else Ready
      ensures inFlight.None? <==> result.Acked? || result.Unsendable?
      ensures var entry := old(inFlight).value;
              exchanges == old(exchanges) + Sends(Checking(envelope, entry.payload, SequenceOf(old(sys), entry.sequence)))
    {
      ghost var e := SendEntry(socket(exchanges).written, owner);
      SendingIs(envelope, run, sys, e.written, owner);
      var entry := inFlight.value;
      if entry.payload == [] || entry.payload[|entry.payload| - 1] != 125 {
        result := BreakOnEntry(e);
      } else {
        result := AttemptEntry(entry, owner, e);
      }
    }

    // -------------------------------------------------------------------------------------
    // The run loop
    // -------------------------------------------------------------------------------------

    /** No further turn is taken after `r`. */
    ghost predicate Stopped(r: Run) {
      After(envelope, r).phase.Halted? || After(envelope, r).phase.HasReset?
    }

    /** A publish beginning with the last event of `r` is seen through to its end at `after`. */
    ghost predicate SeenThrough(r: Run, x: Exchange, after: Run) {
      && (exists result :: Attempted(r, x, result, after))
      && (After(envelope, after).phase.Ready? || Stopped(after))
    }

    /** A due reboot is attempted exactly when one is held, nothing is in flight and no substitute
        answers for it. */
    ghost predicate RebootTurn(due: bool, p: Progress, q: Progress) {
      var s := After(envelope, p.run);
      if !Stopped(p.run) && due && s.reboot.Some? && s.inFlight.None? && !s.reboot.value.substituteQueued then
        var (made, x) := (serializer(p.serializations), socket(p.exchanges));
        && SeenThrough(Then(p.run, AttemptReboot(made, x.written)), x, q.run)
        && q == Onward(p, s, s.reboot.value.ack, q.run)
      else q == p
    }

    ghost predicate PollTurn(polled: Option<Inbound>, p: Progress, q: Progress) {
      q == if !Stopped(p.run) && polled.Some? then p.(run := Then(p.run, Receive(polled.value))) else p
    }

    /** The oldest response is served exactly when there is one and nothing is in flight. */
    ghost predicate ServeTurn(ready: bool, p: Progress, q: Progress) {
      var s := After(envelope, p.run);
      if !Stopped(p.run) && ready && s.pending != [] && s.inFlight.None? then
        var (made, x) := (serializer(p.serializations), socket(p.exchanges));
        && SeenThrough(Then(p.run, Serve(made, x.written)), x, q.run)
        && q == Onward(p, s, s.pending[0], q.run)
      else q == p
    }

    /** The run once an entry is in flight: the one there, or else the one offered. */
    ghost function Taken(offered: Option<(Kind, bytes)>, r: Run): Run {
      if After(envelope, r).inFlight.None? && offered.Some? then Then(r, TakeEntry(offered.value.0, offered.value.1))
      else r
    }

    /** The entry in flight, or else the one offered, is attempted. */
    ghost predicate PublishTurn(ready: bool, offered: Option<(Kind, bytes)>, owner: Option<CommandId>,
            p: Progress, q: Progress)
    {
      var taken := Taken(offered, p.run);
      var entry := After(envelope, taken).inFlight;
      if !Stopped(p.run) && ready && entry.Some? then
        var x := socket(p.exchanges);
        && SeenThrough(Then(taken, SendEntry(x.written, owner)), x, q.run)
        && q == Used(p.(run := taken), After(envelope, taken), entry.value, q.run)
      else q == p
    }

    /** The turns of a pass around its poll. */
    ghost predicate InboundTurns(a: Agenda, p: Progress, q: Progress) {
      exists p1: Progress, p2: Progress ::
        RebootTurn(a.dueFirst, p, p1) && PollTurn(a.polled, p1, p2) && RebootTurn(a.dueAgain, p2, q)
    }

    /** The turns of a pass that publish. */
    ghost predicate OutboundTurns(a: Agenda, p: Progress, q: Progress) {
      exists p1: Progress :: ServeTurn(a.readyToServe, p, p1) && PublishTurn(a.readyToPublish, a.offered, a.owner, p1, q)
    }

    /** The turns of one pass, one after the other. */
    ghost predicate PassTurns(a: Agenda, p: Progress, q: Progress) {
      exists p1: Progress :: InboundTurns(a, p, p1) && OutboundTurns(a, p1, q)
    }

    method RebootIfDue(due: bool)
      requires Valid() && (stopped || sys.phase.Ready?)
      modifies this
      ensures Valid() && (stopped || sys.phase.Ready?)
      ensures RebootTurn(due, old(Now()), Now())
    {
      if !stopped && pendingReboot.Some? && due {
        var _, result := PerformReboot();
      }
    }

    method Poll(polled: Option<Inbound>)
      requires Valid() && (stopped || sys.phase.Ready?)
      modifies this
      ensures Valid() && (stopped || sys.phase.Ready?)
      ensures PollTurn(polled, old(Now()), Now())
    {
      if !stopped && polled.Some? {
        ReceivingAppends(sys, polled.value);
        OnMqttMessage(polled.value);
        run := Then(run, Receive(polled.value));
      }
    }

    method ServeIfReady(ready: bool)
      requires Valid() && (stopped || sys.phase.Ready?)
      modifies this
      ensures Valid() && (stopped || sys.phase.Ready?)
      ensures ServeTurn(ready, old(Now()), Now())
    {
      if !stopped && pending != [] && inFlight.None? && ready {
        var result := ServicePendingCore0Response();
      }
    }

    method PublishNext(ready: bool, offered: Option<(Kind, bytes)>, owner: Option<CommandId>)
      requires Valid() && (stopped || sys.phase.Ready?)
      modifies this
      ensures Valid() && (stopped || sys.phase.Ready?)
      ensures PublishTurn(ready, offered, owner, old(Now()), Now())
    {
      if stopped || !ready {
        return;
      }
      if inFlight.None? {
        if offered.None? {
          return;
        }
        TakeOutbound(offered.value.0, offered.value.1);
      }
      var result := PublishInFlight(owner);
    }

    lemma {:induction false} SeenThroughExtends(r: Run, e: Event, x: Exchange, after: Run)
      requires SeenThrough(Then(r, e), x, after)
      ensures Extends(r, after)
    {
      var result :| Attempted(Then(r, e), x, result, after);
      AttemptExtends(Then(r, e), x, result, after);
      ExtendsThrough(r, Then(r, e), after);
    }

    lemma {:induction false} RebootTurnExtends(due: bool, p: Progress, q: Progress)
      requires RebootTurn(due, p, q)
      ensures Extends(p.run, q.run)
    {
      if p != q {
        var (made, x) := (serializer(p.serializations), socket(p.exchanges));
        SeenThroughExtends(p.run, AttemptReboot(made, x.written), x, q.run);
      }
    }

    lemma {:induction false} ServeTurnExtends(ready: bool, p: Progress, q: Progress)
      requires ServeTurn(ready, p, q)
      ensures Extends(p.run, q.run)
    {
      if p != q {
        var (made, x) := (serializer(p.serializations), socket(p.exchanges));
        SeenThroughExtends(p.run, Serve(made, x.written), x, q.run);
      }
    }

    lemma {:induction false} PublishTurnExtends(ready: bool, offered: Option<(Kind, bytes)>, owner: Option<CommandId>,
            p: Progress, q: Progress)
      requires PublishTurn(ready, offered, owner, p, q)
      ensures Extends(p.run, q.run)
    {
      if p != q {
        var (taken, x) := (Taken(offered, p.run), socket(p.exchanges));
        SeenThroughExtends(taken, SendEntry(x.written, owner), x, q.run);
        ExtendsThrough(p.run, taken, q.run);
      }
    }

    lemma {:induction false} InboundTurnsExtend(a: Agenda, p: Progress, q: Progress)
      requires InboundTurns(a, p, q)
      ensures Extends(p.run, q.run)
    {
      var p1: Progress, p2: Progress :|
        RebootTurn(a.dueFirst, p, p1) && PollTurn(a.polled, p1, p2) && RebootTurn(a.dueAgain, p2, q);
      RebootTurnExtends(a.dueFirst, p, p1);
      RebootTurnExtends(a.dueAgain, p2, q);
      ExtendsThrough(p.run, p1.run, p2.run);
      ExtendsThrough(p.run, p2.run, q.run);
    }

    lemma {:induction false} OutboundTurnsExtend(a: Agenda, p: Progress, q: Progress)
      requires OutboundTurns(a, p, q)
      ensures Extends(p.run, q.run)
    {
      var p1: Progress :| ServeTurn(a.readyToServe, p, p1) && PublishTurn(a.readyToPublish, a.offered, a.owner, p1, q);
      ServeTurnExtends(a.readyToServe, p, p1);
      PublishTurnExtends(a.readyToPublish, a.offered, a.owner, p1, q);
      ExtendsThrough(p.run, p1.run, q.run);
    }

    /** A pass continues the run it began with. */
    lemma {:induction false} PassExtends(a: Agenda, p: Progress, q: Progress)
      requires PassTurns(a, p, q)
      ensures Extends(p.run, q.run)
    {
      var p1: Progress :| InboundTurns(a, p, p1) && OutboundTurns(a, p1, q);
      InboundTurnsExtend(a, p, p1);
      OutboundTurnsExtend(a, p1, q);
      ExtendsThrough(p.run, p1.run, q.run);
    }

    lemma {:induction false} AttemptedAttempts(r: Run, x: Exchange, result: Published, after: Run)
      requires Attempted(r, x, result, after)
      ensures Extends(r, after) && Attempts(r, after) == []
    {
      ReceivesAttempts(r, x.inbound);
      if result.Escaped? {
        var k :| 0 <= k <= |x.inbound| && after == Receives(r, x.inbound[..k]);
        ReceivesAttempts(r, x.inbound[..k]);
      } else if after != r {
        ExtendsLonger(r, after.before);
      }
    }

    lemma {:induction false} SeenThroughAttempts(r: Run, e: Event, x: Exchange, after: Run)
      requires SeenThrough(Then(r, e), x, after)
      ensures Extends(r, after) && Attempts(r, after) == AttemptOf(e)
    {
      var result :| Attempted(Then(r, e), x, result, after);
      AttemptedAttempts(Then(r, e), x, result, after);
      AttemptsThrough(r, Then(r, e), after);
      assert Events(Then(r, e)) == Events(r) + 1;
      assert Attempts(r, Then(r, e)) == Attempts(r, r) + AttemptOf(e);
    }

    /** Messages received leave the entry in flight alone, and only add to what is pending. */
    lemma {:induction false} ReceivesKeep(r: Run, messages: seq<Inbound>)
      ensures var (s, t) := (After(envelope, r), After(envelope, Receives(r, messages)));
              t.inFlight == s.inFlight && |s.pending| <= |t.pending| && t.phase in {s.phase, Halted}
      decreases |messages|
    {
      if messages != [] {
        ReceivesKeep(r, messages[..|messages| - 1]);
        ReceivingAppends(After(envelope, Receives(r, messages[..|messages| - 1])), messages[|messages| - 1]);
      }
    }

    /** So does the end of an exchange that was about neither. */
    lemma {:induction false} EndKeeps(u: System, end: Event)
      requires end in {Acknowledged, Failed}
      ensures var t := Step(envelope, u, end);
              && (u.phase != AwaitingEntry ==> t.inFlight == u.inFlight)
              && (u.phase !in {AwaitingEntry, AwaitingResponse} ==> |u.pending| <= |t.pending|)
    {
    }

    lemma {:induction false} ExchangeKeeps(r: Run, x: Exchange, result: Published, after: Run, s: System, t: System)
      requires Attempted(r, x, result, after) && s == After(envelope, r) && t == After(envelope, after)
      ensures s.phase != AwaitingEntry ==> t.inFlight == s.inFlight
      ensures s.phase !in {AwaitingEntry, AwaitingResponse} ==> |s.pending| <= |t.pending|
    {
      if result.Escaped? {
        var k :| 0 <= k <= |x.inbound| && after == Receives(r, x.inbound[..k]);
        ReceivesKeep(r, x.inbound[..k]);
      } else if after != r {
        var u := After(envelope, after.before);
        ReceivesKeep(r, x.inbound);
        EndKeeps(u, after.event);
        assert t == Step(envelope, u, after.event);
      }
    }

    /** A turn may be taken after `r`, or none will be. */
    ghost predicate BetweenTurns(r: Run) { After(envelope, r).phase.Ready? || Stopped(r) }

    predicate RebootDue(s: System) { s.reboot.Some? && s.inFlight.None? && !s.reboot.value.substituteQueued }

    predicate ServeDue(s: System) { s.pending != [] && s.inFlight.None? }

    lemma {:induction false} RebootTurnAttempts(due: bool, p: Progress, q: Progress, s: System, t: System)
      requires RebootTurn(due, p, q) && BetweenTurns(p.run) && s == After(envelope, p.run) && t == After(envelope, q.run)
      ensures Extends(p.run, q.run) && BetweenTurns(q.run) && (Stopped(p.run) ==> q == p)
      ensures t.inFlight == s.inFlight && |s.pending| <= |t.pending|
      ensures Attempts(p.run, q.run) == if !Stopped(p.run) && due && RebootDue(s) then [Reboots] else []
    {
      if !Stopped(p.run) && due && RebootDue(s) {
        var (made, x) := (serializer(p.serializations), socket(p.exchanges));
        var e := AttemptReboot(made, x.written);
        SeenThroughAttempts(p.run, e, x, q.run);
        var result :| Attempted(Then(p.run, e), x, result, q.run);
        RebootingKeeps(envelope, s, made, x.written);
        ExchangeKeeps(Then(p.run, e), x, result, q.run, Rebooting(envelope, s, made, x.written), t);
      }
    }

    lemma {:induction false} PollTurnAttempts(polled: Option<Inbound>, p: Progress, q: Progress, s: System, t: System)
      requires PollTurn(polled, p, q) && BetweenTurns(p.run) && s == After(envelope, p.run) && t == After(envelope, q.run)
      ensures Extends(p.run, q.run) && BetweenTurns(q.run) && (Stopped(p.run) ==> q == p)
      ensures t.inFlight == s.inFlight && |s.pending| <= |t.pending|
      ensures Attempts(p.run, q.run) == []
    {
      if !Stopped(p.run) && polled.Some? {
        ReceivingAppends(s, polled.value);
        assert q.run.before == p.run && Events(q.run) == Events(p.run) + 1;
        assert Attempts(p.run, q.run) == Attempts(p.run, p.run) + AttemptOf(q.run.event);
      }
    }

    lemma {:induction false} ServeTurnAttempts(ready: bool, p: Progress, q: Progress, s: System, t: System)
      requires ServeTurn(ready, p, q) && BetweenTurns(p.run) && s == After(envelope, p.run) && t == After(envelope, q.run)
      ensures Extends(p.run, q.run) && BetweenTurns(q.run) && (Stopped(p.run) ==> q == p)
      ensures t.inFlight == s.inFlight
      ensures Attempts(p.run, q.run) == if !Stopped(p.run) && ready && ServeDue(s) then [Serves] else []
    {
      if !Stopped(p.run) && ready && ServeDue(s) {
        var (made, x) := (serializer(p.serializations), socket(p.exchanges));
        var e := Serve(made, x.written);
        SeenThroughAttempts(p.run, e, x, q.run);
        var result :| Attempted(Then(p.run, e), x, result, q.run);
        ServingKeeps(envelope, s, made, x.written);
        ExchangeKeeps(Then(p.run, e), x, result, q.run, Serving(envelope, s, made, x.written), t);
      }
    }

    lemma {:induction false} PublishTurnAttempts(a: Agenda, p: Progress, q: Progress, s: System)
      requires PublishTurn(a.readyToPublish, a.offered, a.owner, p, q) && BetweenTurns(p.run) && s == After(envelope, p.run)
      ensures Extends(p.run, q.run)
      ensures Attempts(p.run, q.run)
              == if Stopped(p.run) || !a.readyToPublish then []
                 else if s.inFlight.Some? then [Publishes] else if a.offered.Some? then [Takes, Publishes] else []
    {
      var taken := Taken(a.offered, p.run);
      if !Stopped(p.run) && a.readyToPublish && After(envelope, taken).inFlight.Some? {
        var x := socket(p.exchanges);
        SeenThroughAttempts(taken, SendEntry(x.written, a.owner), x, q.run);
        AttemptsThrough(p.run, taken, q.run);
        assert taken != p.run ==> Events(taken) == Events(p.run) + 1 && taken.before == p.run;
        assert Attempts(p.run, p.run) == [];
      }
    }

    /** What one pass starts from the state `s`, turn by turn; when it is not cut short, whatever was due
        from the beginning is started. */
    predicate Starts(a: Agenda, s: System, first: seq<Attempt>, second: seq<Attempt>, serves: seq<Attempt>,
                     publishes: seq<Attempt>, cut: bool)
    {
      && first == (if a.dueFirst && RebootDue(s) then [Reboots] else [])
      && (second == [] || (second == [Reboots] && a.dueAgain && s.inFlight.None?))
      && (serves == [] || (serves == [Serves] && a.readyToServe && s.inFlight.None?))
      && (a.readyToServe && ServeDue(s) && !cut ==> serves == [Serves])
      && (publishes == [] || publishes == (if s.inFlight.Some? then [Publishes] else [Takes, Publishes]))
      && (publishes != [] ==> a.readyToPublish && (s.inFlight.Some? || a.offered.Some?))
      && (a.readyToPublish && (s.inFlight.Some? || a.offered.Some?) && !cut ==> publishes != [])
    }

    ghost predicate InTurn(a: Agenda, s: System, done: seq<Attempt>, cut: bool) {
      exists first, second, serves, publishes ::
        Starts(a, s, first, second, serves, publishes, cut) && done == first + second + (serves + publishes)
    }

    lemma {:induction false} AttemptsThroughBoth(p: Run, p1: Run, p2: Run, q: Run)
      requires Extends(p, p1) && Extends(p1, p2) && Extends(p2, q) && Attempts(p1, p2) == []
      ensures Extends(p, q) && Attempts(p, q) == Attempts(p, p1) + Attempts(p2, q)
    {
      AttemptsThrough(p, p1, p2);
      AttemptsThrough(p, p2, q);
    }

    lemma {:induction false} InboundInTurn(a: Agenda, p: Progress, q: Progress, s: System, t: System)
      returns (first: seq<Attempt>, second: seq<Attempt>)
      requires InboundTurns(a, p, q) && BetweenTurns(p.run) && s == After(envelope, p.run) && t == After(envelope, q.run)
      ensures Extends(p.run, q.run) && BetweenTurns(q.run) && (Stopped(p.run) ==> q == p)
      ensures t.inFlight == s.inFlight && |s.pending| <= |t.pending|
      ensures Attempts(p.run, q.run) == first + second
      ensures first == if !Stopped(p.run) && a.dueFirst && RebootDue(s) then [Reboots] else []
      ensures second == [] || (second == [Reboots] && a.dueAgain && s.inFlight.None?)
    {
      var p1: Progress, p2: Progress :|
        RebootTurn(a.dueFirst, p, p1) && PollTurn(a.polled, p1, p2) && RebootTurn(a.dueAgain, p2, q);
      var (s1, s2) := (After(envelope, p1.run), After(envelope, p2.run));
      RebootTurnAttempts(a.dueFirst, p, p1, s, s1);
      PollTurnAttempts(a.polled, p1, p2, s1, s2);
      RebootTurnAttempts(a.dueAgain, p2, q, s2, t);
      AttemptsThroughBoth(p.run, p1.run, p2.run, q.run);
      first, second := Attempts(p.run, p1.run), Attempts(p2.run, q.run);
    }

    lemma {:induction false} OutboundInTurn(a: Agenda, p: Progress, q: Progress, s: System)
      returns (serves: seq<Attempt>, publishes: seq<Attempt>)
      requires OutboundTurns(a, p, q) && BetweenTurns(p.run) && s == After(envelope, p.run)
      ensures Extends(p.run, q.run) && (Stopped(p.run) ==> Stopped(q.run))
      ensures Attempts(p.run, q.run) == serves + publishes
      ensures serves == if !Stopped(p.run) && a.readyToServe && ServeDue(s) then [Serves] else []
      ensures publishes == [] || publishes == (if s.inFlight.Some? then [Publishes] else [Takes, Publishes])
      ensures publishes == [] <== !a.readyToPublish || (s.inFlight.None? && a.offered.None?)
      ensures publishes == [] ==> Stopped(q.run) || !a.readyToPublish || (s.inFlight.None? && a.offered.None?)
    {
      var p1: Progress :| ServeTurn(a.readyToServe, p, p1) && PublishTurn(a.readyToPublish, a.offered, a.owner, p1, q);
      var s1 := After(envelope, p1.run);
      ServeTurnAttempts(a.readyToServe, p, p1, s, s1);
      PublishTurnAttempts(a, p1, q, s1);
      AttemptsThrough(p.run, p1.run, q.run);
      serves, publishes := Attempts(p.run, p1.run), Attempts(p1.run, q.run);
    }

    lemma {:induction false} PassStarts(a: Agenda, p: Progress, q: Progress, s: System)
      returns (first: seq<Attempt>, second: seq<Attempt>, serves: seq<Attempt>, publishes: seq<Attempt>)
      requires PassTurns(a, p, q) && s == After(envelope, p.run) && s.phase.Ready?
      ensures Extends(p.run, q.run) && Attempts(p.run, q.run) == first + second + (serves + publishes)
      ensures Starts(a, s, first, second, serves, publishes, Stopped(q.run))
    {
      var p1: Progress :| InboundTurns(a, p, p1) && OutboundTurns(a, p1, q);
      first, second := InboundInTurn(a, p, p1, s, After(envelope, p1.run));
      serves, publishes := OutboundInTurn(a, p1, q, After(envelope, p1.run));
      AttemptsThrough(p.run, p1.run, q.run);
    }

    /** One pass starts each thing at most once, a reboot at most once around the poll; reboots first,
        then the oldest response, then one entry; nothing but the entry while one is in flight. */
    lemma {:induction false} PassInTurn(a: Agenda, p: Progress, q: Progress, s: System)
      requires PassTurns(a, p, q) && s == After(envelope, p.run) && s.phase.Ready?
      ensures Extends(p.run, q.run) && InTurn(a, s, Attempts(p.run, q.run), Stopped(q.run))
    {
      var first, second, serves, publishes := PassStarts(a, p, q, s);
    }

    method PassInbound(a: Agenda)
      requires Valid() && sys.phase.Ready?
      modifies this
      ensures Valid() && (stopped || sys.phase.Ready?)
      ensures InboundTurns(a, old(Now()), Now())
    {
      RebootIfDue(a.dueFirst);
      ghost var p1 := Now();
      Poll(a.polled);
      ghost var p2 := Now();
      RebootIfDue(a.dueAgain);
      assert RebootTurn(a.dueFirst, old(Now()), p1) && PollTurn(a.polled, p1, p2);
    }

    method PassOutbound(a: Agenda)
      requires Valid() && (stopped || sys.phase.Ready?)
      modifies this
      ensures Valid() && (stopped || sys.phase.Ready?)
      ensures OutboundTurns(a, old(Now()), Now())
    {
      ServeIfReady(a.readyToServe);
      ghost var p1 := Now();
      PublishNext(a.readyToPublish, a.offered, a.owner);
      assert ServeTurn(a.readyToServe, old(Now()), p1);
    }

    /** One pass of `run`: each turn is taken when it is due, from the state the turn before it left,
        until the board resets or an exception escapes. */
    method Pass(a: Agenda)
      requires Valid() && sys.phase.Ready?
      modifies this
      ensures Valid() && (stopped || sys.phase.Ready?)
      ensures PassTurns(a, old(Now()), Now()) && Extends(old(run), run)
      ensures InTurn(a, old(sys), Attempts(old(run), run), stopped)
    {
      PassInbound(a);
      ghost var p1 := Now();
      PassOutbound(a);
      assert InboundTurns(a, old(Now()), p1);
      PassExtends(a, old(Now()), Now());
      PassInTurn(a, old(Now()), Now(), old(sys));
    }
  }
}
