/** Commands, answers and the reboot: what every run of Core 0 keeps. */
module Core0Commands {
  import opened Common
  import opened Core0State
  import opened Core0Identity

  // ---------------------------------------------------------------------------------------
  // Debounce
  // ---------------------------------------------------------------------------------------

  function Last(ids: seq<CommandId>, n: nat): seq<CommandId> {
    if |ids| <= n then ids else ids[|ids| - n..]
  }

  /** The debounce list is the last ids accepted, and no id is accepted again within it. */
  predicate Debounced(s: System) {
    && s.recent == Last(s.history.accepted, RECENT_CAPACITY)
    && (forall i, j :: 0 <= i < j < |s.history.accepted| && j - i <= RECENT_CAPACITY ==>
          s.history.accepted[i] != s.history.accepted[j])
  }

  lemma {:induction false} RememberingDebounces(s: System, id: CommandId)
    requires Debounced(s) && id !in s.recent
    ensures Debounced(Remembering(s, id))
  {
  }

  // ---------------------------------------------------------------------------------------
  // Answers
  // ---------------------------------------------------------------------------------------

  function CommandsOf(pending: seq<Response>): seq<CommandId> {
    seq(|pending|, i requires 0 <= i < |pending| => pending[i].command)
  }

  /** There is always room for the response an accepted command needs; every response owed has been
      acknowledged or still waits, in order; every accepted command has met exactly one end. */
  predicate Answering(s: System) {
    && |s.pending| <= MAX_PENDING_RESPONSES
    && s.history.owed == s.history.answered + CommandsOf(s.pending)
    && |s.history.dispositions| <= |s.history.accepted| <= |s.history.dispositions| + 1
    && (!s.phase.Halted? ==> |s.history.dispositions| == |s.history.accepted|)
  }

  lemma {:induction false} QueueingAnswers(s: System, command: CommandId, answer: Answer, clearsReboot: bool)
    requires s.history.owed == s.history.answered + CommandsOf(s.pending)
    ensures var t := Queueing(s, command, answer, clearsReboot);
            t.history.owed == t.history.answered + CommandsOf(t.pending)
  {
  }

  lemma {:induction false} HeadAnswers(pending: seq<Response>, c: Response)
    requires pending != [] && c.command == pending[0].command
    ensures CommandsOf(pending[0 := c]) == CommandsOf(pending)
    ensures CommandsOf(pending) == [c.command] + CommandsOf(pending[1..])
  {
  }

  // ---------------------------------------------------------------------------------------
  // The reboot
  // ---------------------------------------------------------------------------------------

  predicate ClearsOnce(pending: seq<Response>) {
    && (forall i :: 0 <= i < |pending| && pending[i].clearsReboot ==>
          pending[i].answer.Error? && pending[i].answer.code.Substitute?)
    && (forall i, j :: 0 <= i < j < |pending| ==> !(pending[i].clearsReboot && pending[j].clearsReboot))
  }

  predicate Clears(pending: seq<Response>) {
    exists i :: 0 <= i < |pending| && pending[i].clearsReboot
  }

  /** A pending reboot has exactly one substitute answer waiting if its answer was queued, and none
      otherwise. */
  predicate RebootKept(pending: seq<Response>, reboot: Option<RebootRequest>) {
    && ClearsOnce(pending)
    && (Clears(pending) <==> reboot.Some? && reboot.value.substituteQueued)
    && (reboot.Some? ==> reboot.value.ack.answer.Success?)
  }

  lemma {:induction false} QueuedClears(pending: seq<Response>, c: Response)
    requires ClearsOnce(pending) && (c.clearsReboot ==> !Clears(pending) && c.answer.Error? && c.answer.code.Substitute?)
    ensures ClearsOnce(pending + [c])
    ensures Clears(pending + [c]) <==> Clears(pending) || c.clearsReboot
  {
    var q := pending + [c];
    if Clears(pending) {
      var i :| 0 <= i < |pending| && pending[i].clearsReboot;
      assert q[i].clearsReboot;
    }
    if c.clearsReboot {
      assert q[|pending|].clearsReboot;
    }
  }

  lemma {:induction false} HeadClears(pending: seq<Response>, c: Response)
    requires pending != [] && ClearsOnce(pending)
    requires c.clearsReboot == pending[0].clearsReboot && (c.clearsReboot ==> c.answer == pending[0].answer)
    ensures ClearsOnce(pending[0 := c]) && (Clears(pending[0 := c]) <==> Clears(pending))
  {
    if Clears(pending) {
      var i :| 0 <= i < |pending| && pending[i].clearsReboot;
      assert pending[0 := c][i].clearsReboot;
    }
  }

  lemma {:induction false} RestClears(pending: seq<Response>)
    requires pending != [] && ClearsOnce(pending)
    ensures ClearsOnce(pending[1..])
    ensures Clears(pending[1..]) <==> Clears(pending) && !pending[0].clearsReboot
  {
  }

  predicate OnTheWire(env: Envelope, w: Wire, c: Response) {
    && c.sequence.Some? && c.frozen.Some? && FrameOf(env, OfResponse(c)) in w.frames
  }

  /** What a PUBACK is awaited for has been sent. */
  predicate Awaited(env: Envelope, s: System) {
    match s.phase
    case AwaitingResponse => s.pending != [] && OnTheWire(env, s.wire, s.pending[0])
    case AwaitingReboot =>
      s.reboot.Some? && !s.reboot.value.substituteQueued && OnTheWire(env, s.wire, s.reboot.value.ack)
    case AwaitingEntry => s.inFlight.Some?
    case _ => true
  }

  // ---------------------------------------------------------------------------------------
  // Every step
  // ---------------------------------------------------------------------------------------

  predicate Sound(env: Envelope, s: System) {
    Debounced(s) && Answering(s) && RebootKept(s.pending, s.reboot) && Awaited(env, s)
  }

  lemma {:induction false} QueueingSound(env: Envelope, s: System, command: CommandId, answer: Answer)
    requires Sound(env, s)
    ensures Sound(env, Queueing(s, command, answer, false))
  {
    if |s.pending| < MAX_PENDING_RESPONSES {
      var t := Queueing(s, command, answer, false);
      QueueingAnswers(s, command, answer, false);
      QueuedClears(s.pending, t.pending[|s.pending|]);
    }
  }

  lemma {:induction false} ServedSound(env: Envelope, s: System, marked: Response, verdict: Verdict, written: bool)
    requires Sound(env, s) && s.pending != [] && s.phase.Ready? && MarksOf(env, s, s.pending[0], marked, verdict)
    ensures Sound(env, Served(s, marked, verdict, written))
  {
    var t := Served(s, marked, verdict, written);
    HeadAnswers(s.pending, t.pending[0]);
    HeadClears(s.pending, t.pending[0]);
    assert t.pending == s.pending[0 := t.pending[0]];
    if t.phase == AwaitingResponse {
      assert t.wire.frames[|t.wire.frames| - 1] == FrameOf(env, OfResponse(marked));
    }
  }

  lemma {:induction false} RebootAttemptedSound(env: Envelope, s: System, marked: Response, verdict: Verdict,
          written: bool)
    requires Sound(env, s) && s.reboot.Some? && !s.reboot.value.substituteQueued && s.phase.Ready?
    requires MarksOf(env, s, s.reboot.value.ack, marked, verdict)
    ensures Sound(env, RebootAttempted(s, marked, verdict, written))
  {
    var t := RebootAttempted(s, marked, verdict, written);
    if |t.pending| > |s.pending| {
      QueueingAnswers(s, s.reboot.value.ack.command, t.pending[|s.pending|].answer, true);
      QueuedClears(s.pending, t.pending[|s.pending|]);
    } else if t.phase == AwaitingReboot {
      assert t.wire.frames[|t.wire.frames| - 1] == FrameOf(env, OfResponse(marked));
    }
  }

  lemma {:induction false} EntryAttemptedSound(env: Envelope, s: System, verdict: Verdict, written: bool,
          owner: Option<CommandId>)
    requires Sound(env, s) && s.inFlight.Some? && s.phase.Ready?
    ensures Sound(env, EntryAttempted(s, s.inFlight.value, verdict, written, owner))
  {
    var e := s.inFlight.value;
    if !verdict.Goes? && owner.Some? {
      var u := Claiming(s, e.id, e.sequence).(inFlight := None);
      assert Sound(env, u);
      QueueingSound(env, u, owner.value, Error(Substitute(ResponseTooLarge)));
    }
  }

  lemma {:induction false} ReactingSound(env: Envelope, s: System, id: CommandId, r: Reaction)
    requires Debounced(s) && RebootKept(s.pending, s.reboot) && Awaited(env, s) && |s.pending| < MAX_PENDING_RESPONSES
    requires s.history.owed == s.history.answered + CommandsOf(s.pending)
    requires |s.history.accepted| == |s.history.dispositions| + 1
    requires r.HoldReboot? ==> s.reboot.None?
    ensures Sound(env, Reacting(s, id, r))
  {
    match r
    case Respond(answer) =>
      var t := Queueing(s, id, answer, false);
      QueueingAnswers(s, id, answer, false);
      QueuedClears(s.pending, t.pending[|s.pending|]);
    case _ =>
  }

  lemma {:induction false} ReceivingSound(env: Envelope, s: System, m: Inbound)
    requires Sound(env, s) && !s.phase.Halted?
    ensures Sound(env, Receiving(s, m))
  {
    if m.Command? && m.id.Some? && m.id.value !in s.recent && |s.pending| < MAX_PENDING_RESPONSES {
      RememberingDebounces(s, m.id.value);
      ReactingSound(env, Remembering(s, m.id.value), m.id.value, ReactionTo(m, s.reboot.Some?));
    }
  }

  lemma {:induction false} AcknowledgingSound(env: Envelope, s: System)
    requires Sound(env, s)
    ensures Sound(env, Acknowledging(s))
  {
    if s.phase == AwaitingResponse {
      HeadAnswers(s.pending, s.pending[0]);
      RestClears(s.pending);
    }
  }

  lemma {:induction false} StepSound(env: Envelope, s: System, e: Event)
    requires Sound(env, s)
    ensures Sound(env, Step(env, s, e))
  {
    match e
    case Receive(m) => if !s.phase.Halted? { ReceivingSound(env, s, m); }
    case Serve(made, written) =>
      if s.pending != [] && s.phase.Ready? {
        MarksAreThose(env, s, s.pending[0], made);
        ServedSound(env, s, Marked(s, s.pending[0], made), Judged(env, s, s.pending[0], made), written);
      }
    case AttemptReboot(made, written) =>
      if s.reboot.Some? && !s.reboot.value.substituteQueued && s.phase.Ready? {
        var c := s.reboot.value.ack;
        MarksAreThose(env, s, c, made);
        RebootAttemptedSound(env, s, Marked(s, c, made), Judged(env, s, c, made), written);
      }
    case TakeEntry(kind, payload) =>
    case SendEntry(written, owner) =>
      if s.inFlight.Some? && s.phase.Ready? {
        var e := s.inFlight.value;
        EntryAttemptedSound(env, s, Checking(env, e.payload, SequenceOf(s, e.sequence)), written, owner);
      }
    case Acknowledged => AcknowledgingSound(env, s);
    case Failed =>
  }

  /** Every run keeps the debounce, the answers owed and the reboot's one answer. */
  lemma {:induction false} CommandsAreAnswered(env: Envelope, r: Run)
    ensures Sound(env, After(env, r))
  {
    if r.Then? {
      CommandsAreAnswered(env, r.before);
      StepSound(env, After(env, r.before), r.event);
    } else {
      assert CommandsOf([]) == [];
    }
  }

  // ---------------------------------------------------------------------------------------
  // What that means, event by event
  // ---------------------------------------------------------------------------------------

  /** The envelope, the name and the payload pass every check that does not depend on which command
      it is. */
  predicate WellFormed(m: Inbound)
    requires m.Command?
  {
    !m.unknownFields && !m.name.NotAName? && !m.name.OverLong? && m.payload.Object?
  }

  /** A well-formed `name` whose payload is exactly {}. */
  predicate Plain(m: Inbound, name: Name)
    requires m.Command?
  {
    WellFormed(m) && m.name == name && m.payload == Object(false, NoConfig)
  }

  /** A well-formed write-config to this device alone whose payload is exactly {"config": ...}. */
  predicate Writes(m: Inbound, candidate: Candidate)
    requires m.Command?
  {
    WellFormed(m) && m.name == WriteConfig && !m.target.Broadcast? && m.payload == Object(false, candidate)
  }

  /** The configuration manager is called for `m` and does `outcome`. */
  predicate ManagerDoes(m: Inbound, outcome: Outcome)
    requires m.Command?
  {
    (Plain(m, ReadConfig) && m.read == outcome) || Writes(m, Given(outcome))
  }

  /** When an accepted command is answered with `code`. */
  predicate Earns(m: Inbound, rebootPending: bool, code: Code)
    requires m.Command?
  {
    match code
    case InvalidCommand => !m.unknownFields && (m.name.NotAName? || (m.name.OverLong? && !m.payload.NoPayload?))
    case InvalidPayload =>
      && !m.unknownFields && !m.name.NotAName?
      && (m.payload.NoPayload? || (m.payload.NotAnObject? && !m.name.OverLong?))
    case UnsupportedCommand => WellFormed(m) && m.name.Unregistered?
    case UnknownFields =>
      || m.unknownFields
      || (WellFormed(m) && m.name in {Reboot, GetDetails, ReadConfig} && m.payload != Object(false, NoConfig))
      || (WellFormed(m) && m.name == WriteConfig && !m.target.Broadcast? && m.payload.otherKeys)
    case RebootAlreadyPending => Plain(m, Reboot) && rebootPending
    case EventQueuePressure => Plain(m, GetDetails) && !m.eventAdmitted
    case ConfigUnavailable => Plain(m, ReadConfig) && m.read.RaisesConfigError?
    case MissingKey => Writes(m, NoConfig)
    case InvalidValue => Writes(m, NotADict)
    case ConfigRejected => Writes(m, Given(RaisesConfigError))
    case Substitute(_) => false
  }

  /** The answer of an accepted command, told from its fields. */
  ghost predicate AnswerFits(m: Inbound, rebootPending: bool, answer: Answer)
    requires m.Command?
  {
    && (answer.Success? <==> ManagerDoes(m, Succeeds))
    && (forall code :: answer == Error(code) <==> Earns(m, rebootPending, code))
  }

  /** The way an accepted command ends, told from its fields; None when an exception escapes. */
  ghost predicate EndFits(m: Inbound, rebootPending: bool, end: Option<Disposition>)
    requires m.Command?
  {
    && (end.None? <==> ManagerDoes(m, Escapes))
    && (end == Some(RebootHeld) <==> Plain(m, Reboot) && !rebootPending)
    && (end == Some(Forwarded) <==> Plain(m, GetDetails) && m.eventAdmitted)
    && (end == Some(Ignored) <==> WellFormed(m) && m.name == WriteConfig && m.target.Broadcast?)
  }

  /** What each end leaves behind. */
  ghost predicate EndedIn(s: System, t: System, m: Inbound, end: Disposition)
    requires m.Command? && m.id.Some?
  {
    match end
    case Answered =>
      && |t.pending| == |s.pending| + 1 && t.pending[..|s.pending|] == s.pending && t.reboot == s.reboot
      && var c := t.pending[|s.pending|];
      && c == Response(s.wire.created, m.id.value, c.answer, None, None, false)
      && AnswerFits(m, s.reboot.Some?, c.answer)
    case RebootHeld =>
      && t.pending == s.pending
      && t.reboot == Some(RebootRequest(Response(s.wire.created, m.id.value, Success, None, None, false), false))
    case _ => t.pending == s.pending && t.reboot == s.reboot
  }

  /** Every command addressed here, with a bounded id not recently seen and a response slot free, is
      accepted, and then ends in exactly one way, which its fields decide; nothing else changes
      anything. */
  ghost predicate OneEnd(s: System, t: System, m: Inbound) {
    if m.NotACommand? || m.target.Foreign? || m.id.None? || m.id.value in s.recent
       || |s.pending| >= MAX_PENDING_RESPONSES then t == s
    else
      && t.history.accepted == s.history.accepted + [m.id.value]
      && (if t.phase.Halted? then
            EndFits(m, s.reboot.Some?, None) && t.pending == s.pending && t.reboot == s.reboot
          else
            && |t.history.dispositions| == |s.history.dispositions| + 1
            && var end := t.history.dispositions[|s.history.dispositions|];
            && EndFits(m, s.reboot.Some?, Some(end)) && EndedIn(s, t, m, end))
  }

  ghost predicate ReactionFits(m: Inbound, rebootPending: bool, r: Reaction)
    requires m.Command?
  {
    match r
    case Respond(answer) => EndFits(m, rebootPending, Some(Answered)) && AnswerFits(m, rebootPending, answer)
    case HoldReboot => EndFits(m, rebootPending, Some(RebootHeld))
    case Forward => EndFits(m, rebootPending, Some(Forwarded))
    case Ignore => EndFits(m, rebootPending, Some(Ignored))
    case Break => EndFits(m, rebootPending, None)
  }

  lemma {:induction false} ManagerReactionFits(m: Inbound, rebootPending: bool, outcome: Outcome, code: Code)
    requires m.Command? && ManagerDoes(m, outcome)
    requires code == if m.name == ReadConfig then ConfigUnavailable else ConfigRejected
    ensures ReactionFits(m, rebootPending, FromManager(outcome, code))
  {
  }

  lemma {:induction false} ReactionsFit(m: Inbound, rebootPending: bool)
    requires m.Command? && !m.target.Foreign?
    ensures ReactionFits(m, rebootPending, ReactionTo(m, rebootPending))
  {
    if Plain(m, ReadConfig) {
      ManagerReactionFits(m, rebootPending, m.read, ConfigUnavailable);
    } else if WellFormed(m) && m.payload.candidate.Given? && Writes(m, m.payload.candidate) {
      ManagerReactionFits(m, rebootPending, m.payload.candidate.result, ConfigRejected);
    }
  }

  lemma {:induction false} ReactingEndsOnce(s: System, id: CommandId, r: Reaction)
    requires |s.pending| < MAX_PENDING_RESPONSES
    ensures var t := Reacting(s, id, r);
            match r
            case Respond(answer) =>
              && t.history.dispositions == s.history.dispositions + [Answered] && t.reboot == s.reboot
              && t.pending == s.pending + [Response(s.wire.created, id, answer, None, None, false)]
            case HoldReboot =>
              && t.history.dispositions == s.history.dispositions + [RebootHeld] && t.pending == s.pending
              && t.reboot == Some(RebootRequest(Response(s.wire.created, id, Success, None, None, false), false))
            case Forward =>
              t.history.dispositions == s.history.dispositions + [Forwarded] && t.pending == s.pending && t.reboot == s.reboot
            case Ignore =>
              t.history.dispositions == s.history.dispositions + [Ignored] && t.pending == s.pending && t.reboot == s.reboot
            case Break => t == s.(phase := Halted)
    ensures Reacting(s, id, r).history.accepted == s.history.accepted
    ensures Reacting(s, id, r).phase == (if r.Break? then Halted else s.phase)
  {
  }

  lemma {:induction false} ReceivingEndsOnce(s: System, m: Inbound)
    requires !s.phase.Halted?
    ensures OneEnd(s, Receiving(s, m), m)
  {
    if m.Command? && !m.target.Foreign? && m.id.Some? && m.id.value !in s.recent && |s.pending| < MAX_PENDING_RESPONSES {
      var reaction := ReactionTo(m, s.reboot.Some?);
      ReactionsFit(m, s.reboot.Some?);
      ReactingEndsOnce(Remembering(s, m.id.value), m.id.value, reaction);
    }
  }

  lemma {:induction false} EveryCommandEndsOnce(env: Envelope, r: Run, m: Inbound)
    requires After(env, r).phase.Ready? || Awaiting(After(env, r).phase)
    ensures OneEnd(After(env, r), After(env, Then(r, Receive(m))), m)
  {
    ReceivingEndsOnce(After(env, r), m);
  }

  lemma {:induction false} StepReset(env: Envelope, s: System, e: Event)
    requires !s.phase.HasReset? && Step(env, s, e).phase.HasReset?
    ensures e.Acknowledged? && s.phase.AwaitingReboot?
  {
  }

  /** The board resets only once the PUBACK of the success acknowledgement has arrived. */
  lemma {:induction false} ResetOnlyOnceAcknowledged(env: Envelope, r: Run, e: Event)
    requires !After(env, r).phase.HasReset? && After(env, Then(r, e)).phase.HasReset?
    ensures var s := After(env, r);
            && e.Acknowledged? && s.phase.AwaitingReboot? && s.reboot.Some?
            && s.reboot.value.ack.answer.Success? && OnTheWire(env, s.wire, s.reboot.value.ack)
  {
    CommandsAreAnswered(env, r);
    StepReset(env, After(env, r), e);
  }

  lemma {:induction false} StepReleases(env: Envelope, s: System, e: Event)
    requires s.reboot.Some? && Step(env, s, e).reboot.None?
    ensures e.Acknowledged?
    ensures s.phase.AwaitingReboot? || (s.phase.AwaitingResponse? && s.pending != [] && s.pending[0].clearsReboot)
  {
  }

  /** A held reboot is released only by the PUBACK of its acknowledgement or of its one substitute. */
  lemma {:induction false} ReleasedOnlyByPublishing(env: Envelope, r: Run, e: Event)
    requires After(env, r).reboot.Some? && After(env, Then(r, e)).reboot.None?
    ensures var s := After(env, r);
            && e.Acknowledged?
            && ((s.phase.AwaitingReboot? && OnTheWire(env, s.wire, s.reboot.value.ack))
                || (s.phase.AwaitingResponse? && s.reboot.value.substituteQueued
                    && s.pending[0].clearsReboot && s.pending[0].answer.Error?
                    && OnTheWire(env, s.wire, s.pending[0])))
  {
    CommandsAreAnswered(env, r);
    var s := After(env, r);
    StepReleases(env, s, e);
    if s.phase.AwaitingResponse? {
      assert Clears(s.pending);
    }
  }

  /** A command response taken from the outbound queue that can never fit is answered with a
      substitute exactly when a response slot is free: nothing reserves one for it. */
  lemma {:induction false} DiscardIsAnsweredExactlyWithRoom(env: Envelope, s: System, written: bool, owner: CommandId)
    requires s.phase.Ready? && s.inFlight.Some? && s.inFlight.value.kind.CommandResponse?
    requires Checking(env, s.inFlight.value.payload, SequenceOf(s, s.inFlight.value.sequence)).Cannot?
    ensures var t := Step(env, s, SendEntry(written, Some(owner)));
            && t.inFlight.None?
            && (|s.pending| < MAX_PENDING_RESPONSES <==> t.history.owed == s.history.owed + [owner])
            && (|s.pending| >= MAX_PENDING_RESPONSES ==> t.pending == s.pending && t.history == s.history)
  {
  }

  lemma {:induction false} Filled(env: Envelope, k: nat) returns (r: Run)
    requires k <= MAX_PENDING_RESPONSES
    ensures var s := After(env, r);
            && s.phase.Ready? && |s.pending| == k && s.inFlight.None?
            && (forall id :: id in s.recent ==> |id| <= k)
  {
    if k == 0 {
      r := Boot;
    } else {
      var before := Filled(env, k - 1);
      var m := Command(Addressed, Some(seq(k, _ => 'c')), false, NotAName, NoPayload, false, Succeeds);
      r := Then(before, Receive(m));
      assert After(env, r) == Receiving(After(env, before), m);
      assert ReactionTo(m, After(env, before).reboot.Some?) == Respond(Error(InvalidCommand));
    }
  }

  /** So the answer to a discarded response can be lost: with four responses waiting, that to any body
      which fills the ceiling by itself is. */
  lemma {:induction false} DiscardedAnswerCanBeLost(env: Envelope, body: bytes, owner: CommandId)
    requires |body| == MAX_OUTBOUND_MESSAGE_BYTES && body[|body| - 1] == 125
    ensures exists r: Run ::
              var s, t := After(env, r), After(env, Then(r, SendEntry(true, Some(owner))));
              && s.inFlight.Some? && s.inFlight.value.kind.CommandResponse? && s.inFlight.value.payload == body
              && t.inFlight.None? && t.pending == s.pending && t.wire.frames == s.wire.frames
  {
    var full := Filled(env, MAX_PENDING_RESPONSES);
    var r := Then(full, TakeEntry(CommandResponse, body));
    var s := After(env, r);
    assert s == TakingEntry(After(env, full), CommandResponse, body);
    assert Checking(env, body, SequenceOf(s, None)).Cannot?;
    DiscardIsAnsweredExactlyWithRoom(env, s, true, owner);
    var t := After(env, Then(r, SendEntry(true, Some(owner))));
    assert t == SendingEntry(env, s, true, Some(owner));
  }

  // ---------------------------------------------------------------------------------------
  // What an attempt does
  // ---------------------------------------------------------------------------------------

  /** A serialized JSON object. */
  predicate AnObject(body: bytes) { body != [] && body[|body| - 1] == 125 }

  predicate FitsWith(env: Envelope, body: bytes, sequence: nat) {
    |body| + |env(sequence)| + 1 <= MAX_OUTBOUND_MESSAGE_BYTES
  }

  /** What goes out for a body: the object with the envelope members behind its own. */
  function OnWire(env: Envelope, body: bytes, sequence: nat): bytes
    requires body != []
  {
    body[..|body| - 1] + [0x2C] + env(sequence) + [0x7D]
  }

  /** The bytes an attempt on `c` works with: those frozen, or else those just serialized. */
  function BodyOf(c: Response, made: Serialized): Option<bytes> {
    if c.frozen.Some? then c.frozen else if made.Bytes? then Some(made.body) else None
  }

  /** Why an attempt on `c` can never succeed. */
  predicate Hopeless(env: Envelope, c: Response, sequence: nat, made: Serialized, cause: Cause) {
    var body := BodyOf(c, made);
    match cause
    case ResponseTooLarge =>
      (body.None? && made.TooBig?) || (body.Some? && AnObject(body.value) && !FitsWith(env, body.value, sequence))
    case ResponseInvalid => body.None? && made.NotSerializable?
  }

  /** The sequence a container publishes under: its own, or else the next. */
  function SequenceIn(s: System, sequence: Option<nat>): nat {
    if sequence.Some? then sequence.value else s.nextSequence
  }

  /** An attempt on `c` raises what nothing here handles. */
  predicate Breaking(c: Response, made: Serialized) {
    var body := BodyOf(c, made);
    if body.Some? then !AnObject(body.value) else made.NoMemory?
  }

  /** An attempt on `c` finds an object that fits with its envelope. */
  predicate CanGo(env: Envelope, s: System, c: Response, made: Serialized) {
    var body := BodyOf(c, made);
    body.Some? && AnObject(body.value) && FitsWith(env, body.value, SequenceIn(s, c.sequence))
  }

  /** A response goes out exactly when its bytes are an object that fits with its envelope, and can
      never go out for one of two causes. */
  lemma {:induction false} JudgedExactly(env: Envelope, s: System, c: Response, made: Serialized)
    ensures var (v, sequence) := (Judged(env, s, c, made), SequenceIn(s, c.sequence));
            && (v.Goes? <==> CanGo(env, s, c, made))
            && (v.Goes? ==> v.payload == OnWire(env, BodyOf(c, made).value, sequence))
            && (forall cause :: v == Cannot(cause) <==> Hopeless(env, c, sequence, made, cause))
  {
  }

  function WithMarks(s: System, c: Response, made: Serialized): Response {
    c.(sequence := Some(SequenceIn(s, c.sequence)), frozen := BodyOf(c, made))
  }

  /** From `s` to `t` the one frame of `c` goes out and its PUBACK is awaited, if the write does. */
  predicate Sends(env: Envelope, s: System, t: System, c: Response, made: Serialized, written: bool, awaiting: Phase)
    requires CanGo(env, s, c, made)
  {
    var (sequence, body) := (SequenceIn(s, c.sequence), BodyOf(c, made).value);
    && t.phase == (if written then awaiting else Ready)
    && t.wire.frames
       == s.wire.frames + (if written then [Frame(sequence, c.id, CommandResponse, OnWire(env, body, sequence))] else [])
  }

  predicate IsSubstitute(c: Response) { c.answer.Error? && c.answer.code.Substitute? }

  lemma {:induction false} ServedAs(env: Envelope, s: System, made: Serialized, written: bool, v: Verdict)
    requires s.phase.Ready? && s.inFlight.None? && s.pending != [] && v == Judged(env, s, s.pending[0], made)
    ensures var (t, c) := (Step(env, s, Serve(made, written)), s.pending[0]);
            && t.reboot == s.reboot && |t.pending| == |s.pending| && t.pending[1..] == s.pending[1..]
            && t.pending[0] == (if v.Cannot? && !IsSubstitute(c) then
                                  Response(s.wire.created, c.command, Error(Substitute(v.cause)), None, None, false)
                                else WithMarks(s, c, made))
            && t.phase == (if v.Breaks? then Halted else if v.Goes? && written then AwaitingResponse else Ready)
            && t.wire.frames
               == s.wire.frames + (if v.Goes? && written then
                                     [Frame(SequenceIn(s, c.sequence), c.id, CommandResponse, v.payload)] else [])
  {
  }

  /** One serving of the oldest response: its frame goes out if it can and the write does; one that can
      never go out is replaced by a substitute naming the cause, unless it is a substitute itself;
      anything else escapes. */
  lemma {:induction false} ServedExactly(env: Envelope, s: System, made: Serialized, written: bool)
    requires s.phase.Ready? && s.inFlight.None? && s.pending != []
    ensures var (t, c) := (Step(env, s, Serve(made, written)), s.pending[0]);
            && t.reboot == s.reboot && |t.pending| == |s.pending| && t.pending[1..] == s.pending[1..]
            && (CanGo(env, s, c, made) ==>
                  t.pending[0] == WithMarks(s, c, made) && Sends(env, s, t, c, made, written, AwaitingResponse))
            && (!CanGo(env, s, c, made) ==> t.wire.frames == s.wire.frames)
            && (forall cause :: Hopeless(env, c, SequenceIn(s, c.sequence), made, cause) ==>
                  && t.phase.Ready?
                  && t.pending[0] == if IsSubstitute(c) then WithMarks(s, c, made)
                                     else Response(s.wire.created, c.command, Error(Substitute(cause)), None, None, false))
            && (t.phase.Halted? <==> Breaking(c, made))
  {
    JudgedExactly(env, s, s.pending[0], made);
    ServedAs(env, s, made, written, Judged(env, s, s.pending[0], made));
  }

  lemma {:induction false} RebootAttemptedAs(env: Envelope, s: System, made: Serialized, written: bool, v: Verdict)
    requires s.phase.Ready? && s.inFlight.None? && s.reboot.Some? && !s.reboot.value.substituteQueued
    requires v == Judged(env, s, s.reboot.value.ack, made)
    ensures var (t, c) := (Step(env, s, AttemptReboot(made, written)), s.reboot.value.ack);
            var substituted := v.Cannot? && |s.pending| < MAX_PENDING_RESPONSES;
            && t.reboot == Some(RebootRequest(WithMarks(s, c, made), substituted))
            && t.pending
               == s.pending + (if substituted then
                                 [Response(s.wire.created, c.command, Error(Substitute(v.cause)), None, None, true)] else [])
            && t.phase == (if v.Breaks? then Halted else if v.Goes? && written then AwaitingReboot else Ready)
            && t.wire.frames
               == s.wire.frames + (if v.Goes? && written then
                                     [Frame(SequenceIn(s, c.sequence), c.id, CommandResponse, v.payload)] else [])
  {
  }

  /** One attempt on the reboot acknowledgement: as for a response, but the substitute for one that can
      never go out is queued, once there is room, and the acknowledgement kept. */
  lemma {:induction false} RebootAttemptedExactly(env: Envelope, s: System, made: Serialized, written: bool)
    requires s.phase.Ready? && s.inFlight.None? && s.reboot.Some? && !s.reboot.value.substituteQueued
    ensures var (t, c) := (Step(env, s, AttemptReboot(made, written)), s.reboot.value.ack);
            var roomy := |s.pending| < MAX_PENDING_RESPONSES;
            && (CanGo(env, s, c, made) ==> Sends(env, s, t, c, made, written, AwaitingReboot))
            && (!CanGo(env, s, c, made) ==> t.wire.frames == s.wire.frames)
            && (forall cause :: Hopeless(env, c, SequenceIn(s, c.sequence), made, cause) && roomy ==>
                  && t.phase.Ready? && t.reboot == Some(RebootRequest(WithMarks(s, c, made), true))
                  && t.pending == s.pending + [Response(s.wire.created, c.command, Error(Substitute(cause)), None, None, true)])
            && ((forall cause :: !Hopeless(env, c, SequenceIn(s, c.sequence), made, cause)) || !roomy ==>
                  t.reboot == Some(RebootRequest(WithMarks(s, c, made), false)) && t.pending == s.pending)
            && (t.phase.Halted? <==> Breaking(c, made))
  {
    JudgedExactly(env, s, s.reboot.value.ack, made);
    RebootAttemptedAs(env, s, made, written, Judged(env, s, s.reboot.value.ack, made));
  }

  /** One attempt on the entry in flight: a body that fits with its envelope goes out if the write
      does, and stays in flight; one that does not fit leaves flight for good; one that is not an object
      escapes. */
  lemma {:induction false} EntryAttemptedExactly(env: Envelope, s: System, written: bool, owner: Option<CommandId>)
    requires s.phase.Ready? && s.inFlight.Some?
    ensures var (t, e) := (Step(env, s, SendEntry(written, owner)), s.inFlight.value);
            var sequence := SequenceIn(s, e.sequence);
            if !AnObject(e.payload) then t == s.(phase := Halted)
            else if FitsWith(env, e.payload, sequence) then
              && t.inFlight == Some(e.(sequence := Some(sequence))) && t.pending == s.pending && t.reboot == s.reboot
              && t.phase == (if written then AwaitingEntry else Ready)
              && t.wire.frames
                 == s.wire.frames
                    + (if written then [Frame(sequence, e.id, e.kind, OnWire(env, e.payload, sequence))] else [])
            else
              && t.inFlight.None? && t.phase.Ready? && t.wire.frames == s.wire.frames && t.reboot == s.reboot
              && t.pending
                 == if e.kind.CommandResponse? && owner.Some? && |s.pending| < MAX_PENDING_RESPONSES then
                      s.pending + [Response(s.wire.created, owner.value, Error(Substitute(ResponseTooLarge)), None, None, false)]
                    else s.pending
  {
  }

  /** `f` is a frame of what may be published from `s`: of the entry in flight when there is one, and
      otherwise of the oldest pending response or of the reboot's acknowledgement. */
  predicate MayGoOut(s: System, f: Frame) {
    if s.inFlight.Some? then f.message == s.inFlight.value.id
    else
      || (s.pending != [] && f.message == s.pending[0].id)
      || (s.reboot.Some? && !s.reboot.value.substituteQueued && f.message == s.reboot.value.ack.id)
  }

  predicate OneOut(s: System, t: System) {
    var (before, after) := (s.wire.frames, t.wire.frames);
    after == before
    || (&& s.phase.Ready? && Awaiting(t.phase)
        && |after| == |before| + 1 && after[..|before|] == before && MayGoOut(s, after[|before|]))
  }

  lemma {:induction false} ServingOneOut(env: Envelope, s: System, made: Serialized, written: bool)
    ensures OneOut(s, Serving(env, s, made, written)) && Serving(env, s, made, written).inFlight == s.inFlight
  {
  }

  lemma {:induction false} RebootingOneOut(env: Envelope, s: System, made: Serialized, written: bool)
    ensures OneOut(s, Rebooting(env, s, made, written)) && Rebooting(env, s, made, written).inFlight == s.inFlight
  {
  }

  /** What becomes of the entry in flight. */
  predicate EntryStays(s: System, t: System, e: Event) {
    s.inFlight.Some? ==>
      if t.inFlight.Some? then t.inFlight.value == s.inFlight.value.(sequence := t.inFlight.value.sequence)
      else (e.Acknowledged? && s.phase == AwaitingEntry) || (e.SendEntry? && s.phase.Ready?)
  }

  lemma {:induction false} SendingOneOut(env: Envelope, s: System, written: bool, owner: Option<CommandId>)
    ensures var t := SendingEntry(env, s, written, owner);
            OneOut(s, t) && EntryStays(s, t, SendEntry(written, owner))
  {
  }

  /** One publish at a time: a frame goes out only while no PUBACK is awaited, and is then awaited itself;
      and an entry in flight stays there until its PUBACK arrives or it is discarded. */
  lemma {:induction false} OneAtATime(env: Envelope, s: System, e: Event)
    ensures OneOut(s, Step(env, s, e)) && EntryStays(s, Step(env, s, e), e)
  {
    match e
    case Receive(m) => ReceivingSendsNothing(s, m);
    case Serve(made, written) => ServingOneOut(env, s, made, written);
    case AttemptReboot(made, written) => RebootingOneOut(env, s, made, written);
    case SendEntry(written, owner) => SendingOneOut(env, s, written, owner);
    case TakeEntry(kind, payload) =>
    case Acknowledged =>
    case Failed =>
  }
}
