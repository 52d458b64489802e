/** The identity of Core 0's messages: what every run keeps of sequences and frames. */
module Core0Identity {
  import opened Common
  import opened Core0State

  /** A message still held, as its frames are concerned. */
  datatype Item = Item(id: nat, topic: Kind, sequence: Option<nat>, body: Option<bytes>)

  function OfResponse(c: Response): Item { Item(c.id, CommandResponse, c.sequence, c.frozen) }

  function OfEntry(e: Entry): Item { Item(e.id, e.kind, e.sequence, Some(e.payload)) }

  /** The message's sequence, once claimed, is its own, and its frames so far are all the one its
      marks determine. */
  predicate Tracked(env: Envelope, w: Wire, x: Item) {
    && x.id < w.created
    && (x.sequence.None? ==> x.id !in w.claims)
    && (x.sequence.Some? ==> x.sequence.value < |w.claims| && w.claims[x.sequence.value] == x.id)
    && (forall f :: f in w.frames && f.message == x.id ==>
          && x.sequence.Some? && x.body.Some?
          && f == Frame(x.sequence.value, x.id, x.topic, Spliced(x.body.value, env(x.sequence.value))))
  }

  /** No sequence is shared by two messages, and no two frames differ under one sequence. */
  predicate Consistent(w: Wire) {
    && (forall k :: 0 <= k < |w.claims| ==> w.claims[k] < w.created)
    && (forall j, k :: 0 <= j < k < |w.claims| ==> w.claims[j] != w.claims[k])
    && (forall f :: f in w.frames ==> f.sequence < |w.claims| && w.claims[f.sequence] == f.message)
    && (forall f, g :: f in w.frames && g in w.frames && f.sequence == g.sequence ==> f == g)
  }

  predicate AllTracked(env: Envelope, w: Wire, pending: seq<Response>) {
    && (forall i :: 0 <= i < |pending| ==> Tracked(env, w, OfResponse(pending[i])))
    && (forall i, j :: 0 <= i < j < |pending| ==> pending[i].id != pending[j].id)
  }

  predicate Apart(pending: seq<Response>, id: nat) {
    forall i :: 0 <= i < |pending| ==> pending[i].id != id
  }

  function AckOf(reboot: Option<RebootRequest>): Option<Response> {
    if reboot.Some? then Some(reboot.value.ack) else None
  }

  /** The messages held: pending responses, the reboot acknowledgement, the entry in flight. */
  predicate Held(env: Envelope, w: Wire, pending: seq<Response>, ack: Option<Response>, inFlight: Option<Entry>) {
    && Consistent(w)
    && AllTracked(env, w, pending)
    && (ack.Some? ==> Tracked(env, w, OfResponse(ack.value)) && Apart(pending, ack.value.id))
    && (inFlight.Some? ==> Tracked(env, w, OfEntry(inFlight.value)) && Apart(pending, inFlight.value.id))
    && (inFlight.Some? && ack.Some? ==> inFlight.value.id != ack.value.id)
  }

  predicate Identified(env: Envelope, s: System) {
    && s.nextSequence == |s.wire.claims|
    && Held(env, s.wire, s.pending, AckOf(s.reboot), s.inFlight)
  }

  // ---------------------------------------------------------------------------------------
  // One message at a time
  // ---------------------------------------------------------------------------------------

  /** `v` extends `w` by claims and frames of message `id` alone. */
  predicate Concerns(w: Wire, v: Wire, id: nat) {
    && w.created <= v.created
    && |w.claims| <= |v.claims| && (forall k :: 0 <= k < |w.claims| ==> v.claims[k] == w.claims[k])
    && (forall k :: |w.claims| <= k < |v.claims| ==> v.claims[k] == id)
    && (forall f :: f in v.frames ==> f in w.frames || f.message == id)
  }

  lemma {:induction false} OthersStayTracked(env: Envelope, w: Wire, v: Wire, id: nat, x: Item)
    requires Tracked(env, w, x) && Concerns(w, v, id) && x.id != id
    ensures Tracked(env, v, x)
  {
  }

  lemma {:induction false} PendingStaysTracked(env: Envelope, w: Wire, v: Wire, id: nat, pending: seq<Response>)
    requires AllTracked(env, w, pending) && Concerns(w, v, id) && Apart(pending, id)
    ensures AllTracked(env, v, pending)
  {
  }

  /** A message identified just now. */
  lemma {:induction false} FreshTracks(env: Envelope, w: Wire, x: Item)
    requires Consistent(w) && x.id == w.created && x.sequence.None?
    ensures Tracked(env, w.(created := w.created + 1), x)
    ensures Consistent(w.(created := w.created + 1)) && Concerns(w, w.(created := w.created + 1), x.id)
  {
  }

  /** Claiming a sequence for a tracked message. */
  lemma {:induction false} ClaimTracks(env: Envelope, s: System, x: Item)
    requires s.nextSequence == |s.wire.claims| && Consistent(s.wire) && Tracked(env, s.wire, x)
    ensures var t := Claiming(s, x.id, x.sequence);
            && t.nextSequence == |t.wire.claims| && t.wire.created == s.wire.created && Consistent(t.wire)
            && Tracked(env, t.wire, x.(sequence := Some(SequenceOf(s, x.sequence))))
            && Concerns(s.wire, t.wire, x.id)
  {
  }

  function FrameOf(env: Envelope, x: Item): Frame
    requires x.sequence.Some? && x.body.Some?
  {
    Frame(x.sequence.value, x.id, x.topic, Spliced(x.body.value, env(x.sequence.value)))
  }

  /** Sending the frame a message's marks determine. */
  lemma {:induction false} FrameTracks(env: Envelope, w: Wire, x: Item)
    requires Consistent(w) && Tracked(env, w, x) && x.sequence.Some? && x.body.Some?
    ensures var v := w.(frames := w.frames + [FrameOf(env, x)]);
            Consistent(v) && Tracked(env, v, x) && Concerns(w, v, x.id)
  {
    var f := FrameOf(env, x);
    forall g | g in w.frames && g.sequence == f.sequence
      ensures g == f
    {
      assert g.message == x.id;
    }
  }

  /** What is sent after an attempt on message `x` with `body` as its frozen bytes: a sequence is
      claimed and, when the write goes through, the frame is sent. */
  function Attempt(env: Envelope, s: System, x: Item, body: Option<bytes>, sent: bool): Wire {
    var w := Claiming(s, x.id, x.sequence).wire;
    var y := x.(sequence := Some(SequenceOf(s, x.sequence)), body := body);
    if sent && body.Some? then w.(frames := w.frames + [FrameOf(env, y)]) else w
  }

  lemma {:induction false} AttemptTracks(env: Envelope, s: System, x: Item, body: Option<bytes>, sent: bool)
    requires s.nextSequence == |s.wire.claims| && Consistent(s.wire) && Tracked(env, s.wire, x)
    requires body == x.body || (x.body.None? && body.Some?)
    ensures var w := Attempt(env, s, x, body, sent);
            && Claiming(s, x.id, x.sequence).nextSequence == |w.claims| && w.created == s.wire.created
            && Consistent(w) && Concerns(s.wire, w, x.id)
            && Tracked(env, w, x.(sequence := Some(SequenceOf(s, x.sequence)), body := body))
  {
    ClaimTracks(env, s, x);
    var w := Claiming(s, x.id, x.sequence).wire;
    var y := x.(sequence := Some(SequenceOf(s, x.sequence)), body := body);
    assert Tracked(env, w, y);
    if sent && body.Some? {
      FrameTracks(env, w, y);
    }
  }

  // ---------------------------------------------------------------------------------------
  // Every step
  // ---------------------------------------------------------------------------------------

  predicate NotHeld(pending: seq<Response>, ack: Option<Response>, inFlight: Option<Entry>, id: nat) {
    && Apart(pending, id)
    && (ack.Some? ==> ack.value.id != id)
    && (inFlight.Some? ==> inFlight.value.id != id)
  }

  lemma {:induction false} HeldStays(env: Envelope, w: Wire, v: Wire, id: nat, pending: seq<Response>,
          ack: Option<Response>, inFlight: Option<Entry>)
    requires Held(env, w, pending, ack, inFlight) && NotHeld(pending, ack, inFlight, id)
    requires Concerns(w, v, id) && Consistent(v)
    ensures Held(env, v, pending, ack, inFlight)
  {
    PendingStaysTracked(env, w, v, id, pending);
    if ack.Some? {
      OthersStayTracked(env, w, v, id, OfResponse(ack.value));
    }
    if inFlight.Some? {
      OthersStayTracked(env, w, v, id, OfEntry(inFlight.value));
    }
  }

  lemma {:induction false} HeldAdding(env: Envelope, w: Wire, pending: seq<Response>, ack: Option<Response>,
          inFlight: Option<Entry>, i: nat, c: Response)
    requires Held(env, w, pending, ack, inFlight) && NotHeld(pending, ack, inFlight, c.id)
    requires Tracked(env, w, OfResponse(c)) && i <= |pending|
    ensures Held(env, w, pending[..i] + [c] + pending[i..], ack, inFlight)
  {
  }

  lemma {:induction false} HeldWithoutHead(env: Envelope, w: Wire, pending: seq<Response>, ack: Option<Response>,
          inFlight: Option<Entry>)
    requires Held(env, w, pending, ack, inFlight) && pending != []
    ensures Held(env, w, pending[1..], ack, inFlight) && NotHeld(pending[1..], ack, inFlight, pending[0].id)
  {
  }

  /** Every held message was identified before now. */
  lemma {:induction false} NoneHeldIsFresh(env: Envelope, w: Wire, pending: seq<Response>, ack: Option<Response>,
          inFlight: Option<Entry>)
    requires Held(env, w, pending, ack, inFlight)
    ensures NotHeld(pending, ack, inFlight, w.created)
  {
  }

  lemma {:induction false} QueueingIdentified(env: Envelope, s: System, command: CommandId, answer: Answer,
          clearsReboot: bool)
    requires Identified(env, s)
    ensures Identified(env, Queueing(s, command, answer, clearsReboot))
  {
    if |s.pending| < MAX_PENDING_RESPONSES {
      var t := Queueing(s, command, answer, clearsReboot);
      var c := t.pending[|s.pending|];
      var ack := AckOf(s.reboot);
      NoneHeldIsFresh(env, s.wire, s.pending, ack, s.inFlight);
      FreshTracks(env, s.wire, OfResponse(c));
      HeldStays(env, s.wire, t.wire, c.id, s.pending, ack, s.inFlight);
      HeldAdding(env, t.wire, s.pending, ack, s.inFlight, |s.pending|, c);
      assert t.pending == s.pending[..|s.pending|] + [c] + s.pending[|s.pending|..];
    }
  }

  /** `marked` is `c` with the marks of an attempt. */
  predicate Marks(s: System, c: Response, marked: Response) {
    && marked == c.(sequence := Some(SequenceOf(s, c.sequence)), frozen := marked.frozen)
    && (marked.frozen == c.frozen || (c.frozen.None? && marked.frozen.Some?))
  }

  /** What `Marked` and `Judged` settle about an attempt. */
  predicate MarksOf(env: Envelope, s: System, c: Response, marked: Response, verdict: Verdict) {
    && Marks(s, c, marked)
    && (verdict.Goes? ==> marked.frozen.Some? && verdict.payload == Spliced(marked.frozen.value, env(marked.sequence.value)))
  }

  lemma {:induction false} MarksAreThose(env: Envelope, s: System, c: Response, made: Serialized)
    ensures MarksOf(env, s, c, Marked(s, c, made), Judged(env, s, c, made))
  {
  }

  /** An attempt on the head, which stays, marked, or is replaced by a fresh response. */
  lemma {:induction false} HeadIdentified(env: Envelope, s: System, w: Wire, c: Response)
    requires Identified(env, s) && s.pending != [] && Consistent(w) && Concerns(s.wire, w, s.pending[0].id)
    requires c.id == s.pending[0].id || c.id == s.wire.created
    requires Tracked(env, w, OfResponse(c))
    ensures Held(env, w, s.pending[0 := c], AckOf(s.reboot), s.inFlight)
  {
    var ack := AckOf(s.reboot);
    NoneHeldIsFresh(env, s.wire, s.pending, ack, s.inFlight);
    HeldWithoutHead(env, s.wire, s.pending, ack, s.inFlight);
    HeldStays(env, s.wire, w, s.pending[0].id, s.pending[1..], ack, s.inFlight);
    HeldAdding(env, w, s.pending[1..], ack, s.inFlight, 0, c);
    assert s.pending[1..][..0] + [c] + s.pending[1..][0..] == s.pending[0 := c];
  }

  /** An attempt on the head has marked it, and sent a frame or not. */
  function HeadMarked(env: Envelope, s: System, marked: Response, sent: bool): System
    requires s.pending != []
  {
    var c := s.pending[0];
    s.(nextSequence := Claiming(s, c.id, c.sequence).nextSequence, pending := s.pending[0 := marked],
       wire := Attempt(env, s, OfResponse(c), marked.frozen, sent))
  }

  lemma {:induction false} MarkedIdentified(env: Envelope, s: System, marked: Response, sent: bool)
    requires Identified(env, s) && s.pending != [] && Marks(s, s.pending[0], marked)
    ensures var t := HeadMarked(env, s, marked, sent);
            && Identified(env, t) && t.wire.created == s.wire.created
            && Consistent(t.wire) && Concerns(s.wire, t.wire, s.pending[0].id)
  {
    var c := s.pending[0];
    AttemptTracks(env, s, OfResponse(c), marked.frozen, sent);
    HeadIdentified(env, s, Attempt(env, s, OfResponse(c), marked.frozen, sent), marked);
  }

  /** The parts of the state after an attempt on the head. */
  lemma {:induction false} ServedParts(env: Envelope, s: System, marked: Response, verdict: Verdict, written: bool)
    requires s.pending != [] && MarksOf(env, s, s.pending[0], marked, verdict)
    ensures var t := Served(s, marked, verdict, written);
            var u := HeadMarked(env, s, marked, verdict.Goes? && written);
            && t.pending != [] && t.reboot == s.reboot && t.inFlight == s.inFlight && t.nextSequence == u.nextSequence
            && ((t.wire == u.wire && t.pending == u.pending)
                || (t.wire == u.wire.(created := s.wire.created + 1) && t.pending == s.pending[0 := t.pending[0]]
                    && t.pending[0].id == s.wire.created && t.pending[0].sequence.None?))
  {
  }

  /** After an attempt, a fresh response has taken the place of the head. */
  lemma {:induction false} ReplacedIdentified(env: Envelope, s: System, u: System, c: Response)
    requires Identified(env, s) && s.pending != [] && u.wire.created == s.wire.created == c.id && c.sequence.None?
    requires Consistent(u.wire) && Concerns(s.wire, u.wire, s.pending[0].id) && u.nextSequence == |u.wire.claims|
    requires u.reboot == s.reboot && u.inFlight == s.inFlight
    ensures Identified(env, u.(wire := u.wire.(created := u.wire.created + 1), pending := s.pending[0 := c]))
  {
    FreshTracks(env, u.wire, OfResponse(c));
    HeadIdentified(env, s, u.wire.(created := u.wire.created + 1), c);
  }

  /** Identification looks at the containers and the wire alone. */
  lemma {:induction false} IdentifiedAsWell(env: Envelope, s: System, t: System)
    requires Identified(env, s)
    requires t.wire == s.wire && t.nextSequence == s.nextSequence && t.pending == s.pending
    requires t.inFlight == s.inFlight && AckOf(t.reboot) == AckOf(s.reboot)
    ensures Identified(env, t)
  {
  }

  lemma {:induction false} AfterAttempt(env: Envelope, s: System, t: System, marked: Response, sent: bool)
    requires Identified(env, s) && s.pending != [] && Marks(s, s.pending[0], marked)
    requires var u := HeadMarked(env, s, marked, sent);
             && t.pending != [] && t.reboot == s.reboot && t.inFlight == s.inFlight && t.nextSequence == u.nextSequence
             && ((t.wire == u.wire && t.pending == u.pending)
                 || (t.wire == u.wire.(created := s.wire.created + 1) && t.pending == s.pending[0 := t.pending[0]]
                     && t.pending[0].id == s.wire.created && t.pending[0].sequence.None?))
    ensures Identified(env, t)
  {
    var u := HeadMarked(env, s, marked, sent);
    MarkedIdentified(env, s, marked, sent);
    if t.wire == u.wire && t.pending == u.pending {
      IdentifiedAsWell(env, u, t);
    } else {
      var c := t.pending[0];
      ReplacedIdentified(env, s, u, c);
      IdentifiedAsWell(env, u.(wire := u.wire.(created := u.wire.created + 1), pending := s.pending[0 := c]), t);
    }
  }

  lemma {:induction false} ServedIdentified(env: Envelope, s: System, marked: Response, verdict: Verdict, written: bool)
    requires Identified(env, s) && s.pending != []
    requires MarksOf(env, s, s.pending[0], marked, verdict)
    ensures Identified(env, Served(s, marked, verdict, written))
  {
    ServedParts(env, s, marked, verdict, written);
    AfterAttempt(env, s, Served(s, marked, verdict, written), marked, verdict.Goes? && written);
  }

  /** An attempt on the reboot acknowledgement has marked it, and sent a frame or not. */
  function RebootMarked(env: Envelope, s: System, marked: Response, sent: bool): System
    requires s.reboot.Some?
  {
    var c := s.reboot.value.ack;
    s.(nextSequence := Claiming(s, c.id, c.sequence).nextSequence, reboot := Some(RebootRequest(marked, false)),
       wire := Attempt(env, s, OfResponse(c), marked.frozen, sent))
  }

  lemma {:induction false} RebootMarkedIdentified(env: Envelope, s: System, marked: Response, sent: bool)
    requires Identified(env, s) && s.reboot.Some? && Marks(s, s.reboot.value.ack, marked)
    ensures Identified(env, RebootMarked(env, s, marked, sent))
  {
    var c := s.reboot.value.ack;
    var w := Attempt(env, s, OfResponse(c), marked.frozen, sent);
    AttemptTracks(env, s, OfResponse(c), marked.frozen, sent);
    HeldStays(env, s.wire, w, c.id, s.pending, None, s.inFlight);
  }

  lemma {:induction false} RebootAttemptedIdentified(env: Envelope, s: System, marked: Response, verdict: Verdict,
          written: bool)
    requires Identified(env, s) && s.reboot.Some?
    requires MarksOf(env, s, s.reboot.value.ack, marked, verdict)
    ensures Identified(env, RebootAttempted(s, marked, verdict, written))
  {
    var c := s.reboot.value.ack;
    var u := RebootMarked(env, s, marked, verdict.Goes? && written);
    var t := RebootAttempted(s, marked, verdict, written);
    RebootMarkedIdentified(env, s, marked, verdict.Goes? && written);
    if verdict.Cannot? && |s.pending| < MAX_PENDING_RESPONSES {
      QueueingIdentified(env, u, c.command, Error(Substitute(verdict.cause)), true);
      IdentifiedAsWell(env, Queueing(u, c.command, Error(Substitute(verdict.cause)), true), t);
    } else {
      IdentifiedAsWell(env, u, t);
    }
  }

  /** An attempt on the entry in flight has marked it, or let it go, and sent a frame or not. */
  function EntryMarked(env: Envelope, s: System, goes: bool, written: bool): System
    requires s.inFlight.Some?
  {
    var e := s.inFlight.value;
    s.(nextSequence := Claiming(s, e.id, e.sequence).nextSequence,
       inFlight := if goes then Some(e.(sequence := Some(SequenceOf(s, e.sequence)))) else None,
       wire := Attempt(env, s, OfEntry(e), Some(e.payload), goes && written))
  }

  lemma {:induction false} EntryMarkedIdentified(env: Envelope, s: System, goes: bool, written: bool)
    requires Identified(env, s) && s.inFlight.Some?
    ensures Identified(env, EntryMarked(env, s, goes, written))
  {
    var e := s.inFlight.value;
    AttemptTracks(env, s, OfEntry(e), Some(e.payload), goes && written);
    HeldStays(env, s.wire, Attempt(env, s, OfEntry(e), Some(e.payload), goes && written), e.id, s.pending,
              AckOf(s.reboot), None);
  }

  lemma {:induction false} EntryAttemptedIdentified(env: Envelope, s: System, verdict: Verdict, written: bool,
          owner: Option<CommandId>)
    requires Identified(env, s) && s.inFlight.Some?
    requires verdict.Goes? ==>
               verdict.payload == Spliced(s.inFlight.value.payload, env(SequenceOf(s, s.inFlight.value.sequence)))
    ensures Identified(env, EntryAttempted(s, s.inFlight.value, verdict, written, owner))
  {
    var e := s.inFlight.value;
    var (u, t) := (EntryMarked(env, s, verdict.Goes?, written), EntryAttempted(s, e, verdict, written, owner));
    EntryMarkedIdentified(env, s, verdict.Goes?, written);
    if !verdict.Goes? && e.kind.CommandResponse? && owner.Some? {
      QueueingIdentified(env, u, owner.value, Error(Substitute(ResponseTooLarge)), false);
      IdentifiedAsWell(env, Queueing(u, owner.value, Error(Substitute(ResponseTooLarge)), false), t);
    } else {
      IdentifiedAsWell(env, u, t);
    }
  }

  lemma {:induction false} TakingIdentified(env: Envelope, s: System, kind: Kind, payload: bytes)
    requires Identified(env, s)
    ensures Identified(env, TakingEntry(s, kind, payload))
  {
    if s.phase.Ready? && s.inFlight.None? {
      var t := TakingEntry(s, kind, payload);
      NoneHeldIsFresh(env, s.wire, s.pending, AckOf(s.reboot), None);
      FreshTracks(env, s.wire, OfEntry(t.inFlight.value));
      HeldStays(env, s.wire, t.wire, s.wire.created, s.pending, AckOf(s.reboot), None);
    }
  }

  lemma {:induction false} ReactingIdentified(env: Envelope, s: System, id: CommandId, r: Reaction)
    requires Identified(env, s) && (r.HoldReboot? ==> s.reboot.None?)
    ensures Identified(env, Reacting(s, id, r))
  {
    match r
    case Respond(answer) => QueueingIdentified(env, s, id, answer, false);
    case HoldReboot =>
      var t := Reacting(s, id, r);
      NoneHeldIsFresh(env, s.wire, s.pending, None, s.inFlight);
      FreshTracks(env, s.wire, OfResponse(t.reboot.value.ack));
      HeldStays(env, s.wire, t.wire, s.wire.created, s.pending, None, s.inFlight);
    case _ =>
  }

  lemma {:induction false} ReceivingIdentified(env: Envelope, s: System, m: Inbound)
    requires Identified(env, s)
    ensures Identified(env, Receiving(s, m))
  {
    if m.Command? && m.id.Some? {
      var r := Remembering(s, m.id.value);
      assert Identified(env, r);
      ReactingIdentified(env, r, m.id.value, ReactionTo(m, s.reboot.Some?));
    }
  }

  lemma {:induction false} AcknowledgingIdentified(env: Envelope, s: System)
    requires Identified(env, s)
    ensures Identified(env, Acknowledging(s))
  {
    if s.phase == AwaitingResponse && s.pending != [] {
      HeldWithoutHead(env, s.wire, s.pending, AckOf(s.reboot), s.inFlight);
    }
  }

  lemma {:induction false} StepIdentified(env: Envelope, s: System, e: Event)
    requires Identified(env, s)
    ensures Identified(env, Step(env, s, e))
  {
    match e
    case Receive(m) => ReceivingIdentified(env, s, m);
    case Serve(made, written) =>
      if s.pending != [] {
        MarksAreThose(env, s, s.pending[0], made);
        ServedIdentified(env, s, Marked(s, s.pending[0], made), Judged(env, s, s.pending[0], made), written);
      }
    case AttemptReboot(made, written) =>
      if s.reboot.Some? {
        var c := s.reboot.value.ack;
        MarksAreThose(env, s, c, made);
        RebootAttemptedIdentified(env, s, Marked(s, c, made), Judged(env, s, c, made), written);
      }
    case TakeEntry(kind, payload) => TakingIdentified(env, s, kind, payload);
    case SendEntry(written, owner) =>
      if s.inFlight.Some? {
        var e := s.inFlight.value;
        EntryAttemptedIdentified(env, s, Checking(env, e.payload, SequenceOf(s, e.sequence)), written, owner);
      }
    case Acknowledged => AcknowledgingIdentified(env, s);
    case Failed =>
  }

  lemma {:induction false} SequencesIdentify(w: Wire)
    requires Consistent(w)
    ensures forall f, g :: f in w.frames && g in w.frames ==>
              (f.sequence == g.sequence <==> f.message == g.message) && (f.sequence == g.sequence ==> f == g)
  {
  }

  /** In every run, two frames carry the same sequence exactly when they are of the same message,
      and then they are the same: topic and payload, byte for byte. */
  lemma {:induction false} FramesIdentifyMessages(env: Envelope, r: Run)
    ensures Identified(env, After(env, r))
    ensures var frames := After(env, r).wire.frames;
            forall f, g :: f in frames && g in frames ==>
              (f.sequence == g.sequence <==> f.message == g.message) && (f.sequence == g.sequence ==> f == g)
  {
    if r.Then? {
      FramesIdentifyMessages(env, r.before);
      StepIdentified(env, After(env, r.before), r.event);
    }
    SequencesIdentify(After(env, r).wire);
  }

  // ---------------------------------------------------------------------------------------
  // The size of what goes out
  // ---------------------------------------------------------------------------------------

  predicate Fits(w: Wire) {
    forall f :: f in w.frames ==> |f.payload| <= MAX_OUTBOUND_MESSAGE_BYTES
  }

  /** The length `_publish_entry` checks is the length that goes out. */
  lemma {:induction false} CheckedLength(env: Envelope, body: bytes, sequence: nat)
    ensures Checking(env, body, sequence).Goes? ==>
              var payload := Checking(env, body, sequence).payload;
              |payload| == |body| + |env(sequence)| + 1 <= MAX_OUTBOUND_MESSAGE_BYTES
  {
  }

  predicate SendsWithin(v: Verdict) { v.Goes? ==> |v.payload| <= MAX_OUTBOUND_MESSAGE_BYTES }

  lemma {:induction false} JudgedWithin(env: Envelope, s: System, c: Response, made: Serialized)
    ensures SendsWithin(Judged(env, s, c, made))
  {
    var marked := Marked(s, c, made);
    if marked.frozen.Some? {
      CheckedLength(env, marked.frozen.value, marked.sequence.value);
    }
  }

  lemma {:induction false} ServedFits(s: System, marked: Response, verdict: Verdict, written: bool)
    requires Fits(s.wire) && s.pending != [] && marked.sequence.Some? && SendsWithin(verdict)
    ensures Fits(Served(s, marked, verdict, written).wire)
  {
  }

  lemma {:induction false} RebootAttemptedFits(s: System, marked: Response, verdict: Verdict, written: bool)
    requires Fits(s.wire) && s.reboot.Some? && marked.sequence.Some? && SendsWithin(verdict)
    ensures Fits(RebootAttempted(s, marked, verdict, written).wire)
  {
  }

  lemma {:induction false} EntryAttemptedFits(s: System, e: Entry, verdict: Verdict, written: bool, owner: Option<CommandId>)
    requires Fits(s.wire) && SendsWithin(verdict)
    ensures Fits(EntryAttempted(s, e, verdict, written, owner).wire)
  {
  }

  lemma {:induction false} ReceivingSendsNothing(s: System, m: Inbound)
    ensures Receiving(s, m).wire.frames == s.wire.frames
  {
  }

  lemma {:induction false} StepFits(env: Envelope, s: System, e: Event)
    requires Fits(s.wire)
    ensures Fits(Step(env, s, e).wire)
  {
    match e
    case Receive(m) => ReceivingSendsNothing(s, m);
    case Serve(made, written) =>
      if s.pending != [] {
        var c := s.pending[0];
        JudgedWithin(env, s, c, made);
        ServedFits(s, Marked(s, c, made), Judged(env, s, c, made), written);
      }
    case AttemptReboot(made, written) =>
      if s.reboot.Some? {
        var c := s.reboot.value.ack;
        JudgedWithin(env, s, c, made);
        RebootAttemptedFits(s, Marked(s, c, made), Judged(env, s, c, made), written);
      }
    case SendEntry(written, owner) =>
      if s.inFlight.Some? {
        var e := s.inFlight.value;
        CheckedLength(env, e.payload, SequenceOf(s, e.sequence));
        EntryAttemptedFits(s, e, Checking(env, e.payload, SequenceOf(s, e.sequence)), written, owner);
      }
    case _ =>
  }

  /** No frame ever exceeds the per-message ceiling, its envelope included. */
  lemma {:induction false} FramesFit(env: Envelope, r: Run)
    ensures Fits(After(env, r).wire)
  {
    if r.Then? {
      FramesFit(env, r.before);
      StepFits(env, After(env, r.before), r.event);
    }
  }
}
