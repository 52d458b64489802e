/** The MQTT 3.1.1 frames this client sends and receives, as byte sequences: the encoding the
    protocol prescribes (sections 2.2, 3.1, 3.3, 3.4 and 3.8) and the inbound parse. */
module MqttWire {
  import opened Common

  const MAX_INBOUND_PACKET_BYTES: int := 20 * 1024
  /** The largest remaining length the three length bytes of `publish` can hold. */
  const MAX_PUBLISH_REMAINING: int := 2097151
  /** The largest remaining length four length bytes can hold (section 2.2.3). */
  const MAX_REMAINING: int := 268435455

  // ---------------------------------------------------------------------------------------
  // Remaining length (section 2.2.3)
  // ---------------------------------------------------------------------------------------

  /** Least significant group of seven bits first, the top bit set on all but the last. */
  function EncodeLength(n: nat): (r: bytes)
    ensures |r| >= 1
    ensures n < 0x80 ==> |r| == 1
    ensures n < 0x80 * 0x80 ==> |r| <= 2
    ensures n <= MAX_PUBLISH_REMAINING ==> |r| <= 3
    ensures n <= MAX_REMAINING ==> |r| <= 4
  {
    if n < 0x80 then [n] else [n % 0x80 + 0x80] + EncodeLength(n / 0x80)
  }

  datatype Decoded =
    | Length(n: nat, used: nat)
    | FifthByte
    | EndOfStream

  /** The number at the head of `s`, with `left` more length bytes allowed. */
  function DecodeLength(s: bytes, left: nat): (r: Decoded)
    ensures r.Length? ==> 1 <= r.used <= left && r.used <= |s|
  {
    if left == 0 then FifthByte
    else if s == [] then EndOfStream
    else if s[0] < 0x80 then Length(s[0], 1)
    else
      match DecodeLength(s[1..], left - 1)
      case Length(n, used) => Length(s[0] % 0x80 + 0x80 * n, used + 1)
      case other => other
  }

  /** Decoding inverts encoding on every length of up to four bytes, whatever follows. */
  lemma {:induction false} LengthRoundTrip(n: nat, left: nat, rest: bytes)
    requires |EncodeLength(n)| <= left
    ensures DecodeLength(EncodeLength(n) + rest, left) == Length(n, |EncodeLength(n)|)
    decreases left
  {
    if n >= 0x80 {
      LengthRoundTrip(n / 0x80, left - 1, rest);
      assert (EncodeLength(n) + rest)[1..] == EncodeLength(n / 0x80) + rest;
    }
  }

  lemma {:induction false} DividedOn(n: nat)
    ensures n / 0x80 / 0x80 == n / 0x4000 && n / 0x80 / 0x4000 == n / 0x20_0000
  {
  }

  lemma {:induction false} NextGroup(n: nat)
    requires n >= 0x80
    ensures EncodeLength(n) == [n % 0x80 + 0x80] + EncodeLength(n / 0x80)
  {
  }

  lemma {:induction false} TwoGroups(n: nat)
    requires 0x80 <= n < 0x4000
    ensures EncodeLength(n) == [n % 0x80 + 0x80, n / 0x80]
  {
    NextGroup(n);
    assert EncodeLength(n / 0x80) == [n / 0x80];
  }

  lemma {:induction false} ThreeGroups(n: nat)
    requires 0x4000 <= n < 0x20_0000
    ensures EncodeLength(n) == [n % 0x80 + 0x80, n / 0x80 % 0x80 + 0x80, n / 0x4000]
  {
    DividedOn(n);
    NextGroup(n);
    TwoGroups(n / 0x80);
  }

  lemma {:induction false} FourGroups(n: nat)
    requires 0x20_0000 <= n <= MAX_REMAINING
    ensures EncodeLength(n)
            == [n % 0x80 + 0x80, n / 0x80 % 0x80 + 0x80, n / 0x4000 % 0x80 + 0x80, n / 0x20_0000]
  {
    var m := n / 0x80;
    DividedOn(n);
    NextGroup(n);
    ThreeGroups(m);
    assert [n % 0x80 + 0x80] + [m % 0x80 + 0x80, m / 0x80 % 0x80 + 0x80, m / 0x4000]
        == [n % 0x80 + 0x80, m % 0x80 + 0x80, m / 0x80 % 0x80 + 0x80, m / 0x4000];
  }

  /** The table of section 2.2.3: how many bytes a length takes, and what each holds. */
  lemma {:induction false} LengthTable(n: nat)
    requires n <= MAX_REMAINING
    ensures EncodeLength(n)
            == if n < 0x80 then [n]
               else if n < 0x4000 then [n % 0x80 + 0x80, n / 0x80]
               else if n < 0x20_0000 then [n % 0x80 + 0x80, n / 0x80 % 0x80 + 0x80, n / 0x4000]
               else [n % 0x80 + 0x80, n / 0x80 % 0x80 + 0x80, n / 0x4000 % 0x80 + 0x80, n / 0x20_0000]
  {
    if 0x80 <= n < 0x4000 {
      TwoGroups(n);
    } else if 0x4000 <= n < 0x20_0000 {
      ThreeGroups(n);
    } else if 0x20_0000 <= n {
      FourGroups(n);
    }
  }

  // ---------------------------------------------------------------------------------------
  // Frames
  // ---------------------------------------------------------------------------------------

  function Be16(n: int): (r: bytes)
    requires 0 <= n < 0x10000
    ensures |r| == 2 && n == (r[0] as int) * 0x100 + r[1] as int
  {
    [n / 0x100, n % 0x100]
  }

  function Value16(hi: byte, lo: byte): (r: int)
    ensures 0 <= r < 0x10000
    ensures Be16(r) == [hi, lo]
  {
    hi * 0x100 + lo
  }

  /** A length-prefixed string (section 1.5.3). */
  function Str(s: bytes): (r: bytes)
    requires |s| < 0x10000
    ensures |r| == |s| + 2
  {
    Be16(|s|) + s
  }

  /** A control packet: its first byte, the length of everything after, and everything after. */
  function Packet(first: byte, body: bytes): (r: bytes)
    ensures |r| == 1 + |EncodeLength(|body|)| + |body|
  {
    [first] + EncodeLength(|body|) + body
  }

  /** "MQTT" */
  const PROTOCOL_NAME: bytes := [0x4D, 0x51, 0x54, 0x54]

  function ConnectFrame(clean: bool, keepalive: int, clientId: bytes): bytes
    requires 0 <= keepalive < 0x10000 && |clientId| < 0x10000
  {
    Packet(0x10, Str(PROTOCOL_NAME) + [4, if clean then 2 else 0] + Be16(keepalive) + Str(clientId))
  }

  function SubscribeFrame(id: int, topic: bytes): bytes
    requires 0 <= id < 0x10000 && |topic| < 0x10000
  {
    Packet(0x82, Be16(id) + Str(topic) + [1])
  }

  /** A QoS 1 application message as this client publishes it. */
  function PublishFrame(topic: bytes, id: int, payload: bytes): bytes
    requires 0 <= id < 0x10000 && |topic| < 0x10000
  {
    Packet(0x32, Str(topic) + Be16(id) + payload)
  }

  function PubackFrame(id: int): bytes
    requires 0 <= id < 0x10000
  {
    Packet(0x40, Be16(id))
  }

  /** A JSON object with more members spliced in before its closing brace. */
  function Joined(body: bytes, fragment: bytes): (r: bytes)
    requires body != []
    ensures |r| == |body| + |fragment| + 1
  {
    body[..|body| - 1] + [0x2C] + fragment + [0x7D]
  }

  /** The bytes of the frames sent, in the order of sections 3.1, 3.3, 3.4 and 3.8. */
  lemma {:induction false} FrameLayouts(clean: bool, keepalive: int, id: int, name: bytes, payload: bytes)
    requires 0 <= keepalive < 0x10000 && 0 <= id < 0x10000 && |name| < 0x10000
    ensures var l := [|name| / 0x100, |name| % 0x100];
            && PubackFrame(id) == [0x40, 2, id / 0x100, id % 0x100]
            && PublishFrame(name, id, payload)
               == [0x32] + EncodeLength(4 + |name| + |payload|) + l + name + [id / 0x100, id % 0x100] + payload
            && SubscribeFrame(id, name)
               == [0x82] + EncodeLength(5 + |name|) + [id / 0x100, id % 0x100] + l + name + [1]
            && ConnectFrame(clean, keepalive, name)
               == [0x10] + EncodeLength(12 + |name|) + [0, 4, 0x4D, 0x51, 0x54, 0x54, 4, if clean then 2 else 0]
                  + [keepalive / 0x100, keepalive % 0x100] + l + name
  {
    assert EncodeLength(2) == [2];
  }

  function Listed(members: seq<bytes>): bytes {
    if members == [] then []
    else if |members| == 1 then members[0]
    else members[0] + [0x2C] + Listed(members[1..])
  }

  /** A JSON object with these members. */
  function Object(members: seq<bytes>): bytes { [0x7B] + Listed(members) + [0x7D] }

  lemma {:induction false} ListedJoins(xs: seq<bytes>, ys: seq<bytes>)
    requires xs != [] && ys != []
    ensures Listed(xs + ys) == Listed(xs) + [0x2C] + Listed(ys)
  {
    assert (xs + ys)[0] == xs[0] && (xs + ys)[1..] == xs[1..] + ys;
    if |xs| == 1 {
      assert xs[1..] + ys == ys;
    } else {
      ListedJoins(xs[1..], ys);
    }
  }

  /** Splicing a fragment into an object gives the object of its members followed by the fragment's,
      exactly when both have some: an empty object would be left with a comma of its own. */
  lemma {:induction false} JoiningKeepsMembers(xs: seq<bytes>, ys: seq<bytes>)
    ensures Joined(Object(xs), Listed(ys)) == Object(xs + ys) <==> xs != [] && ys != []
  {
    var body := Object(xs);
    assert body[..|body| - 1] == [0x7B] + Listed(xs);
    if xs == [] {
      assert xs + ys == ys;
    } else if ys == [] {
      assert xs + ys == xs;
    } else {
      ListedJoins(xs, ys);
    }
  }

  // ---------------------------------------------------------------------------------------
  // Inbound
  // ---------------------------------------------------------------------------------------

  /** The inbound frames a conforming broker sends this client outside its handshakes. */
  datatype Frame =
    | Publish0(retain: bool, topic: bytes, payload: bytes)
    | Publish1(dup: bool, retain: bool, topic: bytes, id: int, payload: bytes)
    | PingResponse
    | Puback(id: int)

  predicate WellFormed(f: Frame) {
    match f
    case Publish0(_, topic, payload) => |topic| + 2 + |payload| <= MAX_INBOUND_PACKET_BYTES
    case Publish1(_, _, topic, id, payload) =>
      0 < id < 0x10000 && |topic| + 4 + |payload| <= MAX_INBOUND_PACKET_BYTES
    case PingResponse => true
    case Puback(id) => 0 < id < 0x10000
  }

  /** The body of a PUBLISH: topic, packet id when there is one, payload. */
  function PublishBody(topic: bytes, id: Option<int>, payload: bytes): (r: bytes)
    requires |topic| < 0x10000 && (id.Some? ==> 0 <= id.value < 0x10000)
    ensures |r| == 2 + |topic| + (if id.Some? then 2 else 0) + |payload|
  {
    match id
    case None => Str(topic) + payload
    case Some(i) => Str(topic) + (Be16(i) + payload)
  }

  /** Sections 3.3, 3.4 and 3.13. */
  function Encode(f: Frame): bytes
    requires WellFormed(f)
  {
    match f
    case Publish0(retain, topic, payload) =>
      Packet(0x30 + (if retain then 1 else 0), PublishBody(topic, None, payload))
    case Publish1(dup, retain, topic, id, payload) =>
      Packet(0x32 + (if dup then 8 else 0) + (if retain then 1 else 0), PublishBody(topic, Some(id), payload))
    case PingResponse => Packet(0xD0, [])
    case Puback(id) => PubackFrame(id)
  }

  /** What one `wait_msg` does with the head of the stream; `used` counts the bytes it consumed. */
  datatype Parsed =
    | Pong(used: nat)                                           // returns None
    | Control(op: byte, used: nat)                              // PUBACK / SUBACK, body unread
    | Message(op: byte, topic: bytes, payload: bytes, id: Option<int>, used: nat)
    | Corrupt                                                   // connection dropped, MQTTException
    | Starved                                                   // OSError: the stream ended

  /** The rest of a PUBLISH whose fixed header declares `n` bytes from offset `h` on. */
  function ParsePublish(s: bytes, n: nat, h: nat): (r: Parsed)
    requires 1 <= h <= |s|
    ensures r.Message? || r.Corrupt? || r.Starved?
    ensures r.Message? ==> r.used == h + n <= |s| && r.op == s[0]
    ensures r.Message? && r.id.Some? ==> 0 <= r.id.value < 0x10000
  {
    var qos1 := s[0] / 2 % 4 != 0;
    if n > MAX_INBOUND_PACKET_BYTES || n < 2 then Corrupt
    else if |s| < h + 2 then Starved
    else
      var t := Value16(s[h], s[h + 1]);
      if t > n - 2 then Corrupt
      else if |s| < h + 2 + t then Starved
      else if !qos1 then
        if |s| < h + n then Starved else Message(s[0], s[h + 2..h + 2 + t], s[h + 2 + t..h + n], None, h + n)
      else if n - 2 - t < 2 then Corrupt
      else if |s| < h + n then Starved
      else Message(s[0], s[h + 2..h + 2 + t], s[h + 4 + t..h + n],
                   Some(Value16(s[h + 2 + t], s[h + 3 + t])), h + n)
  }

  function Parse(s: bytes): (r: Parsed)
    ensures r.Pong? || r.Control? || r.Message? ==> 1 <= r.used <= |s|
    ensures r.Message? && r.id.Some? ==> 0 <= r.id.value < 0x10000
  {
    if s == [] then Starved
    else if s[0] == 0xD0 then
      if |s| < 2 then Starved else if s[1] != 0 then Corrupt else Pong(2)
    else if s[0] / 0x10 != 3 then
      if s[0] == 0x40 || s[0] == 0x90 then Control(s[0], 1) else Corrupt
    else if s[0] / 2 % 4 >= 2 then Corrupt
    else
      match DecodeLength(s[1..], 4)
      case FifthByte => Corrupt
      case EndOfStream => Starved
      case Length(n, k) => ParsePublish(s, n, k + 1)
  }

  lemma {:induction false} Cut(s: bytes, a: nat, b: nat, c: nat)
    requires a <= b <= c <= |s|
    ensures s[a..c] == s[a..b] + s[b..c]
  {
  }

  lemma {:induction false} TwoBytes(s: bytes, i: nat)
    requires i + 2 <= |s|
    ensures s[i..i + 2] == [s[i], s[i + 1]] == Be16(Value16(s[i], s[i + 1]))
  {
  }

  /** What follows the topic in the body of a PUBLISH. */
  function AfterTopic(id: Option<int>, payload: bytes): bytes
    requires id.Some? ==> 0 <= id.value < 0x10000
  {
    if id.Some? then Be16(id.value) + payload else payload
  }

  lemma {:induction false} PublishBodyIs(topic: bytes, id: Option<int>, payload: bytes)
    requires |topic| < 0x10000 && (id.Some? ==> 0 <= id.value < 0x10000)
    ensures PublishBody(topic, id, payload)
            == Be16(|topic|) + (topic + AfterTopic(id, payload))
  {
  }

  /** The stretch of a stream from `h` to `c` that starts with a number and `t` bytes. */
  lemma {:induction false} StretchOf(s: bytes, h: nat, t: nat, c: nat)
    requires h + 2 + t <= c <= |s|
    ensures s[h..c] == Be16(Value16(s[h], s[h + 1])) + (s[h + 2..h + 2 + t] + s[h + 2 + t..c])
  {
    TwoBytes(s, h);
    Cut(s, h, h + 2, c);
    Cut(s, h + 2, h + 2 + t, c);
  }

  /** A topic with its length, from `h` to `i`. */
  predicate TopicHere(s: bytes, h: nat, i: nat, topic: bytes) {
    i == h + 2 + |topic| && i <= |s| && Value16(s[h], s[h + 1]) == |topic| && s[h + 2..i] == topic
  }

  /** A packet id, if any, and a payload, from `i` to `c`. */
  predicate PayloadHere(s: bytes, i: nat, c: nat, id: Option<int>, payload: bytes) {
    && i + (if id.Some? then 2 else 0) <= c <= |s|
    && (if id.Some? then Value16(s[i], s[i + 1]) == id.value && s[i + 2..c] == payload else s[i..c] == payload)
  }

  predicate PartsHere(s: bytes, h: nat, i: nat, c: nat, topic: bytes, id: Option<int>, payload: bytes) {
    TopicHere(s, h, i, topic) && PayloadHere(s, i, c, id, payload)
  }

  lemma {:induction false} PartsParsed(s: bytes, n: nat, h: nat)
    requires 1 <= h <= |s| && ParsePublish(s, n, h).Message?
    ensures var r := ParsePublish(s, n, h);
            && PartsHere(s, h, h + 2 + |r.topic|, h + n, r.topic, r.id, r.payload)
            && n <= MAX_INBOUND_PACKET_BYTES && (r.id.Some? <==> s[0] / 2 % 4 != 0)
  {
  }

  lemma {:induction false} PartsParse(s: bytes, n: nat, h: nat, i: nat, topic: bytes, id: Option<int>, payload: bytes)
    requires 1 <= h && n <= MAX_INBOUND_PACKET_BYTES && PartsHere(s, h, i, h + n, topic, id, payload)
    requires s[0] / 2 % 4 == (if id.Some? then 1 else 0)
    ensures ParsePublish(s, n, h) == Message(s[0], topic, payload, id, h + n)
  {
  }

  lemma {:induction false} TopicJoins(s: bytes, h: nat, i: nat, c: nat, topic: bytes)
    requires TopicHere(s, h, i, topic) && i <= c <= |s|
    ensures |topic| < 0x10000 && s[h..c] == Be16(|topic|) + (topic + s[i..c])
  {
    StretchOf(s, h, |topic|, c);
  }

  lemma {:induction false} PayloadJoins(s: bytes, i: nat, c: nat, id: Option<int>, payload: bytes)
    requires PayloadHere(s, i, c, id, payload)
    ensures (id.Some? ==> 0 <= id.value < 0x10000) && s[i..c] == AfterTopic(id, payload)
  {
    if id.Some? {
      TwoBytes(s, i);
      Cut(s, i, i + 2, c);
    }
  }

  lemma {:induction false} PartsJoin(s: bytes, h: nat, i: nat, c: nat, topic: bytes, id: Option<int>, payload: bytes)
    requires PartsHere(s, h, i, c, topic, id, payload)
    ensures |topic| < 0x10000 && (id.Some? ==> 0 <= id.value < 0x10000)
    ensures s[h..c] == PublishBody(topic, id, payload)
  {
    TopicJoins(s, h, i, c, topic);
    PayloadJoins(s, i, c, id, payload);
    PublishBodyIs(topic, id, payload);
  }

  lemma {:induction false} BodyConsumed(s: bytes, n: nat, h: nat)
    requires 1 <= h <= |s| && ParsePublish(s, n, h).Message?
    ensures var r := ParsePublish(s, n, h);
            && n <= MAX_INBOUND_PACKET_BYTES && |r.topic| < 0x10000
            && (r.id.Some? <==> s[0] / 2 % 4 != 0)
            && s[h..h + n] == PublishBody(r.topic, r.id, r.payload)
  {
    var r := ParsePublish(s, n, h);
    PartsParsed(s, n, h);
    PartsJoin(s, h, h + 2 + |r.topic|, h + n, r.topic, r.id, r.payload);
  }

  /** On any byte stream: a PUBLISH parse that succeeds has consumed exactly the one frame its
      header declares, and what it delivered is what that frame carries. */
  lemma {:induction false} PublishConsumesOneFrame(s: bytes)
    ensures Parse(s).Message? ==>
              var (r, d) := (Parse(s), DecodeLength(s[1..], 4));
              && d.Length? && r.used == 1 + d.used + d.n && d.n <= MAX_INBOUND_PACKET_BYTES
              && |r.topic| < 0x10000
              && s[1 + d.used..r.used] == PublishBody(r.topic, r.id, r.payload)
              && s[0] / 0x10 == 3 && s[0] / 2 % 4 == (if r.id.Some? then 1 else 0)
  {
    if Parse(s).Message? {
      var d := DecodeLength(s[1..], 4);
      BodyConsumed(s, d.n, d.used + 1);
    }
  }

  /** The parse of a well-formed frame, whatever follows it in the stream. */
  function Meaning(f: Frame): Parsed
    requires WellFormed(f)
  {
    match f
    case Publish0(_, topic, payload) => Message(Encode(f)[0], topic, payload, None, |Encode(f)|)
    case Publish1(_, _, topic, id, payload) => Message(Encode(f)[0], topic, payload, Some(id), |Encode(f)|)
    case PingResponse => Pong(2)
    case Puback(_) => Control(0x40, 1)
  }

  lemma {:induction false} HeaderParses(s: bytes, n: nat, k: nat)
    requires s != [] && s[0] / 0x10 == 3 && s[0] / 2 % 4 < 2
    requires DecodeLength(s[1..], 4) == Length(n, k)
    ensures Parse(s) == ParsePublish(s, n, k + 1)
  {
  }

  /** A stretch of a stream that is one thing followed by another. */
  lemma {:induction false} Peel(s: bytes, a: nat, c: nat, x: bytes, y: bytes)
    requires a <= c <= |s| && s[a..c] == x + y
    ensures a + |x| <= c && s[a..a + |x|] == x && s[a + |x|..c] == y
  {
    assert |s[a..c]| == |x| + |y|;
    Cut(s, a, a + |x|, c);
    assert s[a..a + |x|] == s[a..c][..|x|] && s[a + |x|..c] == s[a..c][|x|..];
  }

  lemma {:induction false} NumberAt(s: bytes, i: nat, v: int)
    requires i + 2 <= |s| && 0 <= v < 0x10000 && s[i..i + 2] == Be16(v)
    ensures Value16(s[i], s[i + 1]) == v
  {
    TwoBytes(s, i);
    assert Be16(v)[0] == s[i] && Be16(v)[1] == s[i + 1];
  }

  lemma {:induction false} IdAt(s: bytes, i: nat, c: nat, id: int, payload: bytes)
    requires 0 <= id < 0x10000 && i <= c <= |s| && s[i..c] == Be16(id) + payload
    ensures i + 2 <= c && Value16(s[i], s[i + 1]) == id && s[i + 2..c] == payload
  {
    Peel(s, i, c, Be16(id), payload);
    NumberAt(s, i, id);
  }

  lemma {:induction false} TopicFound(s: bytes, h: nat, i: nat, c: nat, topic: bytes, rest: bytes)
    requires |topic| < 0x10000 && h <= c <= |s| && i == h + 2 + |topic| && s[h..c] == Be16(|topic|) + (topic + rest)
    ensures TopicHere(s, h, i, topic) && i <= c && s[i..c] == rest
  {
    IdAt(s, h, c, |topic|, topic + rest);
    Peel(s, h + 2, c, topic, rest);
  }

  lemma {:induction false} PayloadFound(s: bytes, i: nat, c: nat, id: Option<int>, payload: bytes)
    requires (id.Some? ==> 0 <= id.value < 0x10000) && i <= c <= |s| && s[i..c] == AfterTopic(id, payload)
    ensures PayloadHere(s, i, c, id, payload)
  {
    if id.Some? {
      IdAt(s, i, c, id.value, payload);
    }
  }

  lemma {:induction false} PartsFound(s: bytes, h: nat, i: nat, c: nat, topic: bytes, id: Option<int>, payload: bytes)
    requires |topic| < 0x10000 && (id.Some? ==> 0 <= id.value < 0x10000)
    requires h <= c <= |s| && i == h + 2 + |topic| && s[h..c] == Be16(|topic|) + (topic + AfterTopic(id, payload))
    ensures PartsHere(s, h, i, c, topic, id, payload)
  {
    TopicFound(s, h, i, c, topic, AfterTopic(id, payload));
    PayloadFound(s, i, c, id, payload);
  }

  /** A stream that starts with `op`, `k` bytes of remaining length and the body they announce. */
  predicate FrameAt(s: bytes, op: byte, k: nat, body: bytes) {
    && 1 + k + |body| <= |s| && s[0] == op
    && DecodeLength(s[1..], 4) == Length(|body|, k) && s[1 + k..1 + k + |body|] == body
  }

  lemma {:induction false} BodyParses(s: bytes, op: byte, k: nat, topic: bytes, id: Option<int>, payload: bytes)
    requires |topic| < 0x10000 && (id.Some? ==> 0 <= id.value < 0x10000)
    requires FrameAt(s, op, k, PublishBody(topic, id, payload))
    requires |PublishBody(topic, id, payload)| <= MAX_INBOUND_PACKET_BYTES
    requires op / 2 % 4 == (if id.Some? then 1 else 0)
    ensures var n := |PublishBody(topic, id, payload)|;
            ParsePublish(s, n, 1 + k) == Message(op, topic, payload, id, 1 + k + n)
  {
    var n := |PublishBody(topic, id, payload)|;
    PublishBodyIs(topic, id, payload);
    var (h, i) := (1 + k, 3 + k + |topic|);
    PartsFound(s, h, i, h + n, topic, id, payload);
    PartsParse(s, n, h, i, topic, id, payload);
  }

  lemma {:induction false} HeaderThenBody(s: bytes, op: byte, k: nat, topic: bytes, id: Option<int>, payload: bytes)
    requires |topic| < 0x10000 && (id.Some? ==> 0 <= id.value < 0x10000)
    requires |PublishBody(topic, id, payload)| <= MAX_INBOUND_PACKET_BYTES
    requires op / 0x10 == 3 && op / 2 % 4 == (if id.Some? then 1 else 0)
    ensures FrameAt(s, op, k, PublishBody(topic, id, payload)) ==>
              Parse(s) == Message(op, topic, payload, id, 1 + k + |PublishBody(topic, id, payload)|)
  {
    if FrameAt(s, op, k, PublishBody(topic, id, payload)) {
      HeaderParses(s, |PublishBody(topic, id, payload)|, k);
      BodyParses(s, op, k, topic, id, payload);
    }
  }

  lemma {:induction false} Framed(op: byte, len: bytes, body: bytes, rest: bytes, s: bytes)
    requires s == [op] + (len + (body + rest))
    ensures |s| >= 1 + |len| + |body| && s[0] == op && s[1..] == len + (body + rest)
    ensures s[1 + |len|..1 + |len| + |body|] == body
  {
    assert s[0..|s|] == s && s[1..|s|] == s[1..];
    Peel(s, 0, |s|, [op], len + (body + rest));
    Peel(s, 1, |s|, len, body + rest);
    Peel(s, 1 + |len|, |s|, body, rest);
  }

  lemma {:induction false} Ungrouped(a: bytes, b: bytes, c: bytes, d: bytes)
    ensures a + b + c + d == a + (b + (c + d))
  {
  }

  lemma {:induction false} FramedPacket(op: byte, body: bytes, rest: bytes)
    requires |body| <= MAX_INBOUND_PACKET_BYTES
    ensures FrameAt(Packet(op, body) + rest, op, |EncodeLength(|body|)|, body)
  {
    var len := EncodeLength(|body|);
    LengthRoundTrip(|body|, 4, body + rest);
    Ungrouped([op], len, body, rest);
    Framed(op, len, body, rest, Packet(op, body) + rest);
  }

  lemma {:induction false} BodyParsesInPacket(op: byte, topic: bytes, id: Option<int>, payload: bytes, rest: bytes)
    requires op / 0x10 == 3 && op / 2 % 4 == (if id.Some? then 1 else 0)
    requires |topic| < 0x10000 && (id.Some? ==> 0 <= id.value < 0x10000)
    requires |PublishBody(topic, id, payload)| <= MAX_INBOUND_PACKET_BYTES
    ensures var body := PublishBody(topic, id, payload);
            Parse(Packet(op, body) + rest) == Message(op, topic, payload, id, 1 + |EncodeLength(|body|)| + |body|)
  {
    var body := PublishBody(topic, id, payload);
    FramedPacket(op, body, rest);
    HeaderThenBody(Packet(op, body) + rest, op, |EncodeLength(|body|)|, topic, id, payload);
  }

  lemma {:induction false} PacketParses(op: byte, topic: bytes, id: Option<int>, payload: bytes, rest: bytes)
    requires op / 0x10 == 3 && op / 2 % 4 == (if id.Some? then 1 else 0)
    requires |topic| < 0x10000 && (id.Some? ==> 0 <= id.value < 0x10000)
    requires |PublishBody(topic, id, payload)| <= MAX_INBOUND_PACKET_BYTES
    ensures var p := Packet(op, PublishBody(topic, id, payload));
            Parse(p + rest) == Message(op, topic, payload, id, |p|)
  {
    BodyParsesInPacket(op, topic, id, payload, rest);
  }

  /** Parsing inverts encoding: a well-formed frame at the head of any stream is recognised, with
      its own topic, payload and packet id, and nothing behind it is touched. */
  lemma {:induction false} ParseInverts(f: Frame, rest: bytes)
    requires WellFormed(f)
    ensures Parse(Encode(f) + rest) == Meaning(f)
  {
    match f
    case Publish0(_, topic, payload) => PacketParses(Encode(f)[0], topic, None, payload, rest);
    case Publish1(_, _, topic, id, payload) => PacketParses(Encode(f)[0], topic, Some(id), payload, rest);
    case PingResponse =>
    case Puback(_) =>
  }

  /** What the client publishes, it would itself read back. */
  lemma {:induction false} OutboundParses(topic: bytes, id: int, payload: bytes, rest: bytes)
    requires 0 <= id < 0x10000 && |topic| < 0x10000 && |topic| + 4 + |payload| <= MAX_INBOUND_PACKET_BYTES
    ensures var p := PublishFrame(topic, id, payload);
            Parse(p + rest) == Message(0x32, topic, payload, Some(id), |p|)
  {
    PacketParses(0x32, topic, Some(id), payload, rest);
    assert PublishFrame(topic, id, payload) == Packet(0x32, PublishBody(topic, Some(id), payload)) by {
      PublishBodyIs(topic, Some(id), payload);
      assert Str(topic) + Be16(id) + payload == Be16(|topic|) + (topic + (Be16(id) + payload));
    }
  }

  /** PUBLISH at QoS 0 or 1. */
  predicate PublishOp(op: byte) { op / 0x10 == 3 && op / 2 % 4 < 2 }

  /** Nothing but a PUBLISH of QoS 0 or 1, a PINGRESP without a body, a PUBACK or a SUBACK is taken
      for a frame, and whatever starts otherwise drops the connection. */
  lemma {:induction false} OnlyKnownFrames(s: bytes)
    requires s != []
    ensures Parse(s).Message? ==> PublishOp(s[0]) && Parse(s).op == s[0]
    ensures Parse(s).Pong? <==> |s| >= 2 && s[0] == 0xD0 && s[1] == 0
    ensures Parse(s).Control? <==> s[0] in {0x40, 0x90}
    ensures Parse(s).Control? ==> Parse(s) == Control(s[0], 1)
    ensures s[0] !in {0x40, 0x90, 0xD0} && !PublishOp(s[0]) ==> Parse(s).Corrupt?
    ensures |s| >= 2 && s[0] == 0xD0 && s[1] != 0 ==> Parse(s).Corrupt?
  {
  }

  /** A PUBLISH whose length has been read drops the connection exactly when the length is out of
      bounds, the topic would not fit in it, or a packet id would not fit behind the topic. */
  lemma {:induction false} PublishRejected(s: bytes, n: nat, k: nat)
    requires s != [] && PublishOp(s[0]) && DecodeLength(s[1..], 4) == Length(n, k)
    ensures Parse(s).Corrupt? <==>
              || n > MAX_INBOUND_PACKET_BYTES || n < 2
              || (|s| >= k + 3 &&
                  var t: int := (s[k + 1] as int) * 0x100 + s[k + 2] as int;
                  n < 2 + t || (s[0] / 2 % 4 == 1 && n < 4 + t && |s| >= k + 3 + t))
    ensures Parse(s).Starved? ==> |s| < 1 + k + n
  {
  }

  // ---------------------------------------------------------------------------------------
  // Whole streams
  // ---------------------------------------------------------------------------------------

  type Delivery = (bytes, bytes)

  /** The PUBACK written for one parsed frame. */
  function AckFor(p: Parsed): bytes
    requires p.Message? && p.id.Some? ==> 0 <= p.id.value < 0x10000
  {
    if p.Message? && p.id.Some? then PubackFrame(p.id.value) else []
  }

  function DeliveryFor(p: Parsed): seq<Delivery> {
    if p.Message? then [(p.topic, p.payload)] else []
  }

  /** One turn of the wait for the PUBACK of `id`: the wait is over with the stream at `rest`, or
      it goes on from there. */
  datatype Turn = Turn(over: bool, acked: bool, delivered: seq<Delivery>, written: bytes, rest: bytes)

  function AwaitTurn(s: bytes, id: int): (t: Turn)
    ensures !t.over ==> |t.rest| < |s|
    ensures t.acked ==> t.over
  {
    var p := Parse(s);
    if p.Corrupt? || p.Starved? then Turn(true, false, [], [], s)
    else if p == Control(0x40, 1) then
      if |s| < 4 || s[1] != 2 then Turn(true, false, [], [], s)
      else var mine := Value16(s[2], s[3]) == id; Turn(mine, mine, [], [], s[4..])
    else Turn(false, false, DeliveryFor(p), AckFor(p), s[p.used..])
  }

  /** What waiting for the PUBACK of `id` does with a stream: the outcome, the messages handed to
      the callback, the bytes written, and the unread rest. */
  datatype Awaited = Awaited(acked: bool, delivered: seq<Delivery>, written: bytes, rest: bytes)

  function AwaitPuback(s: bytes, id: int): Awaited
    decreases |s|
  {
    var t := AwaitTurn(s, id);
    if t.over then Awaited(t.acked, t.delivered, t.written, t.rest)
    else
      var a := AwaitPuback(t.rest, id);
      a.(delivered := t.delivered + a.delivered, written := t.written + a.written)
  }

  function EncodeAll(fs: seq<Frame>): bytes
    requires forall f :: f in fs ==> WellFormed(f)
  {
    if fs == [] then [] else Encode(fs[0]) + EncodeAll(fs[1..])
  }

  function MessagesOf(f: Frame): seq<Delivery> {
    if f.Publish0? || f.Publish1? then [(f.topic, f.payload)] else []
  }

  /** Topics and payloads of the application messages among `fs`, in order. */
  function Messages(fs: seq<Frame>): seq<Delivery> {
    if fs == [] then [] else MessagesOf(fs[0]) + Messages(fs[1..])
  }

  function AcksOf(f: Frame): bytes
    requires WellFormed(f)
  {
    if f.Publish1? then PubackFrame(f.id) else []
  }

  /** One PUBACK for each QoS 1 message among `fs`, in order. */
  function Acks(fs: seq<Frame>): bytes
    requires forall f :: f in fs ==> WellFormed(f)
  {
    if fs == [] then [] else AcksOf(fs[0]) + Acks(fs[1..])
  }

  /** Waiting passes over one frame that is not the awaited PUBACK. */
  lemma {:induction false} OneFrameConsumed(f: Frame, tail: bytes, id: int)
    requires WellFormed(f) && f != Puback(id)
    ensures var a := AwaitPuback(tail, id);
            AwaitPuback(Encode(f) + tail, id) ==
            a.(delivered := MessagesOf(f) + a.delivered, written := AcksOf(f) + a.written)
  {
    var s := Encode(f) + tail;
    ParseInverts(f, tail);
    assert s[|Encode(f)|..] == tail;
    match f {
      case Puback(i) =>
        assert Encode(f) == [0x40, 2] + Be16(i);
        assert s[1] == 2 && s[2] == i / 0x100 && s[3] == i % 0x100;
        assert Value16(s[2], s[3]) == i;
        assert s[4..] == tail;
      case PingResponse =>
        assert Encode(f) == [0xD0, 0];
      case Publish0(_, _, _) =>
      case Publish1(_, _, _, _, _) =>
    }
  }

  lemma {:induction false} AwaitedConsumed(id: int, rest: bytes)
    requires 0 < id < 0x10000
    ensures AwaitPuback(PubackFrame(id) + rest, id) == Awaited(true, [], [], rest)
  {
    var s := PubackFrame(id) + rest;
    ParseInverts(Puback(id), rest);
    assert PubackFrame(id) == [0x40, 2] + Be16(id);
    assert s[2..4] == Be16(id) && s[4..] == rest && s[1] == 2;
    NumberAt(s, 2, id);
  }

  lemma {:induction false} Regrouped(a: bytes, b: bytes, c: bytes, d: bytes)
    ensures (a + b) + c + d == a + (b + c + d)
  {
  }

  /** A stream of well-formed frames (messages, pings, acknowledgements of earlier publishes) in
      front of the awaited PUBACK is consumed frame by frame: every message is delivered once, in
      order, with its own topic and payload, every QoS 1 id is acknowledged, and the stream is
      left exactly behind the awaited PUBACK. */
  lemma {:induction false} StreamConsumed(fs: seq<Frame>, id: int, rest: bytes)
    requires 0 < id < 0x10000
    requires forall f :: f in fs ==> WellFormed(f) && f != Puback(id)
    ensures AwaitPuback(EncodeAll(fs) + PubackFrame(id) + rest, id) == Awaited(true, Messages(fs), Acks(fs), rest)
  {
    if fs == [] {
      assert EncodeAll(fs) + PubackFrame(id) + rest == PubackFrame(id) + rest;
      AwaitedConsumed(id, rest);
    } else {
      Regrouped(Encode(fs[0]), EncodeAll(fs[1..]), PubackFrame(id), rest);
      StreamConsumed(fs[1..], id, rest);
      OneFrameConsumed(fs[0], EncodeAll(fs[1..]) + PubackFrame(id) + rest, id);
    }
  }

  /** The `u` bytes at the head of `s` are a packet the wait for the PUBACK of `id` passes over: a PUBLISH,
      a PINGRESP, the first byte of a SUBACK, or the PUBACK of another id. */
  predicate PassedOver(s: bytes, u: nat, id: int) {
    && 0 < u <= |s|
    && (|| (PublishOp(s[0]) && Parse(s).Message? && Parse(s).used == u)
        || s[..u] == [0xD0, 0] || s[..u] == [0x90]
        || (u == 4 && s[0] == 0x40 && s[1] == 2 && Value16(s[2], s[3]) != id))
  }

  predicate PubackHere(s: bytes, id: int) { |s| >= 4 && s[0] == 0x40 && s[1] == 2 && Value16(s[2], s[3]) == id }

  /** Only packets the wait passes over come before a PUBACK of `id` in `s`, and `rest` comes behind it. */
  ghost predicate PubackFollows(s: bytes, id: int, rest: bytes)
    decreases |s|
  {
    if PubackHere(s, id) then rest == s[4..]
    else exists u: nat :: PassedOver(s, u, id) && PubackFollows(s[u..], id, rest)
  }

  lemma {:induction false} TurnPasses(s: bytes, id: int)
    ensures var t := AwaitTurn(s, id);
            && (!t.over ==> PassedOver(s, |s| - |t.rest|, id) && t.rest == s[|s| - |t.rest|..])
            && (t.acked <==> PubackHere(s, id)) && (t.acked ==> t.rest == s[4..])
  {
    if s != [] {
      OnlyKnownFrames(s);
    }
  }

  lemma {:induction false} PassedOverInTurn(s: bytes, u: nat, id: int)
    requires PassedOver(s, u, id)
    ensures !AwaitTurn(s, id).over && AwaitTurn(s, id).rest == s[u..]
  {
    OnlyKnownFrames(s);
  }

  lemma {:induction false} WaitGoesOn(s: bytes, id: int)
    requires !AwaitTurn(s, id).over
    ensures var a, b := AwaitPuback(s, id), AwaitPuback(AwaitTurn(s, id).rest, id);
            a.acked == b.acked && a.rest == b.rest
  {
  }

  lemma {:induction false} FollowsOn(s: bytes, id: int, rest: bytes)
    requires !AwaitTurn(s, id).over
    ensures PubackFollows(s, id, rest) <==> PubackFollows(AwaitTurn(s, id).rest, id, rest)
  {
    TurnPasses(s, id);
    forall u: nat | PassedOver(s, u, id)
      ensures AwaitTurn(s, id).rest == s[u..]
    {
      PassedOverInTurn(s, u, id);
    }
  }

  lemma {:induction false} NothingFollows(s: bytes, id: int, rest: bytes)
    requires AwaitTurn(s, id).over
    ensures PubackFollows(s, id, rest) <==> PubackHere(s, id) && rest == s[4..]
  {
    forall u: nat | PassedOver(s, u, id)
      ensures false
    {
      PassedOverInTurn(s, u, id);
    }
  }

  /** On any byte stream: the wait ends with the acknowledgement exactly when only packets it passes over
      come before a well-formed PUBACK of `id`, and the stream is then left right behind that. */
  lemma {:induction false} AcknowledgedExactly(s: bytes, id: int, rest: bytes)
    ensures AwaitPuback(s, id).acked && AwaitPuback(s, id).rest == rest <==> PubackFollows(s, id, rest)
    decreases |s|
  {
    TurnPasses(s, id);
    if AwaitTurn(s, id).over {
      NothingFollows(s, id, rest);
    } else {
      WaitGoesOn(s, id);
      FollowsOn(s, id, rest);
      AcknowledgedExactly(AwaitTurn(s, id).rest, id, rest);
    }
  }
}
