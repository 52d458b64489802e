/** The MQTT client of mqtt_client.py, step by step, over a socket that is a stream of unread
    inbound bytes and a record of the bytes written. */
module MqttClient {
  import opened Common
  import opened MqttWire

  datatype PublishResult =
    | Acked
    | TooLong      // MQTTException before anything is written
    | Failed       // OSError or MQTTException while waiting for the PUBACK

  /** The packet id after `pid`, wrapping 65535 to 1. */
  function NextId(pid: int): (r: int)
    requires 0 <= pid < 0x10000
    ensures 1 <= r < 0x10000
  {
    if pid + 1 > 65535 then 1 else pid + 1
  }

  function IdAfter(pid: int, n: nat): (r: int)
    requires 0 <= pid < 0x10000
    ensures 0 <= r < 0x10000
  {
    if n == 0 then pid else NextId(IdAfter(pid, n - 1))
  }

  lemma {:induction false} IdClosedForm(pid: int, n: nat)
    requires 1 <= pid < 0x10000
    ensures IdAfter(pid, n) == (pid - 1 + n) % 65535 + 1
  {
    if n > 0 {
      IdClosedForm(pid, n - 1);
    }
  }

  /** Ids repeat with period 65535 and not before: any 65535 consecutive ids are distinct. */
  lemma {:induction false} IdsDistinct(pid: int, n: nat, m: nat)
    requires 1 <= pid < 0x10000
    ensures IdAfter(pid, n) == IdAfter(pid, m) <==> (n - m) % 65535 == 0
  {
    IdClosedForm(pid, n);
    IdClosedForm(pid, m);
    var (x, y) := (pid - 1 + n, pid - 1 + m);
    assert x - y == n - m;
    assert (x % 65535 == y % 65535) <==> (x - y) % 65535 == 0;
  }

  lemma {:induction false} Assoc<T>(a: seq<T>, b: seq<T>, c: seq<T>)
    ensures (a + b) + c == a + (b + c)
  {
  }

  /** The segments of `publish` make up the frame of the pre-joined message. */
  lemma {:induction false} SegmentsJoin(start: bytes, header: bytes, topic: bytes, id: int, payload: bytes)
    requires |topic| < 0x10000 && 0 <= id < 0x10000
    requires header == [0x32] + EncodeLength(|topic| + 4 + |payload|)
    ensures start + header + Str(topic) + Be16(id) + payload == start + PublishFrame(topic, id, payload)
  {
    Assoc(start, header, Str(topic));
    Assoc(start, header + Str(topic), Be16(id));
    Assoc(start, header + Str(topic) + Be16(id), payload);
    Assoc(header, Str(topic), Be16(id));
    Assoc(header, Str(topic) + Be16(id), payload);
  }

  lemma {:induction false} ConnectFixedPart(clean: bool, keepalive: int, rest: bytes)
    requires 0 <= keepalive < 0x10000
    requires rest == [4] + PROTOCOL_NAME + [4, if clean then 2 else 0] + Be16(keepalive)
    ensures var fixed := Str(PROTOCOL_NAME) + [4, if clean then 2 else 0] + Be16(keepalive);
            [0] + rest == fixed && |fixed| == 10
  {
  }

  lemma {:induction false} Regroup(start: bytes, head: bytes, z: bytes, rest: bytes, tail: bytes)
    ensures start + (head + z) + rest + tail == start + (head + ((z + rest) + tail))
  {
  }

  lemma {:induction false} ConnectSegmentsJoin(start: bytes, header: bytes, rest: bytes, clean: bool, keepalive: int,
          clientId: bytes)
    requires 0 <= keepalive < 0x10000 && |clientId| < 0x10000
    requires header == [0x10] + EncodeLength(12 + |clientId|) + [0]
    requires rest == [4] + PROTOCOL_NAME + [4, if clean then 2 else 0] + Be16(keepalive)
    ensures start + header + rest + Str(clientId) == start + ConnectFrame(clean, keepalive, clientId)
  {
    ConnectFixedPart(clean, keepalive, rest);
    Regroup(start, [0x10] + EncodeLength(12 + |clientId|), [0], rest, Str(clientId));
  }

  /** The payload on the wire: the message, or the message with the fragment joined in. */
  function Payload(msg: bytes, splice: Option<bytes>): bytes
    requires splice.Some? ==> msg != []
  {
    if splice.Some? then Joined(msg, splice.value) else msg
  }

  /** Without a fragment the message goes out as it is; with one, a message that is an object goes out as
      the object of its members followed by the fragment's. */
  lemma {:induction false} PayloadKeepsMembers(msg: bytes, xs: seq<bytes>, ys: seq<bytes>)
    ensures Payload(msg, None) == msg
    ensures Payload(Object(xs), Some(Listed(ys))) == Object(xs + ys) <==> xs != [] && ys != []
  {
    JoiningKeepsMembers(xs, ys);
  }

  lemma {:induction false} LengthStep(front: bytes, sz: nat)
    requires sz > 0x7F
    ensures front + EncodeLength(sz) == (front + [sz % 0x80 + 0x80]) + EncodeLength(sz / 0x80)
  {
  }

  /** What is still to come, after what was done, makes up the whole wait. */
  ghost predicate Continues(whole: Awaited, rest: Awaited, done: seq<Delivery>, wrote: bytes) {
    whole == rest.(delivered := done + rest.delivered, written := wrote + rest.written)
  }

  /** Where the length loop stands after `k` bytes, `n` collected and the next group worth
      `weight`: the whole number is `n` plus `weight` times what the rest decodes to. */
  ghost predicate Resumes(whole: Decoded, rest: Decoded, n: nat, weight: nat, k: nat) {
    whole == if rest.Length? then Length(n + weight * rest.n, k + rest.used) else rest
  }

  lemma {:induction false} TurnTaken(whole: Awaited, s: bytes, id: int, done: seq<Delivery>, wrote: bytes)
    requires Continues(whole, AwaitPuback(s, id), done, wrote)
    ensures var t := AwaitTurn(s, id);
            if t.over then whole == Awaited(t.acked, done + t.delivered, wrote + t.written, t.rest)
            else Continues(whole, AwaitPuback(t.rest, id), done + t.delivered, wrote + t.written)
  {
    var t := AwaitTurn(s, id);
    if !t.over {
      var a := AwaitPuback(t.rest, id);
      Assoc(done, t.delivered, a.delivered);
      Assoc(wrote, t.written, a.written);
    }
  }

  lemma {:induction false} Distribute(w: nat, a: nat, b: nat)
    ensures w * (a + 0x80 * b) == a * w + w * 0x80 * b
  {
  }

  lemma {:induction false} ResumesStep(whole: Decoded, s: bytes, left: nat, n: nat, weight: nat, k: nat)
    requires left > 0 && s != []
    requires Resumes(whole, DecodeLength(s, left), n, weight, k)
    ensures s[0] < 0x80 ==> whole == Length(n + s[0] % 0x80 * weight, k + 1)
    ensures s[0] >= 0x80 ==>
              Resumes(whole, DecodeLength(s[1..], left - 1), n + s[0] % 0x80 * weight, weight * 0x80, k + 1)
  {
    var rest := DecodeLength(s[1..], left - 1);
    if s[0] >= 0x80 && rest.Length? {
      Distribute(weight, s[0] % 0x80, rest.n);
    }
  }

  class Client {
    /** Bytes the broker has sent and the client has not read. */
    var inbound: bytes
    /** Every byte written to the socket. */
    var sent: bytes
    /** Topics and payloads handed to the callback. */
    var delivered: seq<Delivery>
    var pid: int
    var closed: bool
    /** The sizes passed to `sock.read`. */
    ghost var requests: seq<nat>

    ghost predicate Valid()
      reads this
    {
      && 0 <= pid < 0x10000
      && forall i :: 0 <= i < |requests| ==> requests[i] <= MAX_INBOUND_PACKET_BYTES
    }

    constructor (stream: bytes)
      ensures Valid() && inbound == stream && sent == [] && delivered == [] && pid == 0 && !closed
    {
      inbound, sent, delivered, pid, closed, requests := stream, [], [], 0, false, [];
    }

    method Write(data: bytes)
      modifies `sent
      ensures sent == old(sent) + data
    {
      sent := sent + data;
    }

    method SendStr(s: bytes)
      requires |s| < 0x10000
      modifies `sent
      ensures sent == old(sent) + Str(s)
    {
      Write(Be16(|s|));
      Write(s);
    }

    /** `_abort_corrupt_inbound`, short of raising. */
    method Abort()
      modifies `closed
      ensures closed
    {
      closed := true;
    }

    /** `_read_required(size)`; None where a short read raises OSError. */
    method ReadRequired(size: nat) returns (data: Option<bytes>)
      requires Valid() && size <= MAX_INBOUND_PACKET_BYTES
      modifies `inbound, `requests
      ensures Valid()
      ensures data.Some? <==> size <= |old(inbound)|
      ensures data.Some? ==> data.value == old(inbound)[..size] && inbound == old(inbound)[size..]
    {
      requests := requests + [size];
      if size <= |inbound| {
        data := Some(inbound[..size]);
        inbound := inbound[size..];
      } else {
        inbound := [];
        data := None;
      }
    }

    /** `_read_required(size)` at offset `at` of the stream `s`. */
    method ReadAt(size: nat, ghost s: bytes, ghost at: nat) returns (data: Option<bytes>)
      requires Valid() && size <= MAX_INBOUND_PACKET_BYTES && at <= |s| && inbound == s[at..]
      modifies `inbound, `requests
      ensures Valid()
      ensures data.Some? <==> at + size <= |s|
      ensures data.Some? ==> data.value == s[at..at + size] && inbound == s[at + size..]
    {
      data := ReadRequired(size);
    }

    /** `_recv_len` */
    method RecvLen() returns (r: Decoded)
      requires Valid()
      modifies `inbound, `requests, `closed
      ensures Valid()
      ensures r == DecodeLength(old(inbound), 4)
      ensures r.Length? ==> inbound == old(inbound)[r.used..] && closed == old(closed)
      ensures r.FifthByte? ==> closed
    {
      ghost var whole := DecodeLength(inbound, 4);
      var n: nat, sh: nat, weight: nat := 0, 0, 1;      // weight is 1 << sh
      var k: nat := 0;
      while true
        invariant Valid() && closed == old(closed)
        invariant k < 4 && sh == 7 * k && k <= |old(inbound)| && inbound == old(inbound)[k..]
        invariant Resumes(whole, DecodeLength(inbound, 4 - k), n, weight, k)
        decreases 4 - k
      {
        ghost var before := inbound;
        var data := ReadRequired(1);
        if data == None {
          return EndOfStream;
        }
        var b := data.value[0];
        assert b == before[0] && inbound == before[1..];
        ResumesStep(whole, before, 4 - k, n, weight, k);
        n := n + b % 0x80 * weight;
        k := k + 1;
        if b < 0x80 {
          return Length(n, k);
        }
        sh := sh + 7;
        weight := weight * 0x80;
        if sh >= 28 {
          Abort();
          return FifthByte;
        }
      }
    }

    /** The callback, and then the acknowledgement of a QoS 1 message. */
    method Deliver(p: Parsed)
      requires p.Message? && (p.id.Some? ==> 0 <= p.id.value < 0x10000)
      modifies `sent, `delivered
      ensures delivered == old(delivered) + DeliveryFor(p)
      ensures sent == old(sent) + AckFor(p)
    {
      delivered := delivered + [(p.topic, p.payload)];
      if p.id.Some? {
        Write(PubackFrame(p.id.value));
      }
    }

    /** `wait_msg` once the topic has been read. */
    method ReadBody(op: byte, n: nat, h: nat, topic: bytes, ghost s: bytes) returns (p: Parsed)
      requires Valid() && 1 <= h && n <= MAX_INBOUND_PACKET_BYTES && |topic| <= n - 2 && h + 2 + |topic| <= |s|
      requires s[0] == op && |topic| == Value16(s[h], s[h + 1]) && topic == s[h + 2..h + 2 + |topic|]
      requires inbound == s[h + 2 + |topic|..]
      modifies `inbound, `sent, `delivered, `requests, `closed
      ensures Valid()
      ensures p == ParsePublish(s, n, h)
      ensures p.Message? ==> inbound == s[p.used..] && closed == old(closed)
      ensures delivered == old(delivered) + DeliveryFor(p)
      ensures sent == old(sent) + AckFor(p)
      ensures p.Corrupt? ==> closed
    {
      var remaining := n - 2 - |topic|;
      var id := None;
      if op / 2 % 4 != 0 {
        if remaining < 2 {
          Abort();
          return Corrupt;
        }
        remaining := remaining - 2;
        var raw := ReadAt(2, s, h + 2 + |topic|);
        if raw == None {
          return Starved;
        }
        id := Some(Value16(raw.value[0], raw.value[1]));
      }
      var payload := ReadAt(remaining, s, h + n - remaining);
      if payload == None {
        return Starved;
      }
      p := Message(op, topic, payload.value, id, h + n);
      Deliver(p);
    }

    /** `wait_msg` from the remaining length on; `s` is the stream the frame started and `h` the
        size of its fixed header. */
    method ReadPublish(op: byte, n: nat, h: nat, ghost s: bytes) returns (p: Parsed)
      requires Valid() && 1 <= h <= |s| && s[0] == op && inbound == s[h..]
      modifies `inbound, `sent, `delivered, `requests, `closed
      ensures Valid()
      ensures p == ParsePublish(s, n, h)
      ensures p.Message? ==> inbound == s[p.used..] && closed == old(closed)
      ensures delivered == old(delivered) + DeliveryFor(p)
      ensures sent == old(sent) + AckFor(p)
      ensures p.Corrupt? ==> closed
    {
      if n > MAX_INBOUND_PACKET_BYTES || n < 2 {
        Abort();
        return Corrupt;
      }
      var field := ReadAt(2, s, h);
      if field == None {
        return Starved;
      }
      var topicLen := Value16(field.value[0], field.value[1]);
      if topicLen > n - 2 {
        Abort();
        return Corrupt;
      }
      var topic := ReadAt(topicLen, s, h + 2);
      if topic == None {
        return Starved;
      }
      p := ReadBody(op, n, h, topic.value, s);
    }

    /** `wait_msg`; Pong stands for the None returned after a PINGRESP, Corrupt and Starved for the
        exceptions. */
    method WaitMsg() returns (p: Parsed)
      requires Valid()
      modifies `inbound, `sent, `delivered, `requests, `closed
      ensures Valid()
      ensures p == Parse(old(inbound))
      ensures p.Pong? || p.Control? || p.Message? ==> inbound == old(inbound)[p.used..] && closed == old(closed)
      ensures delivered == old(delivered) + DeliveryFor(p)
      ensures sent == old(sent) + AckFor(p)
      ensures p.Corrupt? ==> closed
    {
      ghost var s := inbound;
      var res := ReadRequired(1);
      if res == None {
        return Starved;
      }
      var op := res.value[0];
      if op == 0xD0 {
        var sz := ReadRequired(1);
        if sz == None {
          return Starved;
        }
        if sz.value[0] != 0 {
          Abort();
          return Corrupt;
        }
        return Pong(2);
      }
      if op / 0x10 != 3 {
        if op == 0x40 || op == 0x90 {
          return Control(op, 1);
        }
        Abort();
        return Corrupt;
      }
      if op / 2 % 4 >= 2 {
        Abort();
        return Corrupt;
      }
      var len := RecvLen();
      match len {
        case EndOfStream => return Starved;
        case FifthByte => return Corrupt;
        case Length(n, used) =>
          assert inbound == s[used + 1..];
          p := ReadPublish(op, n, used + 1, s);
      }
    }

    /** One turn of the wait at the end of `publish`: read a packet, and the body of a PUBACK. */
    method AwaitOnce(id: int) returns (over: bool, acked: bool)
      requires Valid()
      modifies `inbound, `sent, `delivered, `requests, `closed
      ensures Valid()
      ensures var t := AwaitTurn(old(inbound), id);
              && over == t.over && acked == t.acked
              && delivered == old(delivered) + t.delivered
              && sent == old(sent) + t.written
              && (!over || acked ==> inbound == t.rest && closed == old(closed))
    {
      ghost var s := inbound;
      var p := WaitMsg();
      if p.Corrupt? || p.Starved? {
        return true, false;
      }
      if p != Control(0x40, 1) {
        return false, false;
      }
      var sz := ReadAt(1, s, 1);
      if sz == None {
        return true, false;
      }
      if sz.value[0] != 2 {
        Abort();
        return true, false;
      }
      var raw := ReadAt(2, s, 2);
      if raw == None {
        return true, false;
      }
      assert raw.value[0] == s[2] && raw.value[1] == s[3];
      var mine := Value16(raw.value[0], raw.value[1]) == id;
      return mine, mine;
    }

    /** One turn, as a part of the whole wait: `done` and `wrote` are what it has delivered and
        written so far, on top of `delivered0` and `sent0`. */
    method AwaitStep(id: int, ghost whole: Awaited, ghost delivered0: seq<Delivery>, ghost sent0: bytes,
            ghost done: seq<Delivery>, ghost wrote: bytes)
      returns (over: bool, acked: bool, ghost nowDone: seq<Delivery>, ghost nowWrote: bytes)
      requires Valid() && Continues(whole, AwaitPuback(inbound, id), done, wrote)
      requires delivered == delivered0 + done && sent == sent0 + wrote
      modifies `inbound, `sent, `delivered, `requests, `closed
      ensures Valid()
      ensures delivered == delivered0 + nowDone && sent == sent0 + nowWrote
      ensures over ==>
                && acked == whole.acked && nowDone == whole.delivered && nowWrote == whole.written
                && (acked ==> inbound == whole.rest && closed == old(closed))
      ensures !over ==>
                && Continues(whole, AwaitPuback(inbound, id), nowDone, nowWrote)
                && |inbound| < |old(inbound)| && closed == old(closed)
    {
      TurnTaken(whole, inbound, id, done, wrote);
      ghost var t := AwaitTurn(inbound, id);
      Assoc(delivered0, done, t.delivered);
      Assoc(sent0, wrote, t.written);
      nowDone, nowWrote := done + t.delivered, wrote + t.written;
      over, acked := AwaitOnce(id);
    }

    /** The wait at the end of `publish`: read packets until the PUBACK of `id`; false where an
        exception leaves the loop. */
    method AwaitAck(id: int) returns (acked: bool)
      requires Valid()
      modifies `inbound, `sent, `delivered, `requests, `closed
      ensures Valid()
      ensures var a := AwaitPuback(old(inbound), id);
              && acked == a.acked
              && delivered == old(delivered) + a.delivered
              && sent == old(sent) + a.written
              && (acked ==> inbound == a.rest && closed == old(closed))
    {
      ghost var whole := AwaitPuback(inbound, id);
      ghost var done: seq<Delivery>, wrote: bytes := [], [];
      while true
        invariant Valid() && closed == old(closed)
        invariant delivered == old(delivered) + done && sent == old(sent) + wrote
        invariant Continues(whole, AwaitPuback(inbound, id), done, wrote)
        decreases |inbound|
      {
        var over, mine;
        over, mine, done, wrote := AwaitStep(id, whole, old(delivered), old(sent), done, wrote);
        if over {
          return mine;
        }
      }
    }

    /** The remaining-length loops of `publish` and `connect`: write the length bytes of `n` behind
        the first byte of `pkt`; `i` is the index of the last one. */
    method PackLength(pkt: array<byte>, n: nat) returns (i: nat)
      requires |EncodeLength(n)| < pkt.Length
      modifies pkt
      ensures i == |EncodeLength(n)|
      ensures pkt[0] == old(pkt[0]) && pkt[1..i + 1] == EncodeLength(n)
      ensures forall k :: i < k < pkt.Length ==> pkt[k] == old(pkt[k])
    {
      var sz := n;
      i := 1;
      ghost var front: bytes := [];
      while sz > 0x7F
        invariant |front| == i - 1 && i - 1 + |EncodeLength(sz)| == |EncodeLength(n)|
        invariant i < pkt.Length && pkt[1..i] == front
        invariant front + EncodeLength(sz) == EncodeLength(n)
        invariant pkt[0] == old(pkt[0]) && forall k :: i <= k < pkt.Length ==> pkt[k] == old(pkt[k])
      {
        LengthStep(front, sz);
        front := front + [sz % 0x80 + 0x80];
        pkt[i] := sz % 0x80 + 0x80;
        sz := sz / 0x80;
        i := i + 1;
      }
      pkt[i] := sz;
      assert pkt[1..i + 1] == front + [sz];
    }

    method NextPacketId() returns (id: int)
      requires Valid()
      modifies `pid
      ensures Valid() && pid == id == NextId(old(pid))
    {
      pid := pid + 1;
      if pid > 65535 {
        pid := 1;
      }
      id := pid;
    }

    method WritePayload(msg: bytes, splice: Option<bytes>)
      requires splice.Some? ==> msg != []
      modifies `sent
      ensures sent == old(sent) + Payload(msg, splice)
    {
      match splice {
        case None =>
          Write(msg);
        case Some(fragment) =>
          Write(msg[..|msg| - 1]);
          Write([0x2C]);
          Write(fragment);
          Write([0x7D]);
      }
    }

    /** The fixed header of `publish`. */
    method WritePublishHeader(pkt: array<byte>, sz: nat)
      requires pkt.Length == 4 && pkt[0] == 0x32 && sz <= MAX_PUBLISH_REMAINING
      modifies `sent, pkt
      ensures sent == old(sent) + ([0x32] + EncodeLength(sz))
    {
      var i := PackLength(pkt, sz);
      assert pkt[..i + 1] == [pkt[0]] + pkt[1..i + 1];
      Write(pkt[..i + 1]);
    }

    /** The packet id, in the bytes of the header already sent. */
    method WriteId(pkt: array<byte>, id: int)
      requires pkt.Length >= 2 && 0 <= id < 0x10000
      modifies `sent, pkt
      ensures sent == old(sent) + Be16(id)
    {
      pkt[0], pkt[1] := id / 0x100, id % 0x100;
      assert pkt[..2] == Be16(id);
      Write(pkt[..2]);
    }

    /** The writes of `publish`: fixed header, topic, packet id (reusing the header's buffer) and
        the payload, which is written in four segments when a fragment is spliced in. */
    method WritePublish(topic: bytes, msg: bytes, id: int, splice: Option<bytes>, sz: nat)
      requires |topic| < 0x10000 && 0 <= id < 0x10000 && (splice.Some? ==> msg != [])
      requires sz == |topic| + 4 + |Payload(msg, splice)| <= MAX_PUBLISH_REMAINING
      modifies `sent
      ensures sent == old(sent) + PublishFrame(topic, id, Payload(msg, splice))
    {
      var pkt := new byte[4] [0x32, 0, 0, 0];
      WritePublishHeader(pkt, sz);
      SendStr(topic);
      WriteId(pkt, id);
      WritePayload(msg, splice);
      SegmentsJoin(old(sent), [0x32] + EncodeLength(sz), topic, id, Payload(msg, splice));
    }

    /** `publish(topic, msg, packet_id, splice_fragment)`.  A spliced body carries at least its
        closing brace (Core 0 checks that before the call). */
    method Publish(topic: bytes, msg: bytes, packetId: Option<int>, splice: Option<bytes>) returns (r: PublishResult)
      requires Valid() && |topic| < 0x10000
      requires packetId.Some? ==> 0 <= packetId.value < 0x10000
      requires splice.Some? ==> msg != []
      modifies this
      ensures Valid()
      ensures r.TooLong? <==> |topic| + 4 + |Payload(msg, splice)| > MAX_PUBLISH_REMAINING
      ensures r.TooLong? ==> sent == old(sent) && delivered == old(delivered) && inbound == old(inbound) && pid == old(pid)
      ensures !r.TooLong? ==>
                var id := if packetId.Some? then packetId.value else NextId(old(pid));
                var a := AwaitPuback(old(inbound), id);
                && (r.Acked? <==> a.acked)
                && sent == old(sent) + PublishFrame(topic, id, Payload(msg, splice)) + a.written
                && delivered == old(delivered) + a.delivered
                && (r.Acked? ==> inbound == a.rest)
                && pid == (if packetId.Some? then old(pid) else id)
    {
      var sz := 2 + |topic| + |msg| + 2;
      if splice.Some? {
        sz := sz + |splice.value| + 1;
      }
      if sz > MAX_PUBLISH_REMAINING {
        return TooLong;
      }
      var id;
      if packetId == None {
        id := NextPacketId();
      } else {
        id := packetId.value;
      }
      WritePublish(topic, msg, id, splice, sz);
      var acked := AwaitAck(id);
      r := if acked then Acked else Failed;
    }

    /** `msg`: the variable header behind the first length byte of the protocol name; None where an
        over-long keepalive raises. */
    method ConnectVariableHeader(clean: bool, keepalive: nat) returns (r: Option<bytes>)
      ensures r.Some? <==> keepalive < 0x10000
      ensures r.Some? ==> r.value == [4] + PROTOCOL_NAME + [4, if clean then 2 else 0] + Be16(keepalive)
    {
      var msg := new byte[9] [4, 0x4D, 0x51, 0x54, 0x54, 4, 2, 0, 0];
      msg[6] := if clean then 2 else 0;
      if keepalive != 0 {
        if keepalive > 65535 {
          return None;
        }
        msg[7], msg[8] := keepalive / 0x100, keepalive % 0x100;
      }
      return Some(msg[..]);
    }

    /** `premsg`: the fixed header and the first length byte of the protocol name. */
    method ConnectFixedHeader(sz: nat) returns (header: bytes)
      requires 12 <= sz < 0x1000C
      ensures header == [0x10] + EncodeLength(sz) + [0]
    {
      var premsg := new byte[6] [0x10, 0, 0, 0, 0, 0];
      var i := PackLength(premsg, sz);
      header := premsg[..i + 2];
      assert header == [premsg[0]] + premsg[1..i + 1] + [premsg[i + 1]];
    }

    /** The CONNECT packet as `connect` writes it; false where an over-long keep alive raises. */
    method WriteConnect(clean: bool, keepalive: nat, clientId: bytes) returns (ok: bool)
      requires Valid() && |clientId| < 0x10000
      modifies `sent
      ensures ok <==> keepalive < 0x10000
      ensures sent == old(sent) + (if ok then ConnectFrame(clean, keepalive, clientId) else [])
    {
      var sz := 10 + 2 + |clientId|;
      var msg := ConnectVariableHeader(clean, keepalive);
      if msg == None {
        return false;
      }
      var header := ConnectFixedHeader(sz);
      Write(header);
      Write(msg.value);
      SendStr(clientId);
      ConnectSegmentsJoin(old(sent), header, msg.value, clean, keepalive, clientId);
      ok := true;
    }

    /** The SUBSCRIBE packet as `subscribe` writes it; None where an over-long topic raises. */
    method WriteSubscribe(topic: bytes) returns (r: Option<int>)
      requires Valid()
      modifies `sent, `pid
      ensures Valid()
      ensures r == None <==> |topic| > 122
      ensures r == None ==> sent == old(sent) && pid == old(pid)
      ensures r.Some? ==> r.value == pid == NextId(old(pid)) && sent == old(sent) + SubscribeFrame(pid, topic)
    {
      if |topic| > 122 {
        return None;
      }
      var id := NextPacketId();
      var pkt: bytes := [0x82, 2 + 2 + |topic| + 1, id / 0x100, id % 0x100];
      Write(pkt);
      SendStr(topic);
      Write([1]);
      assert sent == old(sent) + SubscribeFrame(id, topic);
      r := Some(id);
    }
  }
}
