/** The subscriber ("display") binary: its SUBSCRIBE and PINGREQ encoders,
    the PUBLISH body decoder, and its main: handshake, subscription, then a
    listening loop that keeps the connection alive and dispatches each
    inbound packet on its type. */
module Subscriber {
  import opened Io
  import opened RemainingLength
  import opened Codec

  // ---------------------------------------------------------------------
  // Encoders and decoder

  /** SUBSCRIBE (MQTT 3.1.1 section 3.8) with one topic filter: header 0x82,
      remaining length, packet identifier, 2-byte topic length truncated to
      sixteen bits, the topic, the requested QoS. */
  function SubscribeLayout(packetId: U16, topic: seq<Byte>, qos: Byte): seq<Byte>
  {
    [0x82] + Encoding(5 + |topic|)
      + [packetId / 256, packetId % 256, (|topic| / 256) % 256, |topic| % 256]
      + topic + [qos]
  }

  /** `subscribe_packet`: the variable header and payload are assembled
      first, then the remaining length is encoded from their size. */
  method SubscribePacket(packetId: U16, topic: seq<Byte>, qos: Byte) returns (packet: seq<Byte>)
    ensures packet == SubscribeLayout(packetId, topic, qos)
    ensures packet[|packet| - |topic| - 1..] == topic + [qos]
  {
    packet := [0x82];
    var body: seq<Byte> := [];
    body := body + [packetId / 256];            // (packet_id >> 8) as u8
    body := body + [packetId % 256];            // (packet_id & 0xFF) as u8
    body := body + [(|topic| / 256) % 256];     // (len >> 8) as u8
    body := body + [|topic| % 256];             // (len & 0xFF) as u8
    body := body + topic;
    body := body + [qos];
    var remLen := EncodeRemainingLength(|body|);
    packet := packet + remLen;
    packet := packet + body;
  }

  /** The remaining length of SUBSCRIBE is the exact number of bytes that
      follow it, so a reader of the field lands on the packet identifier and
      decodes the count of everything after the field. */
  lemma SubscribeFramed(packetId: U16, topic: seq<Byte>, qos: Byte, input: seq<Event>, pos: nat)
    requires 5 + |topic| <= MaxValue
    requires Carries(input, pos, SubscribeLayout(packetId, topic, qos))
    ensures var p := SubscribeLayout(packetId, topic, qos);
      var (r, next) := LengthField(input, pos + 1);
      && pos + 1 < next <= pos + 5
      && r == Ok(pos + |p| - next)
  {
    var p := SubscribeLayout(packetId, topic, qos);
    var n := 5 + |topic|;
    assert p[1..1 + |Encoding(n)|] == Encoding(n);
    CarriesSlice(input, pos, p, 1, 1 + |Encoding(n)|);
    RoundTrip(input, pos + 1, n);
    EncodingSize(n);
  }

  /** For packet id 1, topic "t" and QoS 0 the packet is 82 06 00 01 00 01
      't' 00. */
  lemma SubscribeExample()
    ensures SubscribeLayout(1, ['t' as int], 0) == [0x82, 6, 0, 1, 0, 1, 't' as int, 0]
  {
  }

  /** PINGREQ (section 3.12 of MQTT 3.1.1). */
  function PingPacket(): seq<Byte>
  {
    [0xC0, 0x00]
  }

  /** PINGREQ is a packet of type 12 whose remaining length, zero, counts
      the nothing that follows it. */
  lemma PingFramed(input: seq<Event>, pos: nat)
    requires Carries(input, pos, PingPacket())
    ensures PingPacket()[0] / 16 == 12
    ensures LengthField(input, pos + 1) == (Ok(0), pos + |PingPacket()|)
  {
    var p := PingPacket();
    assert EventAt(input, pos + 1) == Data(p[1]);
    var f := FieldBytes(input, pos + 1, 1);
    assert f[0] == ByteOf(EventAt(input, pos + 1)) == 0;
    assert f == [0];
    assert Value(f) == 0 % 128 + 128 * Value([]);
  }

  datatype Publication = Publication(topic: seq<Byte>, message: seq<Byte>)

  /** `decode_publish_payload`: the first two bytes give the topic length
      big-endian, the topic follows, the message is the rest. `None` stands
      for the panic the slice indexing raises on a body too short for the
      declared topic length. */
  function DecodePublishPayload(payload: seq<Byte>): (r: Option<Publication>)
    ensures r.Some? <==> |payload| >= 2 && |payload| >= 2 + (payload[0] as int * 256 + payload[1])
    ensures r.Some? ==>
      && |r.value.topic| == payload[0] as int * 256 + payload[1]
      && r.value.topic + r.value.message == payload[2..]
  {
    if |payload| < 2 then None
    else
      var topicLen := payload[0] as int * 256 + payload[1];  // u16::from_be_bytes
      if |payload| < 2 + topicLen then None
      else Some(Publication(payload[2..2 + topicLen], payload[2 + topicLen..]))
  }

  // ---------------------------------------------------------------------
  // The listening loop

  /** Seconds between two keep-alive pings. */
  const PingInterval := 30

  /** `Instant::elapsed`, which saturates at zero. */
  function Elapsed(now: nat, since: nat): nat
  {
    if now >= since then now - since else 0
  }

  /** The loop's state: the read cursor, when the last ping was sent, all
      bytes written so far, and the log so far. */
  datatype Listener = Listener(pos: nat, lastPing: nat, sent: seq<Byte>, notes: seq<Note>)

  /** How one iteration of the loop ends: go round again, leave the loop,
      return an error from main through `?`, or panic. */
  datatype Control = Continue | Break | Return(kind: ErrorKind) | Panic

  /** The keep-alive check at the top of each iteration. */
  function Keepalive(st: Listener, now: nat): Listener
  {
    if Elapsed(now, st.lastPing) >= PingInterval
    then st.(sent := st.sent + PingPacket(), lastPing := now)
    else st
  }

  /** Handle one inbound packet whose fixed header byte was `header`; the
      cursor of `st` is just after it. */
  function Dispatch(input: seq<Event>, topic: seq<Byte>, header: Byte, st: Listener): (Control, Listener)
  {
    var packetType := header / 16;
    var st := if packetType != 3 && packetType != 13 then st.(notes := st.notes + [OtherPacket(packetType)]) else st;
    var (len, afterLen) := LengthField(input, st.pos);
    if len.Err? then (Return(len.kind), st.(pos := afterLen))
    else
      var (body, afterBody) := ReadExact(input, afterLen, len.value);
      if body.Err? then (Return(body.kind), st.(pos := afterBody))
      else if packetType == 3 then
        match DecodePublishPayload(body.value)
        case None => (Panic, st.(pos := afterBody))
        case Some(pub) =>
          (Continue, st.(pos := afterBody, notes := st.notes + [Delivered(pub.topic, pub.message, pub.topic == topic)]))
      else if packetType == 13 then (Continue, st.(pos := afterBody, notes := st.notes + [PingResp]))
      else (Continue, st.(pos := afterBody))
  }

  /** One iteration of the listening loop at clock reading `now`. */
  function ListenStep(input: seq<Event>, topic: seq<Byte>, st: Listener, now: nat): (Control, Listener)
  {
    var st := Keepalive(st, now);
    match EventAt(input, st.pos)
    case Data(h) => Dispatch(input, topic, h, st.(pos := st.pos + 1))
    case Timeout => (Continue, st.(pos := st.pos + 1))
    case Closed => (Break, st.(pos := st.pos + 1, notes := st.notes + [BrokerClosed]))
    case IoError => (Break, st.(pos := st.pos + 1, notes := st.notes + [SocketError]))
  }

  /** The body of the `Ok(1)` arm of the loop in `main`: dispatch on the
      type nibble of the header byte just read; the cursor of `st` is just
      after it. */
  method HandlePacket(input: seq<Event>, topic: seq<Byte>, header: Byte, st: Listener)
    returns (control: Control, st': Listener)
    ensures (control, st') == Dispatch(input, topic, header, st)
  {
    var pos, notes := st.pos, st.notes;
    var packetType := header / 16;  // fixed_header[0] >> 4
    if packetType == 3 {
      var len, afterLen := ReadRemainingLength(input, pos);
      if len.Err? {
        return Return(len.kind), st.(pos := afterLen);
      }
      var (body, afterBody) := ReadExact(input, afterLen, len.value);
      if body.Err? {
        return Return(body.kind), st.(pos := afterBody);
      }
      pos := afterBody;
      var decoded := DecodePublishPayload(body.value);
      if decoded.None? {
        return Panic, st.(pos := pos);
      }
      var pub := decoded.value;
      notes := notes + [Delivered(pub.topic, pub.message, pub.topic == topic)];
    } else if packetType == 13 {
      var len, afterLen := ReadRemainingLength(input, pos);
      if len.Err? {
        return Return(len.kind), st.(pos := afterLen);
      }
      pos := afterLen;
      if len.value > 0 {
        var (body, afterBody) := ReadExact(input, pos, len.value);
        if body.Err? {
          return Return(body.kind), st.(pos := afterBody);
        }
        pos := afterBody;
      }
      notes := notes + [PingResp];
    } else {
      notes := notes + [OtherPacket(packetType)];
      var len, afterLen := ReadRemainingLength(input, pos);
      if len.Err? {
        return Return(len.kind), st.(pos := afterLen, notes := notes);
      }
      var (body, afterBody) := ReadExact(input, afterLen, len.value);
      if body.Err? {
        return Return(body.kind), st.(pos := afterBody, notes := notes);
      }
      pos := afterBody;
    }
    control, st' := Continue, st.(pos := pos, notes := notes);
  }

  /** One iteration of the loop in `main`: ping when the interval has
      elapsed, read one header byte, and dispatch on its type nibble. */
  method ListenIteration(input: seq<Event>, topic: seq<Byte>, st: Listener, now: nat)
    returns (control: Control, st': Listener)
    ensures (control, st') == ListenStep(input, topic, st, now)
  {
    var pos, lastPing, sent, notes := st.pos, st.lastPing, st.sent, st.notes;
    if Elapsed(now, lastPing) >= PingInterval {
      sent := sent + PingPacket();
      lastPing := now;
    }
    var e := EventAt(input, pos);
    if e.Data? {
      // Ok(1)
      control, st' := HandlePacket(input, topic, e.b, Listener(pos + 1, lastPing, sent, notes));
      return;
    } else if e.Timeout? {
      // WouldBlock or TimedOut: continue
      control, pos := Continue, pos + 1;
    } else if e.Closed? {
      // Ok(0): the broker closed the connection
      control, pos, notes := Break, pos + 1, notes + [BrokerClosed];
    } else {
      control, pos, notes := Break, pos + 1, notes + [SocketError];
    }
    st' := Listener(pos, lastPing, sent, notes);
  }

  /** The loop run for one iteration per clock reading in `ticks`, or until
      an iteration leaves it. */
  function ListenRun(input: seq<Event>, topic: seq<Byte>, st: Listener, ticks: seq<nat>): (Control, Listener)
    decreases |ticks|
  {
    if ticks == [] then (Continue, st)
    else
      var (c, st') := ListenStep(input, topic, st, ticks[0]);
      if c == Continue then ListenRun(input, topic, st', ticks[1..]) else (c, st')
  }

  /** The `loop` of `main`, observed for `|ticks|` iterations. */
  method Listen(input: seq<Event>, topic: seq<Byte>, st: Listener, ticks: seq<nat>)
    returns (control: Control, final: Listener)
    ensures (control, final) == ListenRun(input, topic, st, ticks)
  {
    control, final := Continue, st;
    var i := 0;
    while i < |ticks|
      invariant i <= |ticks| && control == Continue
      invariant ListenRun(input, topic, st, ticks) == ListenRun(input, topic, final, ticks[i..])
    {
      assert ticks[i..][1..] == ticks[i + 1..];
      control, final := ListenIteration(input, topic, final, ticks[i]);
      if control != Continue {
        return;
      }
      i := i + 1;
    }
  }

  // ---------------------------------------------------------------------
  // Properties of one iteration

  /** Dispatch touches neither the ping timer nor the bytes written, and it
      moves the cursor forward. */
  lemma DispatchKeepsTimer(input: seq<Event>, topic: seq<Byte>, header: Byte, st: Listener)
    ensures var (_, st') := Dispatch(input, topic, header, st);
      st'.sent == st.sent && st'.lastPing == st.lastPing && st'.pos > st.pos
  {
  }

  /** A PINGREQ is written exactly when at least 30 seconds have passed since
      the last one, and the timer is then reset to now; otherwise neither
      the bytes written nor the timer change. */
  lemma KeepaliveStep(input: seq<Event>, topic: seq<Byte>, st: Listener, now: nat)
    ensures var (_, st') := ListenStep(input, topic, st, now);
      if Elapsed(now, st.lastPing) >= PingInterval
      then st'.sent == st.sent + [0xC0, 0x00] && st'.lastPing == now
      else st'.sent == st.sent && st'.lastPing == st.lastPing
  {
    var pinged := Keepalive(st, now);
    if EventAt(input, pinged.pos).Data? {
      DispatchKeepsTimer(input, topic, EventAt(input, pinged.pos).b, pinged.(pos := pinged.pos + 1));
    }
  }

  /** After a ping, no iteration less than 30 seconds later pings again. */
  lemma NoPingWithinInterval(input: seq<Event>, topic: seq<Byte>, st: Listener, now: nat, later: nat)
    requires Elapsed(now, st.lastPing) >= PingInterval
    requires now <= later < now + PingInterval
    ensures var (_, st') := ListenStep(input, topic, st, now);
      var (_, st'') := ListenStep(input, topic, st', later);
      st''.sent == st'.sent && st''.lastPing == now
  {
    KeepaliveStep(input, topic, st, now);
    var (_, st') := ListenStep(input, topic, st, now);
    KeepaliveStep(input, topic, st', later);
  }

  /** The loop is left (to return Ok from main) exactly when the header read
      sees the connection closed or a socket error other than a timeout; a
      timeout goes round again, consuming nothing but the timeout; errors
      and panics only come from inside a packet. */
  lemma ListenControl(input: seq<Event>, topic: seq<Byte>, st: Listener, now: nat)
    ensures var (c, st') := ListenStep(input, topic, st, now);
      && (c == Break <==> EventAt(input, st.pos).Closed? || EventAt(input, st.pos).IoError?)
      && (EventAt(input, st.pos).Timeout? ==> c == Continue && st'.pos == st.pos + 1 && st'.notes == st.notes)
      && (c.Return? || c == Panic ==> EventAt(input, st.pos).Data?)
      && (c == Continue ==> st'.pos > st.pos)
  {
    if EventAt(input, st.pos).Data? {
      var pinged := Keepalive(st, now);
      DispatchKeepsTimer(input, topic, EventAt(input, st.pos).b, pinged.(pos := st.pos + 1));
    }
  }

  /** The note a dispatched packet adds to the log. */
  function Classify(header: Byte, body: seq<Byte>, topic: seq<Byte>): seq<Note>
  {
    var packetType := header / 16;
    if packetType == 3 then
      match DecodePublishPayload(body)
      case Some(pub) => [Delivered(pub.topic, pub.message, pub.topic == topic)]
      case None => []
    else if packetType == 13 then [PingResp]
    else [OtherPacket(packetType)]
  }

  /** Dispatching a whole packet whose remaining-length field holds `n`
      moves the cursor past the field and `n` more bytes. */
  lemma DispatchWholePacket(input: seq<Event>, topic: seq<Byte>, header: Byte, st: Listener, n: nat, body: seq<Byte>)
    requires n <= MaxValue && |body| == n
    requires Carries(input, st.pos, Encoding(n) + body)
    requires header / 16 == 3 ==> DecodePublishPayload(body).Some?
    ensures var (c, st') := Dispatch(input, topic, header, st);
      && c == Continue
      && st'.pos == st.pos + |Encoding(n)| + n
      && st'.notes == st.notes + Classify(header, body, topic)
  {
    CarriesSplit(input, st.pos, Encoding(n), body);
    RoundTrip(input, st.pos, n);
    ReadExactCarries(input, st.pos + |Encoding(n)|, body);
  }

  /** An iteration that reads a whole packet (header, a remaining-length
      field holding `n`, and `n` body bytes) consumes exactly
      1 + |field| + n bytes, whatever the type nibble, and logs the packet
      by its type. */
  lemma DispatchConsumes(input: seq<Event>, topic: seq<Byte>, st: Listener, now: nat,
                         header: Byte, n: nat, body: seq<Byte>)
    requires n <= MaxValue && |body| == n
    requires Carries(input, st.pos, [header] + Encoding(n) + body)
    requires header / 16 == 3 ==> DecodePublishPayload(body).Some?
    ensures var (c, st') := ListenStep(input, topic, st, now);
      && c == Continue
      && st'.pos == st.pos + 1 + |Encoding(n)| + n
      && st'.notes == st.notes + Classify(header, body, topic)
  {
    var rest := Encoding(n) + body;
    assert [header] + Encoding(n) + body == [header] + rest;
    CarriesSplit(input, st.pos, [header], rest);
    assert EventAt(input, st.pos + 0) == Data([header][0]);
    var s1 := Keepalive(st, now).(pos := st.pos + 1);
    assert ListenStep(input, topic, st, now) == Dispatch(input, topic, header, s1);
    DispatchWholePacket(input, topic, header, s1, n, body);
  }

  /** Any iteration that dispatched a packet and carries on consumed a header
      byte, a remaining-length field holding some `n`, and `n` bytes more. */
  lemma DispatchConsumesField(input: seq<Event>, topic: seq<Byte>, st: Listener, now: nat)
    requires EventAt(input, st.pos).Data?
    ensures var (c, st') := ListenStep(input, topic, st, now);
      var (len, afterLen) := LengthField(input, st.pos + 1);
      c == Continue ==>
        && len.Ok?
        && st.pos + 1 < afterLen <= st.pos + 5
        && AllData(input, afterLen, len.value)
        && st'.pos == afterLen + len.value
  {
    var pinged := Keepalive(st, now);
    var h := EventAt(input, st.pos).b;
    assert ListenStep(input, topic, st, now) == Dispatch(input, topic, h, pinged.(pos := st.pos + 1));
    DispatchContinues(input, topic, h, pinged.(pos := st.pos + 1));
    LengthFieldSuccess(input, st.pos + 1);
  }

  /** A dispatch that carries on read a good remaining length and then
      exactly that many bytes. */
  lemma DispatchContinues(input: seq<Event>, topic: seq<Byte>, header: Byte, st: Listener)
    ensures var (c, st') := Dispatch(input, topic, header, st);
      var (len, afterLen) := LengthField(input, st.pos);
      c == Continue ==> len.Ok? && AllData(input, afterLen, len.value) && st'.pos == afterLen + len.value
  {
  }

  /** Nothing written is ever taken back: the loop only appends. */
  lemma {:induction false} ListenRunKeepsSent(input: seq<Event>, topic: seq<Byte>, st: Listener, ticks: seq<nat>)
    ensures var (_, final) := ListenRun(input, topic, st, ticks);
      |st.sent| <= |final.sent| && final.sent[..|st.sent|] == st.sent
    decreases |ticks|
  {
    if ticks != [] {
      KeepaliveStep(input, topic, st, ticks[0]);
      var (c, st') := ListenStep(input, topic, st, ticks[0]);
      if c == Continue {
        ListenRunKeepsSent(input, topic, st', ticks[1..]);
        var (_, final) := ListenRun(input, topic, st', ticks[1..]);
        assert final.sent[..|st.sent|] == final.sent[..|st'.sent|][..|st.sent|];
      }
    }
  }

  // ---------------------------------------------------------------------
  // main

  function ExitOf(c: Control): Exit
  {
    match c
    case Continue => Running
    case Break => Finished
    case Return(k) => Failed(k)
    case Panic => Panicked
  }

  /** The subscriber's `main` over the inbound events `input`: CONNECT,
      CONNACK check, SUBSCRIBE with packet id 1 and QoS 0, the 5-byte SUBACK
      (read, never checked), then the listening loop with the ping timer
      started at `start`, run for one iteration per reading in `ticks`. */
  method SubscriberMain(input: seq<Event>, clientId: seq<Byte>, topic: seq<Byte>, start: nat, ticks: seq<nat>)
    returns (exit: Exit, sent: seq<Byte>, notes: seq<Note>)
    ensures |sent| >= |ConnectLayout(clientId)| && sent[..|ConnectLayout(clientId)|] == ConnectLayout(clientId)
    ensures !AllData(input, 0, 4) ==>
      exit == Failed(AwaitConnAck(input, 0).kind) && sent == ConnectLayout(clientId) && notes == []
    ensures AwaitConnAck(input, 0).Accepted? && !AllData(input, 4, 5) ==>
      exit == Failed(ReadExact(input, 4, 5).0.kind) && notes == []
      && sent == ConnectLayout(clientId) + SubscribeLayout(1, topic, 0)
    ensures exit.Refused? <==> AllData(input, 0, 4) && EventAt(input, 3).b != 0
    ensures exit.Refused? ==> exit.code == EventAt(input, 3).b && sent == ConnectLayout(clientId)
    ensures AwaitConnAck(input, 0).Accepted? ==>
      var (c, s) := (ConnectLayout(clientId), SubscribeLayout(1, topic, 0));
      |sent| >= |c| + |s| && sent[|c|..|c| + |s|] == s
    ensures AwaitConnAck(input, 0).Accepted? && AllData(input, 4, 5) ==>
      var (c, final) := ListenRun(input, topic,
        Listener(9, start, ConnectLayout(clientId) + SubscribeLayout(1, topic, 0), []), ticks);
      exit == ExitOf(c) && sent == final.sent && notes == final.notes
  {
    sent := ConnectPacket(clientId);
    notes := [];
    var connack := AwaitConnAck(input, 0);
    if connack.ReadFailed? {
      return Failed(connack.kind), sent, notes;
    }
    if connack.Rejected? {
      return Refused(connack.code), sent, notes;
    }
    var subscribe := SubscribePacket(1, topic, 0);
    ghost var (c, s) := (sent, subscribe);
    sent := sent + subscribe;
    assert sent[..|c|] == c && sent[|c|..|c| + |s|] == s;
    var (suback, afterSubAck) := ReadExact(input, connack.next, 5);
    if suback.Err? {
      return Failed(suback.kind), sent, notes;
    }
    var control, final := Listen(input, topic, Listener(afterSubAck, start, sent, []), ticks);
    ListenRunKeepsSent(input, topic, Listener(afterSubAck, start, sent, []), ticks);
    assert final.sent[..|sent|] == sent;
    assert final.sent[..|c|] == sent[..|c|];
    assert final.sent[|c|..|c| + |s|] == sent[|c|..|c| + |s|];
    exit, sent, notes := ExitOf(control), final.sent, final.notes;
  }
}
