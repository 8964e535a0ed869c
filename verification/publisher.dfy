/** The publisher ("sensor") binary: its PUBLISH encoder, the drain of
    inbound packets after each publication, and its main: handshake, then
    publish-and-drain cycles. */
module Publisher {
  import opened Io
  import opened RemainingLength
  import opened Codec

  // ---------------------------------------------------------------------
  // Encoder

  /** The PUBLISH fixed header byte `0x30 | (qos << 1)`, shifted and or-ed
      as a `u8`. */
  function PublishHeader(qos: Byte): Byte
  {
    (((qos as bv8) << 1) | 0x30) as int
  }

  /** For the QoS levels 0, 1 and 2 the header is 0x30, 0x32 or 0x34: packet
      type 3 with the QoS in bits 1 and 2. */
  lemma PublishHeaderForQos(qos: Byte)
    requires qos <= 2
    ensures PublishHeader(qos) == 0x30 + 2 * qos
    ensures PublishHeader(qos) / 16 == 3 && (PublishHeader(qos) % 16) / 2 == qos
  {
    if qos == 0 {
      assert PublishHeader(0) == 0x30;
    } else if qos == 1 {
      assert PublishHeader(1) == 0x32;
    } else {
      assert PublishHeader(2) == 0x34;
    }
  }

  /** PUBLISH (MQTT 3.1.1 section 3.3) as the publisher lays it out: header,
      remaining length, 2-byte topic length truncated to sixteen bits, the
      topic, the message. There is no packet identifier, whatever the QoS. */
  function PublishLayout(topic: seq<Byte>, message: seq<Byte>, qos: Byte): seq<Byte>
  {
    [PublishHeader(qos)] + Encoding(2 + |topic| + |message|)
      + [(|topic| / 256) % 256, |topic| % 256] + topic + message
  }

  /** `publish_packet`: the topic length, topic and message are assembled
      first, then the remaining length is encoded from their size. */
  method PublishPacket(topic: seq<Byte>, message: seq<Byte>, qos: Byte) returns (packet: seq<Byte>)
    ensures packet == PublishLayout(topic, message, qos)
    ensures packet[|packet| - |topic| - |message|..] == topic + message
  {
    var packetType := PublishHeader(qos);
    packet := [packetType];
    var body: seq<Byte> := [];
    body := body + [(|topic| / 256) % 256];   // (len >> 8) as u8
    body := body + [|topic| % 256];           // (len & 0xFF) as u8
    body := body + topic;
    body := body + message;
    var remLen := EncodeRemainingLength(|body|);
    packet := packet + remLen;
    packet := packet + body;
  }

  /** The remaining length of PUBLISH is the exact number of bytes after it. */
  lemma PublishFramed(topic: seq<Byte>, message: seq<Byte>, qos: Byte, input: seq<Event>, pos: nat)
    requires 2 + |topic| + |message| <= MaxValue
    requires Carries(input, pos, PublishLayout(topic, message, qos))
    ensures var p := PublishLayout(topic, message, qos);
      var (r, next) := LengthField(input, pos + 1);
      && pos + 1 < next <= pos + 5
      && r == Ok(pos + |p| - next)
  {
    var p := PublishLayout(topic, message, qos);
    var n := 2 + |topic| + |message|;
    assert p[1..1 + |Encoding(n)|] == Encoding(n);
    CarriesSlice(input, pos, p, 1, 1 + |Encoding(n)|);
    RoundTrip(input, pos + 1, n);
  }

  // ---------------------------------------------------------------------
  // Draining inbound packets

  /** How one round of the drain ends: a whole packet was read and logged,
      the header read timed out, or an error is returned to the caller. */
  datatype DrainOutcome = Packet(note: Note, next: nat) | Quiet(next: nat) | Error(kind: ErrorKind)

  /** The log entry for a packet of the given type. */
  function PacketNote(packetType: nat): Note
  {
    if packetType == 13 then PingResp else OtherPacket(packetType)
  }

  /** One round of `handle_incoming_packets` at cursor `pos`. */
  function DrainStep(input: seq<Event>, pos: nat): (s: DrainOutcome)
    ensures s.Packet? ==> pos < s.next <= |input|
  {
    var e := EventAt(input, pos);
    if e.Data? then
      var (len, afterLen) := LengthField(input, pos + 1);
      if len.Err? then Error(len.kind)
      else
        var (body, afterBody) := ReadExact(input, afterLen, len.value);
        if body.Err? then Error(body.kind)
        else
          assert afterBody == afterLen + len.value;
          assert len.value > 0 ==> EventAt(input, afterBody - 1).Data?;
          Packet(PacketNote(e.b / 16), afterBody)
    else if e.Timeout? then Quiet(pos + 1)
    else Error(ErrorOf(e))
  }

  /** How a drain ends: `failure` is None where the Rust function returns
      `Ok(())` and the error otherwise. */
  datatype Drained = Drained(failure: Option<ErrorKind>, notes: seq<Note>, next: nat)

  /** The whole drain: packets until a header read times out or an error
      occurs. */
  function Drain(input: seq<Event>, pos: nat): Drained
    decreases |input| - pos
  {
    match DrainStep(input, pos)
    case Quiet(next) => Drained(None, [], next)
    case Error(k) => Drained(Some(k), [], pos)
    case Packet(note, next) =>
      var d := Drain(input, next);
      d.(notes := [note] + d.notes)
  }

  /** One round of `handle_incoming_packets`: a header byte read with
      `read_exact`, the remaining length, the body read with `read_exact`,
      and the packet type logged (PINGRESP for type 13). */
  method DrainRound(input: seq<Event>, pos: nat) returns (s: DrainOutcome)
    ensures s == DrainStep(input, pos)
  {
    var e := EventAt(input, pos);
    if e.Data? {
      var packetType := e.b / 16;  // fixed_header[0] >> 4
      var len, afterLen := ReadRemainingLength(input, pos + 1);
      if len.Err? {
        return Error(len.kind);
      }
      var (payload, afterBody) := ReadExact(input, afterLen, len.value);
      if payload.Err? {
        return Error(payload.kind);
      }
      if packetType == 13 {
        s := Packet(PingResp, afterBody);
      } else {
        s := Packet(OtherPacket(packetType), afterBody);
      }
    } else if e.Timeout? {
      s := Quiet(pos + 1);
    } else {
      s := Error(ErrorOf(e));
    }
  }

  /** `handle_incoming_packets`: rounds until a header read times out, which
      ends the drain with Ok; any other error is returned. */
  method HandleIncomingPackets(input: seq<Event>, pos: nat) returns (failure: Option<ErrorKind>, notes: seq<Note>, next: nat)
    ensures Drained(failure, notes, next) == Drain(input, pos)
  {
    next, notes := pos, [];
    while true
      invariant var d := Drain(input, next); Drain(input, pos) == Drained(d.failure, notes + d.notes, d.next)
      decreases |input| - next
    {
      var s := DrainRound(input, next);
      match s
      case Error(k) =>
        return Some(k), notes, next;
      case Quiet(after) =>
        next := after;
        break;
      case Packet(note, after) =>
        notes := notes + [note];
        next := after;
    }
    failure := None;
  }

  /** A round that finds a whole packet (header, a remaining-length field
      holding `n`, `n` body bytes) consumes exactly 1 + |field| + n bytes and
      logs PINGRESP exactly for type nibble 13. */
  lemma DrainStepConsumes(input: seq<Event>, pos: nat, header: Byte, n: nat, body: seq<Byte>)
    requires n <= MaxValue && |body| == n
    requires Carries(input, pos, [header] + Encoding(n) + body)
    ensures DrainStep(input, pos) == Packet(PacketNote(header / 16), pos + 1 + |Encoding(n)| + n)
    ensures DrainStep(input, pos).note == PingResp <==> header / 16 == 13
  {
    assert [header] + Encoding(n) + body == [header] + (Encoding(n) + body);
    CarriesSplit(input, pos, [header], Encoding(n) + body);
    CarriesSplit(input, pos + 1, Encoding(n), body);
    assert [header][0] == header;
    assert EventAt(input, pos) == Data(header);
    RoundTrip(input, pos + 1, n);
    ReadExactCarries(input, pos + 1 + |Encoding(n)|, body);
  }

  /** Conversely, every round that reads a packet consumed a header byte, a
      well-formed remaining-length field of one to four bytes, and exactly
      as many body bytes as the field says, and logged the header's type. */
  lemma DrainStepPacket(input: seq<Event>, pos: nat)
    ensures var s := DrainStep(input, pos);
      var (len, afterLen) := LengthField(input, pos + 1);
      s.Packet? ==>
        && EventAt(input, pos).Data?
        && len.Ok?
        && pos + 1 < afterLen <= pos + 5
        && WellFormed(FieldBytes(input, pos + 1, afterLen - pos - 1))
        && AllData(input, afterLen, len.value)
        && s.next == afterLen + len.value
        && s.note == PacketNote(EventAt(input, pos).b / 16)
  {
    LengthFieldSuccess(input, pos + 1);
  }

  /** The drain ends with Ok only at a timeout of the header read; the
      connection closing there, any other error there, and any error while
      reading a packet's remaining length or body are returned. */
  lemma DrainStepOutcome(input: seq<Event>, pos: nat)
    ensures DrainStep(input, pos).Quiet? <==> EventAt(input, pos).Timeout?
    ensures DrainStep(input, pos).Quiet? ==> DrainStep(input, pos).next == pos + 1
    ensures EventAt(input, pos).Closed? ==> DrainStep(input, pos) == Error(UnexpectedEof)
    ensures EventAt(input, pos).IoError? ==> DrainStep(input, pos) == Error(Other)
    ensures EventAt(input, pos).Data? && LengthField(input, pos + 1).0.Err? ==>
      DrainStep(input, pos) == Error(LengthField(input, pos + 1).0.kind)
    ensures var (len, afterLen) := LengthField(input, pos + 1);
      EventAt(input, pos).Data? && len.Ok? && !AllData(input, afterLen, len.value) ==>
        DrainStep(input, pos) == Error(ReadExact(input, afterLen, len.value).0.kind)
  {
  }

  /** Where the header read of the drain's last round happens: past every
      round that read a whole packet. */
  ghost function LastRound(input: seq<Event>, pos: nat): nat
    decreases |input| - pos
  {
    match DrainStep(input, pos)
    case Packet(_, next) => LastRound(input, next)
    case _ => pos
  }

  /** Over the whole drain: it returns Ok exactly when the header read of
      its last round times out, and then stops just past that event;
      otherwise it returns the error of its last round. A drain whose first
      header read times out never returns TimedOut. */
  lemma {:induction false} DrainOkOnlyOnTimeout(input: seq<Event>, pos: nat)
    ensures var (d, h) := (Drain(input, pos), LastRound(input, pos));
      && pos <= h
      && (d.failure.None? <==> EventAt(input, h).Timeout?)
      && (d.failure.None? ==> d.next == h + 1)
      && (d.failure.Some? ==> DrainStep(input, h) == Error(d.failure.value))
    ensures Drain(input, pos).failure == Some(TimedOut) ==> EventAt(input, pos).Data?
    decreases |input| - pos
  {
    DrainStepOutcome(input, pos);
    var s := DrainStep(input, pos);
    if s.Packet? {
      DrainOkOnlyOnTimeout(input, s.next);
      var d := Drain(input, s.next);
      assert Drain(input, pos).failure == d.failure && Drain(input, pos).next == d.next;
      assert EventAt(input, pos).Data?;
    } else if s.Quiet? {
      assert Drain(input, pos).failure.None? && Drain(input, pos).next == pos + 1;
    } else {
      assert Drain(input, pos).failure == Some(s.kind);
    }
  }

  // ---------------------------------------------------------------------
  // main

  /** The PUBLISH packets of the first `n` QoS 0 publications, in order. */
  function PublishAll(topic: seq<Byte>, messages: seq<seq<Byte>>, n: nat): seq<Byte>
    requires n <= |messages|
  {
    if n == 0 then []
    else PublishAll(topic, messages, n - 1) + PublishLayout(topic, messages[n - 1], 0)
  }

  /** What publish-and-drain cycles have observed: the result of the last
      drain, the packets logged, and how many PUBLISH packets went out (one
      per cycle started). */
  datatype Cycled = Cycled(failure: Option<ErrorKind>, notes: seq<Note>, published: nat)

  const NoCycles := Cycled(None, [], 0)

  /** Up to `k` more cycles from cursor `pos`, after cycles that observed
      `acc`; the cycles stop at the first drain that fails. */
  function Cycles(input: seq<Event>, pos: nat, k: nat, acc: Cycled): (c: Cycled)
    ensures acc.published <= c.published <= acc.published + k
    ensures k > 0 ==> c.published > acc.published
    ensures acc.failure.None? && c.failure.None? ==> c.published == acc.published + k
    decreases k
  {
    if k == 0 then acc
    else
      var d := Drain(input, pos);
      var acc' := Cycled(d.failure, acc.notes + d.notes, acc.published + 1);
      if d.failure.Some? then acc'
      else
        Cycles(input, d.next, k - 1, acc')
  }

  /** One cycle of the loop in `main`, the `i`-th of `|messages|`, at
      cursor `at`, after cycles that wrote `sent` and logged `notes`:
      PUBLISH the next message, then drain. The remaining cycles either end
      here with the drain's error, or go on from where the drain stopped. */
  method PublishCycle(input: seq<Event>, topic: seq<Byte>, messages: seq<seq<Byte>>,
                      i: nat, at: nat, sent: seq<Byte>, notes: seq<Note>)
    returns (failure: Option<ErrorKind>, sent': seq<Byte>, notes': seq<Note>, next: nat)
    requires i < |messages|
    requires sent == PublishAll(topic, messages, i)
    ensures sent' == PublishAll(topic, messages, i + 1)
    ensures failure.Some? ==>
      Cycles(input, at, |messages| - i, Cycled(None, notes, i)) == Cycled(failure, notes', i + 1)
    ensures failure.None? ==>
      Cycles(input, at, |messages| - i, Cycled(None, notes, i))
      == Cycles(input, next, |messages| - (i + 1), Cycled(None, notes', i + 1))
  {
    var publish := PublishPacket(topic, messages[i], 0);
    sent' := sent + publish;
    var drained;
    failure, drained, next := HandleIncomingPackets(input, at);
    notes' := notes + drained;
    ghost var d := Drain(input, at);
    assert d.failure == failure && d.notes == drained && d.next == next;
    CyclesUnroll(input, at, |messages| - i, notes, i);
  }

  /** A run of `k > 0` cycles is one drain followed, when that drain did
      not fail, by the other `k - 1`. */
  lemma CyclesUnroll(input: seq<Event>, at: nat, k: nat, notes: seq<Note>, i: nat)
    requires k > 0
    ensures var d := Drain(input, at);
      Cycles(input, at, k, Cycled(None, notes, i))
      == if d.failure.Some? then Cycled(d.failure, notes + d.notes, i + 1)
         else Cycles(input, d.next, k - 1, Cycled(None, notes + d.notes, i + 1))
  {
  }

  /** The publish-and-drain loop of `main` from cursor `pos`, one cycle per
      message, left with the error of the first drain that fails. */
  method PublishCycles(input: seq<Event>, pos: nat, topic: seq<Byte>, messages: seq<seq<Byte>>)
    returns (failure: Option<ErrorKind>, sent: seq<Byte>, notes: seq<Note>)
    ensures var c := Cycles(input, pos, |messages|, NoCycles);
      && failure == c.failure && notes == c.notes
      && sent == PublishAll(topic, messages, c.published)
  {
    sent, notes, failure := [], [], None;
    var at := pos;
    var i := 0;
    while i < |messages|
      invariant i <= |messages| && failure.None?
      invariant sent == PublishAll(topic, messages, i)
      invariant Cycles(input, pos, |messages|, NoCycles) == Cycles(input, at, |messages| - i, Cycled(None, notes, i))
    {
      var next;
      failure, sent, notes, next := PublishCycle(input, topic, messages, i, at, sent, notes);
      if failure.Some? {
        return;
      }
      at := next;
      i := i + 1;
    }
    assert Cycles(input, at, 0, Cycled(None, notes, i)) == Cycled(None, notes, |messages|);
  }

  /** The publisher's `main` over the inbound events `input`: CONNECT, the
      CONNACK check, then the publish-and-drain cycles, one per message in
      `messages`. The random readings and their formatting are abstracted
      into the message bytes; the sleep between cycles is left out. */
  method PublisherMain(input: seq<Event>, clientId: seq<Byte>, topic: seq<Byte>, messages: seq<seq<Byte>>)
    returns (exit: Exit, sent: seq<Byte>, notes: seq<Note>)
    ensures exit.Refused? || exit.Failed? || exit.Running?
    ensures exit.Refused? <==> AllData(input, 0, 4) && EventAt(input, 3).b != 0
    ensures !AllData(input, 0, 4) ==>
      exit == Failed(AwaitConnAck(input, 0).kind) && sent == ConnectLayout(clientId) && notes == []
    ensures exit.Refused? ==> exit.code == EventAt(input, 3).b && sent == ConnectLayout(clientId) && notes == []
    ensures AwaitConnAck(input, 0).Accepted? ==>
      var c := Cycles(input, 4, |messages|, NoCycles);
      && notes == c.notes
      && sent == ConnectLayout(clientId) + PublishAll(topic, messages, c.published)
      && (exit.Running? <==> c.failure.None?)
      && (exit.Failed? ==> c.failure == Some(exit.kind))
  {
    sent := ConnectPacket(clientId);
    notes := [];
    var connack := AwaitConnAck(input, 0);
    if connack.ReadFailed? {
      return Failed(connack.kind), sent, notes;
    }
    if connack.Rejected? {
      return Refused(connack.code), sent, notes;
    }
    var failure, published;
    failure, published, notes := PublishCycles(input, connack.next, topic, messages);
    sent := sent + published;
    if failure.Some? {
      exit := Failed(failure.value);
    } else {
      exit := Running;
    }
  }
}
