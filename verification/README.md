# RustyProtocols MQTT codec and clients, modelled in Dafny

RustyProtocols is a pair of small MQTT 3.1.1 clients written against a
raw TCP socket, with a hand-written codec for the handful of packets they
use:

- a *subscriber* (the "display"), which connects, subscribes to one topic,
  and then loops: it sends PINGREQ every 30 seconds, reads one fixed-header
  byte at a time, and dispatches on the packet type nibble (PUBLISH is
  decoded and logged, PINGRESP logged, any other type skipped);
- a *publisher* (the "sensor"), which connects and then, forever, publishes
  a reading at QoS 0 and drains whatever the broker sent back until a read
  times out;
- a top-level binary holding its own copy of the CONNECT encoder.

This project models the codec (remaining-length varint encoder and
reader, CONNECT, SUBSCRIBE, PINGREQ and PUBLISH encoders, PUBLISH body
decoder, CONNACK check) and the two clients' loops, and proves the
layout, framing, round-trip and control-flow properties stated below.

The socket is abstract. Its inbound side is a sequence of `Event`s
(`Data(b)`, `Timeout`, `Closed`, `IoError`) read through a cursor, and
reads past the end of the sequence observe `Timeout` (the broker is
silent). Its outbound side is a log of all bytes written. `read_exact`
is the function `Io.ReadExact`. The clock is a `nat` number of seconds
supplied per loop iteration. A client's `main` is observed for a finite
number of iterations: one per clock reading for the subscriber, and one
per message for the publisher.

Files and modules:

| file | module | models |
|---|---|---|
| io.dfy | `Io` | bytes, stream events, `read_exact`, error kinds, log entries |
| remaining_length.dfy | `RemainingLength` | `encode_remaining_length`, `read_remaining_length` (section 2.2.3 of MQTT 3.1.1) |
| codec.dfy | `Codec` | `connect_packet` and the CONNACK check, which both clients share |
| prototype.dfy | `Prototype` | `connect_packet` of the top-level binary |
| subscriber.dfy | `Subscriber` | `subscribe_packet`, `ping_packet`, `decode_publish_payload`, the listening loop and `main` |
| publisher.dfy | `Publisher` | `publish_packet`, `handle_incoming_packets` and `main` |
| interop.dfy | `Interop` | what happens when one client's packets reach the other, and the hard-coded names |

The publisher's `connect_packet`, `encode_remaining_length` and
`read_remaining_length` (publisher/src/main.rs:93-101 and 123-159) are
the same text as the subscriber's (subscriber/src/main.rs:118-126 and
148-184). Each is therefore defined once, in `Codec` and
`RemainingLength`, and both clients use that definition. The prototype's
`connect_packet` differs in its text, so it is modelled separately, and
`Prototype.ConnectPacket` is proved to build the same packet.

Three points where the code behaves differently from what one might
expect, and which the model follows:

- CONNECT does not frame itself with the general remaining-length encoder
  of section 2.2.3 of MQTT 3.1.1. The code overwrites byte 1 with
  `(len - 2) as u8`. The model keeps this write and proves exactly when
  it is right: byte 1 is a correct remaining-length field iff the id is
  at most 115 bytes, and equals the length minus two iff the id is at
  most 243 bytes.
- The subscriber's keep-alive check sits at the top of every iteration,
  before the header read, whatever that read then returns; it is not a
  reaction to a read timeout. The model does the same.
- In the subscriber's loop only the fixed-header read ends the loop on an
  error other than a timeout. An error while reading a remaining length
  or a body is passed on with `?`, and `main` then returns that error.
  The model records this as `Failed(kind)`.

## Model

| member | source | states |
|---|---|---|
| `RemainingLength.EncodeRemainingLength` | subscriber/src/main.rs:148-162 | The loop (seven bits per byte, low group first, `0x80` on every byte but the last) returns exactly the reference encoding `Encoding(length)`. |
| `RemainingLength.EncodingIsWellFormed` | subscriber/src/main.rs:148-162 | The encoding is non-empty. Every byte but the last has `0x80` set and the last has it clear. The sum of (bᵢ & 0x7F)·128ⁱ is n. There is no superfluous trailing zero group. |
| `RemainingLength.EncodingUnique` | subscriber/src/main.rs:148-162 | Every well-formed field without a trailing zero group is the encoder's output for the value it denotes, so the encoder emits the only minimal field for each value. |
| `RemainingLength.EncodingLengthBound` | subscriber/src/main.rs:148-162 | The encoding has at most k bytes iff n < 128^k. |
| `RemainingLength.EncodingSize` | subscriber/src/main.rs:148-162 | The encoding is 1 byte iff n < 128. It has at most 4 bytes iff n ≤ 268,435,455. Larger n give 5 or more bytes, because the encoder has no guard. |
| `RemainingLength.LengthFieldFrom` | subscriber/src/main.rs:164-184 | The reader never consumes more than 4 bytes. A success ends on a byte with the high bit clear. A read error other than InvalidData ends on an event that delivered no byte. |
| `RemainingLength.ReadRemainingLength` | subscriber/src/main.rs:164-184 | The loop that accumulates `value` and `multiplier` returns the result and the cursor given by `LengthField`. |
| `RemainingLength.LengthFieldSuccess` | subscriber/src/main.rs:164-184 | A success consumed 1 to 4 bytes that arrived, formed a well-formed field, and its value is what they denote and at most 268,435,455. |
| `RemainingLength.LengthFieldMalformed` | subscriber/src/main.rs:176-181 | InvalidData is returned iff the first four bytes all have `0x80` set. The cursor is then just past the fourth byte, so no fifth byte is read. |
| `RemainingLength.LengthFieldCutShort` | subscriber/src/main.rs:169 | If the stream fails after j continuation bytes (j < 4), the result is the error of that read and the cursor is just past it. |
| `RemainingLength.ReadsWellFormed` | subscriber/src/main.rs:164-184 | Any well-formed field of at most 4 bytes is read as its value, and the cursor lands just after it. |
| `RemainingLength.RoundTrip` | subscriber/src/main.rs:148-184 | For n ≤ 268,435,455, reading the encoding of n returns n and leaves the cursor at the first byte after the field. |
| `Io.ReadExact` | subscriber/src/main.rs:169 | `read_exact` of n bytes succeeds iff the next n events all deliver a byte. It then returns those n bytes and advances by n. Otherwise every event before the last one consumed delivered a byte, the last one did not, and the error is the one that event stands for (a timeout gives TimedOut, a close UnexpectedEof, anything else Other), never InvalidData. Between 1 and n events are consumed. |
| `Codec.ConnectPacket` | subscriber/src/main.rs:118-126 | The template, the id length and the id are appended, then byte 1 is patched in place. The result is the CONNECT layout, 14 + \|id\| bytes long and ending with the id. |
| `Codec.ConnectShape` | subscriber/src/main.rs:118-126 | The first 12 bytes are `0x10`, (12+\|id\|) mod 256, `0 4 'M' 'Q' 'T' 'T' 4 2 0 60`. Bytes 12 and 13 are \|id\| mod 65536, big-endian. The rest is the id. |
| `Codec.ConnectLengthByte` | subscriber/src/main.rs:124 | Byte 1 equals the packet length minus two iff the id is at most 243 bytes. |
| `Codec.ConnectRemainingLength` | subscriber/src/main.rs:124 | Byte 1 is the correct remaining-length field, and a reader decodes the number of bytes after it, iff the id is at most 115 bytes. |
| `Codec.AwaitConnAck` | subscriber/src/main.rs:24-34 | The 4-byte CONNACK read fails iff a read in it fails, with the error `read_exact` reports. The connection is refused iff byte 3 is not 0, with that byte as the code. Otherwise the client carries on after the 4 bytes. |
| `Prototype.ToBeBytes` | src/main.rs:25 | `to_be_bytes` yields two bytes whose big-endian value is the argument. |
| `Prototype.ToBeBytesOfLength` | src/main.rs:25 | `(len as u16).to_be_bytes()` gives the same two bytes as the clients' `(len >> 8) as u8` and `(len & 0xFF) as u8`. |
| `Prototype.ConnectPacket` | src/main.rs:13-30 | The prototype encoder builds the same packet as the clients' `connect_packet` for every id. |
| `Prototype.ConnectAbc` | src/main.rs:24-27 | For id "abc" the packet ends `00 03 'a' 'b' 'c'`, and byte 1 is 15, its length minus two. |
| `Subscriber.SubscribePacket` | subscriber/src/main.rs:128-142 | The result is `0x82`, the encoding of 5+\|t\|, the packet id, the topic length, the topic and the QoS byte. It ends with the topic and the QoS. |
| `Subscriber.SubscribeFramed` | subscriber/src/main.rs:128-142 | A reader of SUBSCRIBE's remaining length gets the exact number of bytes that follow the field. |
| `Subscriber.SubscribeExample` | subscriber/src/main.rs:128-142 | Packet id 1, topic "t" and QoS 0 give `82 06 00 01 00 01 't' 00`. |
| `Subscriber.PingFramed` | subscriber/src/main.rs:144-146 | PINGREQ is type 12, and its remaining length, 0, counts the nothing that follows. |
| `Subscriber.DecodePublishPayload` | subscriber/src/main.rs:186-191 | Decoding succeeds iff the body holds two bytes and then at least the topic length they give. The topic is then that many bytes, and topic followed by message is the body after the two length bytes. Otherwise the code panics: the indexing `payload[0]`, `payload[1]` for a body under two bytes, the slicing for a topic longer than the body. |
| `Subscriber.ListenIteration` | subscriber/src/main.rs:48-113 | One iteration of the loop (keep-alive, header read, dispatch) computes the control outcome and the new state given by `ListenStep`. |
| `Subscriber.HandlePacket` | subscriber/src/main.rs:59-92 | The `Ok(1)` arm, with its dispatch on `fixed_header[0] >> 4` (PUBLISH read, decoded and logged; PINGRESP's body skipped only when non-empty; other types logged and skipped), gives the outcome and state `Dispatch` defines. |
| `Subscriber.Listen` | subscriber/src/main.rs:48-113 | The loop, over the observed iterations, ends as `ListenRun` says. |
| `Subscriber.KeepaliveStep` | subscriber/src/main.rs:51-55 | `[0xC0, 0x00]` is written iff at least 30 s have passed since the last ping, and the timer is then set to now. Otherwise neither the bytes written nor the timer change. |
| `Subscriber.NoPingWithinInterval` | subscriber/src/main.rs:51-55 | After a ping, an iteration less than 30 s later writes nothing and leaves the timer alone. |
| `Subscriber.DispatchKeepsTimer` | subscriber/src/main.rs:59-92 | Dispatching a packet writes nothing, leaves the ping timer alone and advances the cursor. |
| `Subscriber.ListenControl` | subscriber/src/main.rs:94-111 | The loop is left iff the header read sees the connection closed or a non-timeout error. A timeout carries on and consumes only itself. Errors returned through `?` and panics come only from inside a packet. |
| `Subscriber.DispatchWholePacket` | subscriber/src/main.rs:59-92 | Given a remaining-length field holding n and n body bytes, dispatch carries on past the field and the n bytes and logs the packet by its type. |
| `Subscriber.DispatchConsumes` | subscriber/src/main.rs:57-92 | An iteration that reads a whole packet consumes exactly 1 + \|enc(n)\| + n bytes, whatever the type nibble. It logs PUBLISH by topic and message, PINGRESP as such, and other types by number. |
| `Subscriber.DispatchConsumesField` | subscriber/src/main.rs:59-92 | Any iteration that dispatched and carried on read a good remaining length of 1 to 4 bytes and then exactly that many body bytes. |
| `Subscriber.ListenRunKeepsSent` | subscriber/src/main.rs:48-113 | The loop only appends to the bytes written. |
| `Subscriber.SubscriberMain` | subscriber/src/main.rs:11-116 | CONNECT is written first. A failed CONNACK read ends `main` with that read's error after CONNECT alone. `main` is refused iff CONNACK byte 3 is not 0. When accepted, SUBSCRIBE follows, and a failed SUBACK read ends `main` with that read's error after CONNECT and SUBSCRIBE. With the 5-byte SUBACK read, the outcome, the bytes written and the log are those of the loop started at cursor 9. |
| `Publisher.PublishHeaderForQos` | publisher/src/main.rs:103-105 | `0x30 \| (qos << 1)` is 0x30, 0x32 or 0x34 for QoS 0, 1 or 2: packet type 3 with the QoS in bits 1 and 2. |
| `Publisher.PublishPacket` | publisher/src/main.rs:103-121 | The result is the header, the encoding of 2+\|t\|+\|m\|, the topic length, the topic and the message, and it ends with topic and message. There is no packet identifier at any QoS. |
| `Publisher.PublishFramed` | publisher/src/main.rs:107-120 | A reader of PUBLISH's remaining length gets the exact number of bytes that follow the field. |
| `Publisher.DrainStep` | publisher/src/main.rs:62-91 | A round that reads a packet moves the cursor forward and stays within the observed events. |
| `Publisher.DrainRound` | publisher/src/main.rs:64-77 | One round (`read_exact` of the header, remaining length, `read_exact` of the body, type logged) gives the outcome `DrainStep` defines. |
| `Publisher.HandleIncomingPackets` | publisher/src/main.rs:62-91 | The loop returns the result, the packets logged and the cursor given by `Drain`. |
| `Publisher.DrainStepConsumes` | publisher/src/main.rs:64-77 | A round that finds a whole packet consumes exactly 1 + \|enc(n)\| + n bytes, and logs PINGRESP iff the type nibble is 13. |
| `Publisher.DrainStepPacket` | publisher/src/main.rs:64-77 | Every round that reads a packet consumed a header byte, a well-formed remaining-length field of 1 to 4 bytes, and exactly the field's value in body bytes, and logged the header's type nibble (PINGRESP for 13). |
| `Publisher.DrainStepOutcome` | publisher/src/main.rs:65-86 | A round ends the drain quietly iff the header read times out. A closed connection there gives UnexpectedEof and another error gives Other. A failing remaining-length read is returned, and so is the error of a failing body read. |
| `Publisher.DrainOkOnlyOnTimeout` | publisher/src/main.rs:62-91 | The drain returns Ok iff the header read of its last round (the round after all whole packets) times out, and it then stops just past that event. Otherwise it returns that round's error. A drain whose first header read times out never returns TimedOut. |
| `Publisher.Cycles` | publisher/src/main.rs:44-59 | k publish-and-drain cycles publish at most k times, at least once if k > 0, and all k times when no drain fails. |
| `Publisher.PublishCycle` | publisher/src/main.rs:51-56 | One cycle appends the next PUBLISH to the bytes written. The cycles still to run either end with this cycle's drain error or continue from where its drain stopped. |
| `Publisher.PublishCycles` | publisher/src/main.rs:44-59 | The loop of `main` gives the failure, the log and the PUBLISH packets written that `Cycles` and `PublishAll` describe. |
| `Publisher.PublisherMain` | publisher/src/main.rs:12-60 | CONNECT is written first. A failed CONNACK read ends `main` with that read's error after CONNECT alone. `main` is refused iff CONNACK byte 3 is not 0. Otherwise it enters the publish loop, writes one PUBLISH per cycle started, and fails with the first drain error. It never returns Ok. |
| `Interop.PublishBodyDecodes` | publisher/src/main.rs:110-118 | The subscriber's decoder returns the publisher's topic and message iff the topic is shorter than 65536 bytes. It never panics on a body the publisher wrote. |
| `Interop.SubscriberReceivesPublish` | publisher/src/main.rs:103-121 | A QoS 0 PUBLISH from the publisher is consumed whole by one subscriber iteration and logged with its topic and message. |
| `Interop.DrainPingResp` | publisher/src/main.rs:72-74 | The publisher's drain logs `D0 00` then silence as PINGRESP, and returns Ok. |
| `Interop.SubscriberPingResp` | subscriber/src/main.rs:79-86 | The subscriber logs `D0 00` as PINGRESP and carries on past its two bytes. |
| `Interop.PingRespThenPublish` | subscriber/src/main.rs:62-86 | A PINGRESP and then a PUBLISH, over two iterations, are logged as PINGRESP and then as the decoded publication. |
| `Interop.DeployedConnectsFramed` | subscriber/src/main.rs:20 | The CONNECT packets for "display_livingroom" (sent here) and "room_sensor_livingroom" (sent at publisher/src/main.rs:24) carry correct remaining lengths, 30 and 34. |
| `Interop.SensorReadingReachesDisplay` | subscriber/src/main.rs:36-72 | A reading the sensor publishes on its topic is delivered to the display as a message on the topic it subscribed to. |

## Left out

- TCP plumbing (`TcpStream::connect`, `set_read_timeout`, `write_all`): the socket is an event sequence in and a byte log out. Writes never fail, so the `?` on `write_all` is not modelled.
- Reads past the recorded events observe a timeout. A read cannot return part of a buffer, so `read` on the 1-byte header returns 0 or 1 byte, and its `Ok(_)` branch for more than one byte (subscriber/src/main.rs:98-101) cannot be taken.
- `Interrupted` is not an event of its own. `read_exact`, which every read here uses except the subscriber's one-byte header `read` (subscriber/src/main.rs:58), retries it and never reports it. At that header `read` it is one of the `IoError` events, which break the loop. The other `std::io::ErrorKind`s beyond timeout, end of stream and invalid data are one kind, `Other`.
- Logging (`log`, `chrono` timestamps, `println!`): the log of inbound traffic is kept as `Note`s, one per branch that logs a received packet, a close or a socket error. The log lines about outbound traffic, the handshake and start-up ("Sent CONNECT packet", "Sent SUBSCRIBE packet", "Sending ping", "Published: …", "Received CONNACK", "Received SUBACK", the start-up, waiting and publishing-to lines) have no `Note`. "Connection refused" is carried by the `Refused` exit.
- `rand` and the float formatting of temperature and humidity (publisher/src/main.rs:45-50): the message is arbitrary bytes.
- `thread::sleep` and `Instant`: the clock is a `nat` of whole seconds given per iteration, and `elapsed` saturates at zero. The five-second sleep between publications has no effect on the model.
- `String::from_utf8_lossy` and the string comparison of topics: topics and messages stay byte sequences and are compared as bytes. The subscribed topic is ASCII, so a lossily repaired topic equals it exactly when its bytes do.
- The SUBACK contents, which are read but never checked.
- `main` of src/main.rs, which only connects and prints.
- The bit operations on a byte (`& 127`, `& 128`, `|= 0x80` on a byte below 0x80, `>> 4`) are written as the arithmetic they compute (`% 128`, `< 128`, `+ 128`, `/ 16`). `Publisher.PublishHeader` keeps the `u8` bit operations of `publish_packet`.
- `usize` arithmetic is unbounded (`nat`). Lengths above 268,435,455 make the encoder write five or more bytes, as the code does, but are otherwise outside any realistic packet.
- `Subscriber.SubscriberMain`, `Publisher.PublisherMain`: the clients loop forever. The model observes a finite number of iterations, and `Running` reports that the loop was still going when the observation ended.
- `Subscriber.SubscriberMain`, `Publisher.PublisherMain`: the client id and topic are parameters. The hard-coded values are the constants of `Interop`.
