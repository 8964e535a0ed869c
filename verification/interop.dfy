/** How the two clients' encoders and decoders fit together when the broker
    forwards the publisher's packets to the subscriber unchanged. */
module Interop {
  import opened Io
  import opened RemainingLength
  import opened Subscriber
  import opened Publisher

  /** The body the publisher writes after the remaining length. */
  function PublishBody(topic: seq<Byte>, message: seq<Byte>): seq<Byte>
  {
    [(|topic| / 256) % 256, |topic| % 256] + topic + message
  }

  lemma PublishSplits(topic: seq<Byte>, message: seq<Byte>, qos: Byte)
    ensures PublishLayout(topic, message, qos)
      == [PublishHeader(qos)] + Encoding(2 + |topic| + |message|) + PublishBody(topic, message)
  {
  }

  /** The subscriber's decoder gives back the publisher's topic and message
      exactly when the topic length fits the sixteen bits the encoder
      writes; a longer topic comes back cut to its length modulo 65536. */
  lemma PublishBodyDecodes(topic: seq<Byte>, message: seq<Byte>)
    ensures DecodePublishPayload(PublishBody(topic, message)) == Some(Publication(topic, message))
      <==> |topic| < 0x1_0000
    ensures DecodePublishPayload(PublishBody(topic, message)).Some?
  {
    var b := PublishBody(topic, message);
    var n := |topic|;
    var q, r := n / 0x1_0000, n % 0x1_0000;
    assert n == 0x1_0000 * q + r;
    assert n / 256 == 256 * q + r / 256;
    assert (n / 256) % 256 == r / 256;
    assert n % 256 == r % 256;
    assert b[0] as int * 256 + b[1] == r;
    assert b[2..] == topic + message;
    if n < 0x1_0000 {
      assert b[2..2 + n] == topic;
      assert b[2 + n..] == message;
    } else {
      assert |DecodePublishPayload(b).value.topic| == r < n;
    }
  }

  /** A QoS 0 PUBLISH from the publisher, read by one iteration of the
      subscriber's loop, is consumed whole and logged with its topic, its
      message and whether the topic is the subscribed one. */
  lemma SubscriberReceivesPublish(input: seq<Event>, subscribed: seq<Byte>, st: Listener, now: nat,
                                  topic: seq<Byte>, message: seq<Byte>)
    requires |topic| < 0x1_0000 && 2 + |topic| + |message| <= MaxValue
    requires Carries(input, st.pos, PublishLayout(topic, message, 0))
    ensures var (c, st') := ListenStep(input, subscribed, st, now);
      && c == Continue
      && st'.pos == st.pos + |PublishLayout(topic, message, 0)|
      && st'.notes == st.notes + [Delivered(topic, message, topic == subscribed)]
  {
    var n := 2 + |topic| + |message|;
    var body := PublishBody(topic, message);
    PublishSplits(topic, message, 0);
    PublishHeaderForQos(0);
    PublishBodyDecodes(topic, message);
    DispatchConsumes(input, subscribed, st, now, PublishHeader(0), n, body);
  }

  /** The publisher's drain, finding a PINGRESP and then silence, logs the
      PINGRESP and returns Ok just past the timeout. */
  lemma DrainPingResp(input: seq<Event>, pos: nat)
    requires Carries(input, pos, [0xD0, 0x00]) && EventAt(input, pos + 2) == Timeout
    ensures Drain(input, pos) == Drained(None, [PingResp], pos + 3)
  {
    assert [0xD0, 0x00] == [0xD0] + Encoding(0) + [];
    DrainStepConsumes(input, pos, 0xD0, 0, []);
    assert Drain(input, pos + 2) == Drained(None, [], pos + 3);
  }

  /** The subscriber's loop, finding a PINGRESP, logs it and carries on past
      its two bytes. */
  lemma SubscriberPingResp(input: seq<Event>, subscribed: seq<Byte>, st: Listener, now: nat)
    requires Carries(input, st.pos, [0xD0, 0x00])
    ensures var (c, st') := ListenStep(input, subscribed, st, now);
      c == Continue && st'.pos == st.pos + 2 && st'.notes == st.notes + [PingResp]
  {
    assert [0xD0, 0x00] == [0xD0] + Encoding(0) + [];
    DispatchConsumes(input, subscribed, st, now, 0xD0, 0, []);
  }

  /** A PINGRESP followed by a PUBLISH, read in two iterations of the
      subscriber's loop: the first is recognised as PINGRESP (not as an
      unknown type), the second is decoded and delivered. */
  lemma PingRespThenPublish(input: seq<Event>, subscribed: seq<Byte>, st: Listener, t0: nat, t1: nat,
                            topic: seq<Byte>, message: seq<Byte>)
    requires |topic| < 0x1_0000 && 2 + |topic| + |message| <= MaxValue
    requires Carries(input, st.pos, [0xD0, 0x00] + PublishLayout(topic, message, 0))
    ensures var (c, final) := ListenRun(input, subscribed, st, [t0, t1]);
      && c == Continue
      && final.pos == st.pos + 2 + |PublishLayout(topic, message, 0)|
      && final.notes == st.notes + [PingResp, Delivered(topic, message, topic == subscribed)]
  {
    CarriesSplit(input, st.pos, [0xD0, 0x00], PublishLayout(topic, message, 0));
    SubscriberPingResp(input, subscribed, st, t0);
    var (c1, st1) := ListenStep(input, subscribed, st, t0);
    SubscriberReceivesPublish(input, subscribed, st1, t1, topic, message);
    var (c2, st2) := ListenStep(input, subscribed, st1, t1);
    assert [t0, t1][1..] == [t1] && [t1][1..] == [];
    assert ListenRun(input, subscribed, st1, [t1]) == (c2, st2);
  }

  // ---------------------------------------------------------------------
  // The deployed names

  /** The bytes of an ASCII string. */
  function Bytes(s: string): (b: seq<Byte>)
    requires forall i | 0 <= i < |s| :: s[i] as int < 256
    ensures |b| == |s| && forall i | 0 <= i < |s| :: b[i] == s[i] as int
  {
    seq(|s|, i requires 0 <= i < |s| => s[i] as int)
  }

  /** The client ids and the topic the two binaries hard-code. */
  const DisplayId: seq<Byte> := Bytes("display_livingroom")
  const SensorId: seq<Byte> := Bytes("room_sensor_livingroom")
  const SensorTopic: seq<Byte> := Bytes("home/") + SensorId + Bytes("/temperature_humidity")

  /** Both deployed client ids are short enough for the patched CONNECT
      length byte to be the correct remaining-length field. */
  lemma DeployedConnectsFramed()
    ensures var p := Codec.ConnectLayout(DisplayId); [p[1]] == Encoding(|p| - 2) && p[1] == 30
    ensures var p := Codec.ConnectLayout(SensorId); [p[1]] == Encoding(|p| - 2) && p[1] == 34
  {
    EncodingSize(30);
    EncodingIsWellFormed(30);
    EncodingSize(34);
    EncodingIsWellFormed(34);
  }

  /** Every reading the sensor publishes, once forwarded, reaches the
      display as a message on the topic it subscribed to. */
  lemma SensorReadingReachesDisplay(input: seq<Event>, st: Listener, now: nat, message: seq<Byte>)
    requires 2 + |SensorTopic| + |message| <= MaxValue
    requires Carries(input, st.pos, PublishLayout(SensorTopic, message, 0))
    ensures var (c, st') := ListenStep(input, SensorTopic, st, now);
      && c == Continue
      && st'.pos == st.pos + |PublishLayout(SensorTopic, message, 0)|
      && st'.notes == st.notes + [Delivered(SensorTopic, message, true)]
  {
    SubscriberReceivesPublish(input, SensorTopic, st, now, SensorTopic, message);
  }
}
