/** The byte stream the clients talk over, made abstract.
    The TCP socket is replaced by the sequence of things successive reads
    observe; a cursor says how far the client has read. Reads past the end
    of the recorded sequence observe a read timeout (the peer is silent). */
module Io {

  /** An octet on the wire (Rust `u8`). The codec's bit operations on a
      byte are written as the arithmetic they compute: `& 0x7F` is `% 128`,
      `& 0x80 == 0` is `< 128`, `| 0x80` on a byte below 0x80 is `+ 128`,
      and `>> 4` is `/ 16`. */
  type Byte = b: int | 0 <= b < 256

  /** An unsigned 16-bit value (Rust `u16`). */
  type U16 = x: int | 0 <= x < 0x1_0000

  /** What one single-byte read from the socket observes. */
  datatype Event =
    | Data(b: Byte)   // one byte arrived
    | Timeout         // the read timeout elapsed (WouldBlock or TimedOut)
    | Closed          // the peer closed the connection (a read of 0 bytes)
    | IoError         // any other socket error

  /** The kinds of `std::io::Error` the clients tell apart. */
  datatype ErrorKind =
    | TimedOut        // WouldBlock or TimedOut
    | UnexpectedEof   // read_exact hit the end of the stream
    | InvalidData     // malformed remaining length
    | Other           // any other I/O error

  datatype Result<T> = Ok(value: T) | Err(kind: ErrorKind)

  datatype Option<T> = None | Some(value: T)

  /** How a client's `main` ends, or that it is still looping when the
      observation ends. */
  datatype Exit =
    | Finished            // the loop was left with `break`; main returns Ok
    | Failed(kind: ErrorKind)   // an I/O error passed on with `?`
    | Refused(code: Byte) // the CONNACK return code was not zero
    | Panicked            // a slice index out of range aborted the process
    | Running             // still in the loop after the observed iterations

  /** What a client writes to its log, reduced to which branch was taken. */
  datatype Note =
    | Delivered(topic: seq<Byte>, message: seq<Byte>, expected: bool)
    | PingResp
    | OtherPacket(packetType: nat)
    | BrokerClosed
    | SocketError

  function EventAt(input: seq<Event>, pos: nat): Event
  {
    if pos < |input| then input[pos] else Timeout
  }

  /** The byte an event delivers, or 0 when it delivers none. */
  function ByteOf(e: Event): Byte
  {
    if e.Data? then e.b else 0
  }

  /** The error `read_exact` reports when it observes `e` instead of a byte. */
  function ErrorOf(e: Event): (k: ErrorKind)
    requires !e.Data?
    ensures k != InvalidData
  {
    match e
    case Timeout => TimedOut
    case Closed => UnexpectedEof
    case IoError => Other
  }

  /** The bytes `p` arrive, in order, starting at cursor `pos`. */
  ghost predicate Carries(input: seq<Event>, pos: nat, p: seq<Byte>)
  {
    forall i :: 0 <= i < |p| ==> EventAt(input, pos + i) == Data(p[i])
  }

  /** The next `n` reads starting at `pos` all deliver a byte. */
  ghost predicate AllData(input: seq<Event>, pos: nat, n: nat)
  {
    forall i :: pos <= i < pos + n ==> EventAt(input, i).Data?
  }

  lemma CarriesSlice(input: seq<Event>, pos: nat, p: seq<Byte>, i: nat, j: nat)
    requires Carries(input, pos, p) && i <= j <= |p|
    ensures Carries(input, pos + i, p[i..j])
  {
    forall k | 0 <= k < j - i ensures EventAt(input, pos + i + k) == Data(p[i..j][k]) {
      assert EventAt(input, pos + (i + k)) == Data(p[i + k]);
    }
  }

  lemma CarriesSplit(input: seq<Event>, pos: nat, p: seq<Byte>, q: seq<Byte>)
    ensures Carries(input, pos, p + q) <==> Carries(input, pos, p) && Carries(input, pos + |p|, q)
  {
    if Carries(input, pos, p) && Carries(input, pos + |p|, q) {
      forall i | 0 <= i < |p + q| ensures EventAt(input, pos + i) == Data((p + q)[i]) {
        if i >= |p| {
          assert EventAt(input, pos + |p| + (i - |p|)) == Data(q[i - |p|]);
        }
      }
    }
    if Carries(input, pos, p + q) {
      forall i | 0 <= i < |p| ensures EventAt(input, pos + i) == Data(p[i]) {
        assert (p + q)[i] == p[i];
      }
      forall i | 0 <= i < |q| ensures EventAt(input, pos + |p| + i) == Data(q[i]) {
        assert (p + q)[|p| + i] == q[i];
      }
    }
  }

  /** Reading exactly the bytes that arrive returns them. */
  lemma ReadExactCarries(input: seq<Event>, pos: nat, p: seq<Byte>)
    requires Carries(input, pos, p)
    ensures ReadExact(input, pos, |p|) == (Ok(p), pos + |p|)
  {
    assert AllData(input, pos, |p|) by {
      forall i | pos <= i < pos + |p| ensures EventAt(input, i).Data? {
        assert EventAt(input, pos + (i - pos)) == Data(p[i - pos]);
      }
    }
    var r := ReadExact(input, pos, |p|).0.value;
    forall i | 0 <= i < |p| ensures r[i] == p[i] {
      assert EventAt(input, pos + i) == Data(r[i]);
    }
    assert r == p;
  }

  /** `read_exact` of `n` bytes: the bytes, or the error of the first
      read that did not deliver one. The cursor ends past the last event
      observed. */
  function ReadExact(input: seq<Event>, pos: nat, n: nat): (r: (Result<seq<Byte>>, nat))
    ensures r.0.Ok? <==> AllData(input, pos, n)
    ensures r.0.Ok? ==> |r.0.value| == n && r.1 == pos + n && Carries(input, pos, r.0.value)
    ensures r.0.Err? ==> r.0.kind != InvalidData && pos < r.1 <= pos + n
    ensures r.0.Err? ==>
      && AllData(input, pos, r.1 - 1 - pos)
      && !EventAt(input, r.1 - 1).Data?
      && r.0.kind == ErrorOf(EventAt(input, r.1 - 1))
    decreases n
  {
    if n == 0 then (Ok([]), pos)
    else
      var e := EventAt(input, pos);
      if !e.Data? then (Err(ErrorOf(e)), pos + 1)
      else
        var (rest, next) := ReadExact(input, pos + 1, n - 1);
        if rest.Err? then (rest, next)
        else
          assert forall i :: 1 <= i < n ==> ([e.b] + rest.value)[i] == rest.value[i - 1];
          (Ok([e.b] + rest.value), next)
  }
}
