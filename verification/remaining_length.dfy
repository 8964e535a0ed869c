/** The "remaining length" field of an MQTT 3.1.1 fixed header (section
    2.2.3): an unsigned number written seven bits per byte, least
    significant group first, the high bit of each byte saying that another
    byte follows. Both clients carry identical copies of the encoder and of
    the reader; this module models them once. */
module RemainingLength {
  import opened Io

  /** The largest value four bytes can carry: 128^4 - 1. */
  const MaxValue := 268_435_455

  function Pow128(k: nat): (p: nat)
    ensures p >= 1
  {
    if k == 0 then 1 else 128 * Pow128(k - 1)
  }

  /** The number a run of length bytes stands for: the low seven bits of
      each byte, the first byte the least significant group. */
  function Value(s: seq<Byte>): nat
  {
    if s == [] then 0 else s[0] % 128 + 128 * Value(s[1..])
  }

  /** A complete field: every byte but the last has its continuation bit
      (0x80) set, the last has it clear. */
  ghost predicate WellFormed(s: seq<Byte>)
  {
    && |s| > 0
    && s[|s| - 1] < 128
    && forall i :: 0 <= i < |s| - 1 ==> s[i] >= 128
  }

  /** No trailing zero group: the shortest field for its value. */
  ghost predicate Minimal(s: seq<Byte>)
  {
    |s| == 1 || (|s| > 1 && s[|s| - 1] != 0)
  }

  /** The encoding of `n` as section 2.2.3 defines it (reference definition). */
  function Encoding(n: nat): (s: seq<Byte>)
    ensures |s| >= 1
    decreases n
  {
    if n < 128 then [n] else [n % 128 + 128] + Encoding(n / 128)
  }

  // ---------------------------------------------------------------------
  // Encoder

  /** `encode_remaining_length`: emit the low seven bits, divide by 128,
      set the continuation bit when something is left, stop once nothing is. */
  method EncodeRemainingLength(length: nat) returns (encoded: seq<Byte>)
    ensures encoded == Encoding(length)
  {
    var rest := length;
    encoded := [];
    while true
      invariant encoded + Encoding(rest) == Encoding(length)
      decreases rest
    {
      var byte: Byte := rest % 128;
      rest := rest / 128;
      if rest > 0 {
        byte := byte + 128;  // `byte |= 0x80` on a byte below 0x80
      }
      encoded := encoded + [byte];
      if rest == 0 {
        break;
      }
    }
  }

  lemma {:induction false} EncodingIsWellFormed(n: nat)
    ensures WellFormed(Encoding(n)) && Minimal(Encoding(n))
    ensures Value(Encoding(n)) == n
    ensures n > 0 ==> Encoding(n)[|Encoding(n)| - 1] != 0
    decreases n
  {
    if n >= 128 {
      var s := Encoding(n);
      var t := Encoding(n / 128);
      EncodingIsWellFormed(n / 128);
      assert s == [n % 128 + 128] + t;
      assert s[1..] == t;
      forall i | 0 <= i < |s| - 1 ensures s[i] >= 128 {
        if i > 0 { assert s[i] == t[i - 1]; }
      }
      assert s[|s| - 1] == t[|t| - 1];
    }
  }

  /** The encoding is the only minimal well-formed field for its value. */
  lemma {:induction false} EncodingUnique(s: seq<Byte>)
    requires WellFormed(s) && Minimal(s)
    ensures s == Encoding(Value(s))
    decreases |s|
  {
    var t := s[1..];
    assert Value(s) == s[0] % 128 + 128 * Value(t);
    if |s| == 1 {
      assert Value(t) == 0;
    } else {
      TailWellFormed(s);
      EncodingUnique(t);
      assert Value(t) > 0 by {
        assert t[|t| - 1] == s[|s| - 1] != 0;
        assert Encoding(0) == [0];
      }
      EncodingStep(s[0], Value(t));
      assert s == [s[0]] + t;
    }
  }

  /** Dropping the first byte of a minimal well-formed field of two bytes
      or more leaves one. */
  lemma TailWellFormed(s: seq<Byte>)
    requires WellFormed(s) && Minimal(s) && |s| > 1
    ensures WellFormed(s[1..]) && Minimal(s[1..])
  {
    var t := s[1..];
    forall i | 0 <= i < |t| - 1 ensures t[i] >= 128 { assert t[i] == s[i + 1]; }
    assert t[|t| - 1] == s[|s| - 1];
  }

  /** A continuation byte `b` followed by groups worth `q > 0` is how the
      number they stand for is encoded. */
  lemma EncodingStep(b: Byte, q: nat)
    requires b >= 128 && q > 0
    ensures Encoding(b % 128 + 128 * q) == [b] + Encoding(q)
  {
    var v := b % 128 + 128 * q;
    assert v >= 128 && v % 128 + 128 == b && v / 128 == q;
  }

  /** Field size is the number of base-128 digits: at most `k` bytes
      exactly when the value is below 128^k. */
  lemma {:induction false} EncodingLengthBound(n: nat, k: nat)
    requires k >= 1
    ensures |Encoding(n)| <= k <==> n < Pow128(k)
    decreases n
  {
    if n < 128 {
      PowAtLeast128(k);
    } else if k == 1 {
      assert |Encoding(n)| == 1 + |Encoding(n / 128)|;
    } else {
      EncodingLengthBound(n / 128, k - 1);
      assert |Encoding(n)| == 1 + |Encoding(n / 128)|;
      assert Pow128(k) == 128 * Pow128(k - 1);
    }
  }

  /** The multipliers a field of at most four bytes goes through. */
  lemma PowSmall()
    ensures Pow128(1) == 128 && Pow128(2) == 128 * 128
    ensures Pow128(3) == 128 * 128 * 128 && Pow128(4) == MaxValue + 1
  {
  }

  lemma PowAtLeast128(k: nat)
    requires k >= 1
    ensures Pow128(k) >= 128
  {
  }

  /** One byte exactly for values below 128; at most the four bytes the
      protocol allows exactly up to 268,435,455; the encoder has no guard,
      so larger values get five bytes or more. */
  lemma EncodingSize(n: nat)
    ensures |Encoding(n)| == 1 <==> n < 128
    ensures |Encoding(n)| <= 4 <==> n <= MaxValue
    ensures n > MaxValue ==> |Encoding(n)| >= 5
  {
    EncodingLengthBound(n, 1);
    EncodingLengthBound(n, 4);
    assert Pow128(4) == MaxValue + 1;
  }

  // ---------------------------------------------------------------------
  // Reader

  lemma {:induction false} ValueAppend(s: seq<Byte>, b: Byte)
    ensures Value(s + [b]) == Value(s) + (b % 128) * Pow128(|s|)
    decreases |s|
  {
    if s != [] {
      var t := s[1..];
      assert (s + [b])[0] == s[0] && (s + [b])[1..] == t + [b];
      ValueAppend(t, b);
      ScaleGroup(Value(t), b % 128, Pow128(|t|));
    }
  }

  /** Moving one factor of 128 from the outside onto the weight of a group. */
  lemma ScaleGroup(v: int, x: int, p: int)
    ensures 128 * (v + x * p) == 128 * v + x * (128 * p)
  {
  }

  lemma {:induction false} ValueBelow(s: seq<Byte>)
    ensures Value(s) < Pow128(|s|)
    decreases |s|
  {
    if s != [] {
      ValueBelow(s[1..]);
    }
  }

  /** The bytes delivered by the `k` reads starting at `start`. */
  function FieldBytes(input: seq<Event>, start: nat, k: nat): (s: seq<Byte>)
    ensures |s| == k
  {
    seq<Byte>(k, i requires 0 <= i < k => ByteOf(EventAt(input, start + i)))
  }

  lemma FieldBytesExtend(input: seq<Event>, start: nat, k: nat)
    ensures FieldBytes(input, start, k + 1) == FieldBytes(input, start, k) + [ByteOf(EventAt(input, start + k))]
  {
  }

  /** The `k` reads starting at `start` all deliver continuation bytes. */
  ghost predicate Continues(input: seq<Event>, start: nat, k: nat)
  {
    forall i :: start <= i < start + k ==> EventAt(input, i).Data? && EventAt(input, i).b >= 128
  }

  /** The field read from `start`, given that the first `k` of its bytes
      were continuation bytes: the value and the cursor after the field, or
      the error that stopped the read and the cursor after that read. */
  function LengthFieldFrom(input: seq<Event>, start: nat, k: nat): (r: (Result<nat>, nat))
    requires k < 4
    ensures start + k < r.1 <= start + 4
    ensures r.0.Err? && r.0.kind != InvalidData ==> !EventAt(input, r.1 - 1).Data?
    ensures r.0.Ok? ==> EventAt(input, r.1 - 1).Data? && EventAt(input, r.1 - 1).b < 128
    decreases 4 - k
  {
    var e := EventAt(input, start + k);
    if !e.Data? then (Err(ErrorOf(e)), start + k + 1)
    else if e.b < 128 then (Ok(Value(FieldBytes(input, start, k + 1))), start + k + 1)
    else if k == 3 then (Err(InvalidData), start + 4)
    else LengthFieldFrom(input, start, k + 1)
  }

  /** What reading a remaining-length field at `start` yields. */
  function LengthField(input: seq<Event>, start: nat): (Result<nat>, nat)
  {
    LengthFieldFrom(input, start, 0)
  }

  /** `read_remaining_length`: read one byte at a time (each read is a
      `read_exact` whose error is passed on), add its low seven bits times
      the multiplier, stop at a byte without continuation bit, and give up
      with InvalidData once the multiplier passes 128^3. */
  method ReadRemainingLength(input: seq<Event>, pos: nat) returns (r: Result<nat>, next: nat)
    ensures (r, next) == LengthField(input, pos)
  {
    var multiplier: nat := 1;
    var value: nat := 0;
    next := pos;
    PowSmall();
    while true
      invariant pos <= next <= pos + 3
      invariant multiplier == Pow128(next - pos)
      invariant value == Value(FieldBytes(input, pos, next - pos))
      invariant LengthField(input, pos) == LengthFieldFrom(input, pos, next - pos)
      decreases pos + 3 - next
    {
      var e := EventAt(input, next);
      if !e.Data? {
        r, next := Err(ErrorOf(e)), next + 1;
        return;
      }
      var byte := e.b;
      FieldBytesExtend(input, pos, next - pos);
      ValueAppend(FieldBytes(input, pos, next - pos), byte);
      next := next + 1;
      value := value + (byte % 128) * multiplier;  // (byte & 127) * multiplier
      if byte < 128 {                              // (byte & 128) == 0
        break;
      }
      multiplier := multiplier * 128;
      if multiplier > 128 * 128 * 128 {
        r := Err(InvalidData);
        return;
      }
    }
    r := Ok(value);
  }

  /** A successful read consumed one to four bytes, up to and including the
      first without continuation bit; they form a well-formed field whose
      value was returned, and that value is at most 268,435,455. */
  lemma LengthFieldSuccess(input: seq<Event>, start: nat)
    ensures var (r, next) := LengthField(input, start);
      r.Ok? ==>
        && start < next <= start + 4
        && Carries(input, start, FieldBytes(input, start, next - start))
        && WellFormed(FieldBytes(input, start, next - start))
        && r.value == Value(FieldBytes(input, start, next - start))
        && r.value <= MaxValue
  {
    SuccessFrom(input, start, 0);
  }

  lemma {:induction false} SuccessFrom(input: seq<Event>, start: nat, k: nat)
    requires k < 4 && Continues(input, start, k)
    ensures var (r, next) := LengthFieldFrom(input, start, k);
      r.Ok? ==>
        && start + k < next <= start + 4
        && Carries(input, start, FieldBytes(input, start, next - start))
        && WellFormed(FieldBytes(input, start, next - start))
        && r.value == Value(FieldBytes(input, start, next - start))
        && r.value <= MaxValue
    decreases 4 - k
  {
    var e := EventAt(input, start + k);
    if e.Data? && e.b < 128 {
      FieldEndsAt(input, start, k);
    } else if e.Data? && k < 3 {
      SuccessFrom(input, start, k + 1);
    }
  }

  /** `k` continuation bytes followed by a byte without the bit make a
      well-formed field of at most four bytes. */
  lemma FieldEndsAt(input: seq<Event>, start: nat, k: nat)
    requires k < 4 && Continues(input, start, k)
    requires EventAt(input, start + k).Data? && EventAt(input, start + k).b < 128
    ensures var s := FieldBytes(input, start, k + 1);
      Carries(input, start, s) && WellFormed(s) && Value(s) <= MaxValue
  {
    var s := FieldBytes(input, start, k + 1);
    forall i | 0 <= i < k + 1 ensures EventAt(input, start + i) == Data(s[i]) {
      assert EventAt(input, start + i).Data?;
      assert s[i] == ByteOf(EventAt(input, start + i));
    }
    forall i | 0 <= i < k ensures s[i] >= 128 {
      assert EventAt(input, start + i) == Data(s[i]);
    }
    ValueBelow(s);
    PowMonotone(k + 1, 4);
    assert Pow128(4) == MaxValue + 1;
  }

  lemma {:induction false} PowMonotone(j: nat, k: nat)
    requires j <= k
    ensures Pow128(j) <= Pow128(k)
    decreases k - j
  {
    if j < k {
      PowMonotone(j, k - 1);
    }
  }

  /** InvalidData exactly when the first four reads all deliver
      continuation bytes; a fifth byte is never read. */
  lemma LengthFieldMalformed(input: seq<Event>, start: nat)
    ensures LengthField(input, start).0 == Err(InvalidData) <==> Continues(input, start, 4)
    ensures LengthField(input, start).0 == Err(InvalidData) ==> LengthField(input, start).1 == start + 4
  {
    MalformedFrom(input, start, 0);
  }

  lemma {:induction false} MalformedFrom(input: seq<Event>, start: nat, k: nat)
    requires k < 4 && Continues(input, start, k)
    ensures LengthFieldFrom(input, start, k).0 == Err(InvalidData) <==> Continues(input, start, 4)
    ensures LengthFieldFrom(input, start, k).0 == Err(InvalidData) ==> LengthFieldFrom(input, start, k).1 == start + 4
    decreases 4 - k
  {
    var e := EventAt(input, start + k);
    if e.Data? && e.b >= 128 {
      assert Continues(input, start, k + 1);
      if k < 3 {
        MalformedFrom(input, start, k + 1);
      }
    } else {
      assert !Continues(input, start, 4) by {
        assert !(EventAt(input, start + k).Data? && EventAt(input, start + k).b >= 128);
      }
    }
  }

  /** A stream that stops delivering bytes inside the field yields the
      error of the read that failed, and nothing after it is read. */
  lemma {:induction false} LengthFieldCutShort(input: seq<Event>, start: nat, j: nat)
    requires j < 4 && Continues(input, start, j) && !EventAt(input, start + j).Data?
    ensures LengthField(input, start) == (Err(ErrorOf(EventAt(input, start + j))), start + j + 1)
  {
    var k := 0;
    while k < j
      invariant k <= j
      invariant LengthField(input, start) == LengthFieldFrom(input, start, k)
    {
      assert EventAt(input, start + k).Data? && EventAt(input, start + k).b >= 128;
      k := k + 1;
    }
  }

  /** Reading a well-formed field of at most four bytes returns its value
      and leaves the cursor just after it. */
  lemma ReadsWellFormed(input: seq<Event>, start: nat, s: seq<Byte>)
    requires WellFormed(s) && |s| <= 4 && Carries(input, start, s)
    ensures LengthField(input, start) == (Ok(Value(s)), start + |s|)
  {
    var k := 0;
    while k < |s| - 1
      invariant k <= |s| - 1
      invariant LengthField(input, start) == LengthFieldFrom(input, start, k)
    {
      assert EventAt(input, start + k) == Data(s[k]);
      k := k + 1;
    }
    assert EventAt(input, start + k) == Data(s[k]);
    FieldBytesCarried(input, start, s);
  }

  /** The bytes that arrive are the bytes the field is read from. */
  lemma FieldBytesCarried(input: seq<Event>, start: nat, s: seq<Byte>)
    requires Carries(input, start, s)
    ensures FieldBytes(input, start, |s|) == s
  {
    var f := FieldBytes(input, start, |s|);
    forall i | 0 <= i < |s| ensures f[i] == s[i] {
      assert EventAt(input, start + i) == Data(s[i]);
      assert f[i] == ByteOf(EventAt(input, start + i));
    }
  }

  /** Round trip: for every value the protocol allows, reading its encoding
      followed by anything returns the value and stops where the rest
      begins. */
  lemma RoundTrip(input: seq<Event>, start: nat, n: nat)
    requires n <= MaxValue && Carries(input, start, Encoding(n))
    ensures LengthField(input, start) == (Ok(n), start + |Encoding(n)|)
  {
    EncodingIsWellFormed(n);
    EncodingSize(n);
    ReadsWellFormed(input, start, Encoding(n));
  }
}
