/** The canonical wire form of protocol envelopes: big-endian lengths in front of every field. */
module Canonical {
  import opened Prelude

  type u16 = x: int | 0 <= x <= 0xFFFF

  /** What one slice can hold. */
  type Bytes = s: seq<byte> | |s| <= 0xFFFF_FFFF_FFFF_FFFF

  /** Both names are text, kept as its UTF-8 bytes. */
  datatype Envelope = Envelope(version: u16, messageType: Bytes, requestId: Bytes, payload: Bytes)

  datatype CodecError =
    | TruncatedU16
    | TruncatedLength
    | TruncatedBytes
    | InvalidMessageType
    | InvalidRequestId
    | TrailingBytes

  /** Which byte strings are text is a parameter. */
  type Utf8 = seq<byte> -> bool

  predicate IsText(e: Envelope, utf8: Utf8) {
    utf8(e.messageType) && utf8(e.requestId)
  }

  // ---- numbers ----

  function Pow256(k: nat): (p: nat)
    ensures p >= 1
  {
    if k == 0 then 1 else 256 * Pow256(k - 1)
  }

  /** `k` bytes, most significant first. */
  function BigEndian(n: nat, k: nat): (s: seq<byte>)
    ensures |s| == k
  {
    if k == 0 then [] else BigEndian(n / 256, k - 1) + [n % 256]
  }

  function FromBigEndian(s: seq<byte>): nat {
    if s == [] then 0 else 256 * FromBigEndian(s[..|s| - 1]) + s[|s| - 1]
  }

  lemma {:induction false} NumberRoundTrip(n: nat, k: nat)
    requires n < Pow256(k)
    ensures FromBigEndian(BigEndian(n, k)) == n
  {
    if k > 0 {
      NumberRoundTrip(n / 256, k - 1);
      var s := BigEndian(n, k);
      assert s[..|s| - 1] == BigEndian(n / 256, k - 1);
    }
  }

  lemma {:induction false} BytesRoundTrip(s: seq<byte>)
    ensures FromBigEndian(s) < Pow256(|s|)
    ensures BigEndian(FromBigEndian(s), |s|) == s
  {
    if s != [] {
      var front, last := s[..|s| - 1], s[|s| - 1];
      BytesRoundTrip(front);
      var n := FromBigEndian(s);
      assert n / 256 == FromBigEndian(front) && n % 256 == last;
      assert s == front + [last];
    }
  }

  lemma DivideTwice(n: nat, p: nat)
    requires p >= 1
    ensures n / 256 / p == n / (256 * p)
  {
    var q, r := n / (256 * p), n % (256 * p);
    var m := n / 256;
    assert n == 256 * p * q + r;
    assert 256 * p * q == 256 * (p * q);
    assert m == p * q + r / 256;
    assert 0 <= r / 256 < p;
    Quotient(m, p, q, r / 256);
  }

  lemma Quotient(m: nat, p: nat, q: nat, r: nat)
    requires r < p && m == p * q + r
    ensures m / p == q
  {
    var k := m / p;
    assert p * k <= m < p * k + p;
    if k < q {
      MulMonotone(k + 1, q, p);
    } else if k > q {
      MulMonotone(q + 1, k, p);
    }
  }

  /** The byte at `i` is the digit of weight 256 to the power `k - 1 - i`. */
  lemma {:induction false} Digit(n: nat, k: nat, i: nat)
    requires i < k
    ensures BigEndian(n, k)[i] == n / Pow256(k - 1 - i) % 256
  {
    if i < k - 1 {
      Digit(n / 256, k - 1, i);
      DivideTwice(n, Pow256(k - 2 - i));
    }
  }

  lemma WordSizes()
    ensures Pow256(2) == 0x1_0000
    ensures Pow256(8) == 0x1_0000_0000_0000_0000
  {
    assert Pow256(4) == 0x1_0000_0000;
  }

  function FromU16(s: seq<byte>): u16
    requires |s| == 2
  {
    BytesRoundTrip(s);
    WordSizes();
    FromBigEndian(s)
  }

  function FromU64(s: seq<byte>): u64
    requires |s| == 8
  {
    BytesRoundTrip(s);
    WordSizes();
    FromBigEndian(s)
  }

  // ---- the form ----

  function Framed(bytes: Bytes): seq<byte> {
    BigEndian(|bytes|, 8) + bytes
  }

  function Encode(e: Envelope): seq<byte> {
    BigEndian(e.version, 2) + Framed(e.messageType) + Framed(e.requestId) + Framed(e.payload)
  }

  function TakeBytes(input: Bytes): (r: Result<(Bytes, Bytes), CodecError>)
    ensures r.Err? ==> r.error == TruncatedLength || r.error == TruncatedBytes
  {
    if |input| < 8 then Err(TruncatedLength)
    else
      var len := FromU64(input[..8]);
      if len > |input| - 8 then Err(TruncatedBytes)
      else Ok((input[8..8 + len], input[8 + len..]))
  }

  function Decode(input: Bytes, utf8: Utf8): Result<Envelope, CodecError> {
    if |input| < 2 then Err(TruncatedU16)
    else
      var version := FromU16(input[..2]);
      match TakeBytes(input[2..])
      case Err(e) => Err(e)
      case Ok(a) =>
        if !utf8(a.0) then Err(InvalidMessageType)
        else
          match TakeBytes(a.1)
          case Err(e) => Err(e)
          case Ok(b) =>
            if !utf8(b.0) then Err(InvalidRequestId)
            else
              match TakeBytes(b.1)
              case Err(e) => Err(e)
              case Ok(c) =>
                if c.1 != [] then Err(TrailingBytes)
                else Ok(Envelope(version, a.0, b.0, c.0))
  }

  /** Taking and framing undo each other. */
  lemma TakeExactlyFramed(input: Bytes, bytes: Bytes, rest: Bytes)
    ensures TakeBytes(input) == Ok((bytes, rest)) <==> input == Framed(bytes) + rest
  {
    WordSizes();
    if input == Framed(bytes) + rest {
      NumberRoundTrip(|bytes|, 8);
      assert input[..8] == BigEndian(|bytes|, 8);
      assert input[8..8 + |bytes|] == bytes && input[8 + |bytes|..] == rest;
    }
    if TakeBytes(input) == Ok((bytes, rest)) {
      BytesRoundTrip(input[..8]);
      assert input == input[..8] + bytes + rest;
    }
  }

  lemma VersionRoundTrip(input: seq<byte>, version: u16, rest: seq<byte>)
    requires |input| >= 2
    ensures FromU16(input[..2]) == version && input[2..] == rest <==> input == BigEndian(version, 2) + rest
  {
    WordSizes();
    if input == BigEndian(version, 2) + rest {
      NumberRoundTrip(version, 2);
      assert input[..2] == BigEndian(version, 2);
    }
    if FromU16(input[..2]) == version && input[2..] == rest {
      BytesRoundTrip(input[..2]);
      assert input == input[..2] + rest;
    }
  }

  /** The codec is a bijection between envelopes and the byte strings it accepts: decoding yields `e` exactly when the
      names of `e` are text and the input is, byte for byte, the encoding of `e`. */
  lemma DecodesExactlyEncodings(input: Bytes, e: Envelope, utf8: Utf8)
    ensures Decode(input, utf8) == Ok(e) <==> IsText(e, utf8) && input == Encode(e)
  {
    hide Framed, TakeBytes, FromU16;
    if Decode(input, utf8) == Ok(e) {
      var a := TakeBytes(input[2..]).value;
      var b := TakeBytes(a.1).value;
      var c := TakeBytes(b.1).value;
      TakeExactlyFramed(input[2..], a.0, a.1);
      TakeExactlyFramed(a.1, b.0, b.1);
      TakeExactlyFramed(b.1, c.0, c.1);
      VersionRoundTrip(input, e.version, input[2..]);
      Regroup(e);
    }
    if IsText(e, utf8) && input == Encode(e) {
      Regroup(e);
      var r2: seq<byte> := Framed(e.payload) + [];
      var r1: seq<byte> := Framed(e.requestId) + r2;
      var r0: seq<byte> := Framed(e.messageType) + r1;
      assert |BigEndian(e.version, 2)| == 2;
      VersionRoundTrip(input, e.version, r0);
      TakeExactlyFramed(r0, e.messageType, r1);
      TakeExactlyFramed(r1, e.requestId, r2);
      TakeExactlyFramed(r2, e.payload, []);
    }
  }

  lemma FrameLayout(bytes: Bytes)
    ensures |Framed(bytes)| == 8 + |bytes| && Framed(bytes)[8..] == bytes
    ensures forall k :: 0 <= k < 8 ==> Framed(bytes)[k] == |bytes| / Pow256(7 - k) % 256
  {
    forall k | 0 <= k < 8
      ensures Framed(bytes)[k] == |bytes| / Pow256(7 - k) % 256
    {
      Digit(|bytes|, 8, k);
    }
  }

  /** Where every byte goes: the version in two bytes, then each field behind its length in eight, high bytes first. */
  lemma Layout(e: Envelope)
    ensures var t, r := |e.messageType|, |e.requestId|;
            var s := Encode(e);
            && |s| == 26 + t + r + |e.payload|
            && s[0] == e.version / 256 && s[1] == e.version % 256
            && (forall k :: 2 <= k < 10 ==> s[k] == t / Pow256(9 - k) % 256)
            && s[10..10 + t] == e.messageType
            && (forall k :: 10 + t <= k < 18 + t ==> s[k] == r / Pow256(17 + t - k) % 256)
            && s[18 + t..18 + t + r] == e.requestId
            && (forall k :: 18 + t + r <= k < 26 + t + r ==> s[k] == |e.payload| / Pow256(25 + t + r - k) % 256)
            && s[26 + t + r..] == e.payload
  {
    hide Framed, Pow256;
    FrameLayout(e.messageType);
    FrameLayout(e.requestId);
    FrameLayout(e.payload);
    VersionBytes(e.version);
    hide BigEndian;
    var v, a, b, c := BigEndian(e.version, 2), Framed(e.messageType), Framed(e.requestId), Framed(e.payload);
    var t, r := |e.messageType|, |e.requestId|;
    var s := Encode(e);
    assert s == v + a + b + c;
    assert forall k :: 0 <= k < 8 + t ==> s[2 + k] == a[k];
    assert forall k :: 2 <= k < 10 + t ==> s[k] == a[k - 2];
    assert forall k :: 10 + t <= k < 18 + t + r ==> s[k] == b[k - 10 - t];
    assert forall k :: 18 + t + r <= k < |s| ==> s[k] == c[k - 18 - t - r];
    assert s[10..10 + t] == a[8..];
    assert s[18 + t..18 + t + r] == b[8..];
    assert s[26 + t + r..] == c[8..];
  }

  lemma VersionBytes(version: u16)
    ensures BigEndian(version, 2) == [version / 256, version % 256]
  {
    assert BigEndian(version / 256, 1) == [version / 256];
  }

  lemma Regroup(e: Envelope)
    ensures Encode(e)
         == BigEndian(e.version, 2) + (Framed(e.messageType) + (Framed(e.requestId) + (Framed(e.payload) + [])))
  {
    hide Framed, BigEndian;
    var v, a, b, c := BigEndian(e.version, 2), Framed(e.messageType), Framed(e.requestId), Framed(e.payload);
    assert v + a + b + c == v + (a + (b + (c + [])));
  }

  /** No encoding is a proper prefix of another, so what is cut short is never taken for something else. */
  lemma PrefixFree(a: Envelope, b: Envelope, tail: seq<byte>)
    requires Encode(a) + tail == Encode(b) && |Encode(b)| <= U64_MAX
    ensures a == b && tail == []
  {
    hide Framed, BigEndian;
    Regroup(a);
    Regroup(b);
    var rest: seq<byte> := Framed(a.payload) + tail;
    var rest1: seq<byte> := Framed(a.requestId) + rest;
    var rest2: seq<byte> := Framed(a.messageType) + rest1;
    var other: seq<byte> := Framed(b.payload) + [];
    var other1: seq<byte> := Framed(b.requestId) + other;
    var other2: seq<byte> := Framed(b.messageType) + other1;
    assert Encode(b) == BigEndian(a.version, 2) + rest2;
    VersionRoundTrip(Encode(b), a.version, rest2);
    VersionRoundTrip(Encode(b), b.version, other2);
    TakeExactlyFramed(rest2, a.messageType, rest1);
    TakeExactlyFramed(rest2, b.messageType, other1);
    TakeExactlyFramed(rest1, a.requestId, rest);
    TakeExactlyFramed(rest1, b.requestId, other);
    TakeExactlyFramed(rest, a.payload, tail);
    TakeExactlyFramed(rest, b.payload, []);
  }

  /** The version and the first field of an input that has both. */
  lemma Parsed(input: Bytes, version: u16, field: Bytes, rest: Bytes)
    requires |input| >= 2
    ensures input == BigEndian(version, 2) + (Framed(field) + rest)
       <==> FromU16(input[..2]) == version && TakeBytes(input[2..]) == Ok((field, rest))
  {
    hide Framed, TakeBytes, FromU16;
    var tail: seq<byte> := Framed(field) + rest;
    VersionRoundTrip(input, version, tail);
    TakeExactlyFramed(input[2..], field, rest);
  }

  /** Bytes are left over exactly when something follows a whole encoding. */
  lemma TrailingExactly(input: Bytes, utf8: Utf8)
    ensures Decode(input, utf8) == Err(TrailingBytes)
       <==> exists e: Envelope, tail: Bytes :: IsText(e, utf8) && tail != [] && input == Encode(e) + tail
  {
    hide Framed, TakeBytes, FromU16;
    if Decode(input, utf8) == Err(TrailingBytes) {
      var a := TakeBytes(input[2..]).value;
      var b := TakeBytes(a.1).value;
      var c := TakeBytes(b.1).value;
      var e := Envelope(FromU16(input[..2]), a.0, b.0, c.0);
      Parsed(input, e.version, a.0, a.1);
      TakeExactlyFramed(a.1, b.0, b.1);
      TakeExactlyFramed(b.1, c.0, c.1);
      EncodeThen(e, c.1);
      assert IsText(e, utf8) && input == Encode(e) + c.1;
    }
    if e: Envelope, tail: Bytes :| IsText(e, utf8) && tail != [] && input == Encode(e) + tail {
      EncodeThen(e, tail);
      var r2: seq<byte> := Framed(e.payload) + tail;
      var r1: seq<byte> := Framed(e.requestId) + r2;
      assert |BigEndian(e.version, 2)| == 2;
      Parsed(input, e.version, e.messageType, r1);
      TakeExactlyFramed(r1, e.requestId, r2);
      TakeExactlyFramed(r2, e.payload, tail);
    }
  }

  lemma EncodeThen(e: Envelope, tail: seq<byte>)
    ensures Encode(e) + tail
         == BigEndian(e.version, 2) + (Framed(e.messageType) + (Framed(e.requestId) + (Framed(e.payload) + tail)))
  {
    hide Framed, BigEndian;
  }

  /** A name is refused exactly when it is there as a whole and is no text, the message type before the request id. */
  lemma NamesRefusedExactly(input: Bytes, utf8: Utf8)
    requires |input| >= 2
    ensures Decode(input, utf8) == Err(InvalidMessageType)
       <==> exists m: Bytes, rest: Bytes :: !utf8(m) && input[2..] == Framed(m) + rest
    ensures Decode(input, utf8) == Err(InvalidRequestId)
       <==> exists m: Bytes, r: Bytes, rest: Bytes ::
              utf8(m) && !utf8(r) && input[2..] == Framed(m) + (Framed(r) + rest)
  {
    hide Framed, TakeBytes, FromU16;
    forall m: Bytes, rest: Bytes
      ensures TakeBytes(input[2..]) == Ok((m, rest)) <==> input[2..] == Framed(m) + rest
    {
      TakeExactlyFramed(input[2..], m, rest);
    }
    if TakeBytes(input[2..]).Ok? {
      var (m, tail) := TakeBytes(input[2..]).value;
      assert input[2..] == Framed(m) + tail;
      if TakeBytes(tail).Ok? {
        var (r, rest) := TakeBytes(tail).value;
        TakeExactlyFramed(tail, r, rest);
      }
    }
    forall m: Bytes, r: Bytes, rest: Bytes | input[2..] == Framed(m) + (Framed(r) + rest)
      ensures TakeBytes(input[2..]).Ok? && TakeBytes(input[2..]).value.0 == m
      ensures TakeBytes(TakeBytes(input[2..]).value.1) == Ok((r, rest))
    {
      var tail: seq<byte> := Framed(r) + rest;
      TakeExactlyFramed(input[2..], m, tail);
      TakeExactlyFramed(tail, r, rest);
    }
  }

  /** Every truncation of an encoding is refused. */
  lemma TruncationRefused(e: Envelope, k: nat, utf8: Utf8)
    requires |Encode(e)| <= U64_MAX && k < |Encode(e)|
    ensures Decode(Encode(e)[..k], utf8).Err?
  {
    hide Encode, Decode;
    var cut := Encode(e)[..k];
    if Decode(cut, utf8).Ok? {
      var other := Decode(cut, utf8).value;
      DecodesExactlyEncodings(cut, other, utf8);
      PrefixFree(other, e, Encode(e)[k..]);
    }
  }

  // ---- the code ----

  /** The growing output vector. */
  class Output {
    var bytes: seq<byte>

    constructor ()
      ensures bytes == []
    {
      bytes := [];
    }

    method PutBytes(field: Bytes)
      modifies this
      ensures bytes == old(bytes) + Framed(field)
    {
      bytes := bytes + BigEndian(|field|, 8);
      bytes := bytes + field;
    }
  }

  method EncodeEnvelope(e: Envelope) returns (out: seq<byte>)
    ensures out == Encode(e)
  {
    var o := new Output();
    o.bytes := o.bytes + BigEndian(e.version, 2);
    o.PutBytes(e.messageType);
    o.PutBytes(e.requestId);
    o.PutBytes(e.payload);
    out := o.bytes;
  }

  /** The shrinking input slice. */
  class Input {
    var rest: Bytes

    constructor (input: Bytes)
      ensures rest == input
    {
      rest := input;
    }

    method TakeVersion() returns (r: Result<u16, CodecError>)
      modifies this
      ensures |old(rest)| < 2 ==> r == Err(TruncatedU16) && rest == old(rest)
      ensures |old(rest)| >= 2 ==> r == Ok(FromU16(old(rest)[..2])) && rest == old(rest)[2..]
    {
      if |rest| < 2 {
        return Err(TruncatedU16);
      }
      r := Ok(FromU16(rest[..2]));
      rest := rest[2..];
    }

    method Take() returns (r: Result<Bytes, CodecError>)
      modifies this
      ensures TakeBytes(old(rest)).Err? ==> r == Err(TakeBytes(old(rest)).error)
      ensures TakeBytes(old(rest)).Ok? ==> r == Ok(TakeBytes(old(rest)).value.0) && rest == TakeBytes(old(rest)).value.1
    {
      if |rest| < 8 {
        return Err(TruncatedLength);
      }
      var len := FromU64(rest[..8]);
      rest := rest[8..];
      if len > |rest| {
        return Err(TruncatedBytes);
      }
      assert rest[..len] == old(rest)[8..8 + len] && rest[len..] == old(rest)[8 + len..];
      r := Ok(rest[..len]);
      rest := rest[len..];
    }
  }

  /** The round-trip lemma above is about this method's result. */
  method DecodeEnvelope(bytes: Bytes, utf8: Utf8) returns (r: Result<Envelope, CodecError>)
    ensures r == Decode(bytes, utf8)
  {
    var input := new Input(bytes);
    var version := input.TakeVersion();
    if version.Err? {
      return Err(version.error);
    }
    var messageType := input.Take();
    if messageType.Err? {
      return Err(messageType.error);
    }
    if !utf8(messageType.value) {
      return Err(InvalidMessageType);
    }
    var requestId := input.Take();
    if requestId.Err? {
      return Err(requestId.error);
    }
    if !utf8(requestId.value) {
      return Err(InvalidRequestId);
    }
    var payload := input.Take();
    if payload.Err? {
      return Err(payload.error);
    }
    if input.rest != [] {
      return Err(TrailingBytes);
    }
    r := Ok(Envelope(version.value, messageType.value, requestId.value, payload.value));
  }
}
