/** The NCV1 envelope that puts an expiration time beside a NATS payload. */
module NatsEnvelope {
  import opened Bytes

  const MAGIC: bytes := [78, 67, 86, 49]  // "NCV1"
  const OPEN_BRACE: byte := 123

  /** What the JSON reader makes of a body that starts with an opening brace. */
  datatype LegacyJson = Malformed | OtherMarker | Legacy(value: bytes, expiresAt: int)

  datatype Decoded = Plain | Wrapped(value: bytes, expiresAt: int) | Corrupt

  function Encode(value: bytes, expiresAt: int): (body: bytes)
    requires IsInt64(expiresAt)
  {
    MAGIC + PutInt64(expiresAt) + value
  }

  /** The envelope as it is built, in a buffer of its final size. */
  method EncodeBuffer(value: bytes, expiresAt: int) returns (body: array<byte>)
    requires IsInt64(expiresAt)
    ensures fresh(body) && body[..] == Encode(value, expiresAt)
  {
    body := new byte[12 + |value|];
    forall i | 0 <= i < 4 {
      body[i] := MAGIC[i];
    }
    var stamp := PutInt64(expiresAt);
    forall i | 0 <= i < 8 {
      body[4 + i] := stamp[i];
    }
    forall i | 0 <= i < |value| {
      body[12 + i] := value[i];
    }
    assert body[..4] == MAGIC && body[4..12] == stamp && body[12..] == value;
    assert body[..] == body[..4] + body[4..12] + body[12..];
  }

  function Decode(body: bytes, json: bytes -> LegacyJson): (d: Decoded)
  {
    if |body| >= 12 && body[..4] == MAGIC then
      Wrapped(body[12..], GetInt64(body[4..12]))
    else if body == [] || body[0] != OPEN_BRACE then
      Plain
    else
      match json(body)
      case Malformed => Corrupt
      case OtherMarker => Plain
      case Legacy(value, expiresAt) => Wrapped(value, expiresAt)
  }

  lemma RoundTrip(value: bytes, expiresAt: int, json: bytes -> LegacyJson)
    requires IsInt64(expiresAt)
    ensures Decode(Encode(value, expiresAt), json) == Wrapped(value, expiresAt)
  {
    var body := Encode(value, expiresAt);
    assert body[..4] == MAGIC;
    assert body[4..12] == PutInt64(expiresAt);
    assert body[12..] == value;
    Int64RoundTrip(expiresAt);
  }

  /** The envelope reader's expiry test: zero and negative stamps never expire. */
  predicate Expired(expiresAt: int, now: int) {
    expiresAt > 0 && now > expiresAt
  }

  /** The layout on the wire: "NCV1", eight bytes of big-endian stamp, the value. */
  lemma Layout(value: bytes, expiresAt: int)
    requires IsInt64(expiresAt)
    ensures var body := Encode(value, expiresAt);
            |body| == 12 + |value| && body[..4] == [78, 67, 86, 49] && body[12..] == value
    ensures FromBigEndian(Encode(value, expiresAt)[4..12]) == if expiresAt < 0 then expiresAt + TWO_64 else expiresAt
  {
    var body := Encode(value, expiresAt);
    assert body[4..12] == PutInt64(expiresAt);
    FitsInEight(if expiresAt < 0 then expiresAt + TWO_64 else expiresAt, 8);
  }

  /** How every other body is read: without "NCV1" and twelve bytes it is plain unless it
      opens like a JSON object, and then it is what the JSON reader says. */
  lemma ReadsOtherBodies(body: bytes, json: bytes -> LegacyJson)
    requires |body| < 12 || body[..4] != [78, 67, 86, 49]
    ensures body == [] || body[0] != 123 ==> Decode(body, json) == Plain
    ensures body != [] && body[0] == 123 ==>
              Decode(body, json) == match json(body)
                                    case Malformed => Corrupt
                                    case OtherMarker => Plain
                                    case Legacy(value, stamp) => Wrapped(value, stamp)
  {
  }

  /** A stamp passes exactly when it is positive and the clock is beyond it. */
  lemma ExpiredMeans(expiresAt: int, now: int)
    ensures Expired(expiresAt, now) <==> 0 < expiresAt < now
  {
  }
}
