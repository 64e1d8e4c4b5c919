/** Value shaping: the CMP1 compression envelope with its size cap and the ENC1
    encryption envelope. Gzip and AES-GCM are given as pairs of functions. */
module Shaping {
  import opened Bytes

  const CMP1: bytes := [67, 77, 80, 49]
  const ENC1: bytes := [69, 78, 67, 49]
  const GZIP_TAG: byte := 103  // 'g'
  const NONCE_SIZE: nat := 12
  const MAX_INT: int := 0x7fff_ffff_ffff_ffff

  datatype Error = InvalidMax | UnsupportedCodec | EncryptionKey | TooLarge | CorruptCompression | DecryptFailed

  datatype Result<+T> = Ok(value: T) | Err(error: Error)

  /** What a decompressor delivers: bytes, then a clean end or an error; `early` says
      that the error comes together with the last byte instead of after it. */
  datatype Ending = Clean | Broken(early: bool)
  datatype Stream = Stream(data: bytes, ending: Ending)

  datatype Codecs = Codecs(
    gzip: bytes -> bytes,
    gunzip: bytes -> Option<Stream>,
    seal: (bytes, bytes) -> bytes,
    open: (bytes, bytes) -> Option<bytes>)

  /** Decompression undoes compression, and opening undoes sealing under one nonce. */
  ghost predicate Lawful(cs: Codecs) {
    && (forall v :: cs.gunzip(cs.gzip(v)) == Some(Stream(v, Clean)))
    && (forall n, v :: |n| == NONCE_SIZE ==> cs.open(n, cs.seal(n, v)) == Some(v))
  }

  // ---------------------------------------------------------------- configuration

  datatype BaseConfig = BaseConfig(compression: string, maxValueBytes: int, keySize: nat)

  /** A validated configuration: whether values are compressed, the cap (zero for
      none) and whether they are encrypted. */
  datatype Config = Config(gzip: bool, max: nat, encrypt: bool)

  function Validate(cfg: BaseConfig): Result<Config> {
    if cfg.maxValueBytes < 0 then Err(InvalidMax)
    else if cfg.compression != "" && cfg.compression != "none" && cfg.compression != "gzip" then Err(UnsupportedCodec)
    else if cfg.keySize != 0 && cfg.keySize != 16 && cfg.keySize != 24 && cfg.keySize != 32 then Err(EncryptionKey)
    else Ok(Config(cfg.compression == "gzip", cfg.maxValueBytes, cfg.keySize > 0))
  }

  /** The wrapper layers that `WrapStore` stacks for a configuration. */
  predicate HasShaping(cfg: Config) {
    cfg.gzip || cfg.max > 0
  }

  // -------------------------------------------------------------------- envelopes

  predicate Marked(body: bytes, magic: bytes)
    requires |magic| == 4
  {
    |body| >= 5 && body[..4] == magic
  }

  function EncodeValue(cs: Codecs, gzip: bool, max: nat, value: bytes): Result<bytes> {
    if max > 0 && |value| > max then Err(TooLarge)
    else if !gzip then Ok(value)
    else
      var encoded := CMP1 + [GZIP_TAG] + cs.gzip(value);
      if max > 0 && |encoded| > max then Err(TooLarge) else Ok(encoded)
  }

  /** `io.LimitReader` around the decompressor: one byte more than the cap. */
  function Limit(max: nat): nat {
    if max < MAX_INT then max + 1 else max
  }

  /** Reading a stream to its end, through a limit when there is one. */
  function ReadAll(st: Stream, limit: Option<nat>): Result<bytes> {
    var n := |st.data|;
    if limit.Some? && (n > limit.value || (n == limit.value && st.ending != Broken(true))) then
        Ok(st.data[..limit.value])
    else if st.ending.Clean? then Ok(st.data)
    else Err(CorruptCompression)
  }

  function DecodeValue(cs: Codecs, body: bytes, max: nat): Result<bytes> {
    if max > 0 && |body| > max then Err(TooLarge)
    else if !Marked(body, CMP1) then Ok(body)
    else if body[4] != GZIP_TAG then Err(UnsupportedCodec)
    else
      match cs.gunzip(body[5..])
      case None => Err(CorruptCompression)
      case Some(st) =>
        match ReadAll(st, if max > 0 then Some(Limit(max)) else None)
        case Err(e) => Err(e)
        case Ok(decoded) => if max > 0 && |decoded| > max then Err(TooLarge) else Ok(decoded)
  }

  function Encrypt(cs: Codecs, nonce: bytes, plain: bytes): bytes
    requires |nonce| == NONCE_SIZE
  {
    ENC1 + [NONCE_SIZE] + nonce + cs.seal(nonce, plain)
  }

  function Decrypt(cs: Codecs, body: bytes): Result<bytes> {
    if !Marked(body, ENC1) then Ok(body)
    else if body[4] != NONCE_SIZE || body[4] > |body| - 5 then Err(DecryptFailed)
    else match cs.open(body[5..17], body[17..])
         case None => Err(DecryptFailed)
         case Some(plain) => Ok(plain)
  }

  // ------------------------------------------------------------------ the stack

  /** The bytes a Set or Add hands to the backend. */
  function Shaped(cs: Codecs, cfg: Config, nonce: bytes, value: bytes): Result<bytes>
    requires |nonce| == NONCE_SIZE
  {
    var inner := if cfg.encrypt then Encrypt(cs, nonce, value) else value;
    if HasShaping(cfg) then EncodeValue(cs, cfg.gzip, cfg.max, inner) else Ok(inner)
  }

  /** What a Get makes of the backend's bytes. */
  function Unshaped(cs: Codecs, cfg: Config, body: bytes): Result<bytes> {
    var outer := if HasShaping(cfg) then DecodeValue(cs, body, cfg.max) else Ok(body);
    if outer.Err? then outer
    else if cfg.encrypt then Decrypt(cs, outer.value)
    else outer
  }

  lemma GzipRoundTrip(cs: Codecs, max: nat, value: bytes)
    requires Lawful(cs) && EncodeValue(cs, true, max, value).Ok?
    ensures DecodeValue(cs, EncodeValue(cs, true, max, value).value, max) == Ok(value)
    ensures Marked(EncodeValue(cs, true, max, value).value, CMP1)
  {
    var body := CMP1 + [GZIP_TAG] + cs.gzip(value);
    assert body[..4] == CMP1 && body[4] == GZIP_TAG && body[5..] == cs.gzip(value);
    assert value[..|value|] == value;
  }

  lemma EncryptRoundTrip(cs: Codecs, nonce: bytes, plain: bytes)
    requires Lawful(cs) && |nonce| == NONCE_SIZE
    ensures Decrypt(cs, Encrypt(cs, nonce, plain)) == Ok(plain)
    ensures Marked(Encrypt(cs, nonce, plain), ENC1) && !Marked(Encrypt(cs, nonce, plain), CMP1)
  {
    var body := Encrypt(cs, nonce, plain);
    assert body[..4] == ENC1 && body[4] == NONCE_SIZE;
    assert body[5..17] == nonce && body[17..] == cs.seal(nonce, plain);
  }

  /** A cap with neither compression nor encryption stores values as they are. */
  predicate CapOnly(cfg: Config) {
    cfg.max > 0 && !cfg.gzip && !cfg.encrypt
  }

  /** The gzip payload of a marked value decompresses to the value itself. */
  predicate SelfExpanding(cs: Codecs, value: bytes) {
    Marked(value, CMP1) && value[4] == GZIP_TAG && cs.gunzip(value[5..]) == Some(Stream(value, Clean))
  }

  /** With the cap alone a value is stored as it is, so one that carries the compression
      mark is taken for compressed; only its own decompression survives that. */
  predicate Readable(cs: Codecs, cfg: Config, value: bytes) {
    CapOnly(cfg) ==> !Marked(value, CMP1) || SelfExpanding(cs, value)
  }

  lemma EnvelopeReadsBack(cs: Codecs, cfg: Config, nonce: bytes, value: bytes)
    requires Lawful(cs) && |nonce| == NONCE_SIZE && !CapOnly(cfg)
    requires Shaped(cs, cfg, nonce, value).Ok?
    ensures Unshaped(cs, cfg, Shaped(cs, cfg, nonce, value).value) == Ok(value)
  {
    EncryptRoundTrip(cs, nonce, value);
    if cfg.gzip {
      GzipRoundTrip(cs, cfg.max, if cfg.encrypt then Encrypt(cs, nonce, value) else value);
    }
  }

  lemma SelfExpandingReadsBack(cs: Codecs, max: nat, value: bytes)
    requires 0 < max && |value| <= max && SelfExpanding(cs, value)
    ensures DecodeValue(cs, value, max) == Ok(value)
  {
    if Limit(max) == |value| {
      assert value[..Limit(max)] == value;
    }
  }

  /** Every accepted value that is readable is read back byte for byte, and never refused
      for its size. */
  lemma AcceptedReadsBack(cs: Codecs, cfg: Config, nonce: bytes, value: bytes)
    requires Lawful(cs) && |nonce| == NONCE_SIZE
    requires Shaped(cs, cfg, nonce, value).Ok? && Readable(cs, cfg, value)
    ensures Unshaped(cs, cfg, Shaped(cs, cfg, nonce, value).value) == Ok(value)
  {
    if !CapOnly(cfg) {
      EnvelopeReadsBack(cs, cfg, nonce, value);
    } else if Marked(value, CMP1) {
      SelfExpandingReadsBack(cs, cfg.max, value);
    }
  }

  /** What the limited reader returns is no longer than what the stream held. */
  lemma MisreadValue(cs: Codecs, max: nat, value: bytes)
    requires 0 < max <= MAX_INT && |value| <= max && |value| < MAX_INT
    requires Marked(value, CMP1) && DecodeValue(cs, value, max) == Ok(value)
    ensures SelfExpanding(cs, value)
  {
  }

  /** Exactly these: under every configuration an accepted value reads back if and only if
      it is readable. */
  lemma ReadsBackExactly(cs: Codecs, cfg: Config, nonce: bytes, value: bytes)
    requires Lawful(cs) && |nonce| == NONCE_SIZE && cfg.max <= MAX_INT && |value| < MAX_INT
    requires Shaped(cs, cfg, nonce, value).Ok?
    ensures Unshaped(cs, cfg, Shaped(cs, cfg, nonce, value).value) == Ok(value) <==> Readable(cs, cfg, value)
  {
    if Readable(cs, cfg, value) {
      AcceptedReadsBack(cs, cfg, nonce, value);
    } else if Unshaped(cs, cfg, Shaped(cs, cfg, nonce, value).value) == Ok(value) {
      MisreadValue(cs, cfg.max, value);
    }
  }

  /** A marked value that is accepted and then refused. */
  lemma MarkedValueIsMisread(cs: Codecs, nonce: bytes)
    requires |nonce| == NONCE_SIZE
    ensures var cfg, value := Config(false, 100, false), CMP1 + [0];
            Shaped(cs, cfg, nonce, value) == Ok(value) && Unshaped(cs, cfg, value) == Err(UnsupportedCodec)
  {
    assert (CMP1 + [0])[..4] == CMP1;
  }

  /** Legacy values: stored bytes without a mark that fit the cap read as they are,
      under every configuration. */
  lemma UnmarkedPassesThrough(cs: Codecs, cfg: Config, body: bytes)
    requires !Marked(body, CMP1) && !Marked(body, ENC1)
    ensures Unshaped(cs, cfg, body) == if cfg.max > 0 && |body| > cfg.max then Err(TooLarge) else Ok(body)
  {
  }

  /** Bounded decompression: for an intact gzip envelope and a positive cap, the result
      is the whole value exactly when both envelope and value fit, else too large. */
  lemma BoundedDecompression(cs: Codecs, body: bytes, max: nat, value: bytes)
    requires 0 < max <= MAX_INT && |value| <= MAX_INT
    requires Marked(body, CMP1) && body[4] == GZIP_TAG && cs.gunzip(body[5..]) == Some(Stream(value, Clean))
    ensures DecodeValue(cs, body, max) == if |body| <= max && |value| <= max then Ok(value) else Err(TooLarge)
  {
    if max == MAX_INT && |value| == max {
      assert value[..max] == value;
    }
  }

  /** The layout of the two envelopes: "CMP1", 'g' and the payload; "ENC1", the nonce length,
      the nonce and the sealed bytes. */
  lemma Layouts(cs: Codecs, value: bytes, nonce: bytes)
    requires |nonce| == 12
    ensures EncodeValue(cs, true, 0, value) == Ok([67, 77, 80, 49, 103] + cs.gzip(value))
    ensures Encrypt(cs, nonce, value) == [69, 78, 67, 49, 12] + nonce + cs.seal(nonce, value)
  {
    assert CMP1 + [GZIP_TAG] == [67, 77, 80, 49, 103] && ENC1 + [NONCE_SIZE] == [69, 78, 67, 49, 12];
  }

  /** Which bodies carry a mark: five bytes or more, the first four of them as written out. */
  lemma MarksWrittenOut(body: bytes)
    ensures Marked(body, CMP1) <==> |body| >= 5 && body[..4] == [67, 77, 80, 49]
    ensures Marked(body, ENC1) <==> |body| >= 5 && body[..4] == [69, 78, 67, 49]
  {
  }

  /** An encrypted body with another nonce length, or one that does not open, is an error under
      every configuration that encrypts and lets the body through to decryption. */
  lemma TamperedIsRefused(cs: Codecs, cfg: Config, body: bytes)
    requires cfg.encrypt && |body| >= 5 && body[..4] == [69, 78, 67, 49]
    requires |body| < 17 || body[4] != 12 || cs.open(body[5..17], body[17..]) == None
    ensures Unshaped(cs, cfg, body) == if cfg.max > 0 && |body| > cfg.max then Err(TooLarge) else Err(DecryptFailed)
  {
    assert body[..4] != CMP1;
  }

  /** The same inside an intact compression envelope. */
  lemma TamperedInsideIsRefused(cs: Codecs, cfg: Config, body: bytes, inner: bytes)
    requires cfg.encrypt && HasShaping(cfg) && DecodeValue(cs, body, cfg.max) == Ok(inner)
    requires |inner| >= 5 && inner[..4] == [69, 78, 67, 49]
    requires |inner| < 17 || inner[4] != 12 || cs.open(inner[5..17], inner[17..]) == None
    ensures Unshaped(cs, cfg, body) == Err(DecryptFailed)
  {
  }

  /** A compressed body with another tag is an unsupported codec, one whose payload does not
      open or breaks off is corrupt, under every configuration that reads compression. */
  lemma BrokenCompressionIsRefused(cs: Codecs, cfg: Config, body: bytes)
    requires HasShaping(cfg) && |body| >= 5 && body[..4] == [67, 77, 80, 49] && (cfg.max > 0 ==> |body| <= cfg.max)
    ensures body[4] != 103 ==> Unshaped(cs, cfg, body) == Err(UnsupportedCodec)
    ensures body[4] == 103 && cs.gunzip(body[5..]) == None ==> Unshaped(cs, cfg, body) == Err(CorruptCompression)
    ensures body[4] == 103 && cs.gunzip(body[5..]).Some? && cs.gunzip(body[5..]).value.ending.Broken?
            && (cfg.max > 0 ==> |cs.gunzip(body[5..]).value.data| < cfg.max) ==>
              Unshaped(cs, cfg, body) == Err(CorruptCompression)
  {
  }

  // ------------------------------------------------------- the reading loop itself

  datatype Status = More | Eof | Broke

  /** The decompressor behind a cursor. `Read` may hand over any positive number of
      bytes up to what is asked; an early error comes with the last of them. */
  class Reader {
    const stream: Stream
    var pos: nat

    ghost predicate Valid()
      reads this
    {
      pos <= |stream.data|
    }

    constructor (stream: Stream)
      ensures this.stream == stream && pos == 0 && Valid()
    {
      this.stream := stream;
      pos := 0;
    }

    method Read(want: nat) returns (chunk: bytes, status: Status)
      requires Valid() && want > 0
      modifies this
      ensures Valid() && |chunk| <= want
      ensures old(pos) + |chunk| == pos && chunk == stream.data[old(pos)..pos]
      ensures chunk == [] ==> pos == |stream.data| && status != More
      ensures status == Eof ==> pos == |stream.data| && stream.ending == Clean
      ensures status == Broke <==>
                && pos == |stream.data|
                && (stream.ending == Broken(true) || (stream.ending == Broken(false) && chunk == []))
    {
      var n: nat :| n <= want && n <= |stream.data| - pos && (n == 0 ==> pos == |stream.data|);
      chunk := stream.data[pos..pos + n];
      pos := pos + n;
      if pos < |stream.data| {
        status := More;
      } else if stream.ending == Clean {
        status := if n == 0 then Eof else More;
      } else {
        status := if stream.ending.early || n == 0 then Broke else More;
      }
    }
  }

  /** `io.ReadAll` over the decompressor, through `io.LimitReader` when there is a
      limit: it draws no byte beyond the limit and reports what `ReadAll` says. */
  method ReadStream(reader: Reader, limit: Option<nat>, buffer: nat) returns (r: Result<bytes>)
    requires reader.Valid() && reader.pos == 0 && buffer > 0
    requires limit.Some? ==> limit.value > 0
    modifies reader
    ensures reader.Valid() && (limit.Some? ==> reader.pos <= limit.value)
    ensures r == ReadAll(reader.stream, limit)
  {
    ghost var data := reader.stream.data;
    var out: bytes := [];
    var status := More;
    while status == More && (limit == None || |out| < limit.value)
      invariant reader.Valid() && reader.pos == |out| && out == data[..reader.pos]
      invariant limit.Some? ==> |out| <= limit.value
      invariant status == Eof ==> |out| == |data| && reader.stream.ending == Clean
      invariant status == Broke ==> |out| == |data| && reader.stream.ending.Broken?
      invariant status == Broke && limit.Some? && |data| == limit.value ==> reader.stream.ending == Broken(true)
      invariant status == More && |out| == |data| && |out| > 0 ==> reader.stream.ending != Broken(true)
      decreases |data| - |out|, status == More
    {
      var want := if limit.Some? && limit.value - |out| < buffer then limit.value - |out| else buffer;
      var chunk, st := reader.Read(want);
      out := out + chunk;
      status := st;
    }
    if status == Broke {
      return Err(CorruptCompression);
    }
    assert status == Eof ==> out == data;
    return Ok(out);
  }

  /** `decodeValue` as it runs: it answers what `DecodeValue` says and, under a cap,
      never draws more than one byte beyond it from the decompressor. */
  method DecodeValueStreaming(cs: Codecs, body: bytes, max: nat, buffer: nat) returns (r: Result<bytes>, drawn: nat)
    requires buffer > 0
    ensures r == DecodeValue(cs, body, max)
    ensures max > 0 ==> drawn <= max + 1
  {
    drawn := 0;
    if max > 0 && |body| > max {
      return Err(TooLarge), drawn;
    }
    if !Marked(body, CMP1) {
      return Ok(body), drawn;
    }
    if body[4] != GZIP_TAG {
      return Err(UnsupportedCodec), drawn;
    }
    var unzipped := cs.gunzip(body[5..]);
    if unzipped == None {
      return Err(CorruptCompression), drawn;
    }
    var reader := new Reader(unzipped.value);
    r := ReadStream(reader, if max > 0 then Some(Limit(max)) else None, buffer);
    drawn := reader.pos;
    if r.Ok? && max > 0 && |r.value| > max {
      r := Err(TooLarge);
    }
  }
}
