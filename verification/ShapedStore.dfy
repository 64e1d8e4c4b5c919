/** A store behind the shaping wrappers, measured against a plain expiring map that
    knows nothing of envelopes. */
module ShapedStore {
  import opened Bytes
  import opened ExpiringMap
  import opened Shaping
  import MemoryStore

  /** A logical entry: the caller's bytes, and whether they are stored as they are
      (counters, legacy values and uncompressed, unencrypted writes) or enveloped. */
  datatype Cell = Cell(value: bytes, raw: bool)

  type Plain = map<bytes, Item<Cell>>

  datatype ShapedOut = Plainly(out: Out) | Refused(error: Error)

  predicate Enveloped(cfg: Config) {
    cfg.gzip || cfg.encrypt
  }

  // ---------------------------------------------------------- the wrapped backend

  /** One operation through the wrappers; `nonce` is the randomness of a write. */
  function ShapedStep(cs: Codecs, cfg: Config, m: Store, op: Op, nonce: bytes, now: int, defaultTTL: int)
    : (Store, ShapedOut)
    requires |nonce| == NONCE_SIZE
  {
    match op
    case Get(k) =>
      (match Find(m, k, now)
       case None => (m, Plainly(Miss))
       case Some(body) =>
         match Unshaped(cs, cfg, body)
         case Ok(v) => (m, Plainly(Hit(v)))
         case Err(e) => (m, Refused(e)))
    case Set(k, v, ttl) =>
      (match Shaped(cs, cfg, nonce, v)
       case Ok(body) => var r := Step(m, Set(k, body, ttl), now, defaultTTL); (r.0, Plainly(r.1))
       case Err(e) => (m, Refused(e)))
    case Add(k, v, ttl) =>
      (match Shaped(cs, cfg, nonce, v)
       case Ok(body) => var r := Step(m, Add(k, body, ttl), now, defaultTTL); (r.0, Plainly(r.1))
       case Err(e) => (m, Refused(e)))
    case _ => var r := Step(m, op, now, defaultTTL); (r.0, Plainly(r.1))
  }

  // --------------------------------------------------------------- the plain store

  /** Whether a write is taken at all: a matter of sizes only. */
  function Refusal(cs: Codecs, cfg: Config, nonce: bytes, v: bytes): Option<Error>
    requires |nonce| == NONCE_SIZE
  {
    var inner := if cfg.encrypt then Encrypt(cs, nonce, v) else v;
    if cfg.max > 0 && (|inner| > cfg.max || (cfg.gzip && 5 + |cs.gzip(inner)| > cfg.max)) then Some(TooLarge) else None
  }

  function PlainStep(cs: Codecs, cfg: Config, p: Plain, op: Op, nonce: bytes, now: int, defaultTTL: int)
    : (Plain, ShapedOut)
    requires |nonce| == NONCE_SIZE
  {
    match op
    case Get(k) =>
      (match Find(p, k, now)
       case None => (p, Plainly(Miss))
       case Some(c) =>
         if c.raw && cfg.max > 0 && |c.value| > cfg.max then (p, Refused(TooLarge)) else (p, Plainly(Hit(c.value))))
    case Set(k, v, ttl) =>
      (match Refusal(cs, cfg, nonce, v)
       case Some(e) => (p, Refused(e))
       case None => (Put(p, k, Cell(v, !Enveloped(cfg)), Expiry(now, ttl, defaultTTL)), Plainly(Done)))
    case Add(k, v, ttl) =>
      (match Refusal(cs, cfg, nonce, v)
       case Some(e) => (p, Refused(e))
       case None => (AddIfAbsent(p, k, Cell(v, !Enveloped(cfg)), Expiry(now, ttl, defaultTTL), now),
                     Plainly(Created(Find(p, k, now) == None))))
    case Increment(k, delta, ttl) =>
      PlainCount(p, k, PlainCounter(p, k, now), delta, Expiry(now, ttl, defaultTTL))
    case Delete(k) => (p - {k}, Plainly(Done))
    case DeleteMany(ks) => (p - (set k | k in ks), Plainly(Done))
    case Flush => (map[], Plainly(Done))
  }

  /** Adding to a counter read as `current`: the result is stored raw. */
  function PlainCount(p: Plain, k: bytes, current: Option<int>, delta: int, expiry: int): (Plain, ShapedOut) {
    if current == None then (p, Plainly(NotNumeric))
    else
      var next := Wrap64(current.value + delta);
      (Put(p, k, Cell(FormatInt(next), true), expiry), Plainly(Number(next)))
  }

  /** An enveloped entry is not a number to the backend, whatever it holds. */
  function PlainCounter(p: Plain, k: bytes, now: int): Option<int> {
    match Find(p, k, now)
    case None => Some(0)
    case Some(c) => if c.raw then ParseInt(c.value) else None
  }

  // -------------------------------------------------------------------- simulation

  /** A raw value the readers let through as it is, when it fits the cap. */
  ghost predicate PassesThrough(cs: Codecs, cfg: Config, v: bytes) {
    Unshaped(cs, cfg, v) == if cfg.max > 0 && |v| > cfg.max then Err(TooLarge) else Ok(v)
  }

  ghost predicate Represents(cs: Codecs, cfg: Config, body: bytes, c: Cell) {
    if c.raw then body == c.value && PassesThrough(cs, cfg, c.value)
    else Unshaped(cs, cfg, body) == Ok(c.value) && (Marked(body, CMP1) || Marked(body, ENC1))
  }

  ghost predicate Related(cs: Codecs, cfg: Config, m: Store, p: Plain) {
    && m.Keys == p.Keys
    && forall k :: k in m ==> m[k].expiry == p[k].expiry && Represents(cs, cfg, m[k].value, p[k].value)
  }

  /** The one thing asked of a caller: that written values are readable, which only a size
      cap without compression and encryption can fail. */
  predicate Allowed(cs: Codecs, cfg: Config, op: Op) {
    op.Set? || op.Add? ==> Readable(cs, cfg, op.v)
  }

  lemma WriteRepresents(cs: Codecs, cfg: Config, nonce: bytes, v: bytes)
    requires Lawful(cs) && |nonce| == NONCE_SIZE && Readable(cs, cfg, v)
    ensures match Shaped(cs, cfg, nonce, v)
            case Err(e) => Refusal(cs, cfg, nonce, v) == Some(e)
            case Ok(body) => Refusal(cs, cfg, nonce, v) == None && Represents(cs, cfg, body, Cell(v, !Enveloped(cfg)))
  {
    EncryptRoundTrip(cs, nonce, v);
    if Shaped(cs, cfg, nonce, v).Ok? {
      AcceptedReadsBack(cs, cfg, nonce, v);
    }
    if cfg.gzip {
      var inner := if cfg.encrypt then Encrypt(cs, nonce, v) else v;
      if EncodeValue(cs, true, cfg.max, inner).Ok? {
        GzipRoundTrip(cs, cfg.max, inner);
      }
    }
  }

  lemma UnmarkedByFirst(b: bytes, magic: bytes)
    requires |magic| == 4 && b != [] && b[0] != magic[0]
    ensures !Marked(b, magic)
  {
    if |b| >= 4 {
      assert b[..4][0] == b[0];
    }
  }

  /** Decimal text starts with a digit or a minus sign, so no counter looks enveloped. */
  lemma NumbersPassThrough(cs: Codecs, cfg: Config, n: int)
    ensures PassesThrough(cs, cfg, FormatInt(n))
  {
    UnmarkedByFirst(FormatInt(n), CMP1);
    UnmarkedByFirst(FormatInt(n), ENC1);
    UnmarkedPassesThrough(cs, cfg, FormatInt(n));
  }

  lemma CountersAgree(cs: Codecs, cfg: Config, m: Store, p: Plain, k: bytes, now: int)
    requires Related(cs, cfg, m, p)
    ensures Counter(m, k, now) == PlainCounter(p, k, now)
  {
    if k in m && !p[k].value.raw {
      var body := m[k].value;
      assert body[0] == body[..4][0];
      ParseNeedsSignOrDigit(body);
    }
  }

  lemma ReadsAgree(cs: Codecs, cfg: Config, m: Store, p: Plain, k: bytes, nonce: bytes, now: int, defaultTTL: int)
    requires Related(cs, cfg, m, p) && |nonce| == NONCE_SIZE
    ensures ShapedStep(cs, cfg, m, Get(k), nonce, now, defaultTTL).1 == PlainStep(cs, cfg, p, Get(k), nonce, now,
            defaultTTL).1
  {
  }

  lemma PutRelated(cs: Codecs, cfg: Config, m: Store, p: Plain, k: bytes, body: bytes, c: Cell, expiry: int)
    requires Related(cs, cfg, m, p) && Represents(cs, cfg, body, c)
    ensures Related(cs, cfg, Put(m, k, body, expiry), Put(p, k, c, expiry))
  {
  }

  lemma WriteSimulates(cs: Codecs, cfg: Config, m: Store, p: Plain, op: Op, nonce: bytes, now: int, defaultTTL: int)
    requires Lawful(cs) && |nonce| == NONCE_SIZE && Related(cs, cfg, m, p) && Allowed(cs, cfg, op)
              && (op.Set? || op.Add?)
    ensures var a, b := ShapedStep(cs, cfg, m, op, nonce, now, defaultTTL),
              PlainStep(cs, cfg, p, op, nonce, now, defaultTTL);
            a.1 == b.1 && Related(cs, cfg, a.0, b.0)
  {
    WriteRepresents(cs, cfg, nonce, op.v);
    var shaped := Shaped(cs, cfg, nonce, op.v);
    if shaped.Ok? {
      PutRelated(cs, cfg, m, p, op.k, shaped.value, Cell(op.v, !Enveloped(cfg)), Expiry(now, op.ttl, defaultTTL));
    }
  }

  lemma NumberRelated(cs: Codecs, cfg: Config, m: Store, p: Plain, k: bytes, next: int, expiry: int)
    requires Related(cs, cfg, m, p)
    ensures Related(cs, cfg, Put(m, k, FormatInt(next), expiry), Put(p, k, Cell(FormatInt(next), true), expiry))
  {
    NumbersPassThrough(cs, cfg, next);
    PutRelated(cs, cfg, m, p, k, FormatInt(next), Cell(FormatInt(next), true), expiry);
  }

  lemma CountRelated(cs: Codecs, cfg: Config, m: Store, p: Plain, k: bytes, current: Option<int>, delta: int,
                     expiry: int)
    requires Related(cs, cfg, m, p)
    ensures var a, b := Count(m, k, current, delta, expiry), PlainCount(p, k, current, delta, expiry);
            Plainly(a.1) == b.1 && Related(cs, cfg, a.0, b.0)
  {
    if current.Some? {
      NumberRelated(cs, cfg, m, p, k, Wrap64(current.value + delta), expiry);
    }
  }

  lemma CountSimulates(cs: Codecs, cfg: Config, m: Store, p: Plain, op: Op, nonce: bytes, now: int, defaultTTL: int)
    requires |nonce| == NONCE_SIZE && Related(cs, cfg, m, p) && op.Increment?
    ensures var a, b := ShapedStep(cs, cfg, m, op, nonce, now, defaultTTL),
              PlainStep(cs, cfg, p, op, nonce, now, defaultTTL);
            a.1 == b.1 && Related(cs, cfg, a.0, b.0)
  {
    CountersAgree(cs, cfg, m, p, op.k, now);
    CountRelated(cs, cfg, m, p, op.k, Counter(m, op.k, now), op.delta, Expiry(now, op.ttl, defaultTTL));
  }

  lemma StepSimulates(cs: Codecs, cfg: Config, m: Store, p: Plain, op: Op, nonce: bytes, now: int, defaultTTL: int)
    requires Lawful(cs) && |nonce| == NONCE_SIZE && Related(cs, cfg, m, p) && Allowed(cs, cfg, op)
    ensures var a, b := ShapedStep(cs, cfg, m, op, nonce, now, defaultTTL),
              PlainStep(cs, cfg, p, op, nonce, now, defaultTTL);
            a.1 == b.1 && Related(cs, cfg, a.0, b.0)
  {
    match op
    case Get(k) => ReadsAgree(cs, cfg, m, p, k, nonce, now, defaultTTL);
    case Set(k, v, ttl) => WriteSimulates(cs, cfg, m, p, op, nonce, now, defaultTTL);
    case Add(k, v, ttl) => WriteSimulates(cs, cfg, m, p, op, nonce, now, defaultTTL);
    case Increment(k, delta, ttl) => CountSimulates(cs, cfg, m, p, op, nonce, now, defaultTTL);
    case _ =>
  }

  /** A call: the operation, the randomness it drew and the clock it read. */
  datatype Call = Call(op: Op, nonce: bytes, now: int)

  ghost predicate WellFormed(cs: Codecs, cfg: Config, calls: seq<Call>) {
    forall i :: 0 <= i < |calls| ==> |calls[i].nonce| == NONCE_SIZE && Allowed(cs, cfg, calls[i].op)
  }

  ghost function ShapedOuts(cs: Codecs, cfg: Config, m: Store, calls: seq<Call>, defaultTTL: int): seq<ShapedOut>
    requires WellFormed(cs, cfg, calls)
    decreases |calls|
  {
    if calls == [] then []
    else
      var r := ShapedStep(cs, cfg, m, calls[0].op, calls[0].nonce, calls[0].now, defaultTTL);
      [r.1] + ShapedOuts(cs, cfg, r.0, calls[1..], defaultTTL)
  }

  ghost function PlainOuts(cs: Codecs, cfg: Config, p: Plain, calls: seq<Call>, defaultTTL: int): seq<ShapedOut>
    requires WellFormed(cs, cfg, calls)
    decreases |calls|
  {
    if calls == [] then []
    else
      var r := PlainStep(cs, cfg, p, calls[0].op, calls[0].nonce, calls[0].now, defaultTTL);
      [r.1] + PlainOuts(cs, cfg, r.0, calls[1..], defaultTTL)
  }

  /** For every configuration and every sequence of calls, the shaped store answers
      exactly as the plain map does. */
  lemma {:induction false} ShapedRefinesPlain(cs: Codecs, cfg: Config, m: Store, p: Plain, calls: seq<Call>,
                                              defaultTTL: int)
    requires Lawful(cs) && Related(cs, cfg, m, p) && WellFormed(cs, cfg, calls)
    ensures ShapedOuts(cs, cfg, m, calls, defaultTTL) == PlainOuts(cs, cfg, p, calls, defaultTTL)
    decreases |calls|
  {
    if calls == [] {
    } else {
      var c := calls[0];
      StepSimulates(cs, cfg, m, p, c.op, c.nonce, c.now, defaultTTL);
      ShapedRefinesPlain(cs, cfg, ShapedStep(cs, cfg, m, c.op, c.nonce, c.now, defaultTTL).0,
                         PlainStep(cs, cfg, p, c.op, c.nonce, c.now, defaultTTL).0, calls[1..], defaultTTL);
    }
  }

  /** The proviso is exact: a value that is accepted but not readable is stored by a Set,
      and the very next Get does not answer it as the plain map does. */
  lemma UnreadableShows(cs: Codecs, cfg: Config, m: Store, p: Plain, k: bytes, v: bytes, ttl: int, nonce: bytes,
                        now: int, defaultTTL: int)
    requires Lawful(cs) && |nonce| == NONCE_SIZE && cfg.max <= MAX_INT && |v| < MAX_INT
    requires Refusal(cs, cfg, nonce, v) == None && !Readable(cs, cfg, v)
              && Live(Item(v, Expiry(now, ttl, defaultTTL)), now)
    ensures var a, b := ShapedStep(cs, cfg, m, Set(k, v, ttl), nonce, now, defaultTTL),
                        PlainStep(cs, cfg, p, Set(k, v, ttl), nonce, now, defaultTTL);
            && a.1 == b.1 == Plainly(Done)
            && PlainStep(cs, cfg, b.0, Get(k), nonce, now, defaultTTL).1 == Plainly(Hit(v))
            && ShapedStep(cs, cfg, a.0, Get(k), nonce, now, defaultTTL).1 != Plainly(Hit(v))
  {
    ReadsBackExactly(cs, cfg, nonce, v);
  }

  /** Counters survive shaping: after a successful Increment and until the entry expires,
      Get answers the decimal text of the counter whenever that fits the cap. */
  lemma CounterReadsBack(cs: Codecs, cfg: Config, m: Store, k: bytes, delta: int, ttl: int, nonce: bytes, now: int,
                         later: int, defaultTTL: int)
    requires |nonce| == NONCE_SIZE
    requires now <= later <= Expiry(now, ttl, defaultTTL)
    ensures var (m1, out) := ShapedStep(cs, cfg, m, Increment(k, delta, ttl), nonce, now, defaultTTL);
            out.Plainly? && out.out.Number? ==>
              var text := FormatInt(out.out.n);
              ShapedStep(cs, cfg, m1, Get(k), nonce, later, defaultTTL).1 ==
                if cfg.max > 0 && |text| > cfg.max then Refused(TooLarge) else Plainly(Hit(text))
  {
    var c := Counter(m, k, now);
    if c.Some? {
      NumbersPassThrough(cs, cfg, Wrap64(c.value + delta));
    }
  }

  // ------------------------------------------------------------------- the wrapper

  /** The wrapper stack around a memory store. */
  class Wrapped {
    const cs: Codecs
    const cfg: Config
    const inner: MemoryStore.MemoryStore

    constructor (cs: Codecs, cfg: Config, inner: MemoryStore.MemoryStore)
      ensures this.cs == cs && this.cfg == cfg && this.inner == inner
    {
      this.cs := cs;
      this.cfg := cfg;
      this.inner := inner;
    }

    method Get(k: bytes, now: int) returns (r: ShapedOut)
      ensures forall nonce :: |nonce| == NONCE_SIZE ==>
                r == ShapedStep(cs, cfg, inner.items, Op.Get(k), nonce, now, inner.defaultTTL).1
    {
      var ok, body := inner.Get(k, now);
      if !ok {
        return Plainly(Miss);
      }
      if HasShaping(cfg) {
        var decoded := DecodeValue(cs, body, cfg.max);
        if decoded.Err? {
          return Refused(decoded.error);
        }
        body := decoded.value;
      }
      if cfg.encrypt {
        var plain := Decrypt(cs, body);
        if plain.Err? {
          return Refused(plain.error);
        }
        body := plain.value;
      }
      return Plainly(Hit(body));
    }

    method Set(k: bytes, v: bytes, ttl: int, nonce: bytes, now: int) returns (r: ShapedOut)
      requires |nonce| == NONCE_SIZE
      modifies inner
      ensures (inner.items, r) == ShapedStep(cs, cfg, old(inner.items), Op.Set(k, v, ttl), nonce, now, inner.defaultTTL)
    {
      var body := v;
      if cfg.encrypt {
        body := Encrypt(cs, nonce, body);
      }
      if HasShaping(cfg) {
        var encoded := EncodeValue(cs, cfg.gzip, cfg.max, body);
        if encoded.Err? {
          return Refused(encoded.error);
        }
        body := encoded.value;
      }
      inner.Set(k, body, ttl, now);
      return Plainly(Done);
    }

    method Add(k: bytes, v: bytes, ttl: int, nonce: bytes, now: int) returns (r: ShapedOut)
      requires |nonce| == NONCE_SIZE
      modifies inner
      ensures (inner.items, r) == ShapedStep(cs, cfg, old(inner.items), Op.Add(k, v, ttl), nonce, now, inner.defaultTTL)
    {
      var shaped := Shaped(cs, cfg, nonce, v);
      if shaped.Err? {
        return Refused(shaped.error);
      }
      var ok := inner.Add(k, shaped.value, ttl, now);
      return Plainly(Created(ok));
    }

    method Increment(k: bytes, delta: int, ttl: int, now: int) returns (r: Out)
      modifies inner
      ensures forall nonce :: |nonce| == NONCE_SIZE ==>
                (inner.items, Plainly(r)) == ShapedStep(cs, cfg, old(inner.items), Op.Increment(k, delta, ttl), nonce,
                    now, inner.defaultTTL)
    {
      r := inner.Increment(k, delta, ttl, now);
    }
  }

  /** `WrapStore`: a cap that is not negative, a known codec and an AES key size or none make
      a wrapped store with exactly these layers; anything else is an error. */
  method WrapStore(cs: Codecs, base: BaseConfig, inner: MemoryStore.MemoryStore) returns (r: Result<Wrapped>)
    ensures r.Ok? <==>
              && base.maxValueBytes >= 0
              && base.compression in {"", "none", "gzip"}
              && base.keySize in {0, 16, 24, 32}
    ensures r.Ok? ==> r.value.inner == inner && r.value.cs == cs
    ensures r.Ok? ==> r.value.cfg == Config(base.compression == "gzip", base.maxValueBytes, base.keySize > 0)
    ensures r.Err? ==> r.error == if base.maxValueBytes < 0 then InvalidMax
                                  else if base.compression !in {"", "none", "gzip"} then UnsupportedCodec
                                  else EncryptionKey
  {
    var cfg := Validate(base);
    if cfg.Err? {
      return Err(cfg.error);
    }
    var wrapped := new Wrapped(cs, cfg.value, inner);
    return Ok(wrapped);
  }
}
