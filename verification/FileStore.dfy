/** The file store: one record file per key in a directory, measured against an
    expiring map. SHA-256 is a given function, collision-free on the keys in use. */
module FileStore {
  import opened Bytes
  import opened ExpiringMap
  import FileRecord

  type Name = bytes

  /** A directory entry: a file with its contents, or a subdirectory. */
  datatype Node = File(data: bytes) | Subdirectory

  type Dir = map<Name, Node>

  datatype Config = Config(hash: bytes -> bytes, json: FileRecord.JsonReader, defaultTTL: int)

  const HASH_SIZE: nat := 32
  const SUFFIX: bytes := [46, 99, 97, 99, 104, 101]                              // ".cache"
  const TMP_PREFIX: bytes := [46, 99, 97, 99, 104, 101, 45, 116, 109, 112, 45]   // ".cache-tmp-"

  // ------------------------------------------------------------------------ names

  function HexDigit(n: int): byte
    requires 0 <= n < 16
  {
    if n < 10 then 48 + n else 87 + n
  }

  function Hex(b: bytes): (h: bytes)
    ensures |h| == 2 * |b|
  {
    if b == [] then [] else [HexDigit(b[0] / 16), HexDigit(b[0] % 16)] + Hex(b[1..])
  }

  /** What `hex.DecodeString` takes for a digit: either case. */
  predicate IsHexDigit(c: byte) {
    48 <= c <= 57 || 97 <= c <= 102 || 65 <= c <= 70
  }

  predicate IsHex(s: bytes) {
    |s| % 2 == 0 && forall i :: 0 <= i < |s| ==> IsHexDigit(s[i])
  }

  function Path(cfg: Config, k: bytes): Name {
    Hex(cfg.hash(k)) + SUFFIX
  }

  /** Records and the temporary files that build them. */
  predicate IsStoreEntry(name: Name) {
    || HasPrefix(name, TMP_PREFIX)
    || (|name| == 2 * HASH_SIZE + |SUFFIX| && name[2 * HASH_SIZE..] == SUFFIX && IsHex(name[..2 * HASH_SIZE]))
  }

  lemma {:induction false} HexIsHex(b: bytes)
    ensures forall i :: 0 <= i < |Hex(b)| ==> IsHexDigit(Hex(b)[i])
  {
    if b == [] {
    } else {
      HexIsHex(b[1..]);
    }
  }

  lemma {:induction false} HexInjective(a: bytes, b: bytes)
    requires Hex(a) == Hex(b)
    ensures a == b
  {
    if a == [] {
    } else {
      assert Hex(a)[0] == Hex(b)[0] && Hex(a)[1] == Hex(b)[1];
      assert Hex(a)[2..] == Hex(a[1..]) && Hex(b)[2..] == Hex(b[1..]);
      HexInjective(a[1..], b[1..]);
      assert a == [a[0]] + a[1..] && b == [b[0]] + b[1..];
    }
  }

  /** Flush recognises every path the store writes. */
  lemma PathIsStoreEntry(cfg: Config, k: bytes)
    requires |cfg.hash(k)| == HASH_SIZE
    ensures IsStoreEntry(Path(cfg, k))
  {
    HexIsHex(cfg.hash(k));
    var p := Path(cfg, k);
    assert p[2 * HASH_SIZE..] == SUFFIX && p[..2 * HASH_SIZE] == Hex(cfg.hash(k));
  }

  /** Names are lower-case hexadecimal digits, two per byte, high half first. */
  lemma {:induction false} HexDigits(b: bytes, i: nat)
    requires i < |b|
    ensures var digits: bytes := [48, 49, 50, 51, 52, 53, 54, 55, 56, 57, 97, 98, 99, 100, 101, 102];
            Hex(b)[2 * i] == digits[b[i] / 16] && Hex(b)[2 * i + 1] == digits[b[i] % 16]
  {
    if i == 0 {
    } else {
      HexDigits(b[1..], i - 1);
    }
  }

  /** Neither a temporary file, ".cache-tmp-" and more, nor a record, 64 hexadecimal digits and
      ".cache". */
  predicate IsForeign(name: Name) {
    && !(|name| >= 11 && name[..11] == [46, 99, 97, 99, 104, 101, 45, 116, 109, 112, 45])
    && !(|name| == 70 && name[64..] == [46, 99, 97, 99, 104, 101]
         && forall i :: 0 <= i < 64 ==> 48 <= name[i] <= 57 || 97 <= name[i] <= 102 || 65 <= name[i] <= 70)
  }

  lemma EntryOrForeign(name: Name)
    ensures IsStoreEntry(name) <==> !IsForeign(name)
  {
    if |name| == 70 {
      assert forall i :: 0 <= i < 64 ==> name[..64][i] == name[i];
    }
  }

  /** Distinct keys in use have distinct hashes. */
  ghost predicate CollisionFree(cfg: Config, keys: set<bytes>) {
    && (forall k :: k in keys ==> |cfg.hash(k)| == HASH_SIZE && |k| < FileRecord.TWO_32)
    && (forall k, k' :: k in keys && k' in keys && cfg.hash(k) == cfg.hash(k') ==> k == k')
  }

  lemma PathInjective(cfg: Config, keys: set<bytes>, k: bytes, k': bytes)
    requires CollisionFree(cfg, keys) && k in keys && k' in keys && Path(cfg, k) == Path(cfg, k')
    ensures k == k'
  {
    assert Path(cfg, k)[..2 * HASH_SIZE] == Hex(cfg.hash(k));
    assert Path(cfg, k')[..2 * HASH_SIZE] == Hex(cfg.hash(k'));
    HexInjective(cfg.hash(k), cfg.hash(k'));
  }

  // ------------------------------------------------------------------- operations

  datatype FileOut = Plainly(out: Out) | Failed

  datatype Reading = Value(v: bytes) | Missing | Unreadable

  /** `get`: an expired or undecodable record is removed as it is met. */
  function GetRecord(cfg: Config, dir: Dir, k: bytes, now: int): (Dir, Reading) {
    var p := Path(cfg, k);
    if p !in dir then (dir, Missing)
    else if dir[p].Subdirectory? then (dir, Unreadable)
    else match FileRecord.Decode(dir[p].data, cfg.json)
         case None => (dir - {p}, Unreadable)
         case Some(rec) => if FileRecord.Expired(rec, now) then (dir - {p}, Missing) else (dir, Value(rec.value))
  }

  /** A subdirectory sits where the record belongs; no file can be renamed onto it. */
  predicate Blocked(cfg: Config, dir: Dir, k: bytes) {
    Path(cfg, k) in dir && dir[Path(cfg, k)].Subdirectory?
  }

  function SetRecord(cfg: Config, dir: Dir, k: bytes, v: bytes, ttl: int, now: int): Dir
    requires IsInt64(Expiry(now, ttl, cfg.defaultTTL))
  {
    dir[Path(cfg, k) := File(FileRecord.Encode(FileRecord.Record(k, Expiry(now, ttl, cfg.defaultTTL), v)))]
  }

  function CountRecord(cfg: Config, dir: Dir, k: bytes, current: Option<int>, delta: int, ttl: int, now: int)
    : (Dir, FileOut)
    requires IsInt64(Expiry(now, ttl, cfg.defaultTTL))
  {
    if current == None then (dir, Plainly(NotNumeric))
    else
      var next := Wrap64(current.value + delta);
      (SetRecord(cfg, dir, k, FormatInt(next), ttl, now), Plainly(Number(next)))
  }

  predicate Stampable(cfg: Config, op: Op, now: int) {
    op.Set? || op.Add? || op.Increment? ==> IsInt64(Expiry(now, op.ttl, cfg.defaultTTL))
  }

  function Paths(cfg: Config, ks: seq<bytes>): set<Name> {
    set k | k in ks :: Path(cfg, k)
  }

  function Flushed(dir: Dir): Dir {
    map name | name in dir && (dir[name].Subdirectory? || !IsStoreEntry(name)) :: dir[name]
  }

  function FileStep(cfg: Config, dir: Dir, op: Op, now: int): (Dir, FileOut)
    requires Stampable(cfg, op, now)
  {
    match op
    case Get(k) =>
      var (d, r) := GetRecord(cfg, dir, k, now);
      (d, match r case Value(v) => Plainly(Hit(v)) case Missing => Plainly(Miss) case Unreadable => Failed)
    case Set(k, v, ttl) =>
      if Blocked(cfg, dir, k) then (dir, Failed) else (SetRecord(cfg, dir, k, v, ttl, now), Plainly(Done))
    case Add(k, v, ttl) =>
      var (d, r) := GetRecord(cfg, dir, k, now);
      (match r
       case Unreadable => (d, Failed)
       case Value(_) => (d, Plainly(Created(false)))
       case Missing => (SetRecord(cfg, d, k, v, ttl, now), Plainly(Created(true))))
    case Increment(k, delta, ttl) =>
      var (d, r) := GetRecord(cfg, dir, k, now);
      if r.Unreadable? then (d, Failed)
      else CountRecord(cfg, d, k, NumberIn(if r.Value? then Some(r.v) else None), delta, ttl, now)
    case Delete(k) => (dir - {Path(cfg, k)}, Plainly(Done))
    case DeleteMany(ks) => (dir - Paths(cfg, ks), Plainly(Done))
    case Flush => (Flushed(dir), Plainly(Done))
  }

  // -------------------------------------------------------------------- simulation

  /** The record under `k`, if it is there and live. */
  function LookFile(cfg: Config, dir: Dir, k: bytes, now: int): Option<Item<bytes>> {
    var p := Path(cfg, k);
    if p !in dir || !dir[p].File? then None
    else match FileRecord.Decode(dir[p].data, cfg.json)
         case None => None
         case Some(rec) => if FileRecord.Expired(rec, now) then None else Some(Item(rec.value, rec.expiresAt))
  }

  /** Every record of a key in use is a readable file. */
  ghost predicate Readable(cfg: Config, keys: set<bytes>, dir: Dir) {
    forall k :: k in keys && Path(cfg, k) in dir ==>
      dir[Path(cfg, k)].File? && FileRecord.Decode(dir[Path(cfg, k)].data, cfg.json).Some?
  }

  /** At `now`, directory and map show the same live entry for every key in use. */
  ghost predicate Related(cfg: Config, keys: set<bytes>, dir: Dir, m: Store, now: int) {
    && Readable(cfg, keys, dir)
    && forall k :: k in keys ==> LookFile(cfg, dir, k, now) == Look(m, k, now)
  }

  lemma RelatedLater(cfg: Config, keys: set<bytes>, dir: Dir, m: Store, now: int, later: int)
    requires Related(cfg, keys, dir, m, now) && now <= later
    ensures Related(cfg, keys, dir, m, later)
  {
    forall k | k in keys ensures LookFile(cfg, dir, k, later) == Look(m, k, later) {
      assert LookFile(cfg, dir, k, now) == Look(m, k, now);
    }
  }

  predicate OnKeys(keys: set<bytes>, op: Op) {
    match op
    case DeleteMany(ks) => forall k :: k in ks ==> k in keys
    case Flush => true
    case _ => op.k in keys
  }

  /** Reading shows what the map shows and changes nothing a reader can see. */
  lemma GetSimulates(cfg: Config, keys: set<bytes>, dir: Dir, m: Store, k: bytes, now: int)
    requires CollisionFree(cfg, keys) && k in keys && Related(cfg, keys, dir, m, now)
    ensures var (d, r) := GetRecord(cfg, dir, k, now);
            && Related(cfg, keys, d, m, now)
            && r == match Find(m, k, now) case Some(v) => Value(v) case None => Missing
  {
    assert LookFile(cfg, dir, k, now) == Look(m, k, now);
    var d := GetRecord(cfg, dir, k, now).0;
    forall k' | k' in keys ensures LookFile(cfg, d, k', now) == Look(m, k', now) {
      assert LookFile(cfg, dir, k', now) == Look(m, k', now);
      if Path(cfg, k') == Path(cfg, k) {
        PathInjective(cfg, keys, k, k');
      }
    }
  }

  lemma SetSimulates(cfg: Config, keys: set<bytes>, dir: Dir, m: Store, k: bytes, v: bytes, ttl: int, now: int)
    requires CollisionFree(cfg, keys) && k in keys && Related(cfg, keys, dir, m, now)
    requires IsInt64(Expiry(now, ttl, cfg.defaultTTL))
    ensures Related(cfg, keys, SetRecord(cfg, dir, k, v, ttl, now), Put(m, k, v, Expiry(now, ttl, cfg.defaultTTL)), now)
  {
    var e := Expiry(now, ttl, cfg.defaultTTL);
    var d, m' := SetRecord(cfg, dir, k, v, ttl, now), Put(m, k, v, e);
    FileRecord.RoundTrip(FileRecord.Record(k, e, v), cfg.json);
    forall k' | k' in keys ensures LookFile(cfg, d, k', now) == Look(m', k', now) {
      assert LookFile(cfg, dir, k', now) == Look(m, k', now);
      if Path(cfg, k') == Path(cfg, k) {
        PathInjective(cfg, keys, k, k');
      }
    }
  }

  lemma DeleteSimulates(cfg: Config, keys: set<bytes>, dir: Dir, m: Store, ks: seq<bytes>, now: int)
    requires CollisionFree(cfg, keys) && (forall k :: k in ks ==> k in keys) && Related(cfg, keys, dir, m, now)
    ensures Related(cfg, keys, dir - Paths(cfg, ks), m - (set k | k in ks), now)
  {
    var d, m' := dir - Paths(cfg, ks), m - (set k | k in ks);
    forall k | k in keys ensures LookFile(cfg, d, k, now) == Look(m', k, now) {
      assert LookFile(cfg, dir, k, now) == Look(m, k, now);
      if Path(cfg, k) in Paths(cfg, ks) {
        var k' :| k' in ks && Path(cfg, k) == Path(cfg, k');
        PathInjective(cfg, keys, k, k');
      }
    }
  }

  lemma FlushSimulates(cfg: Config, keys: set<bytes>, dir: Dir, m: Store, now: int)
    requires CollisionFree(cfg, keys) && Related(cfg, keys, dir, m, now)
    ensures Related(cfg, keys, Flushed(dir), map[], now)
  {
    forall k | k in keys ensures LookFile(cfg, Flushed(dir), k, now) == None {
      PathIsStoreEntry(cfg, k);
    }
  }

  /** One call answers as the map answers and leaves the two related. */
  ghost predicate Simulates(cfg: Config, keys: set<bytes>, dir: Dir, m: Store, op: Op, now: int)
    requires Stampable(cfg, op, now)
  {
    var a, b := FileStep(cfg, dir, op, now), Step(m, op, now, cfg.defaultTTL);
    a.1 == Plainly(b.1) && Related(cfg, keys, a.0, b.0, now)
  }

  lemma AddSimulates(cfg: Config, keys: set<bytes>, dir: Dir, m: Store, op: Op, now: int)
    requires CollisionFree(cfg, keys) && op.Add? && op.k in keys && Stampable(cfg, op, now)
              && Related(cfg, keys, dir, m, now)
    ensures Simulates(cfg, keys, dir, m, op, now)
  {
    GetSimulates(cfg, keys, dir, m, op.k, now);
    SetSimulates(cfg, keys, GetRecord(cfg, dir, op.k, now).0, m, op.k, op.v, op.ttl, now);
  }

  lemma IncrementSimulates(cfg: Config, keys: set<bytes>, dir: Dir, m: Store, op: Op, now: int)
    requires CollisionFree(cfg, keys) && op.Increment? && op.k in keys && Stampable(cfg, op, now)
              && Related(cfg, keys, dir, m, now)
    ensures Simulates(cfg, keys, dir, m, op, now)
  {
    GetSimulates(cfg, keys, dir, m, op.k, now);
    var got := GetRecord(cfg, dir, op.k, now);
    assert (if got.1.Value? then Some(got.1.v) else None) == Find(m, op.k, now);
    CountSimulates(cfg, keys, got.0, m, op.k, Counter(m, op.k, now), op.delta, op.ttl, now);
  }

  lemma CountSimulates(cfg: Config, keys: set<bytes>, dir: Dir, m: Store, k: bytes, current: Option<int>, delta: int,
                       ttl: int, now: int)
    requires CollisionFree(cfg, keys) && k in keys && Related(cfg, keys, dir, m, now)
    requires IsInt64(Expiry(now, ttl, cfg.defaultTTL))
    ensures var a, b := CountRecord(cfg, dir, k, current, delta, ttl, now),
              Count(m, k, current, delta, Expiry(now, ttl, cfg.defaultTTL));
            a.1 == Plainly(b.1) && Related(cfg, keys, a.0, b.0, now)
  {
    if current.Some? {
      SetSimulates(cfg, keys, dir, m, k, FormatInt(Wrap64(current.value + delta)), ttl, now);
    }
  }

  lemma DeleteOneSimulates(cfg: Config, keys: set<bytes>, dir: Dir, m: Store, op: Op, now: int)
    requires CollisionFree(cfg, keys) && op.Delete? && op.k in keys && Related(cfg, keys, dir, m, now)
    ensures Simulates(cfg, keys, dir, m, op, now)
  {
    DeleteSimulates(cfg, keys, dir, m, [op.k], now);
    assert Paths(cfg, [op.k]) == {Path(cfg, op.k)};
    assert (set k | k in [op.k]) == {op.k};
  }

  lemma StepSimulates(cfg: Config, keys: set<bytes>, dir: Dir, m: Store, op: Op, now: int)
    requires CollisionFree(cfg, keys) && OnKeys(keys, op) && Stampable(cfg, op, now)
    requires Related(cfg, keys, dir, m, now)
    ensures Simulates(cfg, keys, dir, m, op, now)
  {
    match op
    case Get(k) => GetSimulates(cfg, keys, dir, m, k, now);
    case Set(k, v, ttl) => SetSimulates(cfg, keys, dir, m, k, v, ttl, now);
    case Add(k, v, ttl) => AddSimulates(cfg, keys, dir, m, op, now);
    case Increment(k, delta, ttl) => IncrementSimulates(cfg, keys, dir, m, op, now);
    case Delete(k) => DeleteOneSimulates(cfg, keys, dir, m, op, now);
    case DeleteMany(ks) => DeleteSimulates(cfg, keys, dir, m, ks, now);
    case Flush => FlushSimulates(cfg, keys, dir, m, now);
  }

  datatype Call = Call(op: Op, now: int)

  ghost predicate WellFormed(cfg: Config, keys: set<bytes>, calls: seq<Call>) {
    && (forall i :: 0 <= i < |calls| ==> OnKeys(keys, calls[i].op) && Stampable(cfg, calls[i].op, calls[i].now))
    && (forall i, j :: 0 <= i < j < |calls| ==> calls[i].now <= calls[j].now)
  }

  ghost function FileOuts(cfg: Config, dir: Dir, calls: seq<Call>): seq<FileOut>
    requires forall i :: 0 <= i < |calls| ==> Stampable(cfg, calls[i].op, calls[i].now)
    decreases |calls|
  {
    if calls == [] then []
    else var r := FileStep(cfg, dir, calls[0].op, calls[0].now); [r.1] + FileOuts(cfg, r.0, calls[1..])
  }

  ghost function MapOuts(m: Store, calls: seq<Call>, defaultTTL: int): seq<FileOut>
    decreases |calls|
  {
    if calls == [] then []
    else var r := Step(m, calls[0].op, calls[0].now, defaultTTL); [Plainly(r.1)] + MapOuts(r.0, calls[1..], defaultTTL)
  }

  /** Every sequence of calls on a non-decreasing clock answers as on an expiring map. */
  lemma {:induction false} FileRefinesMap(cfg: Config, keys: set<bytes>, dir: Dir, m: Store, calls: seq<Call>, now: int)
    requires CollisionFree(cfg, keys) && WellFormed(cfg, keys, calls) && Related(cfg, keys, dir, m, now)
    requires calls != [] ==> now <= calls[0].now
    ensures FileOuts(cfg, dir, calls) == MapOuts(m, calls, cfg.defaultTTL)
    decreases |calls|
  {
    if calls == [] {
    } else {
      var c := calls[0];
      RelatedLater(cfg, keys, dir, m, now, c.now);
      StepSimulates(cfg, keys, dir, m, c.op, c.now);
      FileRefinesMap(cfg, keys, FileStep(cfg, dir, c.op, c.now).0, Step(m, c.op, c.now, cfg.defaultTTL).0, calls[1..],
          c.now);
    }
  }

  // ------------------------------------------------------------------------ faults

  /** How building a record can fail: no temporary file, or a write, sync, close or
      rename that errs; `kept` says that the half-built file could not be removed either. */
  datatype WriteFault = NoFault | NoTemp | Broken(partial: bytes, kept: bool)

  /** What the operating system does during one call: errors of reading and removing, the
      fresh temporary name and the fate of the write, the names that cannot be removed, and
      the listing of the directory, in its order, or the error of reading it. */
  datatype Env = Env(
    readErr: bool,
    removeErr: bool,
    tmp: Name,
    write: WriteFault,
    bad: set<Name>,
    listErr: bool,
    listing: seq<Name>)

  predicate EnvOk(dir: Dir, env: Env) {
    HasPrefix(env.tmp, TMP_PREFIX) && env.tmp !in dir
  }

  /** Nothing goes wrong, and the listing names every entry. */
  ghost predicate FaultFree(dir: Dir, env: Env) {
    && !env.readErr && !env.removeErr && env.write.NoFault? && env.bad == {} && !env.listErr
    && forall name :: name in dir <==> name in env.listing
  }

  function GetFaulty(cfg: Config, dir: Dir, k: bytes, now: int, env: Env): (Dir, Reading) {
    if env.readErr then (dir, Unreadable)
    else var (d, r) := GetRecord(cfg, dir, k, now); (if env.removeErr then dir else d, r)
  }

  function SetFaulty(cfg: Config, dir: Dir, k: bytes, v: bytes, ttl: int, now: int, env: Env): (Dir, bool)
    requires IsInt64(Expiry(now, ttl, cfg.defaultTTL))
  {
    if env.write.NoTemp? then (dir, false)
    else if env.write.Broken? then (if env.write.kept then dir[env.tmp := File(env.write.partial)] else dir, false)
    else if Blocked(cfg, dir, k) then (dir, false)
    else (SetRecord(cfg, dir, k, v, ttl, now), true)
  }

  /** What a counter write reports. */
  function Counted(next: int, ok: bool): FileOut {
    if ok then Plainly(Number(next)) else Failed
  }

  function CountFaulty(cfg: Config, dir: Dir, k: bytes, current: Option<int>, delta: int, ttl: int, now: int,
                       env: Env): (Dir, FileOut)
    requires IsInt64(Expiry(now, ttl, cfg.defaultTTL))
  {
    if current == None then (dir, Plainly(NotNumeric))
    else
      var next := Wrap64(current.value + delta);
      var w := SetFaulty(cfg, dir, k, FormatInt(next), ttl, now, env);
      (w.0, Counted(next, w.1))
  }

  /** Removing names one after the other, up to the first that errs. */
  function RemoveNames(dir: Dir, names: seq<Name>, bad: set<Name>): (Dir, FileOut) {
    if names == [] then (dir, Plainly(Done))
    else if names[0] in dir && names[0] in bad then (dir, Failed)
    else RemoveNames(dir - {names[0]}, names[1..], bad)
  }

  lemma RemoveOne(dir: Dir, name: Name, bad: set<Name>)
    ensures RemoveNames(dir, [name], bad) == if name in dir && name in bad then (dir, Failed)
            else (dir - {name}, Plainly(Done))
  {
    assert [name][1..] == [];
    assert RemoveNames(dir - {name}, [], bad) == (dir - {name}, Plainly(Done));
  }

  function PathsInOrder(cfg: Config, ks: seq<bytes>): (names: seq<Name>)
    ensures |names| == |ks| && forall i :: 0 <= i < |ks| ==> names[i] == Path(cfg, ks[i])
  {
    if ks == [] then [] else [Path(cfg, ks[0])] + PathsInOrder(cfg, ks[1..])
  }

  /** What Flush goes on to remove of a listing. */
  function OwnNames(dir: Dir, listing: seq<Name>): seq<Name> {
    if listing == [] then []
    else
      var name := listing[0];
      (if name in dir && !dir[name].Subdirectory? && IsStoreEntry(name) then [name] else [])
      + OwnNames(dir, listing[1..])
  }

  lemma OwnNamesCons(dir: Dir, listing: seq<Name>, i: nat)
    requires i < |listing|
    ensures var name, rest := listing[i], OwnNames(dir, listing[i + 1..]);
            OwnNames(dir, listing[i..]) ==
              if name in dir && !dir[name].Subdirectory? && IsStoreEntry(name) then [name] + rest else rest
  {
    assert listing[i..][1..] == listing[i + 1..];
  }

  lemma RemoveNext(dir: Dir, name: Name, rest: seq<Name>, bad: set<Name>)
    ensures RemoveNames(dir, [name] + rest, bad) ==
              if name in dir && name in bad then (dir, Failed) else RemoveNames(dir - {name}, rest, bad)
    ensures name !in dir ==> dir - {name} == dir
  {
    assert ([name] + rest)[1..] == rest;
  }

  function FaultyStep(cfg: Config, dir: Dir, op: Op, now: int, env: Env): (Dir, FileOut)
    requires Stampable(cfg, op, now)
  {
    match op
    case Get(k) =>
      var (d, r) := GetFaulty(cfg, dir, k, now, env);
      (d, match r case Value(v) => Plainly(Hit(v)) case Missing => Plainly(Miss) case Unreadable => Failed)
    case Set(k, v, ttl) =>
      var (d, ok) := SetFaulty(cfg, dir, k, v, ttl, now, env);
      (d, if ok then Plainly(Done) else Failed)
    case Add(k, v, ttl) =>
      var (d, r) := GetFaulty(cfg, dir, k, now, env);
      (match r
       case Unreadable => (d, Failed)
       case Value(_) => (d, Plainly(Created(false)))
       case Missing =>
         var (d', ok) := SetFaulty(cfg, d, k, v, ttl, now, env);
         (d', if ok then Plainly(Created(true)) else Failed))
    case Increment(k, delta, ttl) =>
      var (d, r) := GetFaulty(cfg, dir, k, now, env);
      if r.Unreadable? then (d, Failed)
      else CountFaulty(cfg, d, k, NumberIn(if r.Value? then Some(r.v) else None), delta, ttl, now, env)
    case Delete(k) => RemoveNames(dir, [Path(cfg, k)], env.bad)
    case DeleteMany(ks) => RemoveNames(dir, PathsInOrder(cfg, ks), env.bad)
    case Flush => if env.listErr then (dir, Failed) else RemoveNames(dir, OwnNames(dir, env.listing), env.bad)
  }

  // -------------------------------------------------- faults: none, or none visible

  lemma {:induction false} RemoveAllNames(dir: Dir, names: seq<Name>)
    ensures RemoveNames(dir, names, {}) == (dir - (set n | n in names), Plainly(Done))
  {
    if names == [] {
      assert dir - (set n | n in names) == dir;
    } else {
      RemoveAllNames(dir - {names[0]}, names[1..]);
      assert names == [names[0]] + names[1..];
      assert dir - {names[0]} - (set n | n in names[1..]) == dir - (set n | n in names);
    }
  }

  lemma {:induction false} OwnNamesAre(dir: Dir, listing: seq<Name>, name: Name)
    ensures name in OwnNames(dir, listing) <==>
              name in listing && name in dir && !dir[name].Subdirectory? && IsStoreEntry(name)
  {
    if listing == [] {
    } else {
      OwnNamesAre(dir, listing[1..], name);
      assert listing == [listing[0]] + listing[1..];
    }
  }

  lemma FlushRemovesOwn(dir: Dir, listing: seq<Name>)
    requires forall name :: name in dir <==> name in listing
    ensures dir - (set n | n in OwnNames(dir, listing)) == Flushed(dir)
  {
    forall name: Name
      ensures name in OwnNames(dir, listing) <==> name in dir && !dir[name].Subdirectory? && IsStoreEntry(name)
    {
      OwnNamesAre(dir, listing, name);
    }
  }

  /** What Flush leaves: exactly the subdirectories and the foreign files, as they were. */
  lemma FlushLeavesForeign(dir: Dir, name: Name)
    ensures name in Flushed(dir) <==> name in dir && (dir[name].Subdirectory? || IsForeign(name))
    ensures name in Flushed(dir) ==> Flushed(dir)[name] == dir[name]
  {
    EntryOrForeign(name);
  }

  lemma PathsAsSet(cfg: Config, ks: seq<bytes>)
    ensures (set n | n in PathsInOrder(cfg, ks)) == Paths(cfg, ks)
  {
    var names := PathsInOrder(cfg, ks);
    forall n: Name
      ensures n in names <==> n in Paths(cfg, ks)
    {
      if n in names {
        var i :| 0 <= i < |names| && names[i] == n;
        assert ks[i] in ks && Path(cfg, ks[i]) == n;
      }
      if n in Paths(cfg, ks) {
        var k :| k in ks && Path(cfg, k) == n;
        var i :| 0 <= i < |ks| && ks[i] == k;
        assert names[i] == n;
      }
    }
  }

  lemma FaultFreeRemoval(cfg: Config, dir: Dir, op: Op, now: int, env: Env)
    requires FaultFree(dir, env) && (op.Delete? || op.DeleteMany? || op.Flush?)
    ensures FaultyStep(cfg, dir, op, now, env) == FileStep(cfg, dir, op, now)
  {
    match op
    case Delete(k) =>
      RemoveAllNames(dir, [Path(cfg, k)]);
      assert (set n | n in [Path(cfg, k)]) == {Path(cfg, k)};
    case DeleteMany(ks) =>
      RemoveAllNames(dir, PathsInOrder(cfg, ks));
      PathsAsSet(cfg, ks);
    case _ =>
      RemoveAllNames(dir, OwnNames(dir, env.listing));
      FlushRemovesOwn(dir, env.listing);
  }

  lemma FaultFreeCount(cfg: Config, dir: Dir, k: bytes, current: Option<int>, delta: int, ttl: int, now: int, env: Env)
    requires IsInt64(Expiry(now, ttl, cfg.defaultTTL)) && env.write.NoFault? && !Blocked(cfg, dir, k)
    ensures CountFaulty(cfg, dir, k, current, delta, ttl, now, env) == CountRecord(cfg, dir, k, current, delta, ttl,
            now)
  {
  }

  lemma FaultFreeIncrement(cfg: Config, dir: Dir, op: Op, now: int, env: Env)
    requires op.Increment? && Stampable(cfg, op, now) && FaultFree(dir, env)
    ensures FaultyStep(cfg, dir, op, now, env) == FileStep(cfg, dir, op, now)
  {
    var (d, r) := GetRecord(cfg, dir, op.k, now);
    if !r.Unreadable? {
      FaultFreeCount(cfg, d, op.k, NumberIn(if r.Value? then Some(r.v) else None), op.delta, op.ttl, now, env);
    }
  }

  /** Without faults a call is exactly the step that refines the map. */
  lemma FaultFreeStep(cfg: Config, dir: Dir, op: Op, now: int, env: Env)
    requires Stampable(cfg, op, now) && FaultFree(dir, env)
    ensures FaultyStep(cfg, dir, op, now, env) == FileStep(cfg, dir, op, now)
  {
    if op.Delete? || op.DeleteMany? || op.Flush? {
      FaultFreeRemoval(cfg, dir, op, now, env);
    } else if op.Increment? {
      FaultFreeIncrement(cfg, dir, op, now, env);
    }
  }

  /** A temporary name is no record's path. */
  lemma TempIsNoRecord(cfg: Config, tmp: Name, k: bytes)
    requires HasPrefix(tmp, TMP_PREFIX)
    ensures tmp != Path(cfg, k)
  {
    HexIsHex(cfg.hash(k));
    var h := Hex(cfg.hash(k));
    if h != [] {
      assert Path(cfg, k)[0] == h[0];
      assert tmp[0] == tmp[..|TMP_PREFIX|][0];
    }
  }

  /** Each key shows its old entry or the one the completed call would leave. */
  ghost predicate OldOrNew(cfg: Config, keys: set<bytes>, dir: Dir, m: Store, after: Store, now: int) {
    && Readable(cfg, keys, dir)
    && forall k :: k in keys ==>
         LookFile(cfg, dir, k, now) == Look(m, k, now) || LookFile(cfg, dir, k, now) == Look(after, k, now)
  }

  lemma GetFaultySimulates(cfg: Config, keys: set<bytes>, dir: Dir, m: Store, k: bytes, now: int, env: Env)
    requires CollisionFree(cfg, keys) && k in keys && Related(cfg, keys, dir, m, now)
    ensures var (d, r) := GetFaulty(cfg, dir, k, now, env);
            && Related(cfg, keys, d, m, now) && !Blocked(cfg, d, k)
            && d.Keys <= dir.Keys
            && r == if env.readErr then Unreadable
               else match Find(m, k, now) case Some(v) => Value(v) case None => Missing
  {
    GetSimulates(cfg, keys, dir, m, k, now);
  }

  lemma SetFaultySimulates(cfg: Config, keys: set<bytes>, dir: Dir, m: Store, k: bytes, v: bytes, ttl: int, now: int,
                           env: Env)
    requires CollisionFree(cfg, keys) && k in keys && Related(cfg, keys, dir, m, now) && EnvOk(dir, env)
    requires IsInt64(Expiry(now, ttl, cfg.defaultTTL))
    ensures var (d, ok) := SetFaulty(cfg, dir, k, v, ttl, now, env);
            Related(cfg, keys, d, if ok then Put(m, k, v, Expiry(now, ttl, cfg.defaultTTL)) else m, now)
  {
    var (d, ok) := SetFaulty(cfg, dir, k, v, ttl, now, env);
    if ok {
      SetSimulates(cfg, keys, dir, m, k, v, ttl, now);
    } else {
      forall k' | k' in keys
        ensures LookFile(cfg, d, k', now) == Look(m, k', now)
        ensures Path(cfg, k') in d <==> Path(cfg, k') in dir
        ensures Path(cfg, k') in d ==> d[Path(cfg, k')] == dir[Path(cfg, k')]
      {
        TempIsNoRecord(cfg, env.tmp, k');
        assert LookFile(cfg, dir, k', now) == Look(m, k', now);
      }
    }
  }

  /** Removing names in order leaves a directory that differs only by some of them; by all
      of them when nothing failed. */
  lemma {:induction false} RemoveNamesLeaves(dir: Dir, names: seq<Name>, bad: set<Name>)
    ensures var (d, out) := RemoveNames(dir, names, bad);
            && (forall n :: n in d ==> n in dir && d[n] == dir[n])
            && (forall n :: n in dir && n !in d ==> n in names)
            && (out == Failed || (out == Plainly(Done) && forall n :: n in names ==> n !in d))
  {
    if names == [] {
    } else if names[0] in dir && names[0] in bad {
    } else {
      RemoveNamesLeaves(dir - {names[0]}, names[1..], bad);
      assert names == [names[0]] + names[1..];
    }
  }

  /** The key belongs to a removal: among the given ones, or anyone's for Flush. */
  predicate Covered(op: Op, k: bytes) {
    match op
    case Delete(k') => k == k'
    case DeleteMany(ks) => k in ks
    case _ => op.Flush?
  }

  function NamesOf(cfg: Config, dir: Dir, op: Op, env: Env): seq<Name> {
    match op
    case Delete(k) => [Path(cfg, k)]
    case DeleteMany(ks) => PathsInOrder(cfg, ks)
    case _ => if env.listErr then [] else OwnNames(dir, env.listing)
  }

  lemma NamesCover(cfg: Config, keys: set<bytes>, dir: Dir, op: Op, env: Env, k: bytes)
    requires CollisionFree(cfg, keys) && OnKeys(keys, op) && k in keys && (op.Delete? || op.DeleteMany? || op.Flush?)
    ensures Path(cfg, k) in NamesOf(cfg, dir, op, env) ==> Covered(op, k)
    ensures Covered(op, k) && !op.Flush? ==> Path(cfg, k) in NamesOf(cfg, dir, op, env)
  {
    match op
    case Delete(k') =>
      if Path(cfg, k) == Path(cfg, k') {
        PathInjective(cfg, keys, k, k');
      }
    case DeleteMany(ks) =>
      var names := PathsInOrder(cfg, ks);
      if Path(cfg, k) in names {
        var i :| 0 <= i < |names| && names[i] == Path(cfg, k);
        PathInjective(cfg, keys, k, ks[i]);
      }
      if k in ks {
        var i :| 0 <= i < |ks| && ks[i] == k;
        assert names[i] == Path(cfg, k);
      }
    case _ =>
  }

  lemma RemovalIsOldOrNew(cfg: Config, keys: set<bytes>, dir: Dir, m: Store, op: Op, now: int, env: Env)
    requires CollisionFree(cfg, keys) && OnKeys(keys, op) && Related(cfg, keys, dir, m, now)
    requires op.Delete? || op.DeleteMany? || op.Flush?
    ensures OldOrNew(cfg, keys, FaultyStep(cfg, dir, op, now, env).0, m, Step(m, op, now, cfg.defaultTTL).0, now)
  {
    var names := NamesOf(cfg, dir, op, env);
    var d, after := FaultyStep(cfg, dir, op, now, env).0, Step(m, op, now, cfg.defaultTTL).0;
    assert d == RemoveNames(dir, names, env.bad).0;  // also when the directory cannot be read
    RemoveNamesLeaves(dir, names, env.bad);
    forall k | k in keys
      ensures LookFile(cfg, d, k, now) == Look(m, k, now) || LookFile(cfg, d, k, now) == Look(after, k, now)
    {
      assert LookFile(cfg, dir, k, now) == Look(m, k, now);
      NamesCover(cfg, keys, dir, op, env, k);
    }
  }

  /** A failed call leaves what the map showed before; any other answers and leaves what the
      map's own step does. */
  ghost predicate FailsOrDoes(cfg: Config, keys: set<bytes>, r: (Dir, FileOut), m: Store, done: (Store, Out), now: int)
  {
    if r.1 == Failed then Related(cfg, keys, r.0, m, now)
    else r.1 == Plainly(done.1) && Related(cfg, keys, r.0, done.0, now)
  }

  lemma WriteIsOldOrNew(cfg: Config, keys: set<bytes>, dir: Dir, m: Store, op: Op, now: int, env: Env)
    requires CollisionFree(cfg, keys) && OnKeys(keys, op) && Stampable(cfg, op, now) && Related(cfg, keys, dir, m, now)
    requires EnvOk(dir, env) && (op.Get? || op.Set? || op.Add?)
    ensures FailsOrDoes(cfg, keys, FaultyStep(cfg, dir, op, now, env), m, Step(m, op, now, cfg.defaultTTL), now)
  {
    GetFaultySimulates(cfg, keys, dir, m, op.k, now, env);
    var d := if op.Set? then dir else GetFaulty(cfg, dir, op.k, now, env).0;
    if !op.Get? {
      SetFaultySimulates(cfg, keys, d, m, op.k, op.v, op.ttl, now, env);
    }
  }

  lemma StoredCount(cfg: Config, keys: set<bytes>, dir: Dir, m: Store, k: bytes, next: int, ttl: int, now: int,
                    env: Env)
    requires CollisionFree(cfg, keys) && k in keys && Related(cfg, keys, dir, m, now) && EnvOk(dir, env)
    requires IsInt64(Expiry(now, ttl, cfg.defaultTTL))
    ensures var w := SetFaulty(cfg, dir, k, FormatInt(next), ttl, now, env);
            FailsOrDoes(cfg, keys, (w.0, Counted(next, w.1)), m,
                        (Put(m, k, FormatInt(next), Expiry(now, ttl, cfg.defaultTTL)), Number(next)), now)
  {
    SetFaultySimulates(cfg, keys, dir, m, k, FormatInt(next), ttl, now, env);
  }

  lemma CountIsOldOrNew(cfg: Config, keys: set<bytes>, dir: Dir, m: Store, k: bytes, current: Option<int>, delta: int,
                        ttl: int, now: int, env: Env)
    requires CollisionFree(cfg, keys) && k in keys && Related(cfg, keys, dir, m, now) && EnvOk(dir, env)
    requires IsInt64(Expiry(now, ttl, cfg.defaultTTL))
    ensures FailsOrDoes(cfg, keys, CountFaulty(cfg, dir, k, current, delta, ttl, now, env), m,
                        Count(m, k, current, delta, Expiry(now, ttl, cfg.defaultTTL)), now)
  {
    if current.Some? {
      StoredCount(cfg, keys, dir, m, k, Wrap64(current.value + delta), ttl, now, env);
    }
  }

  lemma IncrementIsOldOrNew(cfg: Config, keys: set<bytes>, dir: Dir, m: Store, op: Op, now: int, env: Env)
    requires CollisionFree(cfg, keys) && op.Increment? && op.k in keys && Stampable(cfg, op, now)
              && Related(cfg, keys, dir, m, now)
    requires EnvOk(dir, env)
    ensures FailsOrDoes(cfg, keys, FaultyStep(cfg, dir, op, now, env), m, Step(m, op, now, cfg.defaultTTL), now)
  {
    GetFaultySimulates(cfg, keys, dir, m, op.k, now, env);
    var got := GetFaulty(cfg, dir, op.k, now, env);
    if !got.1.Unreadable? {
      assert (if got.1.Value? then Some(got.1.v) else None) == Find(m, op.k, now);
      CountIsOldOrNew(cfg, keys, got.0, m, op.k, Counter(m, op.k, now), op.delta, op.ttl, now, env);
    }
  }

  /** Whatever fails during a call, no reader meets a half-written record: each key shows
      its old entry or the one the completed call would leave. */
  lemma FaultsAreAtomic(cfg: Config, keys: set<bytes>, dir: Dir, m: Store, op: Op, now: int, env: Env)
    requires CollisionFree(cfg, keys) && OnKeys(keys, op) && Stampable(cfg, op, now) && Related(cfg, keys, dir, m, now)
    requires EnvOk(dir, env)
    ensures OldOrNew(cfg, keys, FaultyStep(cfg, dir, op, now, env).0, m, Step(m, op, now, cfg.defaultTTL).0, now)
  {
    if op.Delete? || op.DeleteMany? || op.Flush? {
      RemovalIsOldOrNew(cfg, keys, dir, m, op, now, env);
    } else if op.Increment? {
      IncrementIsOldOrNew(cfg, keys, dir, m, op, now, env);
    } else {
      WriteIsOldOrNew(cfg, keys, dir, m, op, now, env);
    }
  }

  // --------------------------------------------------------------------- the store

  datatype ReleaseOut = Released | NotOwner | ReleaseFailed

  class FileStore {
    const cfg: Config
    var dir: Dir

    constructor (cfg: Config, dir: Dir)
      ensures this.cfg == cfg && this.dir == dir
    {
      this.cfg := cfg;
      this.dir := dir;
    }

    method Get(k: bytes, now: int, env: Env) returns (r: Reading)
      modifies this
      ensures (dir, r) == GetFaulty(cfg, old(dir), k, now, env)
    {
      var p := Path(cfg, k);
      if env.readErr {
        return Unreadable;
      }
      if p !in dir {
        return Missing;
      }
      if dir[p].Subdirectory? {
        return Unreadable;
      }
      var rec := FileRecord.Decode(dir[p].data, cfg.json);
      if rec == None {
        dir := if env.removeErr then dir else dir - {p};
        return Unreadable;
      }
      if FileRecord.Expired(rec.value, now) {
        dir := if env.removeErr then dir else dir - {p};
        return Missing;
      }
      return Value(rec.value.value);
    }

    /** The record is built in a fresh temporary file and renamed into place. */
    method Set(k: bytes, v: bytes, ttl: int, now: int, env: Env) returns (ok: bool)
      requires IsInt64(Expiry(now, ttl, cfg.defaultTTL)) && EnvOk(dir, env)
      modifies this
      ensures (dir, ok) == SetFaulty(cfg, old(dir), k, v, ttl, now, env)
    {
      var t := ttl;
      if t <= 0 {
        t := cfg.defaultTTL;
      }
      var data := FileRecord.Encode(FileRecord.Record(k, now + t, v));
      if env.write.NoTemp? {
        return false;
      }
      dir := dir[env.tmp := File(if env.write.Broken? then env.write.partial else data)];
      assert dir - {env.tmp} == old(dir);
      if env.write.Broken? && env.write.kept {
        return false;
      }
      TempIsNoRecord(cfg, env.tmp, k);
      if env.write.Broken? || Blocked(cfg, dir, k) {
        dir := dir - {env.tmp};
        return false;
      }
      dir := (dir - {env.tmp})[Path(cfg, k) := dir[env.tmp]];
      return true;
    }

    method Add(k: bytes, v: bytes, ttl: int, now: int, env: Env) returns (r: FileOut)
      requires IsInt64(Expiry(now, ttl, cfg.defaultTTL)) && EnvOk(dir, env)
      modifies this
      ensures (dir, r) == FaultyStep(cfg, old(dir), Op.Add(k, v, ttl), now, env)
    {
      var got := Get(k, now, env);
      if got.Unreadable? {
        return Failed;
      }
      if got.Value? {
        return Plainly(Created(false));
      }
      var ok := Set(k, v, ttl, now, env);
      return if ok then Plainly(Created(true)) else Failed;
    }

    method LockRelease(k: bytes, owner: bytes, now: int, env: Env) returns (r: ReleaseOut)
      modifies this
      ensures var (d, got) := GetFaulty(cfg, old(dir), k, now, env);
              && (r == ReleaseFailed <==> got.Unreadable? || (got == Value(owner) && Path(cfg, k) in env.bad))
              && (r == Released <==> got == Value(owner) && Path(cfg, k) !in env.bad)
              && dir == if r == Released then d - {Path(cfg, k)} else d
    {
      var got := Get(k, now, env);
      if got.Unreadable? {
        return ReleaseFailed;
      }
      if got != Value(owner) {
        return NotOwner;
      }
      assert Path(cfg, k) in dir;
      var ok := Delete(k, env);
      return if ok then Released else ReleaseFailed;
    }

    method StoreCount(k: bytes, current: Option<int>, delta: int, ttl: int, now: int, env: Env) returns (r: FileOut)
      requires IsInt64(Expiry(now, ttl, cfg.defaultTTL)) && EnvOk(dir, env)
      modifies this
      ensures (dir, r) == CountFaulty(cfg, old(dir), k, current, delta, ttl, now, env)
    {
      if current == None {
        return Plainly(NotNumeric);
      }
      var next := Wrap64(current.value + delta);
      var ok := Set(k, FormatInt(next), ttl, now, env);
      return Counted(next, ok);
    }

    method Increment(k: bytes, delta: int, ttl: int, now: int, env: Env) returns (r: FileOut)
      requires IsInt64(Expiry(now, ttl, cfg.defaultTTL)) && EnvOk(dir, env)
      modifies this
      ensures (dir, r) == FaultyStep(cfg, old(dir), Op.Increment(k, delta, ttl), now, env)
    {
      var got := Get(k, now, env);
      if got.Unreadable? {
        return Failed;
      }
      r := StoreCount(k, NumberIn(if got.Value? then Some(got.v) else None), delta, ttl, now, env);
    }

    /** Removes one name; a missing one counts as removed. */
    method Remove(name: Name, bad: set<Name>) returns (ok: bool)
      modifies this
      ensures ok <==> !(name in old(dir) && name in bad)
      ensures dir == if ok then old(dir) - {name} else old(dir)
    {
      if name in dir && name in bad {
        return false;
      }
      dir := dir - {name};
      return true;
    }

    method Delete(k: bytes, env: Env) returns (ok: bool)
      modifies this
      ensures ok <==> !(Path(cfg, k) in old(dir) && Path(cfg, k) in env.bad)
      ensures dir == if ok then old(dir) - {Path(cfg, k)} else old(dir)
      ensures (dir, if ok then Plainly(Done) else Failed) == FaultyStep(cfg, old(dir), Op.Delete(k), 0, env)
    {
      RemoveOne(dir, Path(cfg, k), env.bad);
      ok := Remove(Path(cfg, k), env.bad);
    }

    /** The rest of the removals after `done` of them. */
    ghost predicate Remains(before: Dir, names: seq<Name>, bad: set<Name>, done: nat)
      requires done <= |names|
      reads this
    {
      RemoveNames(dir, names[done..], bad) == RemoveNames(before, names, bad)
    }

    method DeleteMany(ks: seq<bytes>, env: Env) returns (r: FileOut)
      modifies this
      ensures (dir, r) == FaultyStep(cfg, old(dir), Op.DeleteMany(ks), 0, env)
    {
      ghost var names := PathsInOrder(cfg, ks);
      assert names[0..] == names;
      for i := 0 to |ks|
        invariant Remains(old(dir), names, env.bad, i)
      {
        assert names[i..][0] == Path(cfg, ks[i]) && names[i..][1..] == names[i + 1..];
        var ok := Remove(Path(cfg, ks[i]), env.bad);
        if !ok {
          return Failed;
        }
      }
      assert names[|ks|..] == [];
      return Plainly(Done);
    }

    method Flush(env: Env) returns (r: FileOut)
      modifies this
      ensures (dir, r) == FaultyStep(cfg, old(dir), Op.Flush, 0, env)
      ensures forall name :: name in old(dir) && (old(dir)[name].Subdirectory? || IsForeign(name)) ==>
                name in dir && dir[name] == old(dir)[name]
    {
      if env.listErr {
        return Failed;
      }
      ghost var before, all := dir, RemoveNames(dir, OwnNames(dir, env.listing), env.bad);
      assert env.listing[0..] == env.listing;
      for i := 0 to |env.listing|
        invariant RemoveNames(dir, OwnNames(before, env.listing[i..]), env.bad) == all
        invariant forall n :: n in dir ==> n in before && dir[n] == before[n]
        invariant forall n :: n in before && n !in dir ==> !before[n].Subdirectory? && IsStoreEntry(n)
        invariant forall n :: n in before && n !in dir ==> !IsForeign(n)
      {
        var name := env.listing[i];
        ghost var rest := OwnNames(before, env.listing[i + 1..]);
        EntryOrForeign(name);
        OwnNamesCons(before, env.listing, i);
        RemoveNext(dir, name, rest, env.bad);
        if name in dir && !dir[name].Subdirectory? && IsStoreEntry(name) {
          var ok := Remove(name, env.bad);
          if !ok {
            return Failed;
          }
        }
      }
      assert env.listing[|env.listing|..] == [];
      return Plainly(Done);
    }
  }
}
