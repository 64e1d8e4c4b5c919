/** The store every backend is measured against: a map whose entries stop being
    visible after their expiration time. A stamp of zero or less never expires. */
module ExpiringMap {
  import opened Bytes

  datatype Item<+V> = Item(value: V, expiry: int)

  predicate Live<V>(it: Item<V>, now: int) {
    it.expiry <= 0 || now <= it.expiry
  }

  /** The entry a reader sees at `now`. */
  function Look<K, V>(m: map<K, Item<V>>, k: K, now: int): Option<Item<V>> {
    if k in m && Live(m[k], now) then Some(m[k]) else None
  }

  function Find<K, V>(m: map<K, Item<V>>, k: K, now: int): Option<V> {
    if k in m && Live(m[k], now) then Some(m[k].value) else None
  }

  function AddIfAbsent<K, V>(m: map<K, Item<V>>, k: K, v: V, expiry: int, now: int): (r: map<K, Item<V>>)
  {
    if Find(m, k, now) == None then m[k := Item(v, expiry)] else m
  }

  function RemoveIfOwner<K, V(==)>(m: map<K, Item<V>>, k: K, owner: V, now: int): (r: map<K, Item<V>>)
  {
    if Find(m, k, now) == Some(owner) then m - {k} else m
  }

  type Store = map<bytes, Item<bytes>>

  function Put<K, V>(m: map<K, Item<V>>, k: K, v: V, expiry: int): map<K, Item<V>> {
    m[k := Item(v, expiry)]
  }

  /** The TTL rule shared by every store. */
  function Expiry(now: int, ttl: int, defaultTTL: int): int {
    now + if ttl <= 0 then defaultTTL else ttl
  }

  /** The number a counter operation starts from: zero for no entry, `None` for an
      entry that is not a number. */
  function NumberIn(text: Option<bytes>): Option<int> {
    if text == None then Some(0) else ParseInt(text.value)
  }

  function Counter(m: Store, k: bytes, now: int): Option<int> {
    NumberIn(Find(m, k, now))
  }

  // ------------------------------------------------------- operations and outcomes

  datatype Op =
    | Get(k: bytes)
    | Set(k: bytes, v: bytes, ttl: int)
    | Add(k: bytes, v: bytes, ttl: int)
    | Increment(k: bytes, delta: int, ttl: int)
    | Delete(k: bytes)
    | DeleteMany(ks: seq<bytes>)
    | Flush

  datatype Out = Hit(v: bytes) | Miss | Done | Created(ok: bool) | Number(n: int) | NotNumeric

  /** Adding to a counter read as `current`: the sum wraps and is stored as decimal text. */
  function Count(m: Store, k: bytes, current: Option<int>, delta: int, expiry: int): (Store, Out) {
    if current == None then (m, NotNumeric)
    else
      var next := Wrap64(current.value + delta);
      (Put(m, k, FormatInt(next), expiry), Number(next))
  }

  /** One operation at clock reading `now`. */
  function Step(m: Store, op: Op, now: int, defaultTTL: int): (Store, Out) {
    match op
    case Get(k) =>
      (match Find(m, k, now)
       case None => (m, Miss)
       case Some(v) => (m, Hit(v)))
    case Set(k, v, ttl) => (Put(m, k, v, Expiry(now, ttl, defaultTTL)), Done)
    case Add(k, v, ttl) =>
      (AddIfAbsent(m, k, v, Expiry(now, ttl, defaultTTL), now), Created(Find(m, k, now) == None))
    case Increment(k, delta, ttl) => Count(m, k, Counter(m, k, now), delta, Expiry(now, ttl, defaultTTL))
    case Delete(k) => (m - {k}, Done)
    case DeleteMany(ks) => (m - (set k | k in ks), Done)
    case Flush => (map[], Done)
  }

  // ------------------------------------------------------------------ how long it lasts

  /** Exactly how long a written entry is visible: through `now` plus the TTL, or plus the
      default for a TTL that is not positive; a stamp that is not positive never passes. */
  lemma SetLasts(m: Store, k: bytes, v: bytes, ttl: int, now: int, defaultTTL: int, t: int)
    ensures var last := if ttl > 0 then now + ttl else now + defaultTTL;
            Find(Step(m, Set(k, v, ttl), now, defaultTTL).0, k, t) == if last <= 0 || t <= last then Some(v) else None
  {
  }

  /** Add stores exactly what Set would where a reader finds nothing, and nothing elsewhere. */
  lemma AddIsSetOnMiss(m: Store, k: bytes, v: bytes, ttl: int, now: int, defaultTTL: int)
    ensures var (after, out) := Step(m, Add(k, v, ttl), now, defaultTTL);
            if Step(m, Get(k), now, defaultTTL).1 == Miss
            then out == Created(true) && after == Step(m, Set(k, v, ttl), now, defaultTTL).0
            else out == Created(false) && after == m
  {
  }

  /** An operation on one key leaves every other key as it was. */
  lemma OthersUntouched(m: Store, op: Op, now: int, defaultTTL: int, k: bytes, t: int)
    requires !op.Flush? && (op.DeleteMany? ==> k !in op.ks) && (!op.DeleteMany? ==> k != op.k)
    ensures Find(Step(m, op, now, defaultTTL).0, k, t) == Find(m, k, t)
  {
  }
}
