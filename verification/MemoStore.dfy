/** The memo store's own state: memoized reads and one generation counter. Each
    method is a section of the store's lock or a whole call. */
module MemoStore {
  import opened Bytes

  type Key = string

  /** A read result: the stored bytes, or a miss. */
  type Value = Option<bytes>

  type Items = map<Key, Value>

  /** The keys a mutation may have changed. */
  datatype Scope = Keys(ks: set<Key>) | All

  predicate Covers(scope: Scope, k: Key) {
    scope.All? || k in scope.ks
  }

  function ValueIn(data: map<Key, bytes>, k: Key): Value {
    if k in data then Some(data[k]) else None
  }

  /** The entry a read publishes: only while the generation it started from stands. */
  function Published(items: Items, generation: int, k: Key, seen: int, v: Value): Items {
    if generation == seen then items[k := v] else items
  }

  function Invalidated(items: Items, scope: Scope): Items {
    if scope.All? then map[] else items - scope.ks
  }

  /** `s.generation++` on a uint64. */
  function NextGeneration(generation: int): int {
    (generation + 1) % TWO_64
  }

  class Backend {
    var data: map<Key, bytes>
  }

  class MemoStore {
    const store: Backend
    var items: Items
    var generation: int

    constructor (store: Backend)
      ensures this.store == store && items == map[] && generation == 0
    {
      this.store := store;
      items := map[];
      generation := 0;
    }

    /** Every memoized answer is the backend's. */
    ghost predicate Coherent()
      reads this, store
    {
      forall k :: k in items ==> items[k] == ValueIn(store.data, k)
    }

    method Snapshot(key: Key) returns (hit: bool, entry: Value, seen: int)
      ensures hit <==> key in items
      ensures hit ==> entry == items[key]
      ensures seen == generation
    {
      hit := key in items;
      entry := if hit then items[key] else None;
      seen := generation;
    }

    method Publish(key: Key, seen: int, v: Value)
      modifies this
      ensures items == Published(old(items), old(generation), key, seen, v) && generation == old(generation)
    {
      if generation == seen {
        items := items[key := v];
      }
    }

    method Forget(key: Key)
      modifies this
      ensures items == Invalidated(old(items), Keys({key})) && generation == NextGeneration(old(generation))
    {
      items := items - {key};
      generation := (generation + 1) % TWO_64;
    }

    method ForgetMany(keys: seq<Key>)
      modifies this
      ensures items == Invalidated(old(items), Keys(set k | k in keys)) && generation == NextGeneration(old(generation))
    {
      for i := 0 to |keys|
        invariant items == old(items) - set k | k in keys[..i]
        invariant generation == old(generation)
      {
        items := items - {keys[i]};
        assert keys[..i + 1] == keys[..i] + [keys[i]];
      }
      assert keys[..|keys|] == keys;
      generation := (generation + 1) % TWO_64;
    }

    method ForgetAll()
      modifies this
      ensures items == Invalidated(old(items), All) && generation == NextGeneration(old(generation))
    {
      items := map[];
      generation := (generation + 1) % TWO_64;
    }

    /** An uninterrupted Get answers from the memo or, on a miss, answers what the backend
        holds and memoizes it; a backend error changes nothing. */
    method Get(key: Key, errs: bool) returns (ok: bool, v: Value)
      modifies this
      ensures store.data == old(store.data) && generation == old(generation)
      ensures ok <==> key in old(items) || !errs
      ensures ok ==> v == if key in old(items) then old(items[key]) else ValueIn(store.data, key)
      ensures items == if ok then old(items)[key := v] else old(items)
      ensures old(Coherent()) ==> Coherent() && (ok ==> v == ValueIn(store.data, key))
    {
      var hit, entry, seen := Snapshot(key);
      if hit {
        return true, entry;
      }
      if errs {
        return false, None;
      }
      v := ValueIn(store.data, key);
      Publish(key, seen, v);
      ok := true;
    }

    /** Uninterrupted mutations write through and keep the memo coherent; one whose backend
        call fails leaves memo and generation alone. */
    method Set(key: Key, value: bytes, errs: bool) returns (ok: bool)
      modifies this, store
      ensures ok == !errs
      ensures ok ==> store.data == old(store.data)[key := value]
      ensures ok ==> items == Invalidated(old(items), Keys({key})) && generation == NextGeneration(old(generation))
      ensures !ok ==> store.data == old(store.data) && items == old(items) && generation == old(generation)
      ensures old(Coherent()) ==> Coherent()
    {
      if errs {
        return false;
      }
      store.data := store.data[key := value];
      Forget(key);
      return true;
    }

    method Add(key: Key, value: bytes, errs: bool) returns (ok: bool, created: bool)
      modifies this, store
      ensures ok == !errs
      ensures created <==> ok && ValueIn(old(store.data), key) == None
      ensures store.data == if created then old(store.data)[key := value] else old(store.data)
      ensures created ==> items == Invalidated(old(items), Keys({key})) && generation == NextGeneration(old(generation))
      ensures !created ==> items == old(items) && generation == old(generation)
      ensures old(Coherent()) ==> Coherent()
    {
      if errs {
        return false, false;
      }
      created := key !in store.data;
      if created {
        store.data := store.data[key := value];
        Forget(key);
      }
      ok := true;
    }

    method Delete(key: Key, errs: bool) returns (ok: bool)
      modifies this, store
      ensures ok == !errs
      ensures ok ==> store.data == old(store.data) - {key}
      ensures ok ==> items == Invalidated(old(items), Keys({key})) && generation == NextGeneration(old(generation))
      ensures !ok ==> store.data == old(store.data) && items == old(items) && generation == old(generation)
      ensures old(Coherent()) ==> Coherent()
    {
      if errs {
        return false;
      }
      store.data := store.data - {key};
      Forget(key);
      return true;
    }

    /** A failing backend may have removed some of the keys already; `left` is what it then
        holds. The memo is not told, and stays coherent exactly if none of its own keys went. */
    method DeleteMany(keys: seq<Key>, errs: bool, left: map<Key, bytes>) returns (ok: bool)
      requires forall k :: ValueIn(left, k) == ValueIn(store.data, k) || (k in keys && k !in left)
      modifies this, store
      ensures ok == !errs
      ensures ok ==> store.data == old(store.data) - set k | k in keys
      ensures ok ==> items == Invalidated(old(items), Keys(set k | k in keys))
      ensures ok ==> generation == NextGeneration(old(generation))
      ensures ok && old(Coherent()) ==> Coherent()
      ensures !ok ==> store.data == left && items == old(items) && generation == old(generation)
      ensures !ok && old(Coherent()) ==>
                (Coherent() <==> forall k :: k in items && k in old(store.data) ==> k in left)
    {
      if errs {
        store.data := left;
        return false;
      }
      store.data := store.data - set k | k in keys;
      ForgetMany(keys);
      return true;
    }

    /** Likewise for a flush that stops halfway. */
    method Flush(errs: bool, left: map<Key, bytes>) returns (ok: bool)
      requires forall k :: ValueIn(left, k) == ValueIn(store.data, k) || k !in left
      modifies this, store
      ensures ok == !errs
      ensures ok ==> store.data == map[] && items == map[] && generation == NextGeneration(old(generation))
      ensures !ok ==> store.data == left && items == old(items) && generation == old(generation)
      ensures !ok && old(Coherent()) ==>
                (Coherent() <==> forall k :: k in items && k in old(store.data) ==> k in left)
    {
      if errs {
        store.data := left;
        return false;
      }
      store.data := map[];
      ForgetAll();
      return true;
    }
  }
}
