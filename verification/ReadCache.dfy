/**
 * The cache-aside read cache: single-flight loads, and invalidation guarded by
 * a per-keyspace generation. Each synchronous stretch of the service between
 * two awaits is one step; a run is any interleaving of such steps.
 */
module ReadCache {
  import opened Common
  import opened MemoryStore

  // ---------------------------------------------------------------- local state of one replica

  /** A cached value remembers the load that produced it and the database version that load saw. */
  datatype Cached = Cached(load: nat, version: nat)

  datatype Flight = Flight(keyspace: Keyspace, load: nat)

  datatype Local = Local(
    store: seq<Entry<Cached>>,
    capacity: nat,
    generations: map<Keyspace, nat>,
    inFlight: map<string, Flight>)

  function Generation(generations: map<Keyspace, nat>, ks: Keyspace): nat {
    if ks in generations then generations[ks] else 0
  }

  /** What a call learns before its first await. */
  datatype First = Joins(load: nat) | Hits(value: Cached) | Misses

  function FirstLook(l: Local, fullKey: string, now: int): (First, Local) {
    if fullKey in l.inFlight then (Joins(l.inFlight[fullKey].load), l)
    else
      var (value, store) := Get(l.store, fullKey, now);
      (if value.Some? then Hits(value.value) else Misses, l.(store := store))
  }

  function Register(l: Local, fullKey: string, ks: Keyspace, load: nat): Local {
    l.(inFlight := l.inFlight[fullKey := Flight(ks, load)])
  }

  function WriteBack(l: Local, fullKey: string, ks: Keyspace, generation: nat, healthy: bool,
                     value: Cached, ttlMs: int, now: int): Local {
    if healthy && Generation(l.generations, ks) == generation
    then l.(store := Put(l.store, Entry(fullKey, value, ks, now + ttlMs), l.capacity))
    else l
  }

  function CleanUp(l: Local, fullKey: string, load: nat): Local {
    if fullKey in l.inFlight && l.inFlight[fullKey].load == load
    then l.(inFlight := l.inFlight - {fullKey})
    else l
  }

  function DropLocal(l: Local, ks: Keyspace): Local {
    l.(generations := l.generations[ks := Generation(l.generations, ks) + 1],
       inFlight := map k | k in l.inFlight && l.inFlight[k].keyspace != ks :: l.inFlight[k])
  }

  function Invalidate(l: Local, ks: Keyspace): Local {
    DropLocal(l, ks).(store := WithoutKeyspace(l.store, ks))
  }

  function InvalidateAll(l: Local, keyspaces: seq<Keyspace>): Local {
    if keyspaces == [] then l else Invalidate(InvalidateAll(l, keyspaces[..|keyspaces| - 1]), keyspaces[|keyspaces| - 1])
  }

  /** The service object; every method is one synchronous stretch of the source. */
  class CacheService {
    const store: MemoryCacheStore<Cached>
    var generations: map<Keyspace, nat>
    var inFlight: map<string, Flight>

    ghost function View(): Local
      reads this, store
    {
      Local(store.entries, store.maxEntries, generations, inFlight)
    }

    constructor (store: MemoryCacheStore<Cached>)
      ensures this.store == store && generations == map[] && inFlight == map[]
    {
      this.store := store;
      generations, inFlight := map[], map[];
    }

    /** Join a pending load, or read the store. */
    method Look(fullKey: string, now: int) returns (first: First)
      modifies store
      ensures (first, View()) == FirstLook(old(View()), fullKey, now)
    {
      if fullKey in inFlight { return Joins(inFlight[fullKey].load); }
      var value := store.Lookup(fullKey, now);
      return if value.Some? then Hits(value.value) else Misses;
    }

    /** Back from the store read: join a load that raced ahead, or register a new one. */
    method JoinOrRegister(fullKey: string, ks: Keyspace, newLoad: nat) returns (load: nat, generation: nat)
      modifies this
      ensures generation == Generation(old(generations), ks)
      ensures fullKey in old(inFlight) ==> load == old(inFlight)[fullKey].load && View() == old(View())
      ensures fullKey !in old(inFlight) ==> load == newLoad && View() == Register(old(View()), fullKey, ks, newLoad)
    {
      generation := Generation(generations, ks);
      if fullKey in inFlight { return inFlight[fullKey].load, generation; }
      load := newLoad;
      inFlight := inFlight[fullKey := Flight(ks, newLoad)];
    }

    /** The loader resolved: write the value back unless an invalidation intervened. */
    method FinishLoad(fullKey: string, ks: Keyspace, generation: nat, healthy: bool, value: Cached, ttlMs: int, now: int)
      modifies store
      ensures View() == WriteBack(old(View()), fullKey, ks, generation, healthy, value, ttlMs, now)
    {
      if healthy && Generation(generations, ks) == generation {
        store.Store(fullKey, ks, value, ttlMs, now);
      }
    }

    /** The starter's `finally`. */
    method Finally(fullKey: string, load: nat)
      modifies this
      ensures View() == CleanUp(old(View()), fullKey, load)
    {
      if fullKey in inFlight && inFlight[fullKey].load == load {
        inFlight := inFlight - {fullKey};
      }
    }

    method Drop(ks: Keyspace)
      modifies this
      ensures View() == DropLocal(old(View()), ks)
    {
      generations := generations[ks := Generation(generations, ks) + 1];
      var todo := inFlight.Keys;
      while todo != {}
        invariant todo <= old(inFlight).Keys
        invariant inFlight == map k | k in old(inFlight) && (k in todo || old(inFlight)[k].keyspace != ks) :: old(inFlight)[k]
        invariant generations == old(generations)[ks := Generation(old(generations), ks) + 1]
        decreases todo
      {
        var key :| key in todo;
        if inFlight[key].keyspace == ks {
          inFlight := inFlight - {key};
        }
        todo := todo - {key};
      }
    }

    /** The synchronous part of `invalidate` over the distinct keyspaces it was given. */
    method InvalidateLocal(keyspaces: seq<Keyspace>)
      modifies this, store
      ensures View() == InvalidateAll(old(View()), keyspaces)
    {
      hide WithoutKeyspace, Generation;
      var i := 0;
      while i < |keyspaces|
        invariant 0 <= i <= |keyspaces|
        invariant View() == InvalidateAll(old(View()), keyspaces[..i]).(store := old(store.entries))
      {
        assert keyspaces[..i + 1][..i] == keyspaces[..i];
        Drop(keyspaces[i]);
        i := i + 1;
      }
      assert keyspaces[..i] == keyspaces;
      i := 0;
      while i < |keyspaces|
        invariant 0 <= i <= |keyspaces|
        invariant View() == InvalidateAll(old(View()), keyspaces).(store := InvalidateAll(old(View()), keyspaces[..i]).store)
      {
        assert keyspaces[..i + 1][..i] == keyspaces[..i];
        store.DeleteKeyspace(keyspaces[i]);
        i := i + 1;
      }
      assert keyspaces[..i] == keyspaces;
    }

    /** A notice from the bus; the replica's own echo is ignored. */
    method OnRemoteInvalidation(ks: Keyspace, own: bool)
      modifies this, store
      ensures View() == if own then old(View()) else Invalidate(old(View()), ks)
    {
      if own { return; }
      Drop(ks);
      store.DeleteKeyspace(ks);
    }
  }
}
