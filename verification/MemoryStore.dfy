/** The process-local cache store: keyspaces, versioned keys, TTL and insertion-order eviction. */
module MemoryStore {
  import opened Common

  datatype Keyspace = Tokens | Solvers | Leaderboard | Stats

  function Name(ks: Keyspace): string {
    match ks
    case Tokens => "tokens"
    case Solvers => "solvers"
    case Leaderboard => "leaderboard"
    case Stats => "stats"
  }

  function Prefix(ks: Keyspace): string {
    "v1:" + Name(ks) + ":"
  }

  function FullKey(ks: Keyspace, key: string): string {
    Prefix(ks) + key
  }

  /** Prefix deletion hits exactly the keys of its own keyspace. */
  lemma PrefixDecidesKeyspace(a: Keyspace, b: Keyspace, key: string)
    ensures Prefix(a) <= FullKey(b, key) <==> a == b
  {
    var full := FullKey(b, key);
    assert full[3] == Name(b)[0] && full[4] == Name(b)[1];
    if Prefix(a) <= full {
      assert Prefix(a)[3] == full[3] && Prefix(a)[4] == full[4];
      assert Prefix(a)[3] == Name(a)[0] && Prefix(a)[4] == Name(a)[1];
    }
  }

  lemma FullKeyInjective(a: Keyspace, k: string, b: Keyspace, k': string)
    requires FullKey(a, k) == FullKey(b, k')
    ensures a == b && k == k'
  {
    PrefixDecidesKeyspace(a, b, k');
    assert FullKey(a, k)[|Prefix(a)|..] == k;
  }

  datatype Entry<+V> = Entry(key: string, value: V, keyspace: Keyspace, expiresAt: int)

  /** Keys occur once; the order is the order of (re-)insertion. */
  ghost predicate Distinct<V>(es: seq<Entry<V>>) {
    forall i, j :: 0 <= i < j < |es| ==> es[i].key != es[j].key
  }

  function Without<V>(es: seq<Entry<V>>, key: string): seq<Entry<V>> {
    Filter(es, (e: Entry<V>) => e.key != key)
  }

  function WithoutKeyspace<V>(es: seq<Entry<V>>, ks: Keyspace): seq<Entry<V>> {
    Filter(es, (e: Entry<V>) => !(Prefix(ks) <= e.key))
  }

  function Find<V>(es: seq<Entry<V>>, key: string): (r: Option<Entry<V>>)
    ensures r.None? <==> forall e :: e in es ==> e.key != key
    ensures r.Some? ==> r.value in es && r.value.key == key
  {
    if es == [] then None
    else if es[0].key == key then Some(es[0])
    else
      assert es == [es[0]] + es[1..];
      Find(es[1..], key)
  }

  /** A read: the live value, and the entries with an expired one dropped. */
  function Get<V>(es: seq<Entry<V>>, key: string, now: int): (r: (Option<V>, seq<Entry<V>>))
    ensures forall e :: e in r.1 ==> e in es
    ensures r.0.Some? ==> exists e :: e in es && e.key == key && e.value == r.0.value && e.expiresAt > now
  {
    match Find(es, key)
    case None => (None, es)
    case Some(e) => if e.expiresAt <= now then (None, Without(es, key)) else (Some(e.value), es)
  }

  /** A write moves the key to the newest place and keeps the newest `capacity` entries. */
  function Put<V>(es: seq<Entry<V>>, e: Entry<V>, capacity: nat): (r: seq<Entry<V>>)
    ensures forall x :: x in r ==> x == e || x in es
  {
    LastN(Without(es, e.key) + [e], capacity)
  }

  lemma {:induction false} FilterDistinct<V>(es: seq<Entry<V>>, keep: Entry<V> -> bool)
    requires Distinct(es)
    ensures Distinct(Filter(es, keep))
  {
    if es != [] {
      FilterDistinct(es[1..], keep);
      var rest := Filter(es[1..], keep);
      forall j | 0 <= j < |rest| ensures rest[j].key != es[0].key {
        assert rest[j] in es[1..];
      }
    }
  }

  /** What a reader of `key` sees after a write: the new value until it expires. */
  lemma GetAfterPut<V>(es: seq<Entry<V>>, e: Entry<V>, capacity: nat, now: int)
    requires Distinct(es)
    ensures Distinct(Put(es, e, capacity))
    ensures capacity > 0 ==>
              Get(Put(es, e, capacity), e.key, now).0 == if e.expiresAt <= now then None else Some(e.value)
  {
    var kept := Without(es, e.key);
    FilterDistinct(es, (x: Entry<V>) => x.key != e.key);
    assert Distinct(kept + [e]) by {
      forall j | 0 <= j < |kept| ensures kept[j].key != e.key { assert kept[j] in kept; }
    }
    var after := Put(es, e, capacity);
    assert Distinct(after);
    if capacity > 0 {
      assert after[|after| - 1] == e;
      var found := Find(after, e.key);
      assert found.Some?;
      assert found.value == e;
    }
  }

  /** A read drops the entry it finds expired, and no other. */
  lemma GetKeeps<V>(es: seq<Entry<V>>, key: string, now: int)
    requires Distinct(es)
    ensures forall x :: x in Get(es, key, now).1 <==> x in es && !(x.key == key && x.expiresAt <= now)
  {
    var found := Find(es, key);
    if found.Some? {
      forall x | x in es && x.key == key ensures x == found.value {
        var i :| 0 <= i < |es| && es[i] == x;
        var j :| 0 <= j < |es| && es[j] == found.value;
      }
    }
  }

  /** A write evicts the entries that have been there longest, as many as do not fit beside the new one. */
  lemma PutKeepsNewest<V>(es: seq<Entry<V>>, e: Entry<V>, capacity: nat)
    ensures var others, after := Without(es, e.key), Put(es, e, capacity);
            && |after| <= capacity && (capacity > 0 ==> after != [] && after[|after| - 1] == e)
            && (capacity > 0 ==> after[..|after| - 1] <= others[|others| + 1 - |after|..] && |after| == if |others| < capacity then |others| + 1 else capacity)
  {
  }

  class MemoryCacheStore<V(==)> {
    var entries: seq<Entry<V>>
    const maxEntries: nat

    constructor (maxEntries: nat)
      ensures entries == [] && this.maxEntries == maxEntries
    {
      this.maxEntries := maxEntries;
      entries := [];
    }

    method Lookup(key: string, now: int) returns (value: Option<V>)
      modifies this
      ensures (value, entries) == Get(old(entries), key, now)
    {
      var found := Find(entries, key);
      if found.None? { return None; }
      if found.value.expiresAt <= now {
        entries := Without(entries, key);
        return None;
      }
      return Some(found.value.value);
    }

    method Store(key: string, keyspace: Keyspace, value: V, ttlMs: int, now: int)
      modifies this
      ensures entries == Put(old(entries), Entry(key, value, keyspace, now + ttlMs), maxEntries)
    {
      entries := Without(entries, key) + [Entry(key, value, keyspace, now + ttlMs)];
      ghost var full := entries;
      while |entries| > maxEntries
        invariant |entries| <= |full| && entries == full[|full| - |entries|..]
        invariant |full| > maxEntries ==> |entries| >= maxEntries
        invariant |full| <= maxEntries ==> entries == full
        decreases |entries|
      {
        entries := entries[1..];
      }
    }

    method DeleteKeyspace(keyspace: Keyspace)
      modifies this
      ensures entries == WithoutKeyspace(old(entries), keyspace)
    {
      var snapshot := entries;
      var i := 0;
      hide WithoutMany, WithoutKeyspace, Without;
      WithoutNone(snapshot, keyspace);
      while i < |snapshot|
        invariant 0 <= i <= |snapshot|
        invariant entries == WithoutMany(snapshot, snapshot[..i], keyspace)
      {
        var key := snapshot[i].key;
        WithoutManyStep(snapshot, snapshot[..i], snapshot[i], keyspace);
        assert snapshot[..i + 1] == snapshot[..i] + [snapshot[i]];
        if Prefix(keyspace) <= key {
          entries := Without(entries, key);
        }
        i := i + 1;
      }
      assert snapshot[..i] == snapshot;
      WithoutManyAll(snapshot, snapshot, keyspace);
    }
  }

  /** Entries left once the matching keys among `seen` have been deleted. */
  ghost function WithoutMany<V>(es: seq<Entry<V>>, seen: seq<Entry<V>>, ks: Keyspace): seq<Entry<V>> {
    Filter(es, (e: Entry<V>) => !(Prefix(ks) <= e.key && exists d :: d in seen && d.key == e.key))
  }

  lemma WithoutNone<V>(es: seq<Entry<V>>, ks: Keyspace)
    ensures WithoutMany(es, [], ks) == es
  {
    FilterAll(es, (e: Entry<V>) => !(Prefix(ks) <= e.key && exists d: Entry<V> :: d in [] && d.key == e.key));
  }

  lemma WithoutManyStep<V>(es: seq<Entry<V>>, seen: seq<Entry<V>>, d: Entry<V>, ks: Keyspace)
    ensures WithoutMany(es, seen + [d], ks) ==
            if Prefix(ks) <= d.key then Without(WithoutMany(es, seen, ks), d.key) else WithoutMany(es, seen, ks)
  {
    var p := (e: Entry<V>) => !(Prefix(ks) <= e.key && exists x :: x in seen && x.key == e.key);
    var r := (e: Entry<V>) => !(Prefix(ks) <= e.key && exists x :: x in seen + [d] && x.key == e.key);
    var q := (e: Entry<V>) => !(Prefix(ks) <= d.key) || e.key != d.key;
    forall e | e in es ensures r(e) <==> p(e) && q(e) {
      assert d in seen + [d];
    }
    FilterTwice(es, p, q, r);
    if Prefix(ks) <= d.key {
      FilterSame(WithoutMany(es, seen, ks), q, (e: Entry<V>) => e.key != d.key);
    } else {
      FilterAll(WithoutMany(es, seen, ks), q);
    }
  }

  lemma WithoutManyAll<V>(es: seq<Entry<V>>, seen: seq<Entry<V>>, ks: Keyspace)
    requires forall e :: e in es ==> e in seen
    ensures WithoutMany(es, seen, ks) == WithoutKeyspace(es, ks)
  {
    FilterSame(es, (e: Entry<V>) => !(Prefix(ks) <= e.key && exists x :: x in seen && x.key == e.key),
      (e: Entry<V>) => !(Prefix(ks) <= e.key));
  }
}
