/** The in-memory TTL cache (src/cimd_proxy/cache.py). Every operation reads the clock before it takes the
    lock, so a reading is a parameter of the locked section and may be stale when the section runs. */
module TtlCache {
  import opened Wrappers

  datatype Entry<+T> = Entry(value: T, expiresAt: real)

  /** One locked section, with the clock value its caller had read. */
  datatype Event<+T> =
    | Got(key: string, reading: real)
    | Stored(key: string, value: T, ttl: real, reading: real)
    | Invalidated(key: string)
    | Cleared

  type Table<T> = map<string, Entry<T>>

  /** What a `get` answers from a table. */
  function Answer<T>(t: Table<T>, key: string, now: real): Option<T> {
    if key in t && now < t[key].expiresAt then Some(t[key].value) else None
  }

  /** The table after a history of locked sections: a `get` that finds an expired entry removes it. */
  function Lazy<T>(log: seq<Event<T>>): Table<T> {
    if log == [] then map[] else
      var t := Lazy(log[..|log| - 1]);
      match log[|log| - 1]
      case Got(key, now) => if key in t && t[key].expiresAt <= now then t - {key} else t
      case Stored(key, value, ttl, now) => if ttl <= 0.0 then t else t[key := Entry(value, now + ttl)]
      case Invalidated(key) => t - {key}
      case Cleared => map[]
  }

  class Cache<T> {
    var entries: Table<T>
    ghost var log: seq<Event<T>>

    ghost predicate Valid()
      reads this
    {
      entries == Lazy(log)
    }

    constructor ()
      ensures Valid() && log == [] && entries == map[]
    {
      entries := map[];
      log := [];
    }

    method Get(key: string, now: real) returns (r: Option<T>)
      requires Valid()
      modifies this
      ensures Valid() && log == old(log) + [Got(key, now)]
      ensures r == Answer(old(entries), key, now)
      ensures entries == if key in old(entries) && old(entries)[key].expiresAt <= now then old(entries) - {key} else old(entries)
    {
      log := log + [Got(key, now)];
      assert log[..|log| - 1] == old(log);
      if key !in entries { return None; }
      if entries[key].expiresAt <= now {
        entries := entries - {key};
        return None;
      }
      r := Some(entries[key].value);
    }

    method Put(key: string, value: T, ttl: real, now: real)
      requires Valid()
      modifies this
      ensures Valid() && log == old(log) + [Stored(key, value, ttl, now)]
      ensures entries == if ttl <= 0.0 then old(entries) else old(entries)[key := Entry(value, now + ttl)]
    {
      log := log + [Stored(key, value, ttl, now)];
      assert log[..|log| - 1] == old(log);
      if ttl <= 0.0 { return; }
      entries := entries[key := Entry(value, now + ttl)];
    }

    method Invalidate(key: string)
      requires Valid()
      modifies this
      ensures Valid() && log == old(log) + [Invalidated(key)]
      ensures entries == old(entries) - {key}
    {
      log := log + [Invalidated(key)];
      assert log[..|log| - 1] == old(log);
      entries := entries - {key};
    }

    method Clear()
      requires Valid()
      modifies this
      ensures Valid() && log == old(log) + [Cleared] && entries == map[]
    {
      log := log + [Cleared];
      entries := map[];
    }
  }

  // ----- the same history without eviction -----------------------------------

  /** Section `i` stored the entry that stands for `key`: nothing has replaced or removed it since. */
  predicate Stands<T>(log: seq<Event<T>>, key: string, i: nat) {
    && i < |log| && log[i].Stored? && log[i].key == key && log[i].ttl > 0.0
    && forall j | i < j < |log| :: !Ends(log[j], key)
  }

  predicate Ends<T>(e: Event<T>, key: string) {
    || (e.Stored? && e.key == key && e.ttl > 0.0)
    || (e.Invalidated? && e.key == key)
    || e.Cleared?
  }

  function Expiry<T>(log: seq<Event<T>>, i: nat): real
    requires i < |log| && log[i].Stored?
  {
    log[i].reading + log[i].ttl
  }

  /** Some `get` of the key, since section `i`, had read a clock value at or past the expiry. */
  predicate SeenExpired<T>(log: seq<Event<T>>, key: string, i: nat)
    requires i < |log| && log[i].Stored?
  {
    exists j | i < j < |log| :: log[j].Got? && log[j].key == key && log[j].reading >= Expiry(log, i)
  }

  /** The never-evicting log's entry for `key`: the section that stands, if any. */
  function Standing<T>(log: seq<Event<T>>, key: string): (s: Option<nat>)
    ensures s.Some? ==> Stands(log, key, s.value)
    ensures s.None? ==> forall i: nat :: !Stands(log, key, i)
  {
    if log == [] then None else
      var last := |log| - 1;
      var e := log[last];
      assert forall j | 0 <= j < last :: log[..last][j] == log[j];
      assert forall i: nat | i < last && Stands(log, key, i) :: Stands(log[..last], key, i);
      if e.Stored? && e.key == key && e.ttl > 0.0 then Some(last)
      else if Ends(e, key) then None
      else Standing(log[..last], key)
  }

  lemma SeenAfter<T>(log: seq<Event<T>>, key: string, i: nat)
    requires log != [] && i < |log| - 1 && log[i].Stored?
    ensures
      var e := log[|log| - 1];
      (SeenExpired(log, key, i)
       <==> (SeenExpired(log[..|log| - 1], key, i) || (e.Got? && e.key == key && e.reading >= Expiry(log, i))))
  {
    var before := log[..|log| - 1];
    assert forall j | 0 <= j < |before| :: before[j] == log[j];
  }

  /** The table holds exactly the standing entry that no `get` has seen expired. */
  lemma {:induction false} LazyHolds<T>(log: seq<Event<T>>, key: string)
    ensures
      var s := Standing(log, key);
      && (key in Lazy(log) <==> s.Some? && !SeenExpired(log, key, s.value))
      && (key in Lazy(log) ==> Lazy(log)[key] == Entry(log[s.value].value, Expiry(log, s.value)))
  {
    if log != [] {
      var last := |log| - 1;
      var before := log[..last];
      LazyHolds(before, key);
      assert forall j | 0 <= j < last :: before[j] == log[j];
      var s := Standing(before, key);
      if s.Some? { SeenAfter(log, key, s.value); }
    }
  }

  /** What a `get` would answer from a log that never evicts. */
  function NeverEvicting<T>(log: seq<Event<T>>, key: string, now: real): Option<T> {
    var s := Standing(log, key);
    if s.Some? && now < Expiry(log, s.value) then Some(log[s.value].value) else None
  }

  /** A hit is always right: it is the value that stands, unexpired at the clock value the `get` read. */
  lemma HitIsStanding<T>(log: seq<Event<T>>, key: string, now: real)
    ensures Answer(Lazy(log), key, now).Some? ==> Answer(Lazy(log), key, now) == NeverEvicting(log, key, now)
  {
    hide Standing, SeenExpired, Lazy;
    LazyHolds(log, key);
  }

  /** The lazily evicting cache answers like the never-evicting log exactly unless the reading is older than
      an expiry that an earlier section's reading had already passed. */
  lemma AgreesExactly<T>(log: seq<Event<T>>, key: string, now: real)
    ensures
      var s := Standing(log, key);
      (Answer(Lazy(log), key, now) == NeverEvicting(log, key, now)
       <==> !(s.Some? && now < Expiry(log, s.value) && SeenExpired(log, key, s.value)))
  {
    hide Standing, SeenExpired, Lazy;
    LazyHolds(log, key);
  }

  /** In particular they agree whenever no section that ran before had read a later clock value. */
  lemma AgreesInOrder<T>(log: seq<Event<T>>, key: string, now: real)
    requires forall e | e in log && e.Got? :: e.reading <= now
    ensures Answer(Lazy(log), key, now) == NeverEvicting(log, key, now)
  {
    AgreesExactly(log, key, now);
  }

  /** Two threads: one reads the clock at 4 and is held up; the entry expires at 5; the other reads 5, runs,
      and evicts; the first then misses an entry that was live at the value it had read. */
  lemma StaleReadingMisses()
    ensures
      var log := [Stored("k", "v", 5.0, 0.0), Got("k", 5.0)];
      Answer(Lazy(log), "k", 4.0) == None && NeverEvicting(log, "k", 4.0) == Some("v")
  {
    var put: Event<string> := Stored("k", "v", 5.0, 0.0);
    var log := [put, Got("k", 5.0)];
    assert log[..1] == [put] && [put][..0] == [];
    assert Stands(log, "k", 0);
    var s := Standing(log, "k");
    assert log[0].Stored? && Expiry(log, 0) == 5.0;
    assert SeenExpired(log, "k", 0) by { assert log[1].Got?; }
    LazyHolds(log, "k");
    StandsOnce(log, "k", 0, s.value);
  }

  lemma StandsOnce<T>(log: seq<Event<T>>, key: string, i: nat, j: nat)
    requires Stands(log, key, i) && Stands(log, key, j)
    ensures i == j
  {
  }

  /** A `get` removes nothing but its own key's entry, and that only if it is expired by the time the section
      runs: a reading is never ahead of the clock. */
  lemma GetRemovesOnlyExpired<T>(log: seq<Event<T>>, key: string, reading: real, clock: real, other: string)
    requires reading <= clock && other in Lazy(log) && other !in Lazy(log + [Got(key, reading)])
    ensures other == key && Lazy(log)[other].expiresAt <= clock
  {
    assert (log + [Got(key, reading)])[..|log|] == log;
  }
}
