/** Fetch or cache (src/cimd_proxy/cimd_service.py), and what it promises about any history of visits. */
module CimdService {
  import opened Wrappers
  import opened Json
  import opened Fetcher
  import opened TtlCache
  import opened CacheControl

  /** What the network yields for a client-id URL of the right shape: a 200 answer that parses as JSON, with
      its `Cache-Control` header, or nothing usable. */
  datatype Response = NoAnswer | Answered(payload: Json, cacheControl: Option<string>)

  function Fetch(url: string, response: Response): Result<CimdDocument, FetchError> {
    var _ :- ParseClientIdUrl(url);
    if response.NoAnswer? then Err(Unavailable) else
      var document :- ValidateDocument(url, response.payload);
      Ok(document.(cacheControl := response.cacheControl))
  }

  datatype Bounds = Bounds(ttlMin: int, ttlMax: int)

  function Ttl(bounds: Bounds, document: CimdDocument): int {
    ChooseTtl(document.cacheControl, bounds.ttlMin, bounds.ttlMax, None)
  }

  /** One call: the clock value its lookup read, what a fetch would yield, the clock value its store read. */
  datatype Visit = Visit(lookedUp: real, response: Response, stored: real)

  datatype Outcome = Hit(document: CimdDocument) | Fetched(document: CimdDocument) | Failed(error: FetchError)

  type Slot = Option<Entry<CimdDocument>>

  function SlotOf(t: Table<CimdDocument>, url: string): Slot {
    if url in t then Some(t[url]) else None
  }

  /** One call as a step on the URL's slot of the cache. */
  function Serve(slot: Slot, url: string, bounds: Bounds, v: Visit): (Slot, Outcome) {
    if slot.Some? && v.lookedUp < slot.value.expiresAt then (slot, Hit(slot.value.value)) else
      match Fetch(url, v.response)
      case Err(e) => (None, Failed(e))
      case Ok(document) =>
        var ttl := Ttl(bounds, document);
        (if ttl <= 0 then None else Some(Entry(document, v.stored + ttl as real)), Fetched(document))
  }

  class Service {
    const cache: Cache<CimdDocument>
    const bounds: Bounds

    constructor (cache: Cache<CimdDocument>, bounds: Bounds)
      ensures this.cache == cache && this.bounds == bounds
    {
      this.cache := cache;
      this.bounds := bounds;
    }

    /** `obtain`: the fetch happens, and its answer is looked at, only on a miss. */
    method Obtain(url: string, v: Visit) returns (o: Outcome)
      requires cache.Valid()
      modifies cache
      ensures cache.Valid()
      ensures (SlotOf(cache.entries, url), o) == Serve(SlotOf(old(cache.entries), url), url, bounds, v)
      ensures forall k | k != url :: SlotOf(cache.entries, k) == SlotOf(old(cache.entries), k)
    {
      hide Fetch, Ttl, Lazy;
      var cached := cache.Get(url, v.lookedUp);
      if cached.Some? { return Hit(cached.value); }
      match Fetch(url, v.response)
      case Err(e) => o := Failed(e);
      case Ok(document) =>
        cache.Put(url, document, Ttl(bounds, document) as real, v.stored);
        o := Fetched(document);
    }
  }

  // ----- any history of visits to one URL ------------------------------------

  /** The slot and the outcomes after a history that began with an empty slot. */
  function History(url: string, bounds: Bounds, visits: seq<Visit>): (h: (Slot, seq<Outcome>))
    ensures |h.1| == |visits|
  {
    if visits == [] then (None, []) else
      var last := |visits| - 1;
      var (slot, outcomes) := History(url, bounds, visits[..last]);
      var (slot', o) := Serve(slot, url, bounds, visits[last]);
      (slot', outcomes + [o])
  }

  /** Calls follow one another on a clock that does not go back. */
  predicate Sequential(visits: seq<Visit>) {
    && (forall i | 0 <= i < |visits| :: visits[i].lookedUp <= visits[i].stored)
    && forall i, j | 0 <= i < j < |visits| :: visits[i].stored <= visits[j].lookedUp
  }

  predicate BoundsOk(bounds: Bounds) { 0 < bounds.ttlMin <= bounds.ttlMax }

  /** Visit `j` fetched the document that expires at `expiresAt`. */
  predicate FetchedAt(bounds: Bounds, visits: seq<Visit>, outcomes: seq<Outcome>, e: Entry<CimdDocument>, j: nat) {
    && j < |visits| == |outcomes| && outcomes[j] == Fetched(e.value)
    && visits[j].stored + bounds.ttlMin as real <= e.expiresAt <= visits[j].stored + bounds.ttlMax as real
  }

  /** A fetch succeeds exactly if the URL has the right shape and what is served there is a document that is
      valid for exactly that URL; the answer's `Cache-Control` goes with it. */
  lemma FetchExactly(url: string, response: Response, document: CimdDocument)
    ensures Fetch(url, response) == Ok(document) <==>
      && ParseClientIdUrl(url).Ok? && response.Answered? && ValidateDocument(url, response.payload).Ok?
      && document.cacheControl == response.cacheControl
      && var valid := ValidateDocument(url, response.payload).value;
      document.clientId == url == valid.clientId && document.redirectUris == valid.redirectUris && document.raw == valid.raw
  {
    hide ParseClientIdUrl, UsableRedirectUris;
  }

  /** Whatever is in the slot was fetched by some visit, within the bounds of its lifetime. */
  lemma {:induction false} SlotWasFetched(url: string, bounds: Bounds, visits: seq<Visit>)
    requires BoundsOk(bounds)
    ensures
      var (slot, outcomes) := History(url, bounds, visits);
      slot.Some? ==> exists j: nat :: FetchedAt(bounds, visits, outcomes, slot.value, j)
  {
    hide Fetch, ChooseTtl;
    if visits != [] {
      var last := |visits| - 1;
      var before := visits[..last];
      SlotWasFetched(url, bounds, before);
      var (slot, outcomes) := History(url, bounds, before);
      var (slot', o) := Serve(slot, url, bounds, visits[last]);
      if slot'.Some? {
        if o.Hit? {
          var j: nat :| FetchedAt(bounds, before, outcomes, slot.value, j);
          assert FetchedAt(bounds, visits, outcomes + [o], slot'.value, j);
        } else {
          TtlWithinBounds(o.document.cacheControl, bounds.ttlMin, bounds.ttlMax, None);
          assert FetchedAt(bounds, visits, outcomes + [o], slot'.value, last);
        }
      }
    }
  }

  /** Every document that a visit returns is one that some visit, this one or an earlier one, validated for
      exactly this URL, less than the maximum lifetime before. */
  lemma ReturnedDocuments(url: string, bounds: Bounds, visits: seq<Visit>, i: nat)
    requires BoundsOk(bounds) && Sequential(visits) && i < |visits|
    requires !History(url, bounds, visits).1[i].Failed?
    ensures
      var outcomes := History(url, bounds, visits).1;
      exists j: nat :: j <= i && outcomes[j] == Fetched(outcomes[i].document)
        && visits[i].lookedUp - visits[j].stored < bounds.ttlMax as real
        && Fetch(url, visits[j].response) == Ok(outcomes[i].document)
  {
    hide History, Fetch, Ttl;
    var outcomes := History(url, bounds, visits).1;
    HistoryAt(url, bounds, visits, i);
    if outcomes[i].Fetched? {
      FetchedMeans(url, bounds, visits, i);
    } else {
      HitMeans(url, bounds, visits, i);
    }
  }

  /** A hit returns what some earlier visit fetched. */
  lemma HitMeans(url: string, bounds: Bounds, visits: seq<Visit>, i: nat)
    requires BoundsOk(bounds) && Sequential(visits) && i < |visits|
    requires History(url, bounds, visits).1[i].Hit?
    ensures
      var outcomes := History(url, bounds, visits).1;
      exists j: nat :: j < i && outcomes[j] == Fetched(outcomes[i].document)
        && visits[i].lookedUp - visits[j].stored < bounds.ttlMax as real
        && Fetch(url, visits[j].response) == Ok(outcomes[i].document)
  {
    hide History, Fetch, Ttl;
    var outcomes := History(url, bounds, visits).1;
    HistoryAt(url, bounds, visits, i);
    var (slot, before) := History(url, bounds, visits[..i]);
    SlotWasFetched(url, bounds, visits[..i]);
    var j: nat :| FetchedAt(bounds, visits[..i], before, slot.value, j);
    HistoryPrefix(url, bounds, visits, i);
    assert outcomes[j] == before[j];
    FetchedMeans(url, bounds, visits, j);
  }

  /** The outcome of visit `i` is that of serving it on the slot the earlier ones left. */
  lemma HistoryAt(url: string, bounds: Bounds, visits: seq<Visit>, i: nat)
    requires i < |visits|
    ensures History(url, bounds, visits).1[i] == Serve(History(url, bounds, visits[..i]).0, url, bounds, visits[i]).1
  {
    hide Serve;
    HistoryPrefix(url, bounds, visits, i + 1);
    assert visits[..i + 1][..i] == visits[..i];
  }

  lemma {:induction false} HistoryPrefix(url: string, bounds: Bounds, visits: seq<Visit>, n: nat)
    requires n <= |visits|
    ensures History(url, bounds, visits[..n]).1 == History(url, bounds, visits).1[..n]
  {
    hide Serve;
    if n < |visits| {
      var last := |visits| - 1;
      HistoryPrefix(url, bounds, visits[..last], n);
      assert visits[..last][..n] == visits[..n];
    } else {
      assert visits[..n] == visits;
    }
  }

  lemma FetchedMeans(url: string, bounds: Bounds, visits: seq<Visit>, j: nat)
    requires j < |visits| && History(url, bounds, visits).1[j].Fetched?
    ensures Fetch(url, visits[j].response) == Ok(History(url, bounds, visits).1[j].document)
  {
    hide History, Fetch, Ttl;
    HistoryAt(url, bounds, visits, j);
  }

  /** A visit fails only if its own fetch fails. */
  lemma FailsOnlyIfFetchFails(url: string, bounds: Bounds, visits: seq<Visit>, i: nat)
    requires i < |visits| && History(url, bounds, visits).1[i].Failed?
    ensures Fetch(url, visits[i].response) == Err(History(url, bounds, visits).1[i].error)
  {
    hide History, Fetch, Ttl;
    HistoryAt(url, bounds, visits, i);
  }

  lemma HistoryNext(url: string, bounds: Bounds, visits: seq<Visit>, i: nat)
    requires i < |visits|
    ensures History(url, bounds, visits[..i + 1]).0 == Serve(History(url, bounds, visits[..i]).0, url, bounds, visits[i]).0
  {
    hide Serve;
    assert visits[..i + 1][..i] == visits[..i];
  }

  /** Once fetched, a document is served from the cache, and the network is left alone, for as long as its
      `Cache-Control` says within the bounds. */
  lemma {:induction false} CachedExactly(url: string, bounds: Bounds, visits: seq<Visit>, j: nat, i: nat)
    requires BoundsOk(bounds) && Sequential(visits) && j < i < |visits|
    requires History(url, bounds, visits).1[j].Fetched?
    requires
      var document := History(url, bounds, visits).1[j].document;
      visits[i].lookedUp < visits[j].stored + ChooseTtl(document.cacheControl, bounds.ttlMin, bounds.ttlMax, None) as real
    ensures History(url, bounds, visits).1[i] == Hit(History(url, bounds, visits).1[j].document)
    ensures
      var document := History(url, bounds, visits).1[j].document;
      var ttl := ChooseTtl(document.cacheControl, bounds.ttlMin, bounds.ttlMax, None);
      History(url, bounds, visits[..i]).0 == Some(Entry(document, visits[j].stored + ttl as real))
  {
    hide History, Fetch, ChooseTtl;
    var document := History(url, bounds, visits).1[j].document;
    TtlWithinBounds(document.cacheControl, bounds.ttlMin, bounds.ttlMax, None);
    HistoryAt(url, bounds, visits, i);
    HistoryNext(url, bounds, visits, i - 1);
    if j < i - 1 {
      assert visits[i - 1].lookedUp <= visits[i].lookedUp;
      CachedExactly(url, bounds, visits, j, i - 1);
    } else {
      HistoryAt(url, bounds, visits, j);
    }
  }

  // ----- how often the network is asked with success --------------------------

  /** The times at which successful fetches were stored. */
  function FetchTimes(visits: seq<Visit>, outcomes: seq<Outcome>): seq<real>
    requires |visits| == |outcomes|
  {
    if visits == [] then [] else
      var last := |visits| - 1;
      FetchTimes(visits[..last], outcomes[..last])
      + (if outcomes[last].Fetched? then [visits[last].stored] else [])
  }

  predicate Spaced(times: seq<real>, gap: real) {
    forall i, j | 0 <= i < j < |times| :: times[i] + gap <= times[j]
  }

  /** Before `horizon`, no later fetch can be stored within `gap` of the last one. */
  predicate Guarded(slot: Slot, times: seq<real>, horizon: real, gap: real) {
    times != [] ==>
      || (slot.Some? && times[|times| - 1] + gap <= slot.value.expiresAt)
      || times[|times| - 1] + gap <= horizon
  }

  lemma {:induction false} FetchesAreSpaced(url: string, bounds: Bounds, visits: seq<Visit>)
    requires BoundsOk(bounds) && Sequential(visits)
    ensures
      var (slot, outcomes) := History(url, bounds, visits);
      var times := FetchTimes(visits, outcomes);
      && Spaced(times, bounds.ttlMin as real)
      && (visits != [] ==> Guarded(slot, times, visits[|visits| - 1].stored, bounds.ttlMin as real))
      && (visits == [] ==> times == [])
  {
    hide Fetch, ChooseTtl;
    if visits != [] {
      var last := |visits| - 1;
      var before := visits[..last];
      FetchesAreSpaced(url, bounds, before);
      var (slot, outcomes) := History(url, bounds, before);
      var (slot', o) := Serve(slot, url, bounds, visits[last]);
      assert (outcomes + [o])[..last] == outcomes;
      if o.Fetched? {
        TtlWithinBounds(o.document.cacheControl, bounds.ttlMin, bounds.ttlMax, None);
      }
    }
  }

  /** How many of the times lie in the closed window. */
  function CountIn(times: seq<real>, lo: real, hi: real): nat {
    if times == [] then 0 else
      var last := |times| - 1;
      CountIn(times[..last], lo, hi) + (if lo <= times[last] <= hi then 1 else 0)
  }

  lemma {:induction false} CountMonotone(times: seq<real>, lo: real, hi: real, top: real)
    requires forall i | 0 <= i < |times| :: times[i] <= top
    ensures hi >= top ==> CountIn(times, lo, hi) == CountIn(times, lo, top)
    ensures top < lo ==> CountIn(times, lo, hi) == 0
  {
    if times != [] {
      CountMonotone(times[..|times| - 1], lo, hi, top);
    }
  }

  /** The least length of a window with `n` times in it. */
  function Stretch(n: nat, gap: real): real {
    if n <= 1 then 0.0 else Stretch(n - 1, gap) + gap
  }

  lemma OneMore(x: real, y: real, gap: real)
    requires y == x + 1.0
    ensures y * gap == x * gap + gap
  {
  }

  lemma {:induction false} StretchIs(n: nat, gap: real)
    requires n >= 1
    ensures Stretch(n, gap) == (n - 1) as real * gap
  {
    if n > 1 {
      StretchIs(n - 1, gap);
      var x, y := (n - 2) as real, (n - 1) as real;
      OneMore(x, y, gap);
      assert Stretch(n - 1, gap) == x * gap;
    }
  }

  /** What lies in a window that ends at the last time lies, but for that one, at least `gap` before it. */
  lemma CountStep(times: seq<real>, gap: real, lo: real, hi: real)
    requires times != [] && gap > 0.0 && Spaced(times, gap)
    ensures
      var t, before := times[|times| - 1], times[..|times| - 1];
      CountIn(times, lo, hi) ==
        if !(lo <= t <= hi) then CountIn(before, lo, hi)
        else if t - gap < lo then 1
        else CountIn(before, lo, t - gap) + 1
  {
    var last := |times| - 1;
    CountMonotone(times[..last], lo, hi, times[last] - gap);
  }

  /** At least `gap` apart, n times span at least n - 1 gaps. */
  lemma {:induction false} CountBound(times: seq<real>, gap: real, lo: real, hi: real)
    requires gap > 0.0 && Spaced(times, gap) && lo <= hi
    ensures Stretch(CountIn(times, lo, hi), gap) <= hi - lo
  {
    if times != [] {
      hide CountIn;
      var t, before := times[|times| - 1], times[..|times| - 1];
      CountStep(times, gap, lo, hi);
      assert Spaced(before, gap);
      if !(lo <= t <= hi) {
        CountBound(before, gap, lo, hi);
      } else if t - gap >= lo {
        CountBound(before, gap, lo, t - gap);
      }
    }
  }

  lemma MultiplyStrictly(a: real, b: real, gap: real)
    requires a > b && gap > 0.0
    ensures a * gap > b * gap
  {
  }

  lemma FloorBound(n: nat, gap: real, span: real)
    requires gap > 0.0 && span >= 0.0 && Stretch(n, gap) <= span
    ensures n <= (span / gap).Floor + 1
  {
    hide Stretch;
    var q := span / gap;
    assert q * gap == span;
    if n > 0 {
      StretchIs(n, gap);
      if (n - 1) as real > q { MultiplyStrictly((n - 1) as real, q, gap); }
    } else {
      if 0.0 > q { MultiplyStrictly(0.0, q, gap); }
    }
  }

  /** However the server sets `Cache-Control`, sequential calls for one URL fetch it with success at most
      floor(T / ttl_min) + 1 times in any window of length T. */
  lemma FetchesAreBounded(url: string, bounds: Bounds, visits: seq<Visit>, from: real, span: real)
    requires BoundsOk(bounds) && Sequential(visits) && span >= 0.0
    ensures
      CountIn(FetchTimes(visits, History(url, bounds, visits).1), from, from + span)
      <= (span / bounds.ttlMin as real).Floor + 1
  {
    hide History, FetchTimes, CountIn;
    var times := FetchTimes(visits, History(url, bounds, visits).1);
    var gap := bounds.ttlMin as real;
    FetchesAreSpaced(url, bounds, visits);
    CountBound(times, gap, from, from + span);
    FloorBound(CountIn(times, from, from + span), gap, span);
  }
}
