/** Which scopes a personal access token carries: the scope string sent upstream, and the selection at
    creation (src/cimd_proxy/pat.py, `_scope_param` and `_granted_scopes`). */
module PatScopes {
  import opened Wrappers
  import opened Text
  import opened Config

  datatype ManagementError =
    | InvalidRequest | InvalidTarget | InvalidScope | InsufficientScope | OrganizationRequired
    | LinkConflict | UpstreamRefused | NotConfigured | ParserError | DateOverflow | StorageFailed

  // ----- the scope string ---------------------------------------------------

  const ORGANIZATION := "organization:"

  function ScopeParam(scopes: seq<string>, tenant: string): string {
    JoinWords(scopes + [ORGANIZATION + tenant])
  }

  predicate NoSpace(s: string) { forall c | c in s :: !IsSpace(c) }

  predicate AreWords(ws: seq<string>) { forall w | w in ws :: IsWord(w) }

  lemma OrganizationIsWord(tenant: string)
    ensures IsWord(ORGANIZATION + tenant) <==> NoSpace(tenant)
  {
    var w := ORGANIZATION + tenant;
    assert forall i | 0 <= i < |ORGANIZATION| :: !IsSpace(ORGANIZATION[i]);
    assert forall c :: c in w <==> c in ORGANIZATION || c in tenant;
  }

  /** Upstream reads back exactly the scopes and the one organization, precisely when the alias has no
      white space in it. */
  lemma ScopeParamTokenises(scopes: seq<string>, tenant: string)
    requires AreWords(scopes)
    ensures SplitWords(ScopeParam(scopes, tenant)) == scopes + ["organization:" + tenant] <==> NoSpace(tenant)
  {
    hide SplitWords, JoinWords, IsWord, NoSpace;
    var words := scopes + [ORGANIZATION + tenant];
    OrganizationIsWord(tenant);
    if NoSpace(tenant) { SplitJoin(words); }
    assert words[|scopes|] in words;
  }

  /** So no two different sets or organizations are sent as one string. */
  lemma ScopeParamInjective(a: seq<string>, s: string, b: seq<string>, t: string)
    requires AreWords(a) && AreWords(b) && NoSpace(s) && NoSpace(t)
    requires ScopeParam(a, s) == ScopeParam(b, t)
    ensures a == b && s == t
  {
    hide SplitWords, ScopeParam, IsWord, NoSpace;
    ScopeParamTokenises(a, s);
    ScopeParamTokenises(b, t);
    var (x, y) := (a + [ORGANIZATION + s], b + [ORGANIZATION + t]);
    assert x == y && |a| == |b|;
    assert x[|a|] == y[|b|] && x[..|a|] == a && y[..|b|] == b;
    assert (ORGANIZATION + s)[|ORGANIZATION|..] == s && (ORGANIZATION + t)[|ORGANIZATION|..] == t;
  }

  // ----- trial exchanges ----------------------------------------------------

  /** The answer to a trial exchange: the scope string of a token, or a refusal or unusable body. */
  datatype Reply = Granted(scope: string) | Refused

  /** What the upstream answers to the n-th trial exchange, at this entry, for this scope string. */
  type Upstream = (nat, ResourceEntry, string) -> Reply

  function EntryOf(entries: seq<ResourceEntry>, url: string): Result<ResourceEntry, ManagementError> {
    match ResourceByUrl(entries, url)
    case Err(_) => Err(ParserError)
    case Ok(None) => Err(NotConfigured)
    case Ok(Some(e)) => Ok(e)
  }

  /** `_trial_exchange`: the scopes granted at this resource. */
  function Trial(entries: seq<ResourceEntry>, tenant: string, ask: Upstream, n: nat, url: string, scopes: seq<string>)
    : Result<seq<string>, ManagementError>
  {
    var entry :- EntryOf(entries, url);
    match ask(n, entry, ScopeParam(scopes, tenant))
    case Refused => Err(UpstreamRefused)
    case Granted(scope) => Ok(SplitWords(scope))
  }

  function Filter(s: seq<string>, keep: string -> bool): (r: seq<string>)
    ensures forall x | x in r :: x in s && keep(x)
  {
    if s == [] then [] else
      Filter(s[..|s| - 1], keep) + (if keep(s[|s| - 1]) then [s[|s| - 1]] else [])
  }

  function Missing(scopes: seq<string>, granted: seq<string>): seq<string> {
    Filter(scopes, s => s !in granted)
  }

  function Kept(permitted: seq<string>, granted: seq<string>): seq<string> {
    Filter(permitted, s => s in granted)
  }

  /** A named set has to be granted whole at each of the first `n` resources. */
  function NamedUpTo(entries: seq<ResourceEntry>, tenant: string, ask: Upstream, scopes: seq<string>,
                     resources: seq<string>, n: nat): Result<seq<string>, ManagementError>
    requires n <= |resources|
  {
    if n == 0 then Ok(scopes) else
      var _ :- NamedUpTo(entries, tenant, ask, scopes, resources, n - 1);
      var granted :- Trial(entries, tenant, ask, n - 1, resources[n - 1], scopes);
      if Missing(scopes, granted) != [] then Err(InsufficientScope) else Ok(scopes)
  }

  /** The offered scopes that each of the first `n` resources left over. */
  function NarrowedTo(entries: seq<ResourceEntry>, tenant: string, ask: Upstream, offered: seq<string>,
                      resources: seq<string>, n: nat): Result<seq<string>, ManagementError>
    requires n <= |resources|
  {
    if n == 0 then Ok(offered) else
      var permitted :- NarrowedTo(entries, tenant, ask, offered, resources, n - 1);
      var granted :- Trial(entries, tenant, ask, n - 1, resources[n - 1], permitted);
      Ok(Kept(permitted, granted))
  }

  /** What a creation asks for: scopes by name, or all that are permitted. */
  datatype Wish = Named(scopes: seq<string>) | AllPermitted

  function Selection(entries: seq<ResourceEntry>, tenant: string, ask: Upstream, offered: seq<string>,
                     resources: seq<string>, wish: Wish): Result<seq<string>, ManagementError>
  {
    match wish
    case Named(scopes) => NamedUpTo(entries, tenant, ask, scopes, resources, |resources|)
    case AllPermitted =>
      var permitted :- NarrowedTo(entries, tenant, ask, offered, resources, |resources|);
      if permitted == [] then Err(InsufficientScope) else Ok(permitted)
  }

  lemma {:induction false} NamedStopped(entries: seq<ResourceEntry>, tenant: string, ask: Upstream, scopes: seq<string>,
                                        resources: seq<string>, n: nat, m: nat)
    requires n <= m <= |resources| && NamedUpTo(entries, tenant, ask, scopes, resources, n).Err?
    ensures NamedUpTo(entries, tenant, ask, scopes, resources, m) == NamedUpTo(entries, tenant, ask, scopes, resources, n)
  {
    hide Trial, Kept, Missing;
    if n < m { NamedStopped(entries, tenant, ask, scopes, resources, n, m - 1); }
  }

  lemma {:induction false} NarrowingStopped(entries: seq<ResourceEntry>, tenant: string, ask: Upstream, offered: seq<string>,
                                            resources: seq<string>, n: nat, m: nat)
    requires n <= m <= |resources| && NarrowedTo(entries, tenant, ask, offered, resources, n).Err?
    ensures NarrowedTo(entries, tenant, ask, offered, resources, m) == NarrowedTo(entries, tenant, ask, offered, resources, n)
  {
    hide Trial, Kept, Missing;
    if n < m { NarrowingStopped(entries, tenant, ask, offered, resources, n, m - 1); }
  }

  /** `_granted_scopes`. */
  method GrantedScopes(entries: seq<ResourceEntry>, tenant: string, ask: Upstream, offered: seq<string>,
                       resources: seq<string>, wish: Wish) returns (r: Result<seq<string>, ManagementError>)
    ensures r == Selection(entries, tenant, ask, offered, resources, wish)
  {
    hide Trial, Kept, Missing;
    if wish.Named? {
      var scopes := wish.scopes;
      for i := 0 to |resources|
        invariant NamedUpTo(entries, tenant, ask, scopes, resources, i) == Ok(scopes)
      {
        var granted := Trial(entries, tenant, ask, i, resources[i], scopes);
        if granted.Err? || Missing(scopes, granted.value) != [] {
          NamedStopped(entries, tenant, ask, scopes, resources, i + 1, |resources|);
          return Err(if granted.Err? then granted.error else InsufficientScope);
        }
      }
      return Ok(scopes);
    }
    var permitted := offered;
    for i := 0 to |resources|
      invariant NarrowedTo(entries, tenant, ask, offered, resources, i) == Ok(permitted)
    {
      var granted := Trial(entries, tenant, ask, i, resources[i], permitted);
      if granted.Err? {
        NarrowingStopped(entries, tenant, ask, offered, resources, i + 1, |resources|);
        return Err(granted.error);
      }
      permitted := Kept(permitted, granted.value);
    }
    if permitted == [] { return Err(InsufficientScope); }
    return Ok(permitted);
  }

  // ----- lists ---------------------------------------------------------------

  lemma {:induction false} FilterAgrees(s: seq<string>, p: string -> bool, q: string -> bool)
    requires forall i | 0 <= i < |s| :: p(s[i]) == q(s[i])
    ensures Filter(s, p) == Filter(s, q)
  {
    if s != [] { FilterAgrees(s[..|s| - 1], p, q); }
  }

  lemma FilterAppend(s: seq<string>, x: string, p: string -> bool)
    ensures Filter(s + [x], p) == Filter(s, p) + (if p(x) then [x] else [])
  {
    assert (s + [x])[..|s|] == s;
  }

  lemma {:induction false} FilterTwice(s: seq<string>, p: string -> bool, q: string -> bool, both: string -> bool)
    requires forall x :: both(x) <==> p(x) && q(x)
    ensures Filter(Filter(s, p), q) == Filter(s, both)
  {
    if s != [] {
      hide Filter;
      var last, front := s[|s| - 1], s[..|s| - 1];
      assert s == front + [last];
      FilterTwice(front, p, q, both);
      FilterAppend(front, last, p);
      FilterAppend(front, last, both);
      if p(last) { FilterAppend(Filter(front, p), last, q); }
      assert !p(last) ==> Filter(s, p) == Filter(front, p);
    } else {
      assert Filter(s, p) == [];
    }
  }

  lemma {:induction false} FilterMembers(s: seq<string>, p: string -> bool, x: string)
    ensures x in Filter(s, p) <==> x in s && p(x)
  {
    if x in s && p(x) {
      assert s == s[..|s| - 1] + [s[|s| - 1]];
      if x != s[|s| - 1] { FilterMembers(s[..|s| - 1], p, x); }
    }
  }

  lemma NothingMissing(scopes: seq<string>, granted: seq<string>)
    ensures Missing(scopes, granted) == [] <==> forall s | s in scopes :: s in granted
  {
    forall s | s in scopes ensures s in granted <==> s !in Missing(scopes, granted) {
      FilterMembers(scopes, x => x !in granted, s);
    }
    if Missing(scopes, granted) != [] {
      assert Missing(scopes, granted)[0] in Missing(scopes, granted);
    }
  }

  /** All of a list is kept when every element is. */
  lemma {:induction false} FilterWhole(s: seq<string>, p: string -> bool)
    requires forall x | x in s :: p(x)
    ensures Filter(s, p) == s
  {
    if s != [] {
      assert s == s[..|s| - 1] + [s[|s| - 1]];
      FilterWhole(s[..|s| - 1], p);
    }
  }

  // ----- a pointwise upstream -----------------------------------------------

  /** The upstream grants, of the scopes it is asked for, those the owner may carry at that resource. */
  ghost predicate Pointwise(tenant: string, ask: Upstream, may: (string, string) -> bool) {
    forall n: nat, e: ResourceEntry, scopes: seq<string> ::
      var reply := ask(n, e, ScopeParam(scopes, tenant));
      reply.Granted? && forall s | s in scopes :: s in SplitWords(reply.scope) <==> may(e.url, s)
  }

  /** Resources as `parse_create` leaves them: URLs of the table that resolve to their own entry. */
  predicate Resolvable(entries: seq<ResourceEntry>, resources: seq<string>) {
    forall url | url in resources :: EntryOf(entries, url).Ok? && EntryOf(entries, url).value.url == url
  }

  predicate MayAtAll(may: (string, string) -> bool, resources: seq<string>, scope: string) {
    forall url | url in resources :: may(url, scope)
  }

  lemma TrialIsPointwise(entries: seq<ResourceEntry>, tenant: string, ask: Upstream, may: (string, string) -> bool,
                         n: nat, url: string, scopes: seq<string>)
    requires Pointwise(tenant, ask, may) && EntryOf(entries, url).Ok? && EntryOf(entries, url).value.url == url
    ensures
      var trial := Trial(entries, tenant, ask, n, url, scopes);
      trial.Ok? && forall s | s in scopes :: s in trial.value <==> may(url, s)
  {
    hide EntryOf, SplitWords, ScopeParam;
  }

  lemma {:induction false} NarrowingIsFilter(
    entries: seq<ResourceEntry>, tenant: string, ask: Upstream, may: (string, string) -> bool,
    offered: seq<string>, resources: seq<string>, n: nat)
    requires Pointwise(tenant, ask, may) && Resolvable(entries, resources) && n <= |resources|
    ensures NarrowedTo(entries, tenant, ask, offered, resources, n)
         == Ok(Filter(offered, s => MayAtAll(may, resources[..n], s)))
  {
    hide EntryOf, SplitWords, ScopeParam, Trial, Filter;
    var now := s => MayAtAll(may, resources[..n], s);
    if n == 0 {
      FilterWhole(offered, now);
    } else {
      var url, before := resources[n - 1], s => MayAtAll(may, resources[..n - 1], s);
      NarrowingIsFilter(entries, tenant, ask, may, offered, resources, n - 1);
      var permitted := NarrowedTo(entries, tenant, ask, offered, resources, n - 1).value;
      assert permitted == Filter(offered, before);
      assert url in resources;
      TrialIsPointwise(entries, tenant, ask, may, n - 1, url, permitted);
      var granted := Trial(entries, tenant, ask, n - 1, url, permitted).value;
      var here := s => may(url, s);
      assert forall i | 0 <= i < |permitted| :: permitted[i] in permitted;
      FilterAgrees(permitted, s => s in granted, here);
      assert resources[..n] == resources[..n - 1] + [url];
      FilterTwice(offered, before, here, now);
    }
  }

  /** `all_permitted_scopes`: the offered scopes, in their order, that the owner may carry at every named
      resource; the creation is refused exactly when there are none. */
  lemma AllPermittedExactly(
    entries: seq<ResourceEntry>, tenant: string, ask: Upstream, may: (string, string) -> bool,
    offered: seq<string>, resources: seq<string>)
    requires Pointwise(tenant, ask, may) && Resolvable(entries, resources)
    ensures
      var common := Filter(offered, s => MayAtAll(may, resources, s));
      Selection(entries, tenant, ask, offered, resources, AllPermitted)
      == if common == [] then Err(InsufficientScope) else Ok(common)
  {
    hide Filter, Pointwise, Resolvable, NarrowedTo;
    NarrowingIsFilter(entries, tenant, ask, may, offered, resources, |resources|);
    assert resources[..|resources|] == resources;
  }

  /** A named set is accepted exactly when the owner may carry each of its scopes at each named resource. */
  lemma NamedExactly(
    entries: seq<ResourceEntry>, tenant: string, ask: Upstream, may: (string, string) -> bool,
    offered: seq<string>, resources: seq<string>, scopes: seq<string>)
    requires Pointwise(tenant, ask, may) && Resolvable(entries, resources)
    ensures
      Selection(entries, tenant, ask, offered, resources, Named(scopes))
      == if forall s | s in scopes :: MayAtAll(may, resources, s) then Ok(scopes) else Err(InsufficientScope)
  {
    NamedUpToExactly(entries, tenant, ask, may, resources, scopes, |resources|);
    assert resources[..|resources|] == resources;
  }

  lemma {:induction false} NamedUpToExactly(
    entries: seq<ResourceEntry>, tenant: string, ask: Upstream, may: (string, string) -> bool,
    resources: seq<string>, scopes: seq<string>, n: nat)
    requires Pointwise(tenant, ask, may) && Resolvable(entries, resources) && n <= |resources|
    ensures
      NamedUpTo(entries, tenant, ask, scopes, resources, n)
      == if forall s | s in scopes :: MayAtAll(may, resources[..n], s) then Ok(scopes) else Err(InsufficientScope)
  {
    hide EntryOf, SplitWords, ScopeParam, Trial, Missing;
    if n > 0 {
      var url := resources[n - 1];
      NamedUpToExactly(entries, tenant, ask, may, resources, scopes, n - 1);
      assert url in resources && resources[..n] == resources[..n - 1] + [url];
      TrialIsPointwise(entries, tenant, ask, may, n - 1, url, scopes);
      NothingMissing(scopes, Trial(entries, tenant, ask, n - 1, url, scopes).value);
    }
  }

  /** The permitted set does not depend on the order, or the repetition, of the resources. */
  lemma PermittedIgnoresOrder(
    entries: seq<ResourceEntry>, tenant: string, ask: Upstream, may: (string, string) -> bool,
    offered: seq<string>, resources: seq<string>, others: seq<string>)
    requires Pointwise(tenant, ask, may) && Resolvable(entries, resources) && Resolvable(entries, others)
    requires forall url :: url in resources <==> url in others
    ensures Selection(entries, tenant, ask, offered, resources, AllPermitted)
         == Selection(entries, tenant, ask, offered, others, AllPermitted)
  {
    hide Filter, Pointwise, Resolvable, Selection;
    AllPermittedExactly(entries, tenant, ask, may, offered, resources);
    AllPermittedExactly(entries, tenant, ask, may, offered, others);
    FilterAgrees(offered, s => MayAtAll(may, resources, s), s => MayAtAll(may, others, s));
  }

  /** The permitted set is the greatest one that can be named: naming it is accepted, and it contains every
      set of offered scopes that would be accepted. */
  lemma PermittedIsGreatest(
    entries: seq<ResourceEntry>, tenant: string, ask: Upstream, may: (string, string) -> bool,
    offered: seq<string>, resources: seq<string>, scopes: seq<string>)
    requires Pointwise(tenant, ask, may) && Resolvable(entries, resources)
    requires Selection(entries, tenant, ask, offered, resources, AllPermitted).Ok?
    ensures
      var permitted := Selection(entries, tenant, ask, offered, resources, AllPermitted).value;
      && Selection(entries, tenant, ask, offered, resources, Named(permitted)) == Ok(permitted)
      && ((forall s | s in scopes :: s in offered)
          ==> (Selection(entries, tenant, ask, offered, resources, Named(scopes)).Ok?
               <==> forall s | s in scopes :: s in permitted))
  {
    hide Filter, Pointwise, Resolvable, Selection;
    AllPermittedExactly(entries, tenant, ask, may, offered, resources);
    var permitted := Filter(offered, s => MayAtAll(may, resources, s));
    NamedExactly(entries, tenant, ask, may, offered, resources, permitted);
    NamedExactly(entries, tenant, ask, may, offered, resources, scopes);
    forall s ensures s in permitted <==> s in offered && MayAtAll(may, resources, s) {
      FilterMembers(offered, s => MayAtAll(may, resources, s), s);
    }
  }

  // ----- any upstream ---------------------------------------------------------

  /** Whatever the upstream answers: what a creation gets is what was named, or is taken from the offer. */
  lemma {:induction false} SelectionWithin(
    entries: seq<ResourceEntry>, tenant: string, ask: Upstream, offered: seq<string>, resources: seq<string>, wish: Wish)
    requires Selection(entries, tenant, ask, offered, resources, wish).Ok?
    ensures
      var r := Selection(entries, tenant, ask, offered, resources, wish).value;
      if wish.Named? then r == wish.scopes else r != [] && forall s | s in r :: s in offered
  {
    if wish.AllPermitted? {
      NarrowedWithin(entries, tenant, ask, offered, resources, |resources|);
    } else if |resources| > 0 {
      hide Trial, Missing;
    }
  }

  lemma {:induction false} NarrowedWithin(
    entries: seq<ResourceEntry>, tenant: string, ask: Upstream, offered: seq<string>, resources: seq<string>, n: nat)
    requires n <= |resources| && NarrowedTo(entries, tenant, ask, offered, resources, n).Ok?
    ensures forall s | s in NarrowedTo(entries, tenant, ask, offered, resources, n).value :: s in offered
  {
    hide Trial;
    if n > 0 { NarrowedWithin(entries, tenant, ask, offered, resources, n - 1); }
  }

  /** Whatever the upstream answers: at every resource, some trial exchange came back with every scope of
      the set. */
  lemma {:induction false} NothingUngranted(
    entries: seq<ResourceEntry>, tenant: string, ask: Upstream, offered: seq<string>, resources: seq<string>,
    wish: Wish, i: nat)
    requires Selection(entries, tenant, ask, offered, resources, wish).Ok? && i < |resources|
    ensures
      var r := Selection(entries, tenant, ask, offered, resources, wish).value;
      exists asked :: GrantedFor(entries, tenant, ask, i, resources[i], asked, r)
  {
    hide Trial, Missing, GrantedFor;
    match wish
    case Named(scopes) =>
      NamedGranted(entries, tenant, ask, scopes, resources, |resources|, i);
    case AllPermitted =>
      NarrowedGranted(entries, tenant, ask, offered, resources, |resources|, i);
  }

  predicate GrantedFor(entries: seq<ResourceEntry>, tenant: string, ask: Upstream, i: nat, url: string,
                       asked: seq<string>, scopes: seq<string>)
  {
    var trial := Trial(entries, tenant, ask, i, url, asked);
    trial.Ok? && forall s | s in scopes :: s in asked && s in trial.value
  }

  lemma {:induction false} NamedGranted(
    entries: seq<ResourceEntry>, tenant: string, ask: Upstream, scopes: seq<string>, resources: seq<string>, n: nat, i: nat)
    requires i < n <= |resources| && NamedUpTo(entries, tenant, ask, scopes, resources, n).Ok?
    ensures GrantedFor(entries, tenant, ask, i, resources[i], scopes, scopes)
    ensures NamedUpTo(entries, tenant, ask, scopes, resources, n).value == scopes
  {
    hide Trial, Missing;
    if i < n - 1 {
      NamedGranted(entries, tenant, ask, scopes, resources, n - 1, i);
    } else {
      NothingMissing(scopes, Trial(entries, tenant, ask, i, resources[i], scopes).value);
    }
  }

  lemma {:induction false} NarrowedGranted(
    entries: seq<ResourceEntry>, tenant: string, ask: Upstream, offered: seq<string>, resources: seq<string>, n: nat, i: nat)
    requires i < n <= |resources| && NarrowedTo(entries, tenant, ask, offered, resources, n).Ok?
    ensures exists asked ::
      GrantedFor(entries, tenant, ask, i, resources[i], asked, NarrowedTo(entries, tenant, ask, offered, resources, n).value)
  {
    hide Trial;
    var permitted := NarrowedTo(entries, tenant, ask, offered, resources, n - 1).value;
    var now := NarrowedTo(entries, tenant, ask, offered, resources, n).value;
    if i < n - 1 {
      NarrowedGranted(entries, tenant, ask, offered, resources, n - 1, i);
      var asked :| GrantedFor(entries, tenant, ask, i, resources[i], asked, permitted);
      assert GrantedFor(entries, tenant, ask, i, resources[i], asked, now);
    } else {
      assert GrantedFor(entries, tenant, ask, i, resources[i], permitted, now);
    }
  }
}
