/** What holds of personal access tokens in every interleaving. */
module PatTheorems {
  import opened Wrappers
  import opened Text
  import opened Json
  import opened Config
  import opened PatScopes
  import opened PatStore
  import opened PatCreate
  import opened PatExchange
  import opened PatRuns
  import ConfigLoad
  import PatFormat
  import TokenEndpoint

  lemma EventHolds(w: World, actions: seq<Action>, i: nat)
    requires Run(w, actions).Some? && i < |Run(w, actions).value.log|
    ensures Inv(w, Run(w, actions).value)
    ensures EventOk(w, Run(w, actions).value.rows, Run(w, actions).value.log, i)
  {
    hide Run, EventOk, AllCreated, AllStages, TableOk;
    RunKeepsInv(w, actions);
  }

  /** A grant that was sent: the row its lookup found was live, for the configuration of the process that
      serves the exchange, at the exchange's clock reading, and is the row of one creation before that lookup. */
  lemma SentMeans(w: World, actions: seq<Action>, i: nat)
    requires Run(w, actions).Some? && i < |Run(w, actions).value.log| && Run(w, actions).value.log[i].Sent?
    ensures
      var log := Run(w, actions).value.log;
      var x := log[i].exchange;
      && x < i && log[x].LookedUp? && log[x].found.Some?
      && Proceed(log[x].setup, log[x].found, log[x].resource, log[i].now) == Ok(log[i].grant)
      && Live(log[x].setup, log[x].found.value, log[i].now)
      && FoundOk(w, Run(w, actions).value.rows, log, x, log[x].found.value, log[x].token)
  {
    EventHolds(w, actions, i);
    var log := Run(w, actions).value.log;
    var x := log[i].exchange;
    EventHolds(w, actions, x);
    hide Run, Inv, FoundOk;
    GrantedExactly(log[x].setup, log[x].found, log[x].resource, log[i].now, log[i].grant);
  }

  /** Each success saw a live row at its lookup, asked for it at one clock reading at which the row was not
      expired, and left the row marked as used. */
  lemma SuccessSawLiveRow(w: World, actions: seq<Action>, i: nat)
    requires Run(w, actions).Some? && i < |Run(w, actions).value.log| && Run(w, actions).value.log[i].Succeeded?
    ensures
      var s := Run(w, actions).value;
      var x := s.log[i].exchange;
      && x < i && s.log[x].LookedUp? && s.log[x].found.Some?
      && var record := s.log[x].found.value;
      && Live(s.log[x].setup, record, s.log[i].now)
      && (exists j: nat :: j < i && SentAt(s.log, j, x, s.log[i].now))
      && record.id in s.rows && s.rows[record.id].record.lastUsedAt.Some?
  {
    EventHolds(w, actions, i);
    var s := Run(w, actions).value;
    var x := s.log[i].exchange;
    var j: nat :| j < i && SentAt(s.log, j, x, s.log[i].now);
    SentMeans(w, actions, j);
    hide Run, Inv, FoundOk, Proceed;
  }

  /** Once a revocation has succeeded, no exchange whose lookup comes later sends anything upstream, so none
      succeeds. */
  lemma RevokedIsFinal(w: World, actions: seq<Action>, k: nat, i: nat)
    requires Run(w, actions).Some?
    requires k < |Run(w, actions).value.log| && Run(w, actions).value.log[k].RevokeDone?
    requires i < |Run(w, actions).value.log|
    requires Run(w, actions).value.log[i].Sent? || Run(w, actions).value.log[i].Succeeded?
    ensures
      var log := Run(w, actions).value.log;
      var x := log[i].exchange;
      && x < i && log[x].LookedUp? && log[x].found.Some?
      && (log[x].found.value.id == log[k].id ==> x < k)
  {
    var log := Run(w, actions).value.log;
    if log[i].Sent? {
      SentBeforeRevoked(w, actions, k, i);
    } else {
      EventHolds(w, actions, i);
      hide Run, Inv;
      var j: nat :| j < i && SentAt(log, j, log[i].exchange, log[i].now);
      SentBeforeRevoked(w, actions, k, j);
    }
  }

  lemma SentBeforeRevoked(w: World, actions: seq<Action>, k: nat, i: nat)
    requires Run(w, actions).Some?
    requires k < |Run(w, actions).value.log| && Run(w, actions).value.log[k].RevokeDone?
    requires i < |Run(w, actions).value.log| && Run(w, actions).value.log[i].Sent?
    ensures
      var log := Run(w, actions).value.log;
      var x := log[i].exchange;
      && x < i && log[x].LookedUp? && log[x].found.Some?
      && (log[x].found.value.id == log[k].id ==> x < k)
  {
    hide Run, Proceed, FoundOk, Live;
    SentMeans(w, actions, i);
    var s := Run(w, actions).value;
    LookupBeforeRevoke(w, s.rows, s.log, s.log[i].exchange, s.log[i].now, k);
  }

  lemma LookupBeforeRevoke(w: World, rows: Table, log: seq<Event>, x: nat, now: int, k: nat)
    requires x < |log| && log[x].LookedUp? && log[x].found.Some? && k < |log| && log[k].RevokeDone?
    requires FoundOk(w, rows, log, x, log[x].found.value, log[x].token) && Live(log[x].setup, log[x].found.value, now)
    ensures log[x].found.value.id == log[k].id ==> x < k
  {
    hide SameFixed;
    var id := log[x].found.value.id;
    assert id == log[k].id ==> RevokedAt(log, k, id);
  }

  /** A token is revoked with success at most once, by its owner, in its own realm. */
  lemma RevokedOnce(w: World, actions: seq<Action>, k: nat, m: nat)
    requires Run(w, actions).Some?
    requires k < m < |Run(w, actions).value.log|
    requires Run(w, actions).value.log[k].RevokeDone? && Run(w, actions).value.log[m].RevokeDone?
    ensures
      var s := Run(w, actions).value;
      && s.log[k].id != s.log[m].id
      && s.log[k].id in s.rows && s.rows[s.log[k].id].record.OwnedBy(s.log[k].setup.realmIssuer, s.log[k].owner)
      && s.rows[s.log[k].id].record.revokedAt == Some(s.log[k].now)
  {
    EventHolds(w, actions, k);
    EventHolds(w, actions, m);
    hide Run, Inv, RevokeOk;
    var s := Run(w, actions).value;
    RevokeMeans(s.rows, s.log, k, k, s.log[k].setup, s.log[k].owner, s.log[k].id, s.log[k].now);
    RevokeMeans(s.rows, s.log, m, k, s.log[m].setup, s.log[m].owner, s.log[m].id, s.log[m].now);
  }

  lemma RevokeMeans(rows: Table, log: seq<Event>, i: nat, k: nat, setup: Setup, owner: string, id: nat, now: int)
    requires RevokeOk(rows, log, i, setup, owner, id, now)
    ensures id in rows && rows[id].record.revokedAt == Some(now) && rows[id].record.OwnedBy(setup.realmIssuer, owner)
    ensures k < i ==> !RevokedAt(log, k, id)
  {
  }

  /** Whatever happens later, and in whatever interleaving: no row disappears; owner, organization, scopes,
      resources, expiry and hash stay; and a revocation stays, at its time. So a touch that ends after a
      revocation does not undo it. */
  lemma {:induction false} RowsOnlyGrow(w: World, before: seq<Action>, after: seq<Action>)
    requires Run(w, before + after).Some?
    ensures Run(w, before).Some?
    ensures Keeps(Run(w, before).value.rows, Run(w, before + after).value.rows)
    ensures Run(w, before).value.log <= Run(w, before + after).value.log
  {
    if |after| == 0 {
      assert before + after == before;
      KeepsItself(Run(w, before).value.rows);
    } else {
      var last := |after| - 1;
      var all := before + after;
      assert all[..|all| - 1] == before + after[..last] && all[|all| - 1] == after[last];
      RunBack(w, all);
      RowsOnlyGrow(w, before, after[..last]);
      RunKeepsInv(w, before + after[..last]);
      var s := Run(w, before + after[..last]).value;
      hide Run, Enabled, Apply, Keeps, Inv;
      StepKeepsRows(w, s, after[last]);
      KeepsTransitive(Run(w, before).value.rows, s.rows, Apply(w, s, after[last]).rows);
    }
  }

  lemma RunBack(w: World, all: seq<Action>)
    requires |all| > 0 && Run(w, all).Some?
    ensures Run(w, all[..|all| - 1]).Some?
    ensures Enabled(w, Run(w, all[..|all| - 1]).value, all[|all| - 1])
    ensures Run(w, all).value == Apply(w, Run(w, all[..|all| - 1]).value, all[|all| - 1])
  {
    hide Enabled, Apply;
  }

  lemma StepKeepsRows(w: World, s: State, a: Action)
    requires Inv(w, s) && Enabled(w, s, a)
    ensures Keeps(s.rows, Apply(w, s, a).rows) && s.log <= Apply(w, s, a).log
  {
    KeepsItself(s.rows);
    hide Keeps, Creation, Proceed, Delivered, Presented, AllEvents, AllCreated, AllStages, AllConfigured, TableOk;
    hide Inserted, Revoked, Touched, ConfigLoad.Configured, PatFormat.Generate;
    match a
    case Start(env, highest) =>
    case DoPrepare(p, d, caller, body, linked, ask, id, now, random) =>
    case DoInsert(d) => InsertKeeps(s.rows, s.drafts[d].record, w.hash(s.drafts[d].token));
    case DoRevoke(p, owner, id, now) => RevokeKeeps(s.rows, s.processes[p].realmIssuer, owner, id, now);
    case DoLookup(p, q, found) =>
    case DoProceed(x, now) =>
    case DoReply(x, reply) =>
    case DoTouch(x) => TouchKeeps(s.rows, s.pending[x].id, s.pending[x].now);
  }

  /** Whatever later happens to the rights of the owner, to the offered scopes, to the table of resources or
      to the realm: every grant ever sent for a token is for the token that one creation showed, names its
      owner, is addressed to the realm of that creation, which is the one configured where the grant was sent,
      is for a resource the creation named, as configured there, and carries the scope string of the scopes
      and the organization fixed at creation; and the upstream had granted each of those scopes, at every
      resource of the token, in the trial exchanges of that creation. */
  lemma GrantsCarryCreationScopes(w: World, actions: seq<Action>, i: nat)
    requires Injective(w.hash)
    requires Run(w, actions).Some? && i < |Run(w, actions).value.log| && Run(w, actions).value.log[i].Sent?
    ensures
      var log := Run(w, actions).value.log;
      var (x, g) := (log[i].exchange, log[i].grant);
      && x < i && log[x].LookedUp?
      && exists c: nat ::
          c < x && log[c].Created? && log[c].token == log[x].token && CarriesFor(log[x].setup, g, log[c].record)
          && AllGranted(log[c].setup, log[c].ask, log[c].record)
  {
    SentMeans(w, actions, i);
    var s := Run(w, actions).value;
    var (x, g) := (s.log[i].exchange, s.log[i].grant);
    var found := s.log[x].found.value;
    var c: nat :| c < x && CreatedAt(s.log, c, found);
    EventHolds(w, actions, c);
    hide Run, Inv, Proceed, AllGranted, PatFormat.IsWellFormed;
    GrantCarries(s.log[x].setup, s.log[x].resource, s.log[i].now, found, s.log[c].setup, s.log[c].record, g);
  }

  predicate CarriesFor(setup: Setup, g: Grant, created: PatRecord) {
    && g.subject == created.ownerSub && g.audience == created.realmIssuer == setup.realmIssuer
    && g.entry.url in created.resources && g.entry.AcceptsPat()
    && ResourceByUrl(setup.entries, g.entry.url) == Ok(Some(g.entry))
    && (SplitWords(g.scope) == created.scopes + ["organization:" + created.tenant] <==> NoSpace(created.tenant))
  }

  lemma GrantCarries(setup: Setup, resource: Option<string>, now: int, found: PatRecord, maker: Setup, created: PatRecord, g: Grant)
    requires Proceed(setup, Some(found), resource, now) == Ok(g)
    requires SameFixed(created, found) && RecordOk(maker, created) && AreWords(maker.offered)
    ensures CarriesFor(setup, g, created)
  {
    GrantedExactly(setup, Some(found), resource, now, g);
    FoundStaysFound(setup.entries, if resource.Some? then resource.value else found.resources[0], g.entry);
    hide Proceed, ResourceOk, ScopeParam, SplitWords, ResourceByUrl;
    assert AreWords(created.scopes);
    ScopeParamTokenises(created.scopes, created.tenant);
  }

  // ----- revoked exactly by revoking ------------------------------------------

  ghost predicate RevocationsLogged(s: State) {
    forall id | id in s.rows && s.rows[id].record.revokedAt.Some? :: exists k: nat :: RevokedAt(s.log, k, id)
  }

  lemma {:induction false} RunLogsRevocations(w: World, actions: seq<Action>)
    requires Run(w, actions).Some?
    ensures RevocationsLogged(Run(w, actions).value)
  {
    if |actions| > 0 {
      hide Enabled, Apply, RevocationsLogged;
      RunLogsRevocations(w, actions[..|actions| - 1]);
      StepLogsRevocations(w, Run(w, actions[..|actions| - 1]).value, actions[|actions| - 1]);
    } else {
      assert INIT.rows == map[];
    }
  }

  lemma StepLogsRevocations(w: World, s: State, a: Action)
    requires RevocationsLogged(s) && Enabled(w, s, a)
    ensures RevocationsLogged(Apply(w, s, a))
  {
    hide Creation, Proceed, Delivered, Presented, IsFound, RowOk, ConfigLoad.Configured, PatFormat.Generate;
    var t := Apply(w, s, a);
    forall id | id in t.rows && t.rows[id].record.revokedAt.Some? ensures exists k: nat :: RevokedAt(t.log, k, id) {
      if id in s.rows && s.rows[id].record.revokedAt.Some? {
        var k: nat :| RevokedAt(s.log, k, id);
        assert RevokedAt(t.log, k, id);
      } else {
        assert RevokedAt(t.log, |s.log|, id);
      }
    }
  }

  /** In every run, a row is revoked exactly if a revocation of it has succeeded. */
  lemma RevokedExactly(w: World, actions: seq<Action>, id: nat)
    requires Run(w, actions).Some? && id in Run(w, actions).value.rows
    ensures
      var s := Run(w, actions).value;
      s.rows[id].record.revokedAt.Some? <==> exists k: nat :: RevokedAt(s.log, k, id)
  {
    RunLogsRevocations(w, actions);
    RunKeepsInv(w, actions);
    hide Run, TableOk, AllCreated, AllStages, AllConfigured;
    var s := Run(w, actions).value;
    if k: nat :| RevokedAt(s.log, k, id) { assert EventOk(w, s.rows, s.log, k); }
  }

  // ----- a token that was not revoked can be used ------------------------------

  predicate IsStepOf(a: Action, x: nat) {
    match a
    case DoProceed(y, _) => x == y
    case DoReply(y, _) => x == y
    case DoTouch(y) => x == y
    case _ => false
  }

  /** Steps of anything but exchange `x`: other exchanges, creations, new processes, revocations too. */
  predicate Others(actions: seq<Action>, x: nat) { forall i | 0 <= i < |actions| :: !IsStepOf(actions[i], x) }

  lemma StepKeepsStage(w: World, s: State, a: Action, x: nat)
    requires Enabled(w, s, a) && !IsStepOf(a, x) && x in s.pending && x < |s.log|
    ensures
      var t := Apply(w, s, a);
      x in t.pending && t.pending[x] == s.pending[x] && x < |t.log|
  {
    hide Creation, Proceed, Delivered, Presented, IsFound, Insertable, Revocable, Inserted, Revoked, Touched;
    hide ConfigLoad.Configured, PatFormat.Generate;
  }

  lemma {:induction false} OthersKeepStage(w: World, before: seq<Action>, others: seq<Action>, x: nat)
    requires Run(w, before).Some? && Run(w, before + others).Some? && Others(others, x)
    requires x in Run(w, before).value.pending && x < |Run(w, before).value.log|
    ensures
      var (s, t) := (Run(w, before).value, Run(w, before + others).value);
      x in t.pending && t.pending[x] == s.pending[x] && x < |t.log|
  {
    if |others| == 0 {
      assert before + others == before;
    } else {
      var last := |others| - 1;
      var all := before + others;
      assert all[..|all| - 1] == before + others[..last] && all[|all| - 1] == others[last];
      RunBack(w, all);
      OthersKeepStage(w, before, others[..last], x);
      hide Run, Enabled, Apply;
      StepKeepsStage(w, Run(w, before + others[..last]).value, others[last], x);
    }
  }

  lemma RunStep(w: World, actions: seq<Action>, a: Action)
    requires Run(w, actions).Some? && Enabled(w, Run(w, actions).value, a)
    ensures Run(w, actions + [a]) == Some(Apply(w, Run(w, actions).value, a))
  {
    hide Enabled, Apply;
    assert (actions + [a])[..|actions|] == actions;
  }

  /** The row of a creation is found under its token, as it was created, and not revoked unless a revocation
      of it has succeeded. */
  lemma LookupFinds(w: World, actions: seq<Action>, c: nat)
    requires Run(w, actions).Some? && c < |Run(w, actions).value.log| && Run(w, actions).value.log[c].Created?
    requires forall k: nat :: !RevokedAt(Run(w, actions).value.log, k, Run(w, actions).value.log[c].record.id)
    ensures
      var s := Run(w, actions).value;
      var (created, token) := (s.log[c].record, s.log[c].token);
      && created.id in s.rows && PatFormat.IsWellFormed(token)
      && var r := s.rows[created.id].record;
      && IsFound(s.rows, w.hash(token), Some(r)) && SameFixed(r, created) && r.revokedAt == None && r.tenant != ""
  {
    EventHolds(w, actions, c);
    var s := Run(w, actions).value;
    RevokedExactly(w, actions, s.log[c].record.id);
    hide Run, AllEvents, AllCreated, AllStages, AllConfigured, PatFormat.IsWellFormed, RecordOk, AllGranted;
  }

  /** Which rows may be exchanged where, for which resource and until when. */
  predicate Usable(setup: Setup, record: PatRecord, resource: Option<string>, now: int) {
    ResolveResource(setup.entries, record, resource).Ok? && record.realmIssuer == setup.realmIssuer && now < record.expiresAt
  }

  lemma UsableProceeds(setup: Setup, created: PatRecord, r: PatRecord, resource: Option<string>, now: int)
    requires Usable(setup, created, resource, now) && SameFixed(r, created) && r.revokedAt == None && r.tenant != ""
    ensures Proceed(setup, Some(r), resource, now).Ok?
  {
    hide ResourceByUrl, ScopeParam;
  }

  lemma ProceedRuns(w: World, actions: seq<Action>, x: nat, setup: Setup, r: PatRecord, resource: Option<string>, now: int)
    requires Run(w, actions).Some? && x in Run(w, actions).value.pending && x < |Run(w, actions).value.log|
    requires Run(w, actions).value.pending[x] == Found(setup, Some(r), resource)
    requires Proceed(setup, Some(r), resource, now).Ok?
    ensures Run(w, actions + [DoProceed(x, now)]).Some?
    ensures
      var t := Run(w, actions + [DoProceed(x, now)]).value;
      x in t.pending && t.pending[x] == Asked(r.id, now) && x < |t.log|
  {
    hide Run, Proceed;
    RunStep(w, actions, DoProceed(x, now));
  }

  lemma ReplyRuns(w: World, actions: seq<Action>, x: nat, id: nat, now: int, reply: TokenEndpoint.UpstreamReply)
    requires Run(w, actions).Some? && x in Run(w, actions).value.pending && x < |Run(w, actions).value.log|
    requires Run(w, actions).value.pending[x] == Asked(id, now) && Delivered(reply).Ok?
    ensures Run(w, actions + [DoReply(x, reply)]).Some?
    ensures
      var t := Run(w, actions + [DoReply(x, reply)]).value;
      x in t.pending && t.pending[x] == Answered(id, now, Delivered(reply).value) && x < |t.log|
  {
    hide Run, Delivered;
    RunStep(w, actions, DoReply(x, reply));
  }

  lemma TouchRuns(w: World, actions: seq<Action>, x: nat, id: nat, now: int, payload: map<string, Json>)
    requires Run(w, actions).Some? && x in Run(w, actions).value.pending
    requires Run(w, actions).value.pending[x] == Answered(id, now, payload)
    ensures Run(w, actions + [DoTouch(x)]).Some?
    ensures Run(w, actions + [DoTouch(x)]).value.log == Run(w, actions).value.log + [Succeeded(x, now, payload)]
  {
    hide Run, Touched;
    RunStep(w, actions, DoTouch(x));
  }

  /** The guarantees are not empty. In any run, a token that was created and has not been revoked, presented
      to a process under whose configuration it may be used, goes through to a success, whatever other steps
      come before and between those of its exchange, a revocation after its lookup included. */
  lemma TokenExchanges(
    w: World, before: seq<Action>, c: nat, p: nat, q: ExchangeRequest, later: int, reply: TokenEndpoint.UpstreamReply,
    others1: seq<Action>, others2: seq<Action>, others3: seq<Action>)
    requires Run(w, before).Some? && c < |Run(w, before).value.log| && Run(w, before).value.log[c].Created?
    requires forall k: nat :: !RevokedAt(Run(w, before).value.log, k, Run(w, before).value.log[c].record.id)
    requires p < |Run(w, before).value.processes| && q.subjectToken == Some(Run(w, before).value.log[c].token)
    requires q.subjectTokenType == Some("urn:ietf:params:oauth:token-type:access_token")
    requires q.requestedTokenType in {None, Some("urn:ietf:params:oauth:token-type:access_token")}
    requires Usable(Run(w, before).value.processes[p], Run(w, before).value.log[c].record, q.resource, later)
    requires Delivered(reply).Ok?
    requires
      var x := |Run(w, before).value.log|;
      Others(others1, x) && Others(others2, x) && Others(others3, x)
    ensures
      var s := Run(w, before).value;
      var x := |s.log|;
      && s.log[c].record.id in s.rows
      && var run1 := before + [DoLookup(p, q, Some(s.rows[s.log[c].record.id].record))];
      && Run(w, run1).Some?
      && (Run(w, run1 + others1).Some? ==>
          var run2 := run1 + others1 + [DoProceed(x, later)];
          && Run(w, run2).Some?
          && (Run(w, run2 + others2).Some? ==>
              var run3 := run2 + others2 + [DoReply(x, reply)];
              && Run(w, run3).Some?
              && (Run(w, run3 + others3).Some? ==>
                  var run4 := run3 + others3 + [DoTouch(x)];
                  && Run(w, run4).Some?
                  && Run(w, run4).value.log
                     == Run(w, run3 + others3).value.log + [Succeeded(x, later, Delivered(reply).value)])))
  {
    var s := Run(w, before).value;
    var (x, created, setup) := (|s.log|, s.log[c].record, s.processes[p]);
    LookupFinds(w, before, c);
    PresentedExactly(q, s.log[c].token);
    var r := s.rows[created.id].record;
    UsableProceeds(setup, created, r, q.resource, later);
    hide Run, Usable, Proceed, Presented, Delivered, IsFound, SameFixed, Others;
    var run1 := before + [DoLookup(p, q, Some(r))];
    LookupRuns(w, before, p, q, r);
    if Run(w, run1 + others1).Some? {
      OthersKeepStage(w, run1, others1, x);
      ProceedRuns(w, run1 + others1, x, setup, r, q.resource, later);
      var run2 := run1 + others1 + [DoProceed(x, later)];
      if Run(w, run2 + others2).Some? {
        OthersKeepStage(w, run2, others2, x);
        ReplyRuns(w, run2 + others2, x, r.id, later, reply);
        var run3 := run2 + others2 + [DoReply(x, reply)];
        if Run(w, run3 + others3).Some? {
          OthersKeepStage(w, run3, others3, x);
          TouchRuns(w, run3 + others3, x, r.id, later, Delivered(reply).value);
        }
      }
    }
  }

  lemma LookupRuns(w: World, actions: seq<Action>, p: nat, q: ExchangeRequest, r: PatRecord)
    requires Run(w, actions).Some? && p < |Run(w, actions).value.processes| && Presented(q).Ok?
    requires IsFound(Run(w, actions).value.rows, w.hash(Presented(q).value), Some(r))
    ensures
      var s := Run(w, actions).value;
      var (x, run) := (|s.log|, actions + [DoLookup(p, q, Some(r))]);
      && Run(w, run).Some? && x in Run(w, run).value.pending && x < |Run(w, run).value.log|
      && Run(w, run).value.pending[x] == Found(s.processes[p], Some(r), q.resource)
  {
    hide Run, Presented, IsFound;
    RunStep(w, actions, DoLookup(p, q, Some(r)));
  }

  // ----- creating and revoking do what they say ---------------------------------

  /** In any run, an owner's revocation, in a process of the token's realm, of a row that is not revoked
      succeeds and marks it; in every other case the table stays as it is. */
  lemma RevokeRuns(w: World, actions: seq<Action>, p: nat, owner: string, id: nat, now: int)
    requires Run(w, actions).Some? && p < |Run(w, actions).value.processes|
    ensures Run(w, actions + [DoRevoke(p, owner, id, now)]).Some?
    ensures
      var (s, t) := (Run(w, actions).value, Run(w, actions + [DoRevoke(p, owner, id, now)]).value);
      if && id in s.rows && s.rows[id].record.ownerSub == owner && s.rows[id].record.revokedAt == None
         && s.rows[id].record.realmIssuer == s.processes[p].realmIssuer
      then
        && t.log == s.log + [RevokeDone(s.processes[p], owner, id, now)]
        && id in t.rows && t.rows[id].record.revokedAt == Some(now)
      else t.rows == s.rows && t.log == s.log
  {
    hide Run;
    RunStep(w, actions, DoRevoke(p, owner, id, now));
  }

  /** In any run, a creation that is granted, with an identifier and a hash that are new, whose texts can be
      stored and whose aliases are not empty, ends with its row in the table and its token shown. */
  lemma CreationRuns(w: World, actions: seq<Action>, p: nat, d: nat, caller: Caller, body: Json, ask: Upstream, id: nat,
                     now: int, random: Bytes)
    requires Run(w, actions).Some? && p < |Run(w, actions).value.processes| && d !in Run(w, actions).value.drafts
    requires Creation(Run(w, actions).value.processes[p], caller, body, true, ask, id, now).Ok?
    requires
      var (s, record) := (Run(w, actions).value, Creation(Run(w, actions).value.processes[p], caller, body, true, ask, id, now).value);
      && id !in s.rows && TextsOk(record) && "" !in caller.organizations
      && |w.hash(PatFormat.Generate(random))| == 32
      && forall k | k in s.rows :: s.rows[k].tokenHash != w.hash(PatFormat.Generate(random))
    ensures
      var run := actions + [DoPrepare(p, d, caller, body, true, ask, id, now, random)] + [DoInsert(d)];
      var s := Run(w, actions).value;
      var (record, token) := (Creation(s.processes[p], caller, body, true, ask, id, now).value, PatFormat.Generate(random));
      && Run(w, run).Some?
      && Run(w, run).value.rows == s.rows[id := Row(record, w.hash(token))]
      && Run(w, run).value.log == s.log + [Created(s.processes[p], ask, record, token)]
  {
    var s := Run(w, actions).value;
    CreationInsertable(s.processes[p], caller, body, ask, id, now, s.rows, w.hash(PatFormat.Generate(random)));
    hide Run, Creation, PatFormat.Generate, Insertable, TextsOk, Apply, Enabled, Inserted;
    PrepareRuns(w, actions, p, d, caller, body, ask, id, now, random);
    var prepare := DoPrepare(p, d, caller, body, true, ask, id, now, random);
    var draft := Draft(s.processes[p], ask, Creation(s.processes[p], caller, body, true, ask, id, now).value, PatFormat.Generate(random));
    InsertRuns(w, actions + [prepare], d, draft);
  }

  lemma PrepareRuns(w: World, actions: seq<Action>, p: nat, d: nat, caller: Caller, body: Json, ask: Upstream, id: nat,
                    now: int, random: Bytes)
    requires Run(w, actions).Some? && p < |Run(w, actions).value.processes| && d !in Run(w, actions).value.drafts
    requires Creation(Run(w, actions).value.processes[p], caller, body, true, ask, id, now).Ok?
    ensures
      var (s, run) := (Run(w, actions).value, actions + [DoPrepare(p, d, caller, body, true, ask, id, now, random)]);
      var draft := Draft(s.processes[p], ask, Creation(s.processes[p], caller, body, true, ask, id, now).value,
                         PatFormat.Generate(random));
      Run(w, run) == Some(s.(drafts := s.drafts[d := draft]))
  {
    hide Run, Creation, PatFormat.Generate;
    RunStep(w, actions, DoPrepare(p, d, caller, body, true, ask, id, now, random));
  }

  lemma InsertRuns(w: World, actions: seq<Action>, d: nat, draft: Draft)
    requires Run(w, actions).Some? && d in Run(w, actions).value.drafts && Run(w, actions).value.drafts[d] == draft
    requires Insertable(Run(w, actions).value.rows, draft.record, w.hash(draft.token))
    requires draft.record.lastUsedAt == draft.record.revokedAt == None
    ensures Run(w, actions + [DoInsert(d)]).Some?
    ensures
      var (s, t) := (Run(w, actions).value, Run(w, actions + [DoInsert(d)]).value);
      && t.rows == s.rows[draft.record.id := Row(draft.record, w.hash(draft.token))]
      && t.log == s.log + [Created(draft.setup, draft.ask, draft.record, draft.token)]
  {
    hide Run, Insertable;
    RunStep(w, actions, DoInsert(d));
  }

  lemma CreationInsertable(setup: Setup, caller: Caller, body: Json, ask: Upstream, id: nat, now: int, t: Table, tokenHash: Bytes)
    requires Creation(setup, caller, body, true, ask, id, now).Ok?
    requires
      && id !in t && TextsOk(Creation(setup, caller, body, true, ask, id, now).value) && "" !in caller.organizations
      && |tokenHash| == 32 && forall k | k in t :: t[k].tokenHash != tokenHash
    ensures
      var record := Creation(setup, caller, body, true, ask, id, now).value;
      Insertable(t, record, tokenHash) && record.id == id && record.lastUsedAt == record.revokedAt == None
  {
    hide ParseCreate, NewRecord, TextsOk, Insertable;
    var record := Creation(setup, caller, body, true, ask, id, now).value;
    InsertFailsExactly(setup, caller, body, true, ask, id, now, t, tokenHash);
    NewRecordExactly(setup, caller, ParseCreate(setup, body).value, true, ask, id, now, record);
  }
}
