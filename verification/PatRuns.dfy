/** The life of personal access tokens as a transition system over one table and any number of processes.
    Processes start at any time, each with a configuration of its own, as after a restart or while one
    release replaces another: what is offered, which resources take tokens and which realm is configured may
    all change during the life of a token. Creations, revocations and exchanges interleave at every point
    where the program waits for the database, and exchanges also where they wait for the upstream.

    The log is history: no operation reads it. An exchange goes by the position of its lookup in the log.
    Clock readings are arbitrary inputs of the steps; nothing below needs them to be ordered. */
module PatRuns {
  import opened Wrappers
  import opened Json
  import opened PatScopes
  import opened PatStore
  import opened PatCreate
  import opened PatExchange
  import ConfigLoad
  import PatFormat
  import TokenEndpoint

  /** What stays fixed: SHA-256. */
  datatype World = World(hash: string -> Bytes)

  ghost predicate Injective(f: string -> Bytes) { forall a, b :: f(a) == f(b) ==> a == b }

  /** `setup` is the configuration of the process that acts, `ask` what the upstream answered to the trial
      exchanges of a creation. */
  datatype Event =
    | Created(setup: Setup, ask: Upstream, record: PatRecord, token: string)
    | LookedUp(setup: Setup, token: string, resource: Option<string>, found: Option<PatRecord>)
    | Sent(exchange: nat, now: int, grant: Grant)
    | Succeeded(exchange: nat, now: int, payload: map<string, Json>)
    | RevokeDone(setup: Setup, owner: string, id: nat, now: int)

  /** A creation that has its scopes and waits for the INSERT. */
  datatype Draft = Draft(setup: Setup, ask: Upstream, record: PatRecord, token: string)

  /** Where a running exchange waits. */
  datatype Stage =
    | Found(setup: Setup, found: Option<PatRecord>, resource: Option<string>)
    | Asked(id: nat, now: int)
    | Answered(id: nat, now: int, payload: map<string, Json>)

  datatype State = State(
    processes: seq<Setup>, rows: Table, drafts: map<nat, Draft>, pending: map<nat, Stage>, log: seq<Event>)

  datatype Action =
    | Start(env: ConfigLoad.Env, highest: int)
    | DoPrepare(process: nat, draft: nat, caller: Caller, body: Json, linked: bool, ask: Upstream, id: nat, now: int,
                random: Bytes)
    | DoInsert(draft: nat)
    | DoRevoke(process: nat, owner: string, id: nat, now: int)
    | DoLookup(process: nat, q: ExchangeRequest, found: Option<PatRecord>)
    | DoProceed(exchange: nat, now: int)
    | DoReply(exchange: nat, reply: TokenEndpoint.UpstreamReply)
    | DoTouch(exchange: nat)

  const INIT := State([], map[], map[], map[], [])

  // ----- one step -----------------------------------------------------------

  predicate Enabled(w: World, s: State, a: Action) {
    match a
    case Start(env, highest) => ConfigLoad.Configured(env, highest).Some?
    case DoPrepare(p, d, _, _, _, _, _, _, _) => p < |s.processes| && d !in s.drafts
    case DoInsert(d) => d in s.drafts
    case DoRevoke(p, _, _, _) => p < |s.processes|
    case DoLookup(p, q, found) =>
      p < |s.processes| && Presented(q).Ok? && IsFound(s.rows, w.hash(Presented(q).value), found)
    case DoProceed(x, _) => x in s.pending && s.pending[x].Found?
    case DoReply(x, _) => x in s.pending && s.pending[x].Asked?
    case DoTouch(x) => x in s.pending && s.pending[x].Answered?
  }

  /** The record a creation would store, if nothing refuses it. */
  function Creation(setup: Setup, caller: Caller, body: Json, linked: bool, ask: Upstream, id: nat, now: int)
    : Result<PatRecord, ManagementError>
  {
    var q :- ParseCreate(setup, body);
    NewRecord(setup, caller, q, linked, ask, id, now)
  }

  function AfterPrepare(s: State, setup: Setup, ask: Upstream, d: nat, creation: Result<PatRecord, ManagementError>,
                        token: string): State
  {
    match creation
    case Err(_) => s
    case Ok(record) => s.(drafts := s.drafts[d := Draft(setup, ask, record, token)])
  }

  function AfterInsert(w: World, s: State, d: nat, draft: Draft): State {
    var s1 := s.(drafts := s.drafts - {d});
    if !Insertable(s.rows, draft.record, w.hash(draft.token)) then s1 else
      s1.(rows := Inserted(s.rows, draft.record, w.hash(draft.token)),
          log := s.log + [Created(draft.setup, draft.ask, draft.record, draft.token)])
  }

  function AfterRevoke(s: State, setup: Setup, owner: string, id: nat, now: int): State {
    if !Revocable(s.rows, setup.realmIssuer, owner, id) then s else
      s.(rows := Revoked(s.rows, setup.realmIssuer, owner, id, now), log := s.log + [RevokeDone(setup, owner, id, now)])
  }

  function AfterLookup(s: State, setup: Setup, token: string, resource: Option<string>, found: Option<PatRecord>): State {
    s.(pending := s.pending[|s.log| := Found(setup, found, resource)],
       log := s.log + [LookedUp(setup, token, resource, found)])
  }

  function AfterProceed(s: State, x: nat, stage: Stage, now: int): State
    requires stage.Found?
  {
    match Proceed(stage.setup, stage.found, stage.resource, now)
    case Err(_) => s.(pending := s.pending - {x})
    case Ok(g) =>
      if stage.found.None? then s else
        s.(pending := s.pending[x := Asked(stage.found.value.id, now)], log := s.log + [Sent(x, now, g)])
  }

  function AfterReply(s: State, x: nat, stage: Stage, reply: TokenEndpoint.UpstreamReply): State
    requires stage.Asked?
  {
    match Delivered(reply)
    case Err(_) => s.(pending := s.pending - {x})
    case Ok(payload) => s.(pending := s.pending[x := Answered(stage.id, stage.now, payload)])
  }

  function AfterTouch(s: State, x: nat, stage: Stage): State
    requires stage.Answered?
  {
    s.(rows := Touched(s.rows, stage.id, stage.now), pending := s.pending - {x},
       log := s.log + [Succeeded(x, stage.now, stage.payload)])
  }

  function Apply(w: World, s: State, a: Action): State
    requires Enabled(w, s, a)
  {
    match a
    case Start(env, highest) => s.(processes := s.processes + [ConfigLoad.Configured(env, highest).value])
    case DoPrepare(p, d, caller, body, linked, ask, id, now, random) =>
      AfterPrepare(s, s.processes[p], ask, d, Creation(s.processes[p], caller, body, linked, ask, id, now),
                   PatFormat.Generate(random))
    case DoInsert(d) => AfterInsert(w, s, d, s.drafts[d])
    case DoRevoke(p, owner, id, now) => AfterRevoke(s, s.processes[p], owner, id, now)
    case DoLookup(p, q, found) => AfterLookup(s, s.processes[p], Presented(q).value, q.resource, found)
    case DoProceed(x, now) => AfterProceed(s, x, s.pending[x], now)
    case DoReply(x, reply) => AfterReply(s, x, s.pending[x], reply)
    case DoTouch(x) => AfterTouch(s, x, s.pending[x])
  }

  /** The state a sequence of steps leads to, if each of them was possible. */
  function Run(w: World, actions: seq<Action>): Option<State> {
    if |actions| == 0 then Some(INIT) else
      var last := |actions| - 1;
      match Run(w, actions[..last])
      case None => None
      case Some(s) => if Enabled(w, s, actions[last]) then Some(Apply(w, s, actions[last])) else None
  }

  // ----- the invariant ------------------------------------------------------

  /** Event `c` created the record, up to the columns that may be updated. */
  predicate CreatedAt(log: seq<Event>, c: nat, r: PatRecord) {
    c < |log| && log[c].Created? && log[c].record.id == r.id && SameFixed(log[c].record, r)
  }

  predicate RevokedAt(log: seq<Event>, k: nat, id: nat) {
    k < |log| && log[k].RevokeDone? && log[k].id == id
  }

  predicate SentAt(log: seq<Event>, j: nat, x: nat, now: int) {
    x < j < |log| && log[j].Sent? && log[j].exchange == x && log[j].now == now
  }

  /** A record and a token as one configuration made them, with the scopes that the upstream granted. */
  ghost predicate MadeBy(setup: Setup, ask: Upstream, r: PatRecord, token: string) {
    && RecordOk(setup, r) && AreWords(setup.offered) && AllGranted(setup, ask, r)
    && PatFormat.IsWellFormed(token)
  }

  ghost predicate CreatedOk(w: World, rows: Table, log: seq<Event>, i: nat, setup: Setup, ask: Upstream,
                            r: PatRecord, token: string)
  {
    && r.id in rows && SameFixed(rows[r.id].record, r) && rows[r.id].tokenHash == w.hash(token)
    && MadeBy(setup, ask, r, token)
    && forall c: nat | c < i && c < |log| && log[c].Created? :: log[c].record.id != r.id
  }

  ghost predicate FoundOk(w: World, rows: Table, log: seq<Event>, i: nat, r: PatRecord, token: string) {
    && r.id in rows && SameFixed(rows[r.id].record, r) && rows[r.id].tokenHash == w.hash(token)
    && (exists c: nat :: c < i && CreatedAt(log, c, r))
    && forall k: nat | k < i && RevokedAt(log, k, r.id) :: r.revokedAt.Some?
  }

  ghost predicate RevokeOk(rows: Table, log: seq<Event>, i: nat, setup: Setup, owner: string, id: nat, now: int) {
    && id in rows && rows[id].record.revokedAt == Some(now) && rows[id].record.OwnedBy(setup.realmIssuer, owner)
    && forall k: nat | k < i :: !RevokedAt(log, k, id)
  }

  /** The row that exchange `x` found has been used. */
  predicate UsedOk(rows: Table, log: seq<Event>, x: nat) {
    && x < |log| && log[x].LookedUp? && log[x].found.Some?
    && var id := log[x].found.value.id;
    && id in rows && rows[id].record.lastUsedAt.Some?
  }

  ghost predicate EventOk(w: World, rows: Table, log: seq<Event>, i: nat)
    requires i < |log|
  {
    match log[i]
    case Created(setup, ask, r, token) => CreatedOk(w, rows, log, i, setup, ask, r, token)
    case LookedUp(_, token, _, found) => found.Some? ==> FoundOk(w, rows, log, i, found.value, token)
    case Sent(x, now, g) => x < i && log[x].LookedUp? && Proceed(log[x].setup, log[x].found, log[x].resource, now) == Ok(g)
    case Succeeded(x, now, _) => UsedOk(rows, log, x) && exists j: nat :: j < i && SentAt(log, j, x, now)
    case RevokeDone(setup, owner, id, now) => RevokeOk(rows, log, i, setup, owner, id, now)
  }

  predicate FoundId(log: seq<Event>, x: nat, id: nat) {
    x < |log| && log[x].LookedUp? && log[x].found.Some? && log[x].found.value.id == id
  }

  ghost predicate StageOk(log: seq<Event>, x: nat, stage: Stage) {
    match stage
    case Found(setup, found, resource) =>
      x < |log| && log[x].LookedUp? && log[x].setup == setup && log[x].found == found && log[x].resource == resource
    case Asked(id, now) => FoundId(log, x, id) && exists j: nat :: SentAt(log, j, x, now)
    case Answered(id, now, _) => FoundId(log, x, id) && exists j: nat :: SentAt(log, j, x, now)
  }

  ghost predicate AllEvents(w: World, rows: Table, log: seq<Event>) { forall i: nat | i < |log| :: EventOk(w, rows, log, i) }

  ghost predicate AllStages(s: State) { forall x | x in s.pending :: StageOk(s.log, x, s.pending[x]) }

  ghost predicate AllCreated(rows: Table, log: seq<Event>) {
    forall id | id in rows :: exists c: nat :: CreatedAt(log, c, rows[id].record)
  }

  ghost predicate AllConfigured(s: State) {
    && (forall i | 0 <= i < |s.processes| :: AreWords(s.processes[i].offered))
    && forall d | d in s.drafts :: MadeBy(s.drafts[d].setup, s.drafts[d].ask, s.drafts[d].record, s.drafts[d].token)
  }

  ghost predicate Inv(w: World, s: State) {
    AllConfigured(s) && TableOk(s.rows) && AllEvents(w, s.rows, s.log) && AllCreated(s.rows, s.log) && AllStages(s)
  }

  // ----- every step keeps the invariant --------------------------------------

  lemma SameFixedTransitive(a: PatRecord, b: PatRecord, c: PatRecord)
    requires SameFixed(a, b) && SameFixed(b, c)
    ensures SameFixed(a, c) && SameFixed(c, a)
  {
  }

  /** A later table and a longer log bear out the same events. */
  lemma EventKept(w: World, rows: Table, rows': Table, log: seq<Event>, log': seq<Event>, i: nat)
    requires Keeps(rows, rows') && log <= log' && i < |log| && EventOk(w, rows, log, i)
    ensures EventOk(w, rows', log', i)
  {
    hide Proceed, MadeBy, SameFixed;
    match log[i]
    case Created(_, _, r, token) =>
      SameFixedTransitive(rows'[r.id].record, rows[r.id].record, r);
    case LookedUp(_, token, _, found) =>
      if found.Some? { FoundKept(w, rows, rows', log, log', i, found.value, token); }
    case Sent(x, now, g) =>
    case Succeeded(x, now, _) =>
      var j: nat :| j < i && SentAt(log, j, x, now);
      assert SentAt(log', j, x, now);
    case RevokeDone(setup, owner, id, now) =>
      RevokeKept(rows, rows', log, log', i, setup, owner, id, now);
  }

  lemma RevokeKept(rows: Table, rows': Table, log: seq<Event>, log': seq<Event>, i: nat,
                   setup: Setup, owner: string, id: nat, now: int)
    requires Keeps(rows, rows') && log <= log' && i < |log| && RevokeOk(rows, log, i, setup, owner, id, now)
    ensures RevokeOk(rows', log', i, setup, owner, id, now)
  {
    assert SameFixed(rows'[id].record, rows[id].record);
    forall k: nat | k < i ensures !RevokedAt(log', k, id) {
      assert RevokedAt(log', k, id) <==> RevokedAt(log, k, id);
    }
  }

  lemma FoundKept(w: World, rows: Table, rows': Table, log: seq<Event>, log': seq<Event>, i: nat, r: PatRecord, token: string)
    requires Keeps(rows, rows') && log <= log' && i < |log| && FoundOk(w, rows, log, i, r, token)
    ensures FoundOk(w, rows', log', i, r, token)
  {
    SameFixedTransitive(rows'[r.id].record, rows[r.id].record, r);
    hide SameFixed;
    var c: nat :| c < i && CreatedAt(log, c, r);
    assert CreatedAt(log', c, r);
    forall k: nat | k < i && RevokedAt(log', k, r.id) ensures r.revokedAt.Some? {
      assert RevokedAt(log, k, r.id);
    }
  }

  lemma EventsKept(w: World, rows: Table, rows': Table, log: seq<Event>, log': seq<Event>)
    requires Keeps(rows, rows') && log <= log' && AllEvents(w, rows, log)
    ensures forall i: nat | i < |log| :: EventOk(w, rows', log', i)
  {
    hide EventOk, Keeps;
    forall i: nat | i < |log| ensures EventOk(w, rows', log', i) { EventKept(w, rows, rows', log, log', i); }
  }

  lemma StageKept(log: seq<Event>, log': seq<Event>, x: nat, stage: Stage)
    requires log <= log' && StageOk(log, x, stage)
    ensures StageOk(log', x, stage)
  {
    if !stage.Found? {
      var j: nat :| SentAt(log, j, x, stage.now);
      assert SentAt(log', j, x, stage.now);
    }
  }

  lemma StagesKept(s: State, log': seq<Event>)
    requires AllStages(s) && s.log <= log'
    ensures forall x | x in s.pending :: StageOk(log', x, s.pending[x])
  {
    hide StageOk;
    forall x | x in s.pending ensures StageOk(log', x, s.pending[x]) { StageKept(s.log, log', x, s.pending[x]); }
  }

  /** Rows that were there stay the creations they were. */
  lemma CreatedKept(rows: Table, rows': Table, log: seq<Event>, log': seq<Event>, id: nat)
    requires Keeps(rows, rows') && log <= log' && AllCreated(rows, log) && id in rows && TableOk(rows) && TableOk(rows')
    ensures exists c: nat :: CreatedAt(log', c, rows'[id].record)
  {
    var c: nat :| CreatedAt(log, c, rows[id].record);
    SameFixedTransitive(rows'[id].record, rows[id].record, log[c].record);
    hide SameFixed;
    assert CreatedAt(log', c, rows'[id].record);
  }

  lemma AllCreatedKept(rows: Table, rows': Table, log: seq<Event>, log': seq<Event>)
    requires Keeps(rows, rows') && log <= log' && AllCreated(rows, log) && TableOk(rows) && TableOk(rows')
    requires rows'.Keys == rows.Keys
    ensures AllCreated(rows', log')
  {
    hide Keeps, TableOk;
    forall id | id in rows' ensures exists c: nat :: CreatedAt(log', c, rows'[id].record) {
      CreatedKept(rows, rows', log, log', id);
    }
  }

  /** One more event, borne out by the table it is logged with. */
  lemma EventAdded(w: World, rows: Table, rows': Table, log: seq<Event>, e: Event)
    requires Keeps(rows, rows') && AllEvents(w, rows, log) && EventOk(w, rows', log + [e], |log|)
    ensures AllEvents(w, rows', log + [e])
  {
    hide EventOk, Keeps;
    EventsKept(w, rows, rows', log, log + [e]);
  }

  lemma InsertKeepsInv(w: World, s: State, d: nat)
    requires Inv(w, s) && d in s.drafts
    ensures Inv(w, AfterInsert(w, s, d, s.drafts[d]))
  {
    var draft := s.drafts[d];
    var (record, token) := (draft.record, draft.token);
    DropDraft(w, s, d);
    if Insertable(s.rows, record, w.hash(token)) {
      hide Inv;
      CreateKeepsInv(w, s.(drafts := s.drafts - {d}), draft.setup, draft.ask, record, token);
    }
  }

  lemma DropDraft(w: World, s: State, d: nat)
    requires Inv(w, s) && d in s.drafts
    ensures Inv(w, s.(drafts := s.drafts - {d}))
    ensures MadeBy(s.drafts[d].setup, s.drafts[d].ask, s.drafts[d].record, s.drafts[d].token)
  {
    hide TableOk, AllEvents, AllCreated, MadeBy;
  }

  lemma CreateKeepsInv(w: World, s: State, setup: Setup, ask: Upstream, record: PatRecord, token: string)
    requires Inv(w, s) && Insertable(s.rows, record, w.hash(token)) && MadeBy(setup, ask, record, token)
    ensures Inv(w, s.(rows := Inserted(s.rows, record, w.hash(token)), log := s.log + [Created(setup, ask, record, token)]))
  {
    var e := Created(setup, ask, record, token);
    var rows', log' := Inserted(s.rows, record, w.hash(token)), s.log + [e];
    InsertKeeps(s.rows, record, w.hash(token));
    assert SameFixed(rows'[record.id].record, record);
    forall c: nat | c < |s.log| && s.log[c].Created? ensures s.log[c].record.id != record.id {
      assert EventOk(w, s.rows, s.log, c);
    }
    assert CreatedOk(w, rows', log', |s.log|, setup, ask, record, token) by { hide MadeBy, SameFixed, Keeps, TableOk, AllEvents; }
    hide MadeBy, SameFixed, RowOk;
    EventAdded(w, s.rows, rows', s.log, e);
    StagesKept(s, log');
    NewRowCreated(w, s, e);
  }

  lemma NewRowCreated(w: World, s: State, e: Event)
    requires Inv(w, s) && e.Created? && Insertable(s.rows, e.record, w.hash(e.token))
    ensures AllCreated(Inserted(s.rows, e.record, w.hash(e.token)), s.log + [e])
  {
    hide RowOk, AllEvents, AllStages, AllConfigured;
    var record := e.record;
    var rows', log' := Inserted(s.rows, record, w.hash(e.token)), s.log + [e];
    assert CreatedAt(log', |s.log|, rows'[record.id].record);
    forall id | id in rows' ensures exists c: nat :: CreatedAt(log', c, rows'[id].record) {
      if id != record.id {
        var c: nat :| CreatedAt(s.log, c, s.rows[id].record);
        assert CreatedAt(log', c, rows'[id].record);
      }
    }
  }

  lemma RevokeKeepsInv(w: World, s: State, setup: Setup, owner: string, id: nat, now: int)
    requires Inv(w, s) && Revocable(s.rows, setup.realmIssuer, owner, id)
    ensures Inv(w, AfterRevoke(s, setup, owner, id, now))
  {
    var rows' := Revoked(s.rows, setup.realmIssuer, owner, id, now);
    var e := RevokeDone(setup, owner, id, now);
    RevokeKeeps(s.rows, setup.realmIssuer, owner, id, now);
    RevokeIsOk(w, s, setup, owner, id, now);
    hide EventOk, Inv, Keeps, TableOk;
    WriteKeepsInv(w, s, rows', e);
  }

  /** A statement that changes the two updatable columns of rows, and is logged. */
  lemma WriteKeepsInv(w: World, s: State, rows': Table, e: Event)
    requires Inv(w, s) && Keeps(s.rows, rows') && rows'.Keys == s.rows.Keys && TableOk(rows')
    requires EventOk(w, rows', s.log + [e], |s.log|)
    ensures Inv(w, s.(rows := rows', log := s.log + [e]))
  {
    hide EventOk, Keeps, TableOk, MadeBy, StageOk, AreWords;
    EventAdded(w, s.rows, rows', s.log, e);
    StagesKept(s, s.log + [e]);
    AllCreatedKept(s.rows, rows', s.log, s.log + [e]);
  }

  lemma DropStage(w: World, s: State, x: nat)
    requires Inv(w, s)
    ensures Inv(w, s.(pending := s.pending - {x}))
  {
    hide TableOk, AllEvents, AllCreated, MadeBy, StageOk, AreWords;
  }

  lemma RevokeIsOk(w: World, s: State, setup: Setup, owner: string, id: nat, now: int)
    requires Inv(w, s) && Revocable(s.rows, setup.realmIssuer, owner, id)
    ensures
      var rows' := Revoked(s.rows, setup.realmIssuer, owner, id, now);
      && rows'.Keys == s.rows.Keys
      && RevokeOk(rows', s.log + [RevokeDone(setup, owner, id, now)], |s.log|, setup, owner, id, now)
  {
    hide TableOk, AllStages, AllCreated, AllConfigured;
    var log' := s.log + [RevokeDone(setup, owner, id, now)];
    forall k: nat | k < |s.log| ensures !RevokedAt(log', k, id) {
      assert EventOk(w, s.rows, s.log, k);
    }
  }

  /** A step that only reads the table. */
  lemma ReadKeepsInv(w: World, s: State, x: nat, stage: Stage, e: Event)
    requires Inv(w, s) && EventOk(w, s.rows, s.log + [e], |s.log|) && StageOk(s.log + [e], x, stage)
    ensures Inv(w, s.(pending := s.pending[x := stage], log := s.log + [e]))
  {
    hide EventOk, StageOk, TableOk, MadeBy;
    KeepsItself(s.rows);
    EventAdded(w, s.rows, s.rows, s.log, e);
    StagesKept(s, s.log + [e]);
    AllCreatedKept(s.rows, s.rows, s.log, s.log + [e]);
  }

  lemma LookupKeepsInv(w: World, s: State, setup: Setup, token: string, resource: Option<string>, found: Option<PatRecord>)
    requires Inv(w, s) && IsFound(s.rows, w.hash(token), found)
    ensures Inv(w, AfterLookup(s, setup, token, resource, found))
  {
    var e := LookedUp(setup, token, resource, found);
    if found.Some? { FoundIsOk(w, s, found.value, token, e); }
    hide Inv, IsFound, FoundOk;
    ReadKeepsInv(w, s, |s.log|, Found(setup, found, resource), e);
  }

  lemma FoundIsOk(w: World, s: State, r: PatRecord, token: string, e: Event)
    requires Inv(w, s) && IsFound(s.rows, w.hash(token), Some(r)) && e.LookedUp?
    ensures FoundOk(w, s.rows, s.log + [e], |s.log|, r, token)
  {
    hide TableOk, AllStages, AllConfigured;
    var log' := s.log + [e];
    var c: nat :| CreatedAt(s.log, c, s.rows[r.id].record);
    assert CreatedAt(log', c, r);
    forall k: nat | k < |s.log| && RevokedAt(log', k, r.id) ensures r.revokedAt.Some? {
      assert EventOk(w, s.rows, s.log, k);
    }
  }

  lemma ProceedKeepsInv(w: World, s: State, x: nat, now: int)
    requires Inv(w, s) && x in s.pending && s.pending[x].Found?
    ensures Inv(w, AfterProceed(s, x, s.pending[x], now))
  {
    var stage := s.pending[x];
    assert StageOk(s.log, x, stage);
    match Proceed(stage.setup, stage.found, stage.resource, now)
    case Err(_) =>
    case Ok(g) =>
      hide Proceed, Inv;
      if stage.found.Some? {
        var log' := s.log + [Sent(x, now, g)];
        assert SentAt(log', |s.log|, x, now);
        ReadKeepsInv(w, s, x, Asked(stage.found.value.id, now), Sent(x, now, g));
      }
  }

  lemma TouchIsOk(w: World, s: State, x: nat, stage: Stage, e: Event)
    requires Inv(w, s) && StageOk(s.log, x, stage) && stage.Answered? && e == Succeeded(x, stage.now, stage.payload)
    ensures EventOk(w, Touched(s.rows, stage.id, stage.now), s.log + [e], |s.log|)
  {
    var j: nat :| SentAt(s.log, j, x, stage.now);
    assert SentAt(s.log + [e], j, x, stage.now);
    assert EventOk(w, s.rows, s.log, x);
    hide AllEvents, AllStages, AllCreated, AllConfigured, TableOk, SameFixed, CreatedAt;
  }

  lemma TouchKeepsInv(w: World, s: State, x: nat)
    requires Inv(w, s) && x in s.pending && s.pending[x].Answered?
    ensures Inv(w, AfterTouch(s, x, s.pending[x]))
  {
    var stage := s.pending[x];
    var e := Succeeded(x, stage.now, stage.payload);
    var rows', log' := Touched(s.rows, stage.id, stage.now), s.log + [e];
    assert rows'.Keys == s.rows.Keys;
    assert StageOk(s.log, x, stage);
    TouchKeeps(s.rows, stage.id, stage.now);
    hide EventOk, Keeps, TableOk, StageOk, Touched, Inv;
    TouchIsOk(w, s, x, stage, e);
    WriteKeepsInv(w, s, rows', e);
    DropStage(w, s.(rows := rows', log := log'), x);
  }

  lemma StepKeepsInv(w: World, s: State, a: Action)
    requires Inv(w, s) && Enabled(w, s, a)
    ensures Inv(w, Apply(w, s, a))
  {
    match a
    case Start(env, highest) =>
      StartKeepsInv(w, s, env, highest);
    case DoPrepare(p, d, caller, body, linked, ask, id, now, random) =>
      hide PatFormat.Generate;
      PrepareKeepsInv(w, s, p, d, caller, body, linked, ask, id, now, random);
    case DoInsert(d) =>
      hide Inv, AfterInsert;
      InsertKeepsInv(w, s, d);
    case DoRevoke(p, owner, id, now) =>
      hide Inv;
      if Revocable(s.rows, s.processes[p].realmIssuer, owner, id) {
        RevokeKeepsInv(w, s, s.processes[p], owner, id, now);
      }
    case DoLookup(p, q, found) =>
      hide Inv, Presented, IsFound, AfterLookup;
      LookupKeepsInv(w, s, s.processes[p], Presented(q).value, q.resource, found);
    case DoProceed(x, now) =>
      hide Inv, AfterProceed;
      ProceedKeepsInv(w, s, x, now);
    case DoReply(x, reply) =>
      ReplyKeepsInv(w, s, x, reply);
    case DoTouch(x) =>
      hide Inv, AfterTouch;
      TouchKeepsInv(w, s, x);
  }

  lemma StartKeepsInv(w: World, s: State, env: ConfigLoad.Env, highest: int)
    requires Inv(w, s) && ConfigLoad.Configured(env, highest).Some?
    ensures Inv(w, s.(processes := s.processes + [ConfigLoad.Configured(env, highest).value]))
  {
    hide ConfigLoad.Configured, AllEvents, AllCreated, TableOk, StageOk, MadeBy, AreWords;
    ConfigLoad.ConfiguredWords(env, highest);
  }

  lemma PrepareKeepsInv(w: World, s: State, p: nat, d: nat, caller: Caller, body: Json, linked: bool, ask: Upstream,
                        id: nat, now: int, random: Bytes)
    requires Inv(w, s) && p < |s.processes|
    ensures
      var creation := Creation(s.processes[p], caller, body, linked, ask, id, now);
      Inv(w, AfterPrepare(s, s.processes[p], ask, d, creation, PatFormat.Generate(random)))
  {
    PatFormat.GeneratedIsWellFormed(random);
    hide Creation, AllEvents, AllCreated, TableOk, StageOk, RecordOk, AreWords, AllGranted, PatFormat.Generate;
    hide PatFormat.IsWellFormed;
    CreationIsOk(s.processes[p], caller, body, linked, ask, id, now);
  }

  lemma ReplyKeepsInv(w: World, s: State, x: nat, reply: TokenEndpoint.UpstreamReply)
    requires Inv(w, s) && x in s.pending && s.pending[x].Asked?
    ensures Inv(w, AfterReply(s, x, s.pending[x], reply))
  {
    hide Delivered, AllEvents, AllCreated, TableOk, MadeBy, AreWords;
    assert StageOk(s.log, x, s.pending[x]);
  }

  lemma CreationIsOk(setup: Setup, caller: Caller, body: Json, linked: bool, ask: Upstream, id: nat, now: int)
    ensures
      var c := Creation(setup, caller, body, linked, ask, id, now);
      c.Ok? ==> RecordOk(setup, c.value) && AllGranted(setup, ask, c.value)
  {
    hide ParseCreate, NewRecord, RecordOk, RequestOk, AllGranted;
    if Creation(setup, caller, body, linked, ask, id, now).Ok? {
      ParsedIsOk(setup, body);
      NewRecordIsOk(setup, caller, ParseCreate(setup, body).value, linked, ask, id, now);
      RecordScopes(setup, caller, ParseCreate(setup, body).value, linked, ask, id, now);
    }
  }

  lemma {:induction false} RunKeepsInv(w: World, actions: seq<Action>)
    requires Run(w, actions).Some?
    ensures Inv(w, Run(w, actions).value)
  {
    if |actions| > 0 {
      hide Apply, Enabled, Inv;
      var last := |actions| - 1;
      RunKeepsInv(w, actions[..last]);
      StepKeepsInv(w, Run(w, actions[..last]).value, actions[last]);
    }
  }
}
