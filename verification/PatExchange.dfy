/** Exchanging a personal access token for a short one (src/cimd_proxy/pat.py, `exchange`), cut where the
    program waits: for the row, for the upstream's answer, for the record of the use. */
module PatExchange {
  import opened Wrappers
  import opened Json
  import opened Config
  import opened PatScopes
  import opened PatStore
  import opened PatCreate
  import PatFormat
  import TokenEndpoint

  const ACCESS_TOKEN_TYPE := "urn:ietf:params:oauth:token-type:access_token"

  datatype ExchangeError = BadRequest | BadGrant | BadTarget | BadUrl | BadReply | UpstreamRefusal(status: int)

  datatype ExchangeRequest = ExchangeRequest(
    subjectToken: Option<string>, subjectTokenType: Option<string>, requestedTokenType: Option<string>,
    resource: Option<string>)

  /** Before the lookup: the token whose hash is looked up. */
  function Presented(q: ExchangeRequest): Result<string, ExchangeError> {
    if q.subjectToken.None? || q.subjectToken.value == "" then Err(BadRequest)
    else if q.subjectTokenType != Some(ACCESS_TOKEN_TYPE) then Err(BadRequest)
    else if q.requestedTokenType != None && q.requestedTokenType != Some(ACCESS_TOKEN_TYPE) then Err(BadRequest)
    else if !PatFormat.IsWellFormed(q.subjectToken.value) then Err(BadGrant)
    else Ok(q.subjectToken.value)
  }

  /** Which requests get as far as the lookup, and for which token. */
  lemma PresentedExactly(q: ExchangeRequest, token: string)
    ensures Presented(q) == Ok(token) <==>
      && q.subjectToken == Some(token) && PatFormat.IsWellFormed(token)
      && q.subjectTokenType == Some("urn:ietf:params:oauth:token-type:access_token")
      && q.requestedTokenType in {None, Some("urn:ietf:params:oauth:token-type:access_token")}
  {
    if token == "" { assert |token| != PatFormat.TOKEN_LENGTH; }
    hide PatFormat.Checksum;
  }

  /** `_resolve_resource`. */
  function ResolveResource(entries: seq<ResourceEntry>, record: PatRecord, resource: Option<string>)
    : Result<ResourceEntry, ExchangeError>
  {
    if resource.None? && |record.resources| != 1 then Err(BadTarget) else
      var url := if resource.None? then record.resources[0] else resource.value;
      match ResourceByUrl(entries, url)
      case Err(_) => Err(BadUrl)
      case Ok(None) => Err(BadTarget)
      case Ok(Some(e)) =>
        if e.url !in record.resources then Err(BadTarget)
        else if !e.AcceptsPat() || e.issuer != record.realmIssuer then Err(BadTarget)
        else Ok(e)
  }

  /** The JWT Authorization Grant that goes upstream: whom the assertion names, to whom it is addressed,
      which client presents it, and the scope string. */
  datatype Grant = Grant(entry: ResourceEntry, subject: string, audience: string, scope: string)

  /** Between the lookup and the grant: the checks on the row that came back, at one clock reading. */
  function Proceed(setup: Setup, found: Option<PatRecord>, resource: Option<string>, now: int): Result<Grant, ExchangeError> {
    if found.None? then Err(BadGrant) else
      var record := found.value;
      if record.revokedAt.Some? then Err(BadGrant)
      else if record.expiresAt <= now then Err(BadGrant)
      else if record.realmIssuer != setup.realmIssuer then Err(BadGrant)
      else if record.tenant == "" then Err(BadGrant)
      else
        var entry :- ResolveResource(setup.entries, record, resource);
        Ok(Grant(entry, record.ownerSub, entry.issuer, ScopeParam(record.scopes, record.tenant)))
  }

  /** After the grant: what the agent gets. */
  function Delivered(reply: TokenEndpoint.UpstreamReply): Result<map<string, Json>, ExchangeError> {
    if reply.body.None? then Err(BadReply)
    else if reply.status != 200 then Err(UpstreamRefusal(reply.status))
    else Ok((reply.body.value - {"refresh_token", "refresh_expires_in"})["issued_token_type" := Str(ACCESS_TOKEN_TYPE)])
  }

  /** The row is live at that clock reading, for this realm, and bound to an organization. */
  predicate Live(setup: Setup, record: PatRecord, now: int) {
    record.revokedAt == None && now < record.expiresAt && record.realmIssuer == setup.realmIssuer && record.tenant != ""
  }

  /** A grant goes out exactly for a live row, for an entry that the row names and the request resolves to,
      that takes personal access tokens and belongs to the realm; the assertion names the owner and is
      addressed to the realm's own issuer. */
  lemma GrantedExactly(setup: Setup, found: Option<PatRecord>, resource: Option<string>, now: int, g: Grant)
    ensures Proceed(setup, found, resource, now) == Ok(g) <==>
      && found.Some? && Live(setup, found.value, now)
      && (resource == None ==> |found.value.resources| == 1)
      && ResourceByUrl(setup.entries, if resource.Some? then resource.value else found.value.resources[0]) == Ok(Some(g.entry))
      && g.entry.url in found.value.resources && g.entry.AcceptsPat() && g.entry.issuer == setup.realmIssuer
      && g.subject == found.value.ownerSub && g.audience == setup.realmIssuer
      && g.scope == ScopeParam(found.value.scopes, found.value.tenant)
  {
    hide ResourceByUrl, ScopeParam;
  }

  /** While the table stays as it was at creation, a stored token names what it named: without a resource
      if it names one, and by any of the stored URLs. */
  lemma StoredResourceGranted(setup: Setup, record: PatRecord, now: int, url: string)
    requires RecordOk(setup, record) && Live(setup, record, now) && url in record.resources
    requires EntryOf(setup.entries, url).Ok? && EntryOf(setup.entries, url).value.issuer == setup.realmIssuer
    ensures Proceed(setup, Some(record), Some(url), now).Ok?
    ensures |record.resources| == 1 ==>
      Proceed(setup, Some(record), None, now) == Proceed(setup, Some(record), Some(url), now)
  {
    hide ResourceByUrl, ScopeParam;
    assert ResourceOk(setup.entries, url);
    if |record.resources| == 1 { assert record.resources[0] == url; }
  }

  /** The agent never sees a refresh token; every other field is the upstream's. */
  lemma DeliveredExactly(reply: TokenEndpoint.UpstreamReply, payload: map<string, Json>)
    ensures Delivered(reply) == Ok(payload) <==>
      && reply.status == 200 && reply.body.Some?
      && payload.Keys == reply.body.value.Keys - {"refresh_token", "refresh_expires_in"} + {"issued_token_type"}
      && payload["issued_token_type"] == Str("urn:ietf:params:oauth:token-type:access_token")
      && forall k | k in payload && k != "issued_token_type" :: payload[k] == reply.body.value[k]
  {
    if reply.body.Some? {
      DroppedKeys(reply.body.value, payload, "refresh_token", "refresh_expires_in", "issued_token_type", Str(ACCESS_TOKEN_TYPE));
    }
  }

  lemma DroppedKeys(body: map<string, Json>, payload: map<string, Json>, a: string, b: string, c: string, v: Json)
    requires a != c && b != c
    ensures payload == (body - {a, b})[c := v] <==>
      && payload.Keys == body.Keys - {a, b} + {c}
      && payload[c] == v && forall k | k in payload && k != c :: payload[k] == body[k]
  {
    hide *;
    var made := (body - {a, b})[c := v];
    assert made.Keys == body.Keys - {a, b} + {c};
    if payload.Keys == made.Keys && payload[c] == v && forall k | k in payload && k != c :: payload[k] == body[k] {
      assert forall k | k in payload :: payload[k] == made[k];
    }
  }

  /** The whole exchange when nothing comes between its steps; `grant` is the upstream. */
  method Exchange(setup: Setup, store: Store, hash: string -> Bytes, grant: Grant -> TokenEndpoint.UpstreamReply,
                  q: ExchangeRequest, now: int)
    returns (r: Result<map<string, Json>, ExchangeError>, ghost found: Option<PatRecord>)
    requires TableOk(store.rows)
    modifies store
    ensures TableOk(store.rows)
    ensures
      match Presented(q)
      case Err(e) => r == Err(e) && store.rows == old(store.rows)
      case Ok(token) =>
        && IsFound(old(store.rows), hash(token), found)
        && match Proceed(setup, found, q.resource, now)
           case Err(e) => r == Err(e) && store.rows == old(store.rows)
           case Ok(g) =>
             && r == Delivered(grant(g))
             && store.rows == if r.Ok? then Touched(old(store.rows), found.value.id, now) else old(store.rows)
  {
    hide PatFormat.IsWellFormed, ResolveResource, ScopeParam, Touched, IsFound, ACCESS_TOKEN_TYPE;
    found := None;
    var token := Presented(q);
    if token.Err? { return Err(token.error), None; }
    var record := store.FindByHash(hash(token.value));
    found := record;
    var g := Proceed(setup, record, q.resource, now);
    if g.Err? { return Err(g.error), record; }
    var reply := grant(g.value);
    if reply.body.None? { return Err(BadReply), record; }
    if reply.status != 200 { return Err(UpstreamRefusal(reply.status)), record; }
    var payload := reply.body.value;
    payload := payload - {"refresh_token", "refresh_expires_in"};
    payload := payload["issued_token_type" := Str(ACCESS_TOKEN_TYPE)];
    store.Touch(record.value.id, now);
    r := Ok(payload);
  }
}
