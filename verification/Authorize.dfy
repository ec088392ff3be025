/** GET /authorize (src/cimd_proxy/authorize.py): checks in order, then one sealed envelope and one
    request to the upstream authorization endpoint. */
module Authorize {
  import opened Wrappers
  import opened Json
  import opened RedirectUri
  import opened Config
  import E = Envelope
  import Fetcher

  datatype Params = Params(
    responseType: Option<string>, clientId: Option<string>, redirectUri: Option<string>,
    codeChallenge: Option<string>, codeChallengeMethod: Option<string>, state: Option<string>,
    resource: Option<string>, scope: Option<string>)

  datatype Refusal = InvalidRequest | InvalidTarget | InvalidClient | Crashed

  /** Which route named the registered redirect URIs. */
  datatype Via = ByDocument | ByRegistration

  datatype Validated = Validated(
    clientId: string, redirectUri: string, codeChallenge: string, state: string, scope: string,
    entry: ResourceEntry, registered: seq<string>, via: Via)

  /** `a or b` on an optional string. */
  function Or(a: Option<string>, b: string): string {
    if a.Some? && a.value != "" then a.value else b
  }

  function PickResource(config: ProxyConfig, resource: Option<string>): Result<ResourceEntry, Refusal> {
    var chosen := Or(resource, config.defaultResource);
    if chosen == "" then Err(InvalidTarget) else
      match ResourceByUrl(config.resources, chosen)
      case Err(_) => Err(Crashed)
      case Ok(None) => Err(InvalidTarget)
      case Ok(Some(entry)) => Ok(entry)
  }

  predicate IsHttpsUrl(clientId: string) { "https://" <= clientId }

  /** The redirect URIs of a client: kept from its document, or sealed into its `client_id`. */
  function RegisteredUris(vault: E.Vault, clientId: string, published: Json, now: int): Result<seq<string>, Refusal> {
    if IsHttpsUrl(clientId) then
      match Fetcher.ValidateDocument(clientId, published)
      case Ok(document) => Ok(document.redirectUris)
      case Err(Crashed) => Err(Crashed)
      case Err(_) => Err(InvalidClient)
    else
      match E.Open(vault, clientId, E.RegistrationKind, now)
      case Ok(env) => if env.Registration? then Ok(env.redirectUris) else Err(InvalidClient)
      case Err(_) => Err(InvalidClient)
  }

  /** All checks of /authorize; `published` is the document served at an https `client_id`. */
  function Validate(config: ProxyConfig, vault: E.Vault, published: Json, now: int, p: Params)
    : Result<Validated, Refusal>
  {
    if p.responseType != Some("code") then Err(InvalidRequest)
    else if p.clientId.None? || p.redirectUri.None? || p.codeChallenge.None? then Err(InvalidRequest)
    else
      var clientId, redirectUri := p.clientId.value, p.redirectUri.value;
      var entry :- PickResource(config, p.resource);
      if p.codeChallengeMethod != Some("S256") then Err(InvalidRequest) else
        var registered :- RegisteredUris(vault, clientId, published, now);
        match MatchesAny(redirectUri, registered)
        case Err(_) => Err(Crashed)
        case Ok(false) => Err(InvalidRequest)
        case Ok(true) =>
          Ok(Validated(clientId, redirectUri, p.codeChallenge.value, Or(p.state, ""), Or(p.scope, config.defaultScope),
                       entry, registered, if IsHttpsUrl(clientId) then ByDocument else ByRegistration))
  }

  /** The record sealed into the upstream `state`. */
  function StateEnvelope(v: Validated, correlationId: string, verifier: string, now: int): E.Envelope {
    E.Authorize(correlationId, v.clientId, v.redirectUri, v.state, v.entry.url, v.codeChallenge, verifier, v.scope,
                now + E.STATE_LIFETIME)
  }

  /** The query of the redirect to the upstream authorization endpoint of `issuer`. */
  datatype UpstreamRequest = UpstreamRequest(
    issuer: string, clientId: string, redirectUri: string, codeChallenge: string, state: string, scope: string)

  function CallbackUrl(config: ProxyConfig): string { config.publicUrl + "/callback" }

  function BuildUpstreamRequest(config: ProxyConfig, v: Validated, challenge: string, state: string): UpstreamRequest {
    UpstreamRequest(v.entry.issuer, v.entry.clientId, CallbackUrl(config), challenge, state, v.scope)
  }

  /** Every request that passes names a table entry that its own URL finds again, and a redirect URI that
      matches a registered one; if those all keep the policy, so does the redirect URI. A scope that is asked
      for is taken as it is; only silence is filled. */
  lemma ValidatedMeans(config: ProxyConfig, vault: E.Vault, published: Json, now: int, p: Params)
    requires Validate(config, vault, published, now, p).Ok?
    ensures
      var v := Validate(config, vault, published, now, p).value;
      && p.clientId == Some(v.clientId) && p.redirectUri == Some(v.redirectUri)
      && p.codeChallenge == Some(v.codeChallenge) && p.codeChallengeMethod == Some("S256")
      && ResourceByUrl(config.resources, v.entry.url) == Ok(Some(v.entry))
      && RegisteredUris(vault, v.clientId, published, now) == Ok(v.registered)
      && v.scope == (if p.scope in {None, Some("")} then config.defaultScope else p.scope.value)
      && v.state == (if p.state.None? then "" else p.state.value)
      && v.via == (if IsHttpsUrl(v.clientId) then ByDocument else ByRegistration)
      && (exists r :: r in v.registered && Same(v.redirectUri, r))
      && ((forall r | r in v.registered :: Accepted(r)) ==> Accepted(v.redirectUri))
  {
    hide Matches, AcceptRegistered, ResourceByUrl, RegisteredUris, MatchesAny, E.Open, Fetcher.ValidateDocument;
    var v := Validate(config, vault, published, now, p).value;
    FoundStaysFound(config.resources, Or(p.resource, config.defaultResource), v.entry);
    MatchesAnyHasWitness(v.redirectUri, v.registered);
    var r :| r in v.registered && Same(v.redirectUri, r);
    if Accepted(r) { SameKeepsPolicy(v.redirectUri, r); }
  }

  /** The URL of the resource a request is for. */
  predicate AsksFor(config: ProxyConfig, p: Params, url: string) {
    url == if p.resource.Some? && p.resource.value != "" then p.resource.value else config.defaultResource
  }

  /** The list of redirect URIs that a client is registered with. */
  predicate IsRegisteredWith(vault: E.Vault, clientId: string, published: Json, uris: seq<string>) {
    if "https://" <= clientId then
      Fetcher.ValidateDocument(clientId, published).Ok?
      && Fetcher.ValidateDocument(clientId, published).value.redirectUris == uris
    else clientId in vault && vault[clientId].env.Registration? && vault[clientId].env.redirectUris == uris
  }

  lemma RegisteredExactly(vault: E.Vault, clientId: string, published: Json, now: int, uris: seq<string>)
    ensures RegisteredUris(vault, clientId, published, now) == Ok(uris)
      <==> IsRegisteredWith(vault, clientId, published, uris)
  {
    hide E.Open, Fetcher.ValidateDocument;
    if clientId in vault { E.OpenExactly(vault, clientId, E.RegistrationKind, now, vault[clientId].env); }
    if E.Open(vault, clientId, E.RegistrationKind, now).Ok? {
      E.OpenExactly(vault, clientId, E.RegistrationKind, now, E.Open(vault, clientId, E.RegistrationKind, now).value);
    }
  }

  /** Which requests pass, and what is taken from each: the code flow with S256, for the resource that is asked
      for or else the default one, from a registered client, to a redirect URI that matches. */
  lemma ValidatedExactly(config: ProxyConfig, vault: E.Vault, published: Json, now: int, p: Params, v: Validated)
    ensures Validate(config, vault, published, now, p) == Ok(v) <==>
      && p.responseType == Some("code") && p.codeChallengeMethod == Some("S256")
      && p.clientId == Some(v.clientId) && p.redirectUri == Some(v.redirectUri) && p.codeChallenge == Some(v.codeChallenge)
      && (exists url :: url != "" && AsksFor(config, p, url) && ResourceByUrl(config.resources, url) == Ok(Some(v.entry)))
      && IsRegisteredWith(vault, v.clientId, published, v.registered)
      && (exists i: nat :: FirstMatch(v.redirectUri, v.registered, i))
      && v.scope == (if p.scope.Some? && p.scope.value != "" then p.scope.value else config.defaultScope)
      && v.state == (if p.state.Some? then p.state.value else "")
      && v.via == (if "https://" <= v.clientId then ByDocument else ByRegistration)
  {
    hide Matches, MatchesAny, FirstMatch, ResourceByUrl, RegisteredUris, IsRegisteredWith;
    RegisteredExactly(vault, v.clientId, published, now, v.registered);
    MatchesAnyExactly(v.redirectUri, v.registered);
    var url := if p.resource.Some? && p.resource.value != "" then p.resource.value else config.defaultResource;
    assert AsksFor(config, p, url);
  }

  /** The resource is at fault exactly if a request is otherwise complete and names, or falls back to, none that
      is configured. */
  lemma TargetRefusedExactly(config: ProxyConfig, vault: E.Vault, published: Json, now: int, p: Params)
    ensures Validate(config, vault, published, now, p) == Err(InvalidTarget) <==>
      && p.responseType == Some("code") && p.clientId.Some? && p.redirectUri.Some? && p.codeChallenge.Some?
      && exists url :: AsksFor(config, p, url) && (url == "" || ResourceByUrl(config.resources, url) == Ok(None))
  {
    hide MatchesAny, ResourceByUrl, E.Open, Fetcher.ValidateDocument;
    var url := if p.resource.Some? && p.resource.value != "" then p.resource.value else config.defaultResource;
    assert AsksFor(config, p, url);
  }
}
