/** POST /token, the interactive grants (src/cimd_proxy/token.py). */
module TokenEndpoint {
  import opened Wrappers
  import opened Json
  import opened Config
  import E = Envelope
  import Authorize

  datatype Refusal = InvalidRequest | InvalidGrant | ServerError

  /** The form posted to the upstream token endpoint of `issuer`. */
  datatype UpstreamForm =
    | RedeemForm(issuer: string, code: string, redirectUri: string, codeVerifier: string, clientId: string,
                 clientSecret: Option<string>)
    | RefreshForm(issuer: string, refreshToken: Json, clientId: string, clientSecret: Option<string>,
                  scope: Option<string>)

  /** The form, and the table entry it was built for. */
  datatype Outgoing = Outgoing(form: UpstreamForm, entry: ResourceEntry)

  function Secret(entry: ResourceEntry): Option<string> {
    if entry.clientSecret == "" then None else Some(entry.clientSecret)
  }

  /** The table entry an envelope names; a resource that is gone is a server error. */
  function EntryFor(config: ProxyConfig, resource: string): Result<ResourceEntry, Refusal> {
    match ResourceByUrl(config.resources, resource)
    case Ok(Some(entry)) => Ok(entry)
    case _ => Err(ServerError)
  }

  /** `verify_challenge`; only ASCII verifiers can be hashed. */
  predicate VerifyChallenge(s256: string -> string, verifier: string, challenge: string) {
    (forall c | c in verifier :: c < 128 as char) && s256(verifier) == challenge
  }

  function HandleAuthCode(config: ProxyConfig, vault: E.Vault, s256: string -> string, now: int,
                          code: Option<string>, codeVerifier: Option<string>, redirectUri: Option<string>,
                          clientId: Option<string>): Result<Outgoing, Refusal>
  {
    if code.None? || codeVerifier.None? then Err(InvalidRequest) else
      match E.Open(vault, code.value, E.CodeKind, now)
      case Err(_) => Err(InvalidGrant)
      case Ok(env) =>
        if !env.Code? || env.exp <= now then Err(InvalidGrant)
        else if redirectUri.Some? && redirectUri.value != env.redirectUri then Err(InvalidGrant)
        else if clientId.Some? && clientId.value != env.clientId then Err(InvalidGrant)
        else if !VerifyChallenge(s256, codeVerifier.value, env.clientCodeChallenge) then Err(InvalidGrant)
        else
          var entry :- EntryFor(config, env.resource);
          Ok(Outgoing(RedeemForm(entry.issuer, env.upstreamCode, Authorize.CallbackUrl(config), env.upstreamVerifier,
                                 entry.clientId, Secret(entry)), entry))
  }

  function HandleRefresh(config: ProxyConfig, vault: E.Vault, now: int, refreshToken: Option<string>,
                         scope: Option<string>): Result<Outgoing, Refusal>
  {
    if refreshToken.None? then Err(InvalidRequest) else
      match E.Open(vault, refreshToken.value, E.RefreshKind, now)
      case Err(_) => Err(InvalidGrant)
      case Ok(env) =>
        if !env.Refresh? then Err(InvalidGrant) else
          var entry :- EntryFor(config, env.resource);
          Ok(Outgoing(RefreshForm(entry.issuer, env.upstreamRefreshToken, entry.clientId, Secret(entry),
                                  if scope.Some? && scope.value != "" then scope else None), entry))
  }

  /** A code is redeemed exactly when it is a sealed code that has not expired, what the caller sends agrees
      with it, the verifier proves the client's challenge, and its resource is still configured; the form is
      then made of that code's upstream half and that resource's client. */
  lemma RedeemedExactly(config: ProxyConfig, vault: E.Vault, s256: string -> string, now: int,
                        code: Option<string>, codeVerifier: Option<string>, redirectUri: Option<string>,
                        clientId: Option<string>, out: Outgoing)
    ensures HandleAuthCode(config, vault, s256, now, code, codeVerifier, redirectUri, clientId) == Ok(out) <==>
      && code.Some? && codeVerifier.Some? && code.value in vault && vault[code.value].env.Code?
      && var env := vault[code.value].env;
      && now < env.exp
      && redirectUri in {None, Some(env.redirectUri)} && clientId in {None, Some(env.clientId)}
      && (forall c | c in codeVerifier.value :: c < 128 as char) && s256(codeVerifier.value) == env.clientCodeChallenge
      && ResourceByUrl(config.resources, env.resource) == Ok(Some(out.entry))
      && out.form == RedeemForm(out.entry.issuer, env.upstreamCode, config.publicUrl + "/callback", env.upstreamVerifier,
                                out.entry.clientId,
                                if out.entry.clientSecret == "" then None else Some(out.entry.clientSecret))
  {
    hide E.Open, ResourceByUrl;
    if code.Some? && code.value in vault {
      E.OpenExactly(vault, code.value, E.CodeKind, now, vault[code.value].env);
    }
    if code.Some? && E.Open(vault, code.value, E.CodeKind, now).Ok? {
      E.OpenExactly(vault, code.value, E.CodeKind, now, E.Open(vault, code.value, E.CodeKind, now).value);
    }
  }

  /** A refresh goes upstream exactly when the presented string is a sealed refresh token of a resource that
      is still configured; it has no lifetime of its own, and a scope is sent only if one was asked for. */
  lemma RefreshedExactly(config: ProxyConfig, vault: E.Vault, now: int, refreshToken: Option<string>,
                         scope: Option<string>, out: Outgoing)
    ensures HandleRefresh(config, vault, now, refreshToken, scope) == Ok(out) <==>
      && refreshToken.Some? && refreshToken.value in vault && vault[refreshToken.value].env.Refresh?
      && var env := vault[refreshToken.value].env;
      && ResourceByUrl(config.resources, env.resource) == Ok(Some(out.entry))
      && out.form == RefreshForm(out.entry.issuer, env.upstreamRefreshToken, out.entry.clientId,
                                 if out.entry.clientSecret == "" then None else Some(out.entry.clientSecret),
                                 if scope == Some("") then None else scope)
  {
    hide E.Open, ResourceByUrl;
    if refreshToken.Some? && refreshToken.value in vault {
      E.OpenExactly(vault, refreshToken.value, E.RefreshKind, now, vault[refreshToken.value].env);
    }
    if refreshToken.Some? && E.Open(vault, refreshToken.value, E.RefreshKind, now).Ok? {
      E.OpenExactly(vault, refreshToken.value, E.RefreshKind, now, E.Open(vault, refreshToken.value, E.RefreshKind, now).value);
    }
  }

  /** Which refusal a code that is not redeemed meets: a missing parameter is the request's fault; a resource
      that is no longer configured, or whose name no longer parses, is the server's; all else is the grant's. */
  lemma RedeemRefused(config: ProxyConfig, vault: E.Vault, s256: string -> string, now: int,
                      code: Option<string>, codeVerifier: Option<string>, redirectUri: Option<string>,
                      clientId: Option<string>)
    ensures
      var r := HandleAuthCode(config, vault, s256, now, code, codeVerifier, redirectUri, clientId);
      && (r == Err(InvalidRequest) <==> code.None? || codeVerifier.None?)
      && (r == Err(ServerError) <==>
          && code.Some? && codeVerifier.Some? && code.value in vault && vault[code.value].env.Code?
          && var env := vault[code.value].env;
          && now < env.exp
          && redirectUri in {None, Some(env.redirectUri)} && clientId in {None, Some(env.clientId)}
          && (forall c | c in codeVerifier.value :: c < 128 as char) && s256(codeVerifier.value) == env.clientCodeChallenge
          && forall entry :: ResourceByUrl(config.resources, env.resource) != Ok(Some(entry)))
  {
    hide E.Open, ResourceByUrl;
    if code.Some? && code.value in vault {
      E.OpenExactly(vault, code.value, E.CodeKind, now, vault[code.value].env);
    }
    if code.Some? && E.Open(vault, code.value, E.CodeKind, now).Ok? {
      E.OpenExactly(vault, code.value, E.CodeKind, now, E.Open(vault, code.value, E.CodeKind, now).value);
    }
  }

  // ----- the answer ---------------------------------------------------------

  /** What the upstream sent: a status, and a body if it was a JSON object. */
  datatype UpstreamReply = UpstreamReply(status: int, body: Option<map<string, Json>>)

  /** What the client gets, and the record sealed into it, if any. */
  datatype Answer = Answer(status: int, body: map<string, Json>, sealed: Option<E.Envelope>)

  /** The answer for a reply, given the ciphertext a new refresh envelope would have. */
  function Finalised(reply: UpstreamReply, resource: string, ciphertext: string): Result<Answer, Refusal> {
    if reply.body.None? then Err(ServerError) else
      var body := reply.body.value;
      if reply.status >= 400 then Ok(Answer(reply.status, body, None))
      else if "refresh_token" in body then
        Ok(Answer(200, body["refresh_token" := Str(ciphertext)], Some(E.Refresh(resource, body["refresh_token"]))))
      else Ok(Answer(200, body, None))
  }

  /** What the client gets: an error as the upstream sent it; a success with its refresh token, if any, replaced
      by the ciphertext of a record that holds it and the resource, and everything else as it was. */
  predicate IsAnswer(reply: UpstreamReply, resource: string, ciphertext: string, a: Answer)
    requires reply.body.Some?
  {
    var body := reply.body.value;
    if reply.status >= 400 then a == Answer(reply.status, body, None)
    else if "refresh_token" in body then
      && a.status == 200 && a.sealed == Some(E.Refresh(resource, body["refresh_token"]))
      && a.body.Keys == body.Keys && a.body["refresh_token"] == Str(ciphertext)
      && forall k | k in body && k != "refresh_token" :: a.body[k] == body[k]
    else a == Answer(200, body, None)
  }

  /** `_finalise_upstream_response`, which overwrites the one field of the parsed payload. */
  method FinaliseUpstreamResponse(reply: UpstreamReply, resource: string, ciphertext: string)
    returns (r: Result<Answer, Refusal>)
    ensures r == Finalised(reply, resource, ciphertext)
    ensures if reply.body.None? then r == Err(ServerError) else r.Ok? && IsAnswer(reply, resource, ciphertext, r.value)
  {
    if reply.body.None? { return Err(ServerError); }
    var payload := reply.body.value;
    if reply.status >= 400 { return Ok(Answer(reply.status, payload, None)); }
    var sealed := None;
    if "refresh_token" in payload {
      sealed := Some(E.Refresh(resource, payload["refresh_token"]));
      payload := payload["refresh_token" := Str(ciphertext)];
    }
    r := Ok(Answer(200, payload, sealed));
  }

  /** There is no other answer. */
  lemma FinalisedExactly(reply: UpstreamReply, resource: string, ciphertext: string, a: Answer)
    ensures Finalised(reply, resource, ciphertext) == Ok(a) <==> reply.body.Some? && IsAnswer(reply, resource, ciphertext, a)
  {
    if reply.body.Some? && IsAnswer(reply, resource, ciphertext, a) && reply.status < 400 && "refresh_token" in reply.body.value {
      var made := reply.body.value["refresh_token" := Str(ciphertext)];
      assert made.Keys == a.body.Keys && forall k | k in made :: made[k] == a.body[k];
      assert made == a.body;
    }
  }
}
