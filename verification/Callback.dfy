/** GET /callback (src/cimd_proxy/callback.py): opens the `state` it sealed and sends the browser back. */
module Callback {
  import opened Wrappers
  import opened Config
  import E = Envelope

  const CODE_LIFETIME := 60

  /** A refusal is plain text; a redirect goes to `target` with these parameters, and may carry a new
      envelope as its `code`. */
  datatype Reply =
    | Refused
    | ErrorRedirect(target: string, error: string, description: Option<string>, state: Option<string>, iss: string)
    | CodeRedirect(target: string, code: E.Envelope, state: Option<string>, iss: string)

  function NonEmpty(s: string): Option<string> { if s == "" then None else Some(s) }

  function CodeEnvelope(env: E.Envelope, upstreamCode: string, now: int): E.Envelope
    requires env.Authorize?
  {
    E.Code(env.correlationId, upstreamCode, env.upstreamVerifier, env.resource, env.clientId,
           env.clientCodeChallenge, env.redirectUri, now + CODE_LIFETIME)
  }

  function Handle(config: ProxyConfig, vault: E.Vault, now: int, state: Option<string>, code: Option<string>,
                  error: Option<string>, description: Option<string>): Reply
  {
    if state.None? then Refused else
      match E.Open(vault, state.value, E.AuthorizeKind, now)
      case Err(_) => Refused
      case Ok(env) =>
        if !env.Authorize? then Refused
        else if error.Some? then
          ErrorRedirect(env.redirectUri, error.value,
                        if description.Some? then NonEmpty(description.value) else None,
                        NonEmpty(env.state), config.publicUrl)
        else if code.None? then Refused
        else CodeRedirect(env.redirectUri, CodeEnvelope(env, code.value, now), NonEmpty(env.state), config.publicUrl)
  }

  /** The browser is sent back exactly when the `state` is a sealed flow at most 600 seconds old and the
      upstream reported an error or a code; always to that flow's redirect URI, with the client's own state
      and this server's identifier; with the upstream's error and description, or else with a new code. */
  lemma RedirectsExactly(config: ProxyConfig, vault: E.Vault, now: int, state: Option<string>, code: Option<string>,
                         error: Option<string>, description: Option<string>)
    ensures
      var reply := Handle(config, vault, now, state, code, error, description);
      && (!reply.Refused? <==>
          && state.Some? && state.value in vault && vault[state.value].env.Authorize?
          && now <= vault[state.value].at + 600 && vault[state.value].at <= now + 60
          && (error.Some? || code.Some?))
      && (!reply.Refused? ==>
          && var env := vault[state.value].env;
          && reply.target == env.redirectUri && reply.iss == config.publicUrl
          && reply.state == (if env.state == "" then None else Some(env.state))
          && (reply.ErrorRedirect? <==> error.Some?)
          && (reply.ErrorRedirect? ==>
              reply.error == error.value && reply.description == if description == Some("") then None else description)
          && (reply.CodeRedirect? ==>
              reply.code == E.Code(env.correlationId, code.value, env.upstreamVerifier, env.resource, env.clientId,
                                   env.clientCodeChallenge, env.redirectUri, now + 60)))
  {
    hide E.Open;
    if state.Some? && state.value in vault {
      E.OpenExactly(vault, state.value, E.AuthorizeKind, now, vault[state.value].env);
    }
    if state.Some? && E.Open(vault, state.value, E.AuthorizeKind, now).Ok? {
      E.OpenExactly(vault, state.value, E.AuthorizeKind, now, E.Open(vault, state.value, E.AuthorizeKind, now).value);
    }
  }
}
