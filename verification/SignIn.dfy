/** The stateless sign-in protocol as a transition system. Between requests the proxy keeps nothing; what
    persists is the set of ciphertexts in circulation, the codes the upstream has minted, and the clock.
    Any party may present any string to any endpoint, in any order, any number of times.

    `flows`, `origin` and the logs are history: no endpoint reads them. */
module SignIn {
  import opened Wrappers
  import opened Json
  import opened RedirectUri
  import opened Config
  import opened T = TokenEndpoint
  import E = Envelope
  import A = Authorize
  import C = Callback
  import Fetcher
  import Register

  /** What stays fixed: the configuration and the S256 transformation of RFC 7636. */
  datatype World = World(config: ProxyConfig, s256: string -> string)

  ghost predicate Injective(f: string -> string) { forall a, b :: f(a) == f(b) ==> a == b }

  /** Where the list of registered redirect URIs came from. */
  datatype Source = FromRegistration(clientId: string) | FromDocument(url: string, published: Json)

  /** One /authorize that was forwarded upstream. */
  datatype Flow = Flow(
    startedAt: int, correlationId: string, verifier: string, validated: A.Validated,
    request: A.UpstreamRequest, source: Source)

  /** A code of an upstream issuer, and what the login that produced it asked for. */
  datatype Minted = Minted(clientId: string, redirectUri: string, challenge: string)

  /** One redemption the upstream accepted. */
  datatype Redemption = Redemption(flow: nat, code: string, presentedVerifier: string, form: UpstreamForm, at: int)

  /** One redirect sent by /callback. */
  datatype Redirect = Redirect(flow: nat, target: string)

  /** One success of the token endpoint: the reply of the upstream and the answer of the proxy. */
  datatype Issue = Issue(flow: nat, reply: UpstreamReply, answer: Answer)

  /** One refresh form sent upstream for a presented token. */
  datatype Renewal = Renewal(flow: nat, token: string, form: UpstreamForm)

  datatype State = State(
    now: int, vault: E.Vault, minted: map<(string, string), Minted>,
    flows: seq<Flow>, origin: map<string, nat>, issues: map<string, Issue>,
    redemptions: seq<Redemption>, redirects: seq<Redirect>, renewals: seq<Renewal>)

  datatype Action =
    | Tick(later: int)
    | DoRegister(payload: Json, ciphertext: string)
    | DoAuthorize(params: A.Params, published: Json, correlationId: string, newVerifier: string, ciphertext: string)
    | UpstreamLogin(issuer: string, login: Minted, mintedCode: string)
    | DoCallback(state: Option<string>, code: Option<string>, error: Option<string>, description: Option<string>,
                 ciphertext: string)
    | DoRedeem(code: Option<string>, codeVerifier: Option<string>, redirectUri: Option<string>, clientId: Option<string>,
               reply: UpstreamReply, ciphertext: string)
    | DoRefresh(token: Option<string>, scope: Option<string>, reply: UpstreamReply, ciphertext: string)

  const INIT := State(0, map[], map[], [], map[], map[], [], [], [])

  // ----- one step -----------------------------------------------------------

  /** The upstream redeems a code only for the client and redirect URI it was minted for, and only against
      a verifier of its challenge (RFC 7636, section 4.6). It may refuse for reasons of its own. */
  predicate UpstreamAccepts(w: World, s: State, f: UpstreamForm) {
    && f.RedeemForm? && (f.issuer, f.code) in s.minted
    && var m := s.minted[(f.issuer, f.code)];
       m.clientId == f.clientId && m.redirectUri == f.redirectUri && m.challenge == w.s256(f.codeVerifier)
  }

  function RedeemOutgoing(w: World, s: State, a: Action): Result<Outgoing, T.Refusal>
    requires a.DoRedeem?
  {
    HandleAuthCode(w.config, s.vault, w.s256, s.now, a.code, a.codeVerifier, a.redirectUri, a.clientId)
  }

  function RefreshOutgoing(w: World, s: State, a: Action): Result<Outgoing, T.Refusal>
    requires a.DoRefresh?
  {
    HandleRefresh(w.config, s.vault, s.now, a.token, a.scope)
  }

  predicate UsedVerifier(s: State, verifier: string) { exists i :: 0 <= i < |s.flows| && s.flows[i].verifier == verifier }

  /** Ciphertexts, verifiers and upstream codes are fresh; the clock does not go back; the upstream answers a
      redemption with success only if it accepts it. */
  predicate Enabled(w: World, s: State, a: Action) {
    match a
    case Tick(later) => s.now <= later
    case DoRegister(_, c) => c !in s.vault
    case DoAuthorize(_, _, _, verifier, c) => c !in s.vault && !UsedVerifier(s, verifier)
    case UpstreamLogin(issuer, _, code) => (issuer, code) !in s.minted
    case DoCallback(_, _, _, _, c) => c !in s.vault
    case DoRedeem(_, _, _, _, reply, c) =>
      c !in s.vault && (reply.status < 400 && RedeemOutgoing(w, s, a).Ok?
                        ==> UpstreamAccepts(w, s, RedeemOutgoing(w, s, a).value.form))
    case DoRefresh(_, _, _, c) => c !in s.vault
  }

  function AfterRegister(s: State, payload: Json, c: string): State {
    match Register.Validate(payload)
    case Err(_) => s
    case Ok(m) => s.(vault := s.vault[c := E.Sealed(s.now, Register.Seal(m, s.now))])
  }

  function SourceOf(v: A.Validated, published: Json): Source {
    if v.via.ByDocument? then FromDocument(v.clientId, published) else FromRegistration(v.clientId)
  }

  function AfterAuthorize(w: World, s: State, p: A.Params, published: Json, cid: string, verifier: string, c: string): State {
    match A.Validate(w.config, s.vault, published, s.now, p)
    case Err(_) => s
    case Ok(v) =>
      var request := A.BuildUpstreamRequest(w.config, v, w.s256(verifier), c);
      s.(vault := s.vault[c := E.Sealed(s.now, A.StateEnvelope(v, cid, verifier, s.now))],
         origin := s.origin[c := |s.flows|],
         flows := s.flows + [Flow(s.now, cid, verifier, v, request, SourceOf(v, published))])
  }

  /** The flow a presented string descends from. */
  function FlowOf(s: State, token: Option<string>): nat {
    if token.Some? && token.value in s.origin then s.origin[token.value] else 0
  }

  function AfterCallback(w: World, s: State, state: Option<string>, code: Option<string>, error: Option<string>,
                         description: Option<string>, c: string): State {
    match C.Handle(w.config, s.vault, s.now, state, code, error, description)
    case Refused => s
    case ErrorRedirect(target, _, _, _, _) => s.(redirects := s.redirects + [Redirect(FlowOf(s, state), target)])
    case CodeRedirect(target, env, _, _) =>
      s.(redirects := s.redirects + [Redirect(FlowOf(s, state), target)],
         vault := s.vault[c := E.Sealed(s.now, env)],
         origin := s.origin[c := FlowOf(s, state)])
  }

  /** The answer of the token endpoint goes out; a new refresh envelope inherits its flow. */
  function AfterReply(s: State, flow: nat, out: Outgoing, reply: UpstreamReply, c: string): State {
    match Finalised(reply, out.entry.url, c)
    case Err(_) => s
    case Ok(answer) =>
      if answer.sealed.None? then s else
        s.(vault := s.vault[c := E.Sealed(s.now, answer.sealed.value)],
           origin := s.origin[c := flow],
           issues := s.issues[c := Issue(flow, reply, answer)])
  }

  function AfterRedeem(w: World, s: State, a: Action): State
    requires a.DoRedeem?
  {
    match RedeemOutgoing(w, s, a)
    case Err(_) => s
    case Ok(out) =>
      if a.code.None? || a.codeVerifier.None? then s else
        var flow := FlowOf(s, a.code);
        var s1 := if a.reply.status >= 400 then s else
                    s.(redemptions := s.redemptions + [Redemption(flow, a.code.value, a.codeVerifier.value, out.form, s.now)]);
        AfterReply(s1, flow, out, a.reply, a.ciphertext)
  }

  function AfterRefresh(w: World, s: State, a: Action): State
    requires a.DoRefresh?
  {
    match RefreshOutgoing(w, s, a)
    case Err(_) => s
    case Ok(out) =>
      if a.token.None? then s else
        var flow := FlowOf(s, a.token);
        var s1 := s.(renewals := s.renewals + [Renewal(flow, a.token.value, out.form)]);
        AfterReply(s1, flow, out, a.reply, a.ciphertext)
  }

  function Apply(w: World, s: State, a: Action): State {
    match a
    case Tick(later) => s.(now := later)
    case DoRegister(payload, c) => AfterRegister(s, payload, c)
    case DoAuthorize(p, published, cid, verifier, c) => AfterAuthorize(w, s, p, published, cid, verifier, c)
    case UpstreamLogin(issuer, login, code) => s.(minted := s.minted[(issuer, code) := login])
    case DoCallback(state, code, error, description, c) => AfterCallback(w, s, state, code, error, description, c)
    case DoRedeem(_, _, _, _, _, _) => AfterRedeem(w, s, a)
    case DoRefresh(_, _, _, _) => AfterRefresh(w, s, a)
  }

  /** The state a sequence of requests leads to, if each of them was possible. */
  function Run(w: World, actions: seq<Action>): Option<State> {
    if actions == [] then Some(INIT) else
      var last := |actions| - 1;
      match Run(w, actions[..last])
      case None => None
      case Some(s) => if Enabled(w, s, actions[last]) then Some(Apply(w, s, actions[last])) else None
  }

  // ----- the invariant ------------------------------------------------------

  /** The list of registered redirect URIs is the one its source names, and all of it keeps the policy. */
  predicate SourceOk(s: State, v: A.Validated, source: Source) {
    && (match source
        case FromRegistration(c) =>
          c == v.clientId && c in s.vault && s.vault[c].env.Registration?
          && s.vault[c].env.redirectUris == v.registered
        case FromDocument(url, published) =>
          url == v.clientId && Fetcher.ValidateDocument(url, published).Ok?
          && Fetcher.ValidateDocument(url, published).value.redirectUris == v.registered)
    && forall r | r in v.registered :: Accepted(r)
  }

  predicate FlowOk(w: World, s: State, f: Flow) {
    var v := f.validated;
    && f.startedAt <= s.now
    && f.request.codeChallenge == w.s256(f.verifier)
    && f.request.issuer == v.entry.issuer && f.request.clientId == v.entry.clientId
    && ResourceByUrl(w.config.resources, v.entry.url) == Ok(Some(v.entry))
    && SourceOk(s, v, f.source)
    && (exists r :: r in v.registered && Same(v.redirectUri, r))
    && Accepted(v.redirectUri)
  }

  predicate HasOrigin(s: State, c: string) { c in s.origin && s.origin[c] < |s.flows| }

  /** What is sealed under `c` is what its flow put there. */
  predicate SealedOk(s: State, c: string)
    requires c in s.vault
  {
    match s.vault[c].env
    case Registration(uris, _, _, _) => forall r | r in uris :: Accepted(r)
    case Authorize(_, _, _, _, _, _, _, _, _) =>
      && HasOrigin(s, c)
      && var f := s.flows[s.origin[c]];
      && s.vault[c] == E.Sealed(f.startedAt, A.StateEnvelope(f.validated, f.correlationId, f.verifier, f.startedAt))
    case Code(_, _, verifier, resource, clientId, challenge, redirectUri, exp) =>
      && HasOrigin(s, c)
      && var f := s.flows[s.origin[c]];
      && verifier == f.verifier && resource == f.validated.entry.url && clientId == f.validated.clientId
      && challenge == f.validated.codeChallenge && redirectUri == f.validated.redirectUri
      && exp == s.vault[c].at + 60 && s.vault[c].at <= f.startedAt + 600
    case Refresh(resource, token) =>
      && HasOrigin(s, c) && c in s.issues
      && resource == s.flows[s.origin[c]].validated.entry.url
      && IssueOk(s, c) && s.issues[c].reply.body.value["refresh_token"] == token
  }

  /** The answer that carried `c` equals the upstream's body but for the one field that carries `c`. */
  predicate IssueOk(s: State, c: string)
    requires c in s.issues
  {
    var i := s.issues[c];
    && HasOrigin(s, c) && i.flow == s.origin[c] && i.answer.status == 200
    && i.reply.body.Some? && "refresh_token" in i.reply.body.value
    && i.answer.body == i.reply.body.value["refresh_token" := Str(c)]
  }

  /** An accepted redemption belongs, in every part, to one flow. */
  predicate RedemptionOk(w: World, s: State, r: Redemption) {
    && r.flow < |s.flows|
    && var f := s.flows[r.flow];
    && r.code in s.origin && s.origin[r.code] == r.flow && r.code in s.vault && s.vault[r.code].env.Code?
    && r.at < s.vault[r.code].at + 60
    && r.form.RedeemForm? && (r.form.issuer, r.form.code) in s.minted
    && s.minted[(r.form.issuer, r.form.code)].challenge == f.request.codeChallenge
    && s.minted[(r.form.issuer, r.form.code)].clientId == f.request.clientId
    && r.form.codeVerifier == f.verifier
    && w.s256(r.presentedVerifier) == f.validated.codeChallenge
    && r.form.issuer == f.request.issuer && r.form.clientId == f.request.clientId
    && f.startedAt <= r.at <= f.startedAt + 659
  }

  predicate RedirectOk(s: State, r: Redirect) {
    r.flow < |s.flows| && r.target == s.flows[r.flow].validated.redirectUri
  }

  /** A refresh form carries the upstream token of the answer that handed the presented token out, to the
      client and issuer of the flow it descends from. */
  predicate RenewalOk(s: State, r: Renewal) {
    && r.flow < |s.flows| && r.token in s.issues && s.issues[r.token].flow == r.flow
    && IssueOk(s, r.token)
    && r.form.RefreshForm?
    && r.form.refreshToken == s.issues[r.token].reply.body.value["refresh_token"]
    && var entry := s.flows[r.flow].validated.entry;
    && r.form.issuer == entry.issuer && r.form.clientId == entry.clientId && r.form.clientSecret == Secret(entry)
  }

  predicate DistinctVerifiers(s: State) {
    forall i, j | 0 <= i < j < |s.flows| :: s.flows[i].verifier != s.flows[j].verifier
  }

  predicate AllFlows(w: World, s: State) { (forall f | f in s.flows :: FlowOk(w, s, f)) && DistinctVerifiers(s) }

  predicate AllSealed(s: State) { forall c | c in s.vault :: SealedOk(s, c) }

  predicate AllRedemptions(w: World, s: State) { forall r | r in s.redemptions :: RedemptionOk(w, s, r) }

  predicate AllRedirects(s: State) { forall r | r in s.redirects :: RedirectOk(s, r) }

  predicate AllRenewals(s: State) { forall r | r in s.renewals :: RenewalOk(s, r) }

  /** History is kept for sealed strings only, so a fresh ciphertext has none. */
  predicate Keyed(s: State) { s.origin.Keys <= s.vault.Keys && s.issues.Keys <= s.vault.Keys }

  predicate Inv(w: World, s: State) {
    AllFlows(w, s) && AllSealed(s) && Keyed(s) && AllRedemptions(w, s) && AllRedirects(s) && AllRenewals(s)
  }

  /** `t` has everything `s` has; its clock is not earlier. */
  predicate Extends(s: State, t: State) {
    && s.now <= t.now
    && (forall c | c in s.vault :: c in t.vault && t.vault[c] == s.vault[c])
    && (forall c | c in s.origin :: c in t.origin && t.origin[c] == s.origin[c])
    && (forall c | c in s.issues :: c in t.issues && t.issues[c] == s.issues[c])
    && (forall k | k in s.minted :: k in t.minted && t.minted[k] == s.minted[k])
    && s.flows <= t.flows
  }

  // ----- every step keeps the invariant --------------------------------------

  lemma FlowKept(w: World, s: State, t: State, f: Flow)
    requires Extends(s, t) && FlowOk(w, s, f)
    ensures FlowOk(w, t, f)
  {
    hide Same, Accepted, ResourceByUrl, Fetcher.ValidateDocument;
  }

  lemma SealedKept(s: State, t: State, c: string)
    requires Extends(s, t) && c in s.vault && SealedOk(s, c)
    ensures SealedOk(t, c)
  {
    hide Accepted;
  }

  lemma RedemptionsKept(w: World, s: State, t: State)
    requires Extends(s, t) && AllRedemptions(w, s)
    ensures forall r | r in s.redemptions :: RedemptionOk(w, t, r)
  {
  }

  lemma RedirectsKept(s: State, t: State)
    requires Extends(s, t) && AllRedirects(s)
    ensures forall r | r in s.redirects :: RedirectOk(t, r)
  {
  }

  lemma RenewalsKept(s: State, t: State)
    requires Extends(s, t) && AllRenewals(s)
    ensures forall r | r in s.renewals :: RenewalOk(t, r)
  {
  }

  lemma FlowsKept(w: World, s: State, t: State)
    requires Extends(s, t) && AllFlows(w, s)
    ensures forall f | f in s.flows :: FlowOk(w, t, f)
  {
    hide FlowOk;
    forall f | f in s.flows ensures FlowOk(w, t, f) { FlowKept(w, s, t, f); }
  }

  /** Everything stays well sealed if the one new string, if any, is. */
  lemma SealedAfter(s: State, t: State, c: string)
    requires Extends(s, t) && AllSealed(s) && t.vault.Keys <= s.vault.Keys + {c}
    requires c in t.vault && c !in s.vault ==> SealedOk(t, c)
    ensures AllSealed(t)
  {
    hide SealedOk;
    forall x | x in t.vault ensures SealedOk(t, x) { if x in s.vault { SealedKept(s, t, x); } }
  }

  /** All old facts survive a step; what remains to be shown is about what the step added. */
  lemma InvAfter(w: World, s: State, t: State, c: string)
    requires Inv(w, s) && Extends(s, t) && Keyed(t)
    requires t.vault.Keys <= s.vault.Keys + {c} && (c in t.vault && c !in s.vault ==> SealedOk(t, c))
    requires |t.flows| <= |s.flows| + 1
    requires |t.flows| == |s.flows| + 1 ==>
      FlowOk(w, t, t.flows[|s.flows|]) && !UsedVerifier(s, t.flows[|s.flows|].verifier)
    requires forall r | r in t.redemptions :: r in s.redemptions || RedemptionOk(w, t, r)
    requires forall r | r in t.redirects :: r in s.redirects || RedirectOk(t, r)
    requires forall r | r in t.renewals :: r in s.renewals || RenewalOk(t, r)
    ensures Inv(w, t)
  {
    hide FlowOk, SealedOk, RedemptionOk, RedirectOk, RenewalOk;
    FlowsKept(w, s, t);
    RedemptionsKept(w, s, t);
    RedirectsKept(s, t);
    RenewalsKept(s, t);
    SealedAfter(s, t, c);
    assert AllFlows(w, t) by { if |t.flows| == |s.flows| { assert t.flows == s.flows; } }
  }

  lemma ReplyExtends(s: State, flow: nat, out: Outgoing, reply: UpstreamReply, c: string)
    requires Keyed(s) && c !in s.vault
    ensures Extends(s, AfterReply(s, flow, out, reply, c)) && Keyed(AfterReply(s, flow, out, reply, c))
  {
    hide Finalised;
  }

  lemma RegisterExtends(s: State, payload: Json, c: string)
    requires Keyed(s) && c !in s.vault
    ensures Extends(s, AfterRegister(s, payload, c)) && Keyed(AfterRegister(s, payload, c))
  {
    hide Register.Validate;
  }

  lemma AuthorizeExtends(w: World, s: State, p: A.Params, published: Json, cid: string, verifier: string, c: string)
    requires Keyed(s) && c !in s.vault
    ensures
      var t := AfterAuthorize(w, s, p, published, cid, verifier, c);
      Extends(s, t) && Keyed(t)
  {
    hide A.Validate;
  }

  lemma CallbackExtends(w: World, s: State, state: Option<string>, code: Option<string>, error: Option<string>,
                        description: Option<string>, c: string)
    requires Keyed(s) && c !in s.vault
    ensures
      var t := AfterCallback(w, s, state, code, error, description, c);
      Extends(s, t) && Keyed(t)
  {
    hide C.Handle;
  }

  lemma RegisterStep(w: World, s: State, payload: Json, c: string)
    requires Inv(w, s) && c !in s.vault
    ensures Inv(w, AfterRegister(s, payload, c))
  {
    hide FlowOk, RedemptionOk, RedirectOk, RenewalOk, Accepted, Extends, Register.Validate, AllSealed;
    var t := AfterRegister(s, payload, c);
    RegisterExtends(s, payload, c);
    if Register.Validate(payload).Ok? {
      RegisteredAccepted(payload);
      assert SealedOk(t, c);
    }
    InvAfter(w, s, t, c);
  }

  lemma RegisteredAccepted(payload: Json)
    requires Register.Validate(payload).Ok?
    ensures forall r | r in Register.Validate(payload).value.redirectUris :: Accepted(r)
  {
    hide Accepted, Register.CheckAll;
    Register.CheckAllMeans(Register.Validate(payload).value.redirectUris);
  }

  /** The list a client is checked against is the one its source names, and all of it keeps the policy. */
  lemma SourceIsOk(s: State, v: A.Validated, published: Json)
    requires AllSealed(s)
    requires A.RegisteredUris(s.vault, v.clientId, published, s.now) == Ok(v.registered)
    requires v.via == if A.IsHttpsUrl(v.clientId) then A.ByDocument else A.ByRegistration
    ensures SourceOk(s, v, SourceOf(v, published))
  {
    hide Accepted, Fetcher.ValidateDocument, E.Open;
    if A.IsHttpsUrl(v.clientId) {
      Fetcher.ValidatedDocument(v.clientId, published);
    } else {
      var env := E.Open(s.vault, v.clientId, E.RegistrationKind, s.now).value;
      E.OpenExactly(s.vault, v.clientId, E.RegistrationKind, s.now, env);
      assert SealedOk(s, v.clientId);
    }
  }

  lemma NewFlowOk(w: World, s: State, t: State, p: A.Params, published: Json, f: Flow)
    requires AllSealed(s)
    requires A.Validate(w.config, s.vault, published, s.now, p) == Ok(f.validated)
    requires Extends(s, t) && f.startedAt == s.now && f.source == SourceOf(f.validated, published)
    requires exists c :: f.request == A.BuildUpstreamRequest(w.config, f.validated, w.s256(f.verifier), c)
    ensures FlowOk(w, t, f)
  {
    hide SealedOk, A.Validate, Accepted, Same, ResourceByUrl, A.RegisteredUris, Fetcher.ValidateDocument;
    A.ValidatedMeans(w.config, s.vault, published, s.now, p);
    SourceIsOk(s, f.validated, published);
    assert SourceOk(t, f.validated, f.source);
  }

  lemma AuthorizeStep(w: World, s: State, p: A.Params, published: Json, cid: string, verifier: string, c: string)
    requires Inv(w, s) && c !in s.vault && !UsedVerifier(s, verifier)
    ensures Inv(w, AfterAuthorize(w, s, p, published, cid, verifier, c))
  {
    hide FlowOk, RedemptionOk, RedirectOk, RenewalOk, A.Validate, Extends, AllSealed, UsedVerifier, AllFlows;
    var t := AfterAuthorize(w, s, p, published, cid, verifier, c);
    AuthorizeExtends(w, s, p, published, cid, verifier, c);
    if A.Validate(w.config, s.vault, published, s.now, p).Ok? {
      var f := t.flows[|s.flows|];
      assert f.request == A.BuildUpstreamRequest(w.config, f.validated, w.s256(f.verifier), c);
      NewFlowOk(w, s, t, p, published, f);
      assert SealedOk(t, c);
    }
    InvAfter(w, s, t, c);
  }

  /** A presented string that opens as a `state` or a `code` has a flow, and what it holds is that flow's. */
  lemma OpenedIsSealed(s: State, token: string, k: E.Kind, env: E.Envelope)
    requires AllSealed(s)
    requires E.Open(s.vault, token, k, s.now) == Ok(env)
    ensures token in s.vault && s.vault[token].env == env && E.KindOf(env) == k && SealedOk(s, token)
    ensures E.InTime(s.vault[token].at, s.now, E.Lifetime(k))
    ensures !k.RegistrationKind? ==> HasOrigin(s, token) && FlowOf(s, Some(token)) == s.origin[token]
  {
    hide E.Open;
    E.OpenExactly(s.vault, token, k, s.now, env);
  }

  lemma CallbackStep(w: World, s: State, state: Option<string>, code: Option<string>, error: Option<string>,
                     description: Option<string>, c: string)
    requires Inv(w, s) && c !in s.vault
    ensures Inv(w, AfterCallback(w, s, state, code, error, description, c))
  {
    hide FlowOk, RedemptionOk, RenewalOk, Extends, E.Open, AllSealed, AllFlows, UsedVerifier;
    var t := AfterCallback(w, s, state, code, error, description, c);
    CallbackExtends(w, s, state, code, error, description, c);
    var reply := C.Handle(w.config, s.vault, s.now, state, code, error, description);
    if !reply.Refused? {
      var env := E.Open(s.vault, state.value, E.AuthorizeKind, s.now).value;
      OpenedIsSealed(s, state.value, E.AuthorizeKind, env);
      assert RedirectOk(t, Redirect(FlowOf(s, state), reply.target));
      if reply.CodeRedirect? { assert SealedOk(t, c); }
    }
    InvAfter(w, s, t, c);
  }

  lemma ReplySealed(s: State, flow: nat, out: Outgoing, reply: UpstreamReply, c: string)
    requires Keyed(s) && c !in s.vault && flow < |s.flows|
    requires out.entry.url == s.flows[flow].validated.entry.url
    ensures
      var t := AfterReply(s, flow, out, reply, c);
      && (c in t.vault ==> SealedOk(t, c)) && t.vault.Keys <= s.vault.Keys + {c}
      && t.flows == s.flows && t.redemptions == s.redemptions && t.redirects == s.redirects && t.renewals == s.renewals
  {
  }

  /** What a code envelope is redeemed for is its own flow's: code apart, nothing in the form can be mixed. */
  lemma RedeemFormOk(w: World, s: State, a: Action, out: Outgoing)
    requires Inv(w, s) && a.DoRedeem? && RedeemOutgoing(w, s, a) == Ok(out)
    ensures a.code.Some? && a.codeVerifier.Some? && HasOrigin(s, a.code.value) && s.origin[a.code.value] == FlowOf(s, a.code)
    ensures
      var f := s.flows[FlowOf(s, a.code)];
      && out.entry == f.validated.entry && out.form.RedeemForm? && out.form.codeVerifier == f.verifier
      && out.form.issuer == f.request.issuer && out.form.clientId == f.request.clientId
      && w.s256(a.codeVerifier.value) == f.validated.codeChallenge
      && f.startedAt <= s.now <= f.startedAt + 659
      && a.code.value in s.vault && s.vault[a.code.value].env.Code? && s.now < s.vault[a.code.value].at + 60
  {
    hide E.Open, ResourceByUrl, SourceOk, Same, Accepted, RedemptionOk, RedirectOk, RenewalOk;
    var env := E.Open(s.vault, a.code.value, E.CodeKind, s.now).value;
    OpenedIsSealed(s, a.code.value, E.CodeKind, env);
    assert FlowOk(w, s, s.flows[FlowOf(s, a.code)]);
  }

  lemma RedeemStep(w: World, s: State, a: Action)
    requires Inv(w, s) && a.DoRedeem? && Enabled(w, s, a)
    ensures Inv(w, AfterRedeem(w, s, a))
  {
    hide RedirectOk, RenewalOk, HandleAuthCode, FlowOk, AllSealed, AllFlows, SealedOk, Finalised;
    var t := AfterRedeem(w, s, a);
    var c := a.ciphertext;
    if RedeemOutgoing(w, s, a).Ok? {
      var out := RedeemOutgoing(w, s, a).value;
      RedeemFormOk(w, s, a, out);
      var flow := FlowOf(s, a.code);
      var f := s.flows[flow];
      assert f.request.codeChallenge == w.s256(f.verifier) by { FlowChallenge(w, s, f); }
      var r := Redemption(flow, a.code.value, a.codeVerifier.value, out.form, s.now);
      var s1 := if a.reply.status >= 400 then s else s.(redemptions := s.redemptions + [r]);
      ReplyExtends(s1, flow, out, a.reply, c);
      ReplySealed(s1, flow, out, a.reply, c);
      if a.reply.status < 400 { assert RedemptionOk(w, t, r); }
      InvAfter(w, s, t, c);
    }
  }

  lemma FlowChallenge(w: World, s: State, f: Flow)
    requires AllFlows(w, s) && f in s.flows
    ensures f.request.codeChallenge == w.s256(f.verifier)
  {
  }

  lemma RefreshFormOk(w: World, s: State, a: Action, out: Outgoing)
    requires Inv(w, s) && a.DoRefresh? && RefreshOutgoing(w, s, a) == Ok(out)
    ensures a.token.Some? && HasOrigin(s, a.token.value) && s.origin[a.token.value] == FlowOf(s, a.token)
    ensures out.entry == s.flows[FlowOf(s, a.token)].validated.entry
    ensures RenewalOk(s, Renewal(FlowOf(s, a.token), a.token.value, out.form))
  {
    hide E.Open, ResourceByUrl, SourceOk, Same, Accepted, RedemptionOk, RedirectOk;
    var env := E.Open(s.vault, a.token.value, E.RefreshKind, s.now).value;
    OpenedIsSealed(s, a.token.value, E.RefreshKind, env);
    assert FlowOk(w, s, s.flows[FlowOf(s, a.token)]);
  }

  lemma RefreshStep(w: World, s: State, a: Action)
    requires Inv(w, s) && a.DoRefresh? && Enabled(w, s, a)
    ensures Inv(w, AfterRefresh(w, s, a))
  {
    hide RedirectOk, HandleRefresh, FlowOk, AllSealed, AllFlows, SealedOk, Finalised;
    var t := AfterRefresh(w, s, a);
    var c := a.ciphertext;
    if RefreshOutgoing(w, s, a).Ok? {
      var out := RefreshOutgoing(w, s, a).value;
      RefreshFormOk(w, s, a, out);
      var flow := FlowOf(s, a.token);
      var r := Renewal(flow, a.token.value, out.form);
      var s1 := s.(renewals := s.renewals + [r]);
      ReplyExtends(s1, flow, out, a.reply, c);
      ReplySealed(s1, flow, out, a.reply, c);
      assert RenewalOk(t, r);
      InvAfter(w, s, t, c);
    }
  }

  lemma StepKeepsInv(w: World, s: State, a: Action)
    requires Inv(w, s) && Enabled(w, s, a)
    ensures Inv(w, Apply(w, s, a))
  {
    match a
    case DoRegister(payload, c) => RegisterStep(w, s, payload, c);
    case DoAuthorize(p, published, cid, verifier, c) => AuthorizeStep(w, s, p, published, cid, verifier, c);
    case DoCallback(state, code, error, description, c) => CallbackStep(w, s, state, code, error, description, c);
    case DoRedeem(_, _, _, _, _, _) => RedeemStep(w, s, a);
    case DoRefresh(_, _, _, _) => RefreshStep(w, s, a);
    case Tick(_) => InvAfter(w, s, Apply(w, s, a), "");
    case UpstreamLogin(_, _, _) => InvAfter(w, s, Apply(w, s, a), "");
  }

  lemma {:induction false} RunKeepsInv(w: World, actions: seq<Action>)
    requires Run(w, actions).Some?
    ensures Inv(w, Run(w, actions).value)
  {
    if actions != [] {
      var last := |actions| - 1;
      hide Inv, Enabled, Apply;
      RunKeepsInv(w, actions[..last]);
      StepKeepsInv(w, Run(w, actions[..last]).value, actions[last]);
    }
  }
}
