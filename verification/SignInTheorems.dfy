/** What the sign-in protocol guarantees in every run. */
module SignInTheorems {
  import opened Wrappers
  import opened Json
  import opened RedirectUri
  import opened Config
  import opened SignIn
  import T = TokenEndpoint
  import E = Envelope
  import A = Authorize
  import C = Callback
  import Fetcher
  import Register
  import Uri

  /** However codes and states are mixed: a redemption that the upstream accepts redeems a code minted for
      the challenge that the same /authorize emitted, and that no other /authorize emitted; the caller has
      proved that flow's own client challenge; issuer and client are those of that flow's resource; less than
      60 seconds have passed since the code was sealed, and at most 659 since that /authorize. */
  lemma AcceptedRedemptionIsOneFlow(w: World, actions: seq<Action>, r: Redemption)
    requires Injective(w.s256)
    requires Run(w, actions).Some? && r in Run(w, actions).value.redemptions
    ensures
      var s := Run(w, actions).value;
      && r.flow < |s.flows| && r.form.RedeemForm? && (r.form.issuer, r.form.code) in s.minted
      && var f, m := s.flows[r.flow], s.minted[(r.form.issuer, r.form.code)];
      && m.challenge == f.request.codeChallenge == w.s256(r.form.codeVerifier)
      && (forall i | 0 <= i < |s.flows| && s.flows[i].request.codeChallenge == m.challenge :: i == r.flow)
      && w.s256(r.presentedVerifier) == f.validated.codeChallenge
      && r.form.issuer == f.request.issuer == f.validated.entry.issuer
      && r.form.clientId == f.request.clientId == f.validated.entry.clientId == m.clientId
      && f.startedAt <= r.at <= f.startedAt + 659
      && r.code in s.vault && s.vault[r.code].env.Code? && r.at < s.vault[r.code].at + 60
  {
    hide Run, AllSealed, AllRedirects, AllRenewals, RedemptionOk, FlowOk;
    RunKeepsInv(w, actions);
    var s := Run(w, actions).value;
    assert RedemptionOk(w, s, r);
    RedemptionMeans(w, s, r);
  }

  lemma RedemptionMeans(w: World, s: State, r: Redemption)
    requires Injective(w.s256) && AllFlows(w, s) && RedemptionOk(w, s, r)
    ensures
      && r.flow < |s.flows| && r.form.RedeemForm? && (r.form.issuer, r.form.code) in s.minted
      && var f, m := s.flows[r.flow], s.minted[(r.form.issuer, r.form.code)];
      && m.challenge == f.request.codeChallenge == w.s256(r.form.codeVerifier)
      && (forall i | 0 <= i < |s.flows| && s.flows[i].request.codeChallenge == m.challenge :: i == r.flow)
      && w.s256(r.presentedVerifier) == f.validated.codeChallenge
      && r.form.issuer == f.request.issuer == f.validated.entry.issuer
      && r.form.clientId == f.request.clientId == f.validated.entry.clientId == m.clientId
      && f.startedAt <= r.at <= f.startedAt + 659
      && r.code in s.vault && s.vault[r.code].env.Code? && r.at < s.vault[r.code].at + 60
  {
    hide SourceOk, ResourceByUrl, Same, Accepted;
    var f := s.flows[r.flow];
    assert FlowOk(w, s, f);
    forall i | 0 <= i < |s.flows| && s.flows[i].request.codeChallenge == f.request.codeChallenge
      ensures i == r.flow
    {
      assert FlowOk(w, s, s.flows[i]);
      assert w.s256(s.flows[i].verifier) == w.s256(f.verifier);
    }
  }

  /** Every redirect of /callback goes to a URI that one /authorize matched against a registered list; that
      list is what /register sealed or what was kept of a validated document; and the target itself keeps
      the registration policy: it is https, or http on a loopback host. */
  lemma RedirectsWereRegistered(w: World, actions: seq<Action>, r: Redirect)
    requires Run(w, actions).Some? && r in Run(w, actions).value.redirects
    ensures
      var s := Run(w, actions).value;
      && r.flow < |s.flows|
      && var v, source := s.flows[r.flow].validated, s.flows[r.flow].source;
      && r.target == v.redirectUri && Accepted(r.target) && IsHttpsOrLoopback(r.target)
      && (exists u :: u in v.registered && Same(r.target, u) && Accepted(u))
      && match source
         case FromRegistration(c) =>
           c == v.clientId && c in s.vault && s.vault[c].env.Registration? && s.vault[c].env.redirectUris == v.registered
         case FromDocument(url, published) =>
           url == v.clientId && Fetcher.ValidateDocument(url, published).Ok?
           && Fetcher.ValidateDocument(url, published).value.redirectUris == v.registered
  {
    RunKeepsInv(w, actions);
    hide Run, AllSealed, AllRedemptions, AllRenewals, ResourceByUrl, Same, Accepted, Fetcher.ValidateDocument;
    var s := Run(w, actions).value;
    assert RedirectOk(s, r);
    assert FlowOk(w, s, s.flows[r.flow]);
    AcceptedMeans(r.target);
  }

  /** What a logged renewal says: the form carries the upstream token of the answer that handed the presented
      token out, and that answer left every other field alone. */
  predicate RenewalMeans(s: State, r: Renewal) {
    && r.flow < |s.flows| && r.token in s.issues && r.form.RefreshForm?
    && var entry, issue := s.flows[r.flow].validated.entry, s.issues[r.token];
    && issue.flow == r.flow && issue.reply.body.Some?
    && var sent := issue.reply.body.value;
    && "refresh_token" in sent && r.form.refreshToken == sent["refresh_token"]
    && issue.answer.body.Keys == sent.Keys && issue.answer.body["refresh_token"] == Str(r.token)
    && (forall k | k in sent && k != "refresh_token" :: issue.answer.body[k] == sent[k])
    && r.form.issuer == entry.issuer && r.form.clientId == entry.clientId
    && r.form.clientSecret == T.Secret(entry)
  }

  lemma RenewalOkMeans(s: State, r: Renewal)
    requires RenewalOk(s, r)
    ensures RenewalMeans(s, r)
  {
    hide T.Secret;
  }

  lemma FlowResolves(w: World, s: State, f: Flow)
    requires FlowOk(w, s, f)
    ensures ResourceByUrl(w.config.resources, f.validated.entry.url) == Ok(Some(f.validated.entry))
  {
    hide ResourceByUrl, Same, Accepted, SourceOk;
  }

  /** Through any number of refreshes: the form carries the upstream token that the answer with the presented
      token replaced, goes to the entry of the original /authorize, and that answer had left every other
      field as the upstream sent it. */
  lemma RefreshesKeepResourceAndToken(w: World, actions: seq<Action>, r: Renewal)
    requires Run(w, actions).Some? && r in Run(w, actions).value.renewals
    ensures
      var s := Run(w, actions).value;
      && RenewalMeans(s, r)
      && var entry := s.flows[r.flow].validated.entry;
      ResourceByUrl(w.config.resources, entry.url) == Ok(Some(entry))
  {
    hide Run, AllSealed, AllRedemptions, AllRedirects, RenewalOk, FlowOk, ResourceByUrl;
    RunKeepsInv(w, actions);
    var s := Run(w, actions).value;
    RenewalOkMeans(s, r);
    FlowResolves(w, s, s.flows[r.flow]);
  }

  lemma HonestCallback(w: World, vault: E.Vault, c1: string, env: E.Envelope, back: int, code: string)
    requires c1 in vault && vault[c1].env == env && env.Authorize?
    requires vault[c1].at <= back <= vault[c1].at + 600
    ensures C.Handle(w.config, vault, back, Some(c1), Some(code), None, None)
         == C.CodeRedirect(env.redirectUri, C.CodeEnvelope(env, code, back), C.NonEmpty(env.state), w.config.publicUrl)
  {
    hide E.Open;
    E.OpenExactly(vault, c1, E.AuthorizeKind, back, env);
  }

  lemma HonestRedeem(w: World, vault: E.Vault, c2: string, env: E.Envelope, now: int, verifier: string, entry: ResourceEntry)
    requires c2 in vault && vault[c2].env == env && env.Code? && now < env.exp
    requires T.VerifyChallenge(w.s256, verifier, env.clientCodeChallenge)
    requires ResourceByUrl(w.config.resources, env.resource) == Ok(Some(entry))
    ensures T.HandleAuthCode(w.config, vault, w.s256, now, Some(c2), Some(verifier), Some(env.redirectUri), Some(env.clientId))
         == Ok(T.Outgoing(T.RedeemForm(entry.issuer, env.upstreamCode, A.CallbackUrl(w.config), env.upstreamVerifier,
                                       entry.clientId, T.Secret(entry)), entry))
  {
    hide E.Open, ResourceByUrl, T.VerifyChallenge;
    E.OpenExactly(vault, c2, E.CodeKind, now, env);
  }

  /** The guarantees are not empty: from any state, a valid /authorize, a /callback within 600 seconds and a
      redemption less than 60 seconds later, with the client's own verifier, reach the upstream with that
      flow's code, verifier and client. */
  lemma HonestFlowReachesUpstream(
    w: World, s: State, p: A.Params, published: Json, cid: string, verifier: string, c1: string,
    back: int, code: string, c2: string, redeemed: int, clientVerifier: string)
    requires Keyed(s) && c1 !in s.vault && c2 !in s.vault && c1 != c2
    requires A.Validate(w.config, s.vault, published, s.now, p).Ok?
    requires s.now <= back <= s.now + 600 && back <= redeemed < back + 60
    requires T.VerifyChallenge(w.s256, clientVerifier, A.Validate(w.config, s.vault, published, s.now, p).value.codeChallenge)
    ensures
      var v := A.Validate(w.config, s.vault, published, s.now, p).value;
      var s1 := Apply(w, s, DoAuthorize(p, published, cid, verifier, c1));
      var s2 := Apply(w, s1.(now := back), DoCallback(Some(c1), Some(code), None, None, c2));
      T.HandleAuthCode(w.config, s2.vault, w.s256, redeemed, Some(c2), Some(clientVerifier), Some(v.redirectUri),
                       Some(v.clientId))
      == Ok(T.Outgoing(T.RedeemForm(v.entry.issuer, code, A.CallbackUrl(w.config), verifier, v.entry.clientId,
                                    T.Secret(v.entry)), v.entry))
  {
    hide A.Validate, C.Handle, T.HandleAuthCode, ResourceByUrl, Same, Accepted, A.RegisteredUris, T.VerifyChallenge;
    var v := A.Validate(w.config, s.vault, published, s.now, p).value;
    A.ValidatedMeans(w.config, s.vault, published, s.now, p);
    var s1 := Apply(w, s, DoAuthorize(p, published, cid, verifier, c1));
    var env := A.StateEnvelope(v, cid, verifier, s.now);
    HonestCallback(w, s1.vault, c1, env, back, code);
    var s2 := Apply(w, s1.(now := back), DoCallback(Some(c1), Some(code), None, None, c2));
    HonestRedeem(w, s2.vault, c2, C.CodeEnvelope(env, code, back), redeemed, clientVerifier, v.entry);
  }

  /** And the upstream accepts it: the request of /authorize carries the sealed state, with everything that was
      validated in it, and the challenge of its own verifier, so a code minted for that request is redeemed by
      the form above. */
  lemma HonestFlowIsAccepted(w: World, s: State, p: A.Params, published: Json, cid: string, verifier: string, c1: string,
                             code: string)
    requires A.Validate(w.config, s.vault, published, s.now, p).Ok?
    ensures
      var v := A.Validate(w.config, s.vault, published, s.now, p).value;
      var s1 := Apply(w, s, DoAuthorize(p, published, cid, verifier, c1));
      && |s1.flows| == |s.flows| + 1
      && var request := s1.flows[|s.flows|].request;
      && request == A.UpstreamRequest(v.entry.issuer, v.entry.clientId, w.config.publicUrl + "/callback",
                                      w.s256(verifier), c1, v.scope)
      && c1 in s1.vault
      && s1.vault[c1] == E.Sealed(s.now, E.Authorize(cid, v.clientId, v.redirectUri, v.state, v.entry.url,
                                                     v.codeChallenge, verifier, v.scope, s.now + 600))
      && var s2 := Apply(w, s1, UpstreamLogin(request.issuer,
                                              Minted(request.clientId, request.redirectUri, request.codeChallenge), code));
      UpstreamAccepts(w, s2, T.RedeemForm(v.entry.issuer, code, A.CallbackUrl(w.config), verifier, v.entry.clientId,
                                          T.Secret(v.entry)))
  {
    hide A.Validate;
  }

  /** A client that registered is known at /authorize from then on, without a lifetime, by exactly the URIs it
      registered, and may use each of them. */
  lemma RegistrationComesBack(w: World, s: State, payload: Json, c: string, published: Json, later: int)
    requires Register.Validate(payload).Ok? && !A.IsHttpsUrl(c)
    ensures
      var uris := Register.Validate(payload).value.redirectUris;
      var s1 := Apply(w, s, DoRegister(payload, c));
      && A.RegisteredUris(s1.vault, c, published, later) == Ok(uris)
      && E.Open(s1.vault, c, E.RegistrationKind, later)
         == Ok(E.Registration(uris, "none", s.now, Register.Validate(payload).value.clientName))
      && forall u | u in uris :: MatchesAny(u, uris) == Ok(true)
  {
    RegisteredAccepted(payload);
    OnlyPublicClients(payload);
    hide Register.Validate, E.Open, Accepted, MatchesAny, Same, A.IsHttpsUrl;
    var m := Register.Validate(payload).value;
    var s1 := Apply(w, s, DoRegister(payload, c));
    E.OpenExactly(s1.vault, c, E.RegistrationKind, later, Register.Seal(m, s.now));
    forall u | u in m.redirectUris ensures MatchesAny(u, m.redirectUris) == Ok(true) {
      AcceptedParses(u);
      MatchesAnyAnswers(u, m.redirectUris);
    }
  }

  lemma OnlyPublicClients(payload: Json)
    requires Register.Validate(payload).Ok?
    ensures Register.Validate(payload).value.authMethod == "none"
  {
    hide Register.CheckAll;
  }

  lemma AcceptedParses(u: string)
    requires Accepted(u)
    ensures Uri.UrlSplit(u).Ok? && Same(u, u)
  {
    hide Uri.UrlSplit, Uri.Hostname, IsLoopbackHost;
    UnparseableExactly(u);
    SameIsEquivalence(u, u, u);
  }

  // ----- refreshing ------------------------------------------------------------

  lemma StepExtends(w: World, s: State, a: Action)
    requires Keyed(s) && Enabled(w, s, a)
    ensures Extends(s, Apply(w, s, a)) && Keyed(Apply(w, s, a))
  {
    hide A.Validate, C.Handle, RedeemOutgoing, RefreshOutgoing, Register.Validate, T.Finalised, UpstreamAccepts;
    match a
    case DoRegister(payload, c) => RegisterExtends(s, payload, c);
    case DoAuthorize(p, published, cid, verifier, c) => AuthorizeExtends(w, s, p, published, cid, verifier, c);
    case DoCallback(state, code, error, description, c) => CallbackExtends(w, s, state, code, error, description, c);
    case DoRedeem(code, codeVerifier, _, _, reply, c) =>
      if RedeemOutgoing(w, s, a).Ok? && code.Some? && codeVerifier.Some? {
        var out := RedeemOutgoing(w, s, a).value;
        var s1 := if reply.status >= 400 then s else
          s.(redemptions := s.redemptions + [Redemption(FlowOf(s, code), code.value, codeVerifier.value, out.form, s.now)]);
        ReplyExtends(s1, FlowOf(s, code), out, reply, c);
      }
    case DoRefresh(token, _, reply, c) =>
      if RefreshOutgoing(w, s, a).Ok? && token.Some? {
        var out := RefreshOutgoing(w, s, a).value;
        ReplyExtends(s.(renewals := s.renewals + [Renewal(FlowOf(s, token), token.value, out.form)]), FlowOf(s, token), out, reply, c);
      }
    case Tick(_) =>
    case UpstreamLogin(_, _, _) =>
  }

  /** Over any continuation of a run the clock does not go back, and nothing sealed, minted or logged is lost. */
  lemma {:induction false} RunsExtend(w: World, before: seq<Action>, after: seq<Action>)
    requires Run(w, before + after).Some?
    ensures Run(w, before).Some? && Extends(Run(w, before).value, Run(w, before + after).value)
  {
    if |after| == 0 {
      assert before + after == before;
    } else {
      var last := |after| - 1;
      var all := before + after;
      assert all[..|all| - 1] == before + after[..last] && all[|all| - 1] == after[last];
      RunBack(w, all);
      hide Run, Enabled, Apply, AllSealed, AllFlows, AllRedemptions, AllRedirects, AllRenewals;
      RunsExtend(w, before, after[..last]);
      RunKeepsInv(w, before + after[..last]);
      StepExtends(w, Run(w, before + after[..last]).value, after[last]);
    }
  }

  lemma RunBack(w: World, all: seq<Action>)
    requires |all| > 0 && Run(w, all).Some?
    ensures Run(w, all[..|all| - 1]).Some?
    ensures Enabled(w, Run(w, all[..|all| - 1]).value, all[|all| - 1])
    ensures Run(w, all).value == Apply(w, Run(w, all[..|all| - 1]).value, all[|all| - 1])
  {
    hide Enabled, Apply;
  }

  predicate IsTokenRequest(a: Action) { a.DoRedeem? || a.DoRefresh? }

  function OutgoingOf(w: World, s: State, a: Action): Result<T.Outgoing, T.Refusal>
    requires IsTokenRequest(a)
  {
    if a.DoRedeem? then RedeemOutgoing(w, s, a) else RefreshOutgoing(w, s, a)
  }

  /** The answer `c` of a state: its record, its flow, and what the client got in place of the token. */
  predicate Sealing(t: State, c: string, entry: ResourceEntry, token: Json) {
    && c in t.vault && t.vault[c].env == E.Refresh(entry.url, token)
    && c in t.origin && t.origin[c] < |t.flows| && t.flows[t.origin[c]].validated.entry == entry
    && c in t.issues && "refresh_token" in t.issues[c].answer.body
    && t.issues[c].answer.body["refresh_token"] == Str(c)
  }

  lemma ReplySeals(s: State, flow: nat, out: T.Outgoing, reply: T.UpstreamReply, c: string)
    requires flow < |s.flows| && s.flows[flow].validated.entry == out.entry
    requires reply.body.Some? && reply.status < 400 && "refresh_token" in reply.body.value
    ensures Sealing(AfterReply(s, flow, out, reply, c), c, out.entry, reply.body.value["refresh_token"])
  {
  }

  /** A success of /token with a refresh token seals it, under the new ciphertext, with its flow's resource. */
  lemma SuccessSeals(w: World, s: State, a: Action)
    requires Inv(w, s) && IsTokenRequest(a) && Enabled(w, s, a) && OutgoingOf(w, s, a).Ok?
    requires a.reply.body.Some? && a.reply.status < 400 && "refresh_token" in a.reply.body.value
    ensures
      var entry := OutgoingOf(w, s, a).value.entry;
      && Sealing(Apply(w, s, a), a.ciphertext, entry, a.reply.body.value["refresh_token"])
      && ResourceByUrl(w.config.resources, entry.url) == Ok(Some(entry))
  {
    hide Inv, RedeemOutgoing, RefreshOutgoing, FlowOf, AfterReply, FlowOk, Sealing, UpstreamAccepts, RenewalOk, ResourceByUrl;
    var out := OutgoingOf(w, s, a).value;
    if a.DoRedeem? {
      RedeemFormOk(w, s, a, out);
      var flow := FlowOf(s, a.code);
      FlowOfInv(w, s, flow);
      var r := Redemption(flow, a.code.value, a.codeVerifier.value, out.form, s.now);
      ReplySeals(s.(redemptions := s.redemptions + [r]), flow, out, a.reply, a.ciphertext);
    } else {
      RefreshFormOk(w, s, a, out);
      var flow := FlowOf(s, a.token);
      FlowOfInv(w, s, flow);
      var r := Renewal(flow, a.token.value, out.form);
      ReplySeals(s.(renewals := s.renewals + [r]), flow, out, a.reply, a.ciphertext);
    }
  }

  lemma FlowOfInv(w: World, s: State, flow: nat)
    requires Inv(w, s) && flow < |s.flows|
    ensures
      var entry := s.flows[flow].validated.entry;
      ResourceByUrl(w.config.resources, entry.url) == Ok(Some(entry))
  {
    hide FlowOk, AllSealed, AllRedemptions, AllRedirects, AllRenewals, ResourceByUrl;
    FlowResolves(w, s, s.flows[flow]);
  }

  lemma SealingKept(s: State, t: State, c: string, entry: ResourceEntry, token: Json)
    requires Extends(s, t) && Sealing(s, c, entry, token)
    ensures Sealing(t, c, entry, token)
  {
  }

  lemma SealedRefreshes(w: World, u: State, c: string, entry: ResourceEntry, token: Json, scope: Option<string>)
    requires Sealing(u, c, entry, token) && ResourceByUrl(w.config.resources, entry.url) == Ok(Some(entry))
    ensures
      T.HandleRefresh(w.config, u.vault, u.now, Some(c), scope)
      == Ok(T.Outgoing(T.RefreshForm(entry.issuer, token, entry.clientId,
                                     if entry.clientSecret == "" then None else Some(entry.clientSecret),
                                     if scope == Some("") then None else scope), entry))
  {
    hide T.HandleRefresh, ResourceByUrl;
    var form := T.RefreshForm(entry.issuer, token, entry.clientId,
                              if entry.clientSecret == "" then None else Some(entry.clientSecret),
                              if scope == Some("") then None else scope);
    T.RefreshedExactly(w.config, u.vault, u.now, Some(c), scope, T.Outgoing(form, entry));
  }

  /** An honest refresh: after a success of /token that carried a refresh token, however much later and
      whatever came between, the client holds a sealed string in its place, and presenting that string sends
      the upstream token, for that flow's entry. */
  lemma RefreshReachesUpstream(w: World, before: seq<Action>, a: Action, after: seq<Action>, scope: Option<string>)
    requires IsTokenRequest(a) && Run(w, before + [a] + after).Some? && Run(w, before).Some?
    requires OutgoingOf(w, Run(w, before).value, a).Ok?
    requires a.reply.body.Some? && a.reply.status < 400 && "refresh_token" in a.reply.body.value
    ensures
      var u := Run(w, before + [a] + after).value;
      var entry, token := OutgoingOf(w, Run(w, before).value, a).value.entry, a.reply.body.value["refresh_token"];
      && Sealing(u, a.ciphertext, entry, token)
      && T.HandleRefresh(w.config, u.vault, u.now, Some(a.ciphertext), scope)
         == Ok(T.Outgoing(T.RefreshForm(entry.issuer, token, entry.clientId,
                                        if entry.clientSecret == "" then None else Some(entry.clientSecret),
                                        if scope == Some("") then None else scope), entry))
  {
    var all := before + [a];
    assert all[..|all| - 1] == before && all[|all| - 1] == a;
    hide Run, Enabled, Apply, Inv, OutgoingOf, ResourceByUrl, T.HandleRefresh, Sealing, Extends;
    RunsExtend(w, all, after);
    RunBack(w, all);
    RunKeepsInv(w, before);
    var s := Run(w, before).value;
    var entry, token := OutgoingOf(w, s, a).value.entry, a.reply.body.value["refresh_token"];
    SuccessSeals(w, s, a);
    SealingKept(Run(w, all).value, Run(w, all + after).value, a.ciphertext, entry, token);
    SealedRefreshes(w, Run(w, all + after).value, a.ciphertext, entry, token, scope);
  }
}
