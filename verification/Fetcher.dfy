/** Client metadata documents (src/cimd_proxy/fetcher.py): the shape of a client-id URL, the checks on a
    fetched document, and which of its redirect URIs are kept. */
module Fetcher {
  import opened Wrappers
  import opened Text
  import opened Json
  import opened Uri
  import opened RedirectUri

  datatype FetchError = SsrfRefused | Unavailable | DocumentInvalid | Crashed

  datatype CimdDocument = CimdDocument(
    clientId: string, redirectUris: seq<string>, raw: map<string, Json>, cacheControl: Option<string>)

  const FORBIDDEN_METHODS := {"client_secret_post", "client_secret_basic", "client_secret_jwt"}

  // ----- the client-id URL --------------------------------------------------

  /** `SplitResult.port`: the text after the host's colon, a number up to 65535 if present. */
  function Port(netloc: string): Result<Option<nat>, ValueError> {
    var info := AfterLast(netloc, '@');
    var port := After(if '[' in info then After(After(info, '['), ']') else info, ':');
    if port == "" then Ok(None)
    else if AllDigits(port) && FromDecimal(port) <= 65535 then Ok(Some(FromDecimal(port)))
    else Err(ValueError)
  }

  datatype ClientIdUrl = ClientIdUrl(hostname: string, port: nat, path: string, query: string)

  function ParseClientIdUrl(url: string): Result<ClientIdUrl, FetchError> {
    if url == "" then Err(SsrfRefused) else
      match UrlSplit(url)
      case Err(_) => Err(Crashed)
      case Ok(s) =>
        if s.scheme != "https" || s.fragment != "" || '@' in s.netloc then Err(SsrfRefused)
        else if Hostname(s.netloc).None? || s.path in ["", "/"] then Err(SsrfRefused)
        else
          match Port(s.netloc)
          case Err(_) => Err(Crashed)
          case Ok(port) =>
            Ok(ClientIdUrl(Hostname(s.netloc).value, if port.Some? then port.value else 443, s.path, s.query))
  }

  // ----- the document -------------------------------------------------------

  /** The entries that pass the redirect policy, in order. */
  function Kept(uris: seq<string>): seq<string> {
    if uris == [] then [] else
      var last := |uris| - 1;
      Kept(uris[..last]) + (if Accepted(uris[last]) then [uris[last]] else [])
  }

  lemma {:induction false} KeptExactly(uris: seq<string>, u: string)
    ensures u in Kept(uris) <==> u in uris && Accepted(u)
  {
    hide AcceptRegistered;
    if uris != [] {
      var last := |uris| - 1;
      KeptExactly(uris[..last], u);
      assert uris == uris[..last] + [uris[last]];
    }
  }

  /** Each entry is kept or dropped on its own, in place: with `KeptOne` this makes it the ordered list of what is accepted. */
  lemma {:induction false} KeptAppends(a: seq<string>, b: seq<string>)
    ensures Kept(a + b) == Kept(a) + Kept(b)
  {
    hide Accepted;
    if b == [] {
      assert a + b == a;
    } else {
      var last := |b| - 1;
      KeptAppends(a, b[..last]);
      assert (a + b)[..|a + b| - 1] == a + b[..last];
    }
  }

  lemma KeptOne(u: string)
    ensures Kept([u]) == if Accepted(u) then [u] else []
  {
    hide Accepted;
    assert [u][..0] == [];
  }

  predicate AllParse(uris: seq<string>) { forall u | u in uris :: UrlSplit(u).Ok? }

  /** Keep what the policy accepts; refuse a document that has nothing to keep. */
  function UsableRedirectUris(uris: seq<string>): Result<seq<string>, FetchError> {
    if !AllParse(uris) then Err(Crashed)
    else if Kept(uris) == [] then Err(DocumentInvalid)
    else Ok(Kept(uris))
  }

  /** The loop that sorts the entries; the parser's error escapes it. */
  method FindUsableRedirectUris(uris: seq<string>) returns (r: Result<seq<string>, FetchError>)
    ensures r == UsableRedirectUris(uris)
  {
    hide UrlSplit, AcceptRegistered;
    var kept: seq<string> := [];
    for i := 0 to |uris|
      invariant kept == Kept(uris[..i]) && AllParse(uris[..i])
    {
      assert uris[..i + 1] == uris[..i] + [uris[i]];
      assert uris[..i + 1][..i] == uris[..i] && uris[i] in uris;
      UnparseableExactly(uris[i]);
      match AcceptRegistered(uris[i])
      case Err(Unparseable) => return Err(Crashed);
      case Err(_) =>
      case Ok(_) => kept := kept + [uris[i]];
    }
    assert uris[..|uris|] == uris;
    r := if kept == [] then Err(DocumentInvalid) else Ok(kept);
  }

  /** `validate_document`, for the document published at `url`. */
  function ValidateDocument(url: string, document: Json): Result<CimdDocument, FetchError> {
    if !document.Obj? then Err(DocumentInvalid) else
      var m := ToMap(document.members);
      if "client_id" !in m || m["client_id"] != Str(url) then Err(DocumentInvalid)
      else if "client_secret" in m || "client_secret_expires_at" in m then Err(DocumentInvalid)
      else if "token_endpoint_auth_method" in m && m["token_endpoint_auth_method"].Str?
              && m["token_endpoint_auth_method"].s in FORBIDDEN_METHODS then Err(DocumentInvalid)
      else if "redirect_uris" !in m || !IsStringList(m["redirect_uris"]) then Err(DocumentInvalid)
      else
        match UsableRedirectUris(StringItems(m["redirect_uris"]))
        case Err(e) => Err(e)
        case Ok(kept) => Ok(CimdDocument(url, kept, m, None))
  }

  /** A non-empty array of non-empty strings. */
  predicate IsStringList(j: Json) {
    j.Arr? && j.items != [] && forall x | x in j.items :: x.Str? && x.s != ""
  }

  function StringItems(j: Json): seq<string>
    requires IsStringList(j)
  {
    seq(|j.items|, i requires 0 <= i < |j.items| => j.items[i].s)
  }

  /** A validated document is the URL's own, and carries accepted URIs that it lists, at least one. */
  lemma ValidatedDocument(url: string, document: Json)
    requires ValidateDocument(url, document).Ok?
    ensures
      var d := ValidateDocument(url, document).value;
      && d.clientId == url && d.redirectUris != []
      && "redirect_uris" in d.raw && d.raw["redirect_uris"].Arr?
      && forall u :: u in d.redirectUris <==> Str(u) in d.raw["redirect_uris"].items && Accepted(u)
  {
    hide UrlSplit, AcceptRegistered, Kept, AllParse;
    var d := ValidateDocument(url, document).value;
    var listed := d.raw["redirect_uris"];
    var uris := StringItems(listed);
    forall u
      ensures u in d.redirectUris <==> Str(u) in listed.items && Accepted(u)
    {
      KeptExactly(uris, u);
      if Str(u) in listed.items {
        var i :| 0 <= i < |listed.items| && listed.items[i] == Str(u);
        assert uris[i] == u;
      }
    }
  }

  /** A document is accepted exactly when it is an object that names its own URL, carries no secret and no
      secret's expiry, asks for no method with a shared secret, and lists redirect URIs that all parse and of
      which at least one keeps the policy. */
  lemma AcceptedExactly(url: string, document: Json)
    ensures ValidateDocument(url, document).Ok? <==>
      && document.Obj?
      && var m := ToMap(document.members);
      && "client_id" in m && m["client_id"] == Str(url)
      && "client_secret" !in m && "client_secret_expires_at" !in m
      && ("token_endpoint_auth_method" in m ==>
          m["token_endpoint_auth_method"]
          !in {Str("client_secret_post"), Str("client_secret_basic"), Str("client_secret_jwt")})
      && "redirect_uris" in m && IsStringList(m["redirect_uris"])
      && (forall u | Str(u) in m["redirect_uris"].items :: UrlSplit(u).Ok?)
      && exists u :: Str(u) in m["redirect_uris"].items && Accepted(u)
  {
    hide UrlSplit, AcceptRegistered, ToMap, UsableRedirectUris;
    if document.Obj? {
      var m := ToMap(document.members);
      if "redirect_uris" in m && IsStringList(m["redirect_uris"]) { UsableExactly(m["redirect_uris"]); }
      hide IsStringList;
      if "token_endpoint_auth_method" in m && m["token_endpoint_auth_method"].Str? {
        assert m["token_endpoint_auth_method"] == Str(m["token_endpoint_auth_method"].s);
      }
    }
  }

  lemma UsableExactly(listed: Json)
    requires IsStringList(listed)
    ensures UsableRedirectUris(StringItems(listed)).Ok? <==>
      (forall u | Str(u) in listed.items :: UrlSplit(u).Ok?) && exists u :: Str(u) in listed.items && Accepted(u)
  {
    hide UrlSplit, AcceptRegistered, Kept;
    var uris := StringItems(listed);
    forall u ensures u in uris <==> Str(u) in listed.items {
      if Str(u) in listed.items {
        var i :| 0 <= i < |listed.items| && listed.items[i] == Str(u);
        assert uris[i] == u;
      }
    }
    forall u ensures u in Kept(uris) <==> u in uris && Accepted(u) { KeptExactly(uris, u); }
    if Kept(uris) != [] { assert Kept(uris)[0] in Kept(uris); }
  }

  /** The text behind a host: no port, or a colon and digits up to 65535, or a colon alone. */
  predicate IsPortText(port: string) {
    port == "" || (port[0] == ':' && AllDigits(port[1..]) && (port == ":" || FromDecimal(port[1..]) <= 65535))
  }

  lemma PortOf(host: string, port: string)
    requires IsPlainAuthority(host, port)
    ensures Port(host + port).Ok? <==> IsPortText(port)
    ensures IsPortText(port) ==> Port(host + port) == Ok(if |port| <= 1 then None else Some(FromDecimal(port[1..])))
  {
    hide FromDecimal, AllDigits;
    var n := host + port;
    assert forall i | 0 <= i < |n| :: n[i] in host || n[i] in port;
    assert '@' !in n && '[' !in n && ':' !in host;
    if port == "" {
      assert n == host;
    } else {
      assert n == host + [':'] + port[1..];
      CutBack(host, ':', port[1..]);
      assert |port| == 1 <==> port[1..] == "";
    }
    assert AllDigits("") by { NoDigits(); }
  }

  lemma NoDigits()
    ensures AllDigits("")
  {
  }

  /** A client-id URL written out is taken exactly if it is https, has a host, a path beyond the root, no fragment
      and a proper port; host, port, path and query are read off, the port being 443 if none is named. */
  lemma ClientIdUrlExactly(scheme: string, host: string, port: string, path: string, query: Option<string>,
                           fragment: Option<string>)
    requires IsScheme(scheme) && IsPlainAuthority(host, port) && ArePathAndQuery(path, query)
    requires IsClean(scheme + ":" + ("//" + (host + port) + TailText(path, query, fragment)))
    ensures
      var r := ParseClientIdUrl(scheme + ":" + ("//" + (host + port) + TailText(path, query, fragment)));
      && (r.Ok? <==>
          Lower(scheme) == "https" && host != "" && path !in ["", "/"] && OrNothing(fragment) == "" && IsPortText(port))
      && (r.Ok? ==>
          r.value == ClientIdUrl(Lower(host), if |port| <= 1 then 443 else FromDecimal(port[1..]), path, OrNothing(query)))
  {
    hide UrlSplit, Hostname, Lower, TailText, OrNothing, IsScheme, IsClean, IsNetloc, BracketsBalanced, ArePathAndQuery;
    hide IsPlainAuthority, Port, IsPortText, FromDecimal;
    PlainAuthority(host, port);
    PortOf(host, port);
    SplitOfParts(scheme, host + port, path, query, fragment);
  }

  /** User information is refused here too, whatever else the URL says. */
  lemma ClientIdUserInfoRefused(scheme: string, netloc: string, path: string, query: Option<string>, fragment: Option<string>)
    requires IsScheme(scheme) && IsNetloc(netloc) && BracketsBalanced(netloc) && ArePathAndQuery(path, query)
    requires IsClean(scheme + ":" + ("//" + netloc + TailText(path, query, fragment))) && '@' in netloc
    ensures ParseClientIdUrl(scheme + ":" + ("//" + netloc + TailText(path, query, fragment))) == Err(SsrfRefused)
  {
    hide UrlSplit, Hostname, Lower, TailText, OrNothing, IsScheme, IsClean, IsNetloc, BracketsBalanced, ArePathAndQuery, Port;
    SplitOfParts(scheme, netloc, path, query, fragment);
  }
}
