/** Fernet envelopes (src/cimd_proxy/envelope.py): four kinds of sealed record, written as compact
    JSON with sorted keys. Fernet itself is ideal: what opens was sealed, with the time of sealing. */
module Envelope {
  import opened Wrappers
  import opened Json

  datatype Envelope =
    | Authorize(correlationId: string, clientId: string, redirectUri: string, state: string, resource: string,
                clientCodeChallenge: string, upstreamVerifier: string, scope: string, exp: int)
    | Code(correlationId: string, upstreamCode: string, upstreamVerifier: string, resource: string,
           clientId: string, clientCodeChallenge: string, redirectUri: string, exp: int)
    | Refresh(resource: string, upstreamRefreshToken: Json)
    | Registration(redirectUris: seq<string>, tokenEndpointAuthMethod: string, clientIdIssuedAt: int,
                   clientName: string)

  datatype Kind = AuthorizeKind | CodeKind | RefreshKind | RegistrationKind

  function KindOf(e: Envelope): Kind {
    match e
    case Authorize(_, _, _, _, _, _, _, _, _) => AuthorizeKind
    case Code(_, _, _, _, _, _, _, _) => CodeKind
    case Refresh(_, _) => RefreshKind
    case Registration(_, _, _, _) => RegistrationKind
  }

  function Tag(k: Kind): string {
    match k
    case AuthorizeKind => "az"
    case CodeKind => "cd"
    case RefreshKind => "rt"
    case RegistrationKind => "rg"
  }

  /** The dataclass fields and the tag, as the dictionary that is written. */
  function Payload(e: Envelope): map<string, Json> {
    var tag := Str(Tag(KindOf(e)));
    match e
    case Authorize(cid, client, uri, state, resource, challenge, verifier, scope, exp) =>
      map["correlation_id" := Str(cid), "client_id" := Str(client), "redirect_uri" := Str(uri),
          "state" := Str(state), "resource" := Str(resource), "client_code_challenge" := Str(challenge),
          "upstream_verifier" := Str(verifier), "scope" := Str(scope), "exp" := Num(exp), "tag" := tag]
    case Code(cid, code, verifier, resource, client, challenge, uri, exp) =>
      map["correlation_id" := Str(cid), "upstream_code" := Str(code), "upstream_verifier" := Str(verifier),
          "resource" := Str(resource), "client_id" := Str(client), "client_code_challenge" := Str(challenge),
          "redirect_uri" := Str(uri), "exp" := Num(exp), "tag" := tag]
    case Refresh(resource, token) =>
      map["resource" := Str(resource), "upstream_refresh_token" := token, "tag" := tag]
    case Registration(uris, auth, issued, name) =>
      map["redirect_uris" := Arr(Strings(uris)), "token_endpoint_auth_method" := Str(auth),
          "client_id_issued_at" := Num(issued), "client_name" := Str(name), "tag" := tag]
  }

  function Strings(ss: seq<string>): seq<Json> { seq(|ss|, i requires 0 <= i < |ss| => Str(ss[i])) }

  predicate AllStrings(js: seq<Json>) { forall j | j in js :: j.Str? }

  function Unstrings(js: seq<Json>): seq<string>
    requires AllStrings(js)
  {
    seq(|js|, i requires 0 <= i < |js| => js[i].s)
  }

  // ----- sorted keys --------------------------------------------------------

  /** Lexicographic order by code point. */
  predicate KeyLe(a: string, b: string) {
    a == "" || (b != "" && (a[0] < b[0] || (a[0] == b[0] && KeyLe(a[1..], b[1..]))))
  }

  lemma {:induction a, b} KeyLeTotal(a: string, b: string)
    ensures KeyLe(a, b) || KeyLe(b, a)
  {
  }

  lemma KeyLeTransitive(a: string, b: string, c: string)
    requires KeyLe(a, b) && KeyLe(b, c)
    ensures KeyLe(a, c)
  {
  }

  lemma KeyLeAntisymmetric(a: string, b: string)
    requires KeyLe(a, b) && KeyLe(b, a)
    ensures a == b
  {
    if a != "" { KeyLeAntisymmetric(a[1..], b[1..]); }
  }

  predicate IsLeast(k: string, ks: set<string>) { k in ks && forall x | x in ks :: KeyLe(k, x) }

  lemma {:induction false} LeastExists(ks: set<string>)
    requires ks != {}
    ensures exists k :: IsLeast(k, ks)
    decreases |ks|
  {
    var a :| a in ks;
    var rest := ks - {a};
    KeyLeTotal(a, a);
    if rest == {} {
      assert ks == {a};
      assert IsLeast(a, ks);
    } else {
      LeastExists(rest);
      var b :| IsLeast(b, rest);
      KeyLeTotal(a, b);
      if KeyLe(a, b) {
        forall x | x in ks ensures KeyLe(a, x) { if x != a { KeyLeTransitive(a, b, x); } }
        assert IsLeast(a, ks);
      } else {
        assert IsLeast(b, ks);
      }
    }
  }

  function LeastKey(ks: set<string>): (k: string)
    requires ks != {}
    ensures IsLeast(k, ks)
  {
    LeastExists(ks);
    assert forall a, b | IsLeast(a, ks) && IsLeast(b, ks) :: a == b by {
      forall a, b | IsLeast(a, ks) && IsLeast(b, ks) ensures a == b { KeyLeAntisymmetric(a, b); }
    }
    var k :| IsLeast(k, ks);
    k
  }

  /** The members of a dictionary in key order, as `sort_keys=True` writes them. */
  function SortedMembers(m: map<string, Json>): (ms: seq<Member>)
    ensures forall x | x in ms :: x.key in m.Keys
    ensures forall i, j | 0 <= i < j < |ms| :: KeyLe(ms[i].key, ms[j].key) && ms[i].key != ms[j].key
    decreases |m|
  {
    if m == map[] then [] else
      var k := LeastKey(m.Keys);
      var rest := m - {k};
      assert rest.Keys == m.Keys - {k};
      [Member(k, m[k])] + SortedMembers(rest)
  }

  lemma {:induction false} ToMapCons(x: Member, ms: seq<Member>)
    requires forall y | y in ms :: y.key != x.key
    ensures ToMap([x] + ms) == map[x.key := x.value] + ToMap(ms)
  {
    var all := [x] + ms;
    if ms == [] {
      assert all[..0] == [];
    } else {
      var last := |ms| - 1;
      assert all[..|all| - 1] == [x] + ms[..last] && all[|all| - 1] == ms[last];
      ToMapCons(x, ms[..last]);
    }
  }

  lemma ToMapPutBack(m: map<string, Json>, k: string, ms: seq<Member>)
    requires k in m && ToMap(ms) == m - {k} && forall y | y in ms :: y.key != k
    ensures ToMap([Member(k, m[k])] + ms) == m
  {
    ToMapCons(Member(k, m[k]), ms);
    assert map[k := m[k]] + (m - {k}) == m;
  }

  /** Writing the sorted members loses nothing of the dictionary. */
  lemma {:induction false} SortedMembersKeepAll(m: map<string, Json>)
    ensures ToMap(SortedMembers(m)) == m
    decreases |m|
  {
    if m != map[] {
      hide ToMap, LeastKey, KeyLe;
      var k := LeastKey(m.Keys);
      var rest := m - {k};
      assert rest.Keys == m.Keys - {k};
      SortedMembersKeepAll(rest);
      var ms := SortedMembers(rest);
      assert SortedMembers(m) == [Member(k, m[k])] + ms;
      assert forall y | y in ms :: y.key in rest.Keys;
      ToMapPutBack(m, k, ms);
    }
  }

  // ----- packing and opening ------------------------------------------------

  /** The plain text Fernet seals. */
  function Pack(e: Envelope): string { Print(Obj(SortedMembers(Payload(e)))) }

  datatype EnvelopeError = NotSealedOrExpired | NotJson | TagMismatch | WrongFields

  predicate Strs(m: map<string, Json>, keys: set<string>) { forall k | k in keys :: k in m && m[k].Str? }

  /** The constructor call `Kind(**fields)`. */
  function Build(k: Kind, m: map<string, Json>): Result<Envelope, EnvelopeError> {
    match k
    case AuthorizeKind =>
      var strs := {"correlation_id", "client_id", "redirect_uri", "state", "resource", "client_code_challenge",
                   "upstream_verifier", "scope"};
      if m.Keys == strs + {"exp", "tag"} && Strs(m, strs) && m["exp"].Num? then
        Ok(Authorize(m["correlation_id"].s, m["client_id"].s, m["redirect_uri"].s, m["state"].s, m["resource"].s,
                     m["client_code_challenge"].s, m["upstream_verifier"].s, m["scope"].s, m["exp"].n))
      else Err(WrongFields)
    case CodeKind =>
      var strs := {"correlation_id", "upstream_code", "upstream_verifier", "resource", "client_id",
                   "client_code_challenge", "redirect_uri"};
      if m.Keys == strs + {"exp", "tag"} && Strs(m, strs) && m["exp"].Num? then
        Ok(Code(m["correlation_id"].s, m["upstream_code"].s, m["upstream_verifier"].s, m["resource"].s,
                m["client_id"].s, m["client_code_challenge"].s, m["redirect_uri"].s, m["exp"].n))
      else Err(WrongFields)
    case RefreshKind =>
      if m.Keys == {"resource", "upstream_refresh_token", "tag"} && m["resource"].Str?
      then Ok(Refresh(m["resource"].s, m["upstream_refresh_token"]))
      else Err(WrongFields)
    case RegistrationKind =>
      // `client_name` has a default; the list of URIs is turned back into a tuple.
      var strs := {"token_endpoint_auth_method"};
      if && m.Keys - {"client_name"} == strs + {"redirect_uris", "client_id_issued_at", "tag"}
         && Strs(m, strs) && m["client_id_issued_at"].Num?
         && m["redirect_uris"].Arr? && AllStrings(m["redirect_uris"].items)
         && ("client_name" in m ==> m["client_name"].Str?)
      then Ok(Registration(Unstrings(m["redirect_uris"].items), m["token_endpoint_auth_method"].s,
                           m["client_id_issued_at"].n, if "client_name" in m then m["client_name"].s else ""))
      else Err(WrongFields)
  }

  /** `_open` after decryption, and the `open_*` wrapper of the expected kind. */
  function OpenText(text: string, k: Kind): Result<Envelope, EnvelopeError> {
    match Loads(text)
    case Fail => Err(NotJson)
    case Got(j, _) =>
      if !j.Obj? then Err(NotJson) else
        var m := ToMap(j.members);
        if "tag" !in m || m["tag"] != Str(Tag(k)) then Err(TagMismatch) else Build(k, m)
  }

  lemma BuildAuthorize(e: Envelope)
    requires e.Authorize?
    ensures Build(AuthorizeKind, Payload(e)) == Ok(e)
  {
  }

  lemma BuildCode(e: Envelope)
    requires e.Code?
    ensures Build(CodeKind, Payload(e)) == Ok(e)
  {
  }

  lemma BuildRefresh(e: Envelope)
    requires e.Refresh?
    ensures Build(RefreshKind, Payload(e)) == Ok(e)
  {
  }

  lemma BuildRegistration(e: Envelope)
    requires e.Registration?
    ensures Build(RegistrationKind, Payload(e)) == Ok(e)
  {
    assert Unstrings(Strings(e.redirectUris)) == e.redirectUris;
  }

  /** A packed envelope opens as its own kind, field for field, and as no other kind. */
  lemma OpenPacked(e: Envelope, k: Kind)
    ensures OpenText(Pack(e), k) == if k == KindOf(e) then Ok(e) else Err(TagMismatch)
  {
    hide Loads, Print, SortedMembers, Build;
    LoadsPrint(Obj(SortedMembers(Payload(e))));
    SortedMembersKeepAll(Payload(e));
    match e
    case Authorize(_, _, _, _, _, _, _, _, _) => BuildAuthorize(e);
    case Code(_, _, _, _, _, _, _, _) => BuildCode(e);
    case Refresh(_, _) => BuildRefresh(e);
    case Registration(_, _, _, _) => BuildRegistration(e);
  }

  // ----- Fernet -------------------------------------------------------------

  /** What one Fernet ciphertext holds: the time it was sealed and the record packed into it. */
  datatype Sealed = Sealed(at: int, env: Envelope)

  /** The ciphertexts in circulation. Whatever is not listed here does not decrypt. */
  type Vault = map<string, Sealed>

  const CLOCK_SKEW := 60

  const STATE_LIFETIME := 600

  /** Fernet's time check: the age is at most `ttl`, and the stamp is not too far ahead. */
  predicate InTime(at: int, now: int, ttl: Option<int>) {
    ttl.Some? ==> now <= at + ttl.value && at <= now + CLOCK_SKEW
  }

  function Lifetime(k: Kind): Option<int> {
    if k.AuthorizeKind? then Some(STATE_LIFETIME) else None
  }

  /** `codec.open_*`: decrypt any presented string and open it as the expected kind. */
  function Open(vault: Vault, token: string, k: Kind, now: int): Result<Envelope, EnvelopeError> {
    if token in vault && InTime(vault[token].at, now, Lifetime(k))
    then OpenText(Pack(vault[token].env), k)
    else Err(NotSealedOrExpired)
  }

  /** Exactly the sealed records of the expected kind open, in their lifetime, unchanged. */
  lemma OpenExactly(vault: Vault, token: string, k: Kind, now: int, e: Envelope)
    ensures Open(vault, token, k, now) == Ok(e)
      <==> (token in vault && vault[token].env == e && KindOf(e) == k && InTime(vault[token].at, now, Lifetime(k)))
  {
    hide OpenText, Pack;
    if token in vault { OpenPacked(vault[token].env, k); }
  }
}
