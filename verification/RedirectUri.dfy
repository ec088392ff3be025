/** Redirect-URI policy (src/cimd_proxy/redirect_uri.py; RFC 8252, sections 7.3 and 8.3). */
module RedirectUri {
  import opened Wrappers
  import opened Text
  import opened Uri

  datatype Refusal = HasFragment | HasUserInfo | NoHost | HttpOffLoopback | OtherScheme | Unparseable

  const LOOPBACK_LITERALS := {"127.0.0.1", "::1"}
  const LOOPBACK_NAME := "localhost"

  predicate IsLoopbackHost(hostname: Option<string>) {
    hostname.Some? && (hostname.value in LOOPBACK_LITERALS || hostname.value == LOOPBACK_NAME)
  }

  predicate IsLoopbackHttp(s: Split) { s.scheme == "http" && IsLoopbackHost(Hostname(s.netloc)) }

  /** The registration policy; `Unparseable` is the parser's own error. */
  function AcceptRegistered(uri: string): Result<(), Refusal> {
    match UrlSplit(uri)
    case Err(_) => Err(Unparseable)
    case Ok(s) =>
      if s.fragment != "" then Err(HasFragment)
      else if '@' in s.netloc then Err(HasUserInfo)
      else if Hostname(s.netloc).None? then Err(NoHost)
      else if s.scheme == "https" then Ok(())
      else if s.scheme != "http" then Err(OtherScheme)
      else if IsLoopbackHost(Hostname(s.netloc)) then Ok(())
      else Err(HttpOffLoopback)
  }

  /** The comparison at /authorize. Only URIs that are not byte-equal are parsed. */
  function Matches(requested: string, registered: string): Result<bool, ValueError> {
    if requested == registered then Ok(true) else
      var r :- UrlSplit(requested);
      var s :- UrlSplit(registered);
      if !IsLoopbackHttp(r) || !IsLoopbackHttp(s) then Ok(false)
      else if r.fragment != "" || s.fragment != "" then Ok(false)
      else if '@' in r.netloc || '@' in s.netloc then Ok(false)
      else Ok(Hostname(r.netloc) == Hostname(s.netloc) && r.path == s.path && r.query == s.query)
  }

  /** Several registrations, tried in order, as `any(...)` does. */
  function MatchesAny(requested: string, registered: seq<string>): Result<bool, ValueError> {
    if registered == [] then Ok(false) else
      var first :- Matches(requested, registered[0]);
      if first then Ok(true) else MatchesAny(requested, registered[1..])
  }

  // ----- the comparison is an equivalence that keeps the policy --------------

  predicate Same(a: string, b: string) { Matches(a, b) == Ok(true) }

  predicate Accepted(uri: string) { AcceptRegistered(uri).Ok? }

  /** On parseable URIs the comparison always answers, and it is an equivalence relation. */
  lemma SameIsEquivalence(a: string, b: string, c: string)
    requires UrlSplit(a).Ok? && UrlSplit(b).Ok? && UrlSplit(c).Ok?
    ensures Matches(a, b).Ok?
    ensures Same(a, a)
    ensures Same(a, b) ==> Same(b, a)
    ensures Same(a, b) && Same(b, c) ==> Same(a, c)
  {
    hide UrlSplit, Hostname, IsLoopbackHost;
  }

  lemma UnparseableExactly(uri: string)
    ensures AcceptRegistered(uri) == Err(Unparseable) <==> UrlSplit(uri).Err?
  {
    hide UrlSplit, Hostname, IsLoopbackHost;
  }

  /** Two different URIs that match are loopback http URIs without user information or a non-empty fragment, and
      agree on scheme, host, path and query as they are parsed. Parsing forgets more than the port: letter
      case of scheme and host, an empty query or fragment, line breaks, leading blanks. */
  lemma SameAgreesOnParts(a: string, b: string)
    requires Same(a, b) && a != b
    ensures UrlSplit(a).Ok? && UrlSplit(b).Ok?
    ensures
      var (r, s) := (UrlSplit(a).value, UrlSplit(b).value);
      && r.scheme == s.scheme == "http" && r.path == s.path && r.query == s.query
      && Hostname(r.netloc) == Hostname(s.netloc) && IsLoopbackHost(Hostname(r.netloc))
      && r.fragment == s.fragment == "" && '@' !in r.netloc && '@' !in s.netloc
  {
    hide UrlSplit, Hostname, IsLoopbackHost;
  }

  /** A URI that matches an accepted registration would itself be accepted. */
  lemma SameKeepsPolicy(requested: string, registered: string)
    requires Same(requested, registered) && Accepted(registered)
    ensures Accepted(requested)
  {
    hide UrlSplit, Hostname, IsLoopbackHost;
  }

  /** An https registration is matched by itself alone. */
  lemma HttpsMatchesOnlyItself(requested: string, registered: string)
    requires UrlSplit(registered).Ok? && UrlSplit(registered).value.scheme == "https"
    ensures Same(requested, registered) <==> requested == registered
  {
    hide UrlSplit, Hostname, IsLoopbackHost;
  }

  /** The search finds a match exactly if one entry matches and no earlier one raises. */
  lemma {:induction false} MatchesAnyExactly(requested: string, registered: seq<string>)
    ensures MatchesAny(requested, registered) == Ok(true) <==>
      exists i: nat :: FirstMatch(requested, registered, i)
  {
    hide Matches;
    if registered != [] {
      var rest := registered[1..];
      MatchesAnyExactly(requested, rest);
      if i: nat :| FirstMatch(requested, rest, i) && Matches(requested, registered[0]) == Ok(false) {
        assert FirstMatch(requested, registered, i + 1);
      }
      if i: nat :| FirstMatch(requested, registered, i) && i > 0 {
        assert forall j: nat | j < i - 1 :: rest[j] == registered[j + 1];
        assert FirstMatch(requested, rest, i - 1);
      }
      if Same(requested, registered[0]) { assert FirstMatch(requested, registered, 0); }
    }
  }

  predicate FirstMatch(requested: string, registered: seq<string>, i: nat) {
    && i < |registered| && Same(requested, registered[i])
    && forall j: nat | j < i :: Matches(requested, registered[j]) == Ok(false)
  }

  lemma {:induction false} MatchesAnyHasWitness(requested: string, registered: seq<string>)
    requires MatchesAny(requested, registered) == Ok(true)
    ensures exists r :: r in registered && Same(requested, r)
  {
    if !Same(requested, registered[0]) { MatchesAnyHasWitness(requested, registered[1..]); }
  }

  lemma MatchAnswers(requested: string, registered: string)
    requires UrlSplit(requested).Ok? && Accepted(registered)
    ensures Matches(requested, registered) == Ok(Same(requested, registered))
  {
    hide UrlSplit, Hostname, IsLoopbackHost;
  }

  /** The registered URIs all parse, so the search answers, and it answers whether one matches. */
  lemma {:induction false} MatchesAnyAnswers(requested: string, registered: seq<string>)
    requires UrlSplit(requested).Ok? && forall r | r in registered :: Accepted(r)
    ensures MatchesAny(requested, registered) == Ok(exists r :: r in registered && Same(requested, r))
  {
    hide UrlSplit, AcceptRegistered, Same, Matches;
    if registered != [] {
      var first, rest := registered[0], registered[1..];
      assert first in registered && forall r | r in rest :: r in registered;
      MatchAnswers(requested, first);
      MatchesAnyAnswers(requested, rest);
      assert forall r :: r in registered <==> r == first || r in rest;
    }
  }

  // ----- the client picks the port (RFC 8252, section 8.3) -------------------

  predicate IsPort(p: string) { p == "" || (p[0] == ':' && AllDigits(p[1..])) }

  function LoopbackUri(host: string, port: string, tail: string): string {
    "http" + ":" + ("//" + (host + port) + tail)
  }

  lemma PortChars(host: string, port: string)
    requires host in {"127.0.0.1", "localhost", "[::1]"} && IsPort(port)
    ensures IsNetloc(host + port) && '@' !in host + port
    ensures IsClean(host + port) && '[' !in port && ']' !in port && (port == "" || port[0] == ':')
  {
    var n := host + port;
    assert forall i | 0 <= i < |port| :: port[i] == ':' || IsDigit(port[i]);
    assert forall i | |host| <= i < |n| :: n[i] == port[i - |host|];
    assert '@' !in host && IsNetloc(host) && IsClean(host);
  }

  lemma LoopbackLiteralV6(port: string)
    requires IsPort(port)
    ensures BracketsBalanced("[::1]" + port) && Hostname("[::1]" + port) == Some("::1")
  {
    PortChars("[::1]", port);
    hide IsNetloc, IsClean, IsPort, After, Before, AfterLast, Lower;
    var n := "[::1]" + port;
    var inner := "::1]" + port;
    assert AfterLast(n, '@') == n && n[0] == '[' && n[4] == ']';
    assert n == "" + ['['] + inner && inner == "::1" + [']'] + port;
    CutBack("", '[', inner);
    CutBack("::1", ']', port);
    assert Before("::1", '%') == "::1";
    LowerKeeps("::1");
    assert "::1"[3..] == "" && "::1" + "" == "::1";
  }

  lemma HostnameOfName(host: string, port: string)
    requires host != "" && (port == "" || port[0] == ':')
    requires forall c | c in host :: c !in [':', '%', '[', '@'] && !('A' <= c <= 'Z')
    requires '[' !in port && '@' !in port
    ensures Hostname(host + port) == Some(host)
  {
    hide Lower;
    var n := host + port;
    assert '@' !in n && '[' !in n;
    assert Before(n, ':') == host by {
      if port == "" {
        assert n == host;
      } else {
        assert n == host + [':'] + port[1..];
        CutBack(host, ':', port[1..]);
      }
    }
    assert Before(host, '%') == host && host[|host|..] == "" && host + "" == host;
    assert forall i | 0 <= i < |host| :: host[i] in host;
    LowerKeeps(host);
  }

  lemma LoopbackNameOrV4(host: string, port: string)
    requires host in {"127.0.0.1", "localhost"} && IsPort(port)
    ensures BracketsBalanced(host + port) && Hostname(host + port) == Some(host)
  {
    hide Hostname, AfterLast, After, Before;
    PortChars(host, port);
    assert '[' !in host && ']' !in host;
    assert '[' !in host + port && ']' !in host + port;
    assert forall c | c in port :: c in host + port;
    HostnameOfName(host, port);
  }

  lemma LoopbackSplit(host: string, port: string, tail: string)
    requires host in {"127.0.0.1", "localhost", "[::1]"} && IsPort(port)
    requires IsTail(tail) && '#' !in tail && forall i | 0 <= i < |tail| :: !IsUnsafe(tail[i])
    ensures UrlSplit(LoopbackUri(host, port, tail)) == Ok(Tail("http", host + port, tail))
    ensures '@' !in host + port && Hostname(host + port) == Some(if host == "[::1]" then "::1" else host)
  {
    hide UrlSplit, Hostname, Lower, BracketsBalanced;
    PortChars(host, port);
    if host == "[::1]" { LoopbackLiteralV6(port); } else { LoopbackNameOrV4(host, port); }
    assert IsScheme("http") && Lower("http") == "http";
    var u := LoopbackUri(host, port, tail);
    assert forall i | 0 <= i < |u| ::
        u[i] == if i < 7 then "http://"[i] else if i - 7 < |host + port| then (host + port)[i - 7]
                else tail[i - 7 - |host + port|];
    SplitOfAbsolute("http", host + port, tail);
  }

  /** A loopback registration is accepted and matched whatever port either side names. */
  lemma LoopbackPortIsFree(host: string, p: string, q: string, tail: string)
    requires host in {"127.0.0.1", "localhost", "[::1]"} && IsPort(p) && IsPort(q)
    requires IsTail(tail) && '#' !in tail && forall i | 0 <= i < |tail| :: !IsUnsafe(tail[i])
    ensures Accepted(LoopbackUri(host, q, tail))
    ensures Same(LoopbackUri(host, p, tail), LoopbackUri(host, q, tail))
  {
    hide UrlSplit, Hostname;
    LoopbackSplit(host, p, tail);
    LoopbackSplit(host, q, tail);
  }

  predicate IsLoopbackShape(host: string, port: string, path: string, query: Option<string>) {
    && host in {"127.0.0.1", "localhost", "[::1]"} && IsPort(port) && ArePathAndQuery(path, query)
    && NoUnsafe(TailText(path, query, None))
  }

  /** What decides a match of loopback URIs. */
  lemma MatchOfParts(a: string, b: string, r: Split, s: Split)
    requires UrlSplit(a) == Ok(r) && UrlSplit(b) == Ok(s) && IsLoopbackHttp(r) && IsLoopbackHttp(s)
    requires r.fragment == s.fragment == "" && '@' !in r.netloc && '@' !in s.netloc
    ensures Same(a, b) <==> Hostname(r.netloc) == Hostname(s.netloc) && r.path == s.path && r.query == s.query
  {
    hide UrlSplit, Hostname, IsLoopbackHttp;
    hide IsLoopbackHost;
  }

  function HostnameOfShape(host: string): string { if host == "[::1]" then "::1" else host }

  lemma ShapesTellApart(host: string, host': string)
    requires host in {"127.0.0.1", "localhost", "[::1]"} && host' in {"127.0.0.1", "localhost", "[::1]"}
    ensures HostnameOfShape(host) == HostnameOfShape(host') <==> host == host'
    ensures IsLoopbackHost(Some(HostnameOfShape(host)))
  {
    assert "127.0.0.1"[0] != ':' && "localhost"[0] != ':' && "127.0.0.1"[0] != "localhost"[0];
  }

  /** Between URIs written as http, a loopback host, a port, a path and a query, nothing but the port is
      tolerated: they match exactly if host, path and query are equal, an empty query counting as none. */
  lemma LoopbackMatchesExactly(host: string, p: string, path: string, query: Option<string>,
                               host': string, q: string, path': string, query': Option<string>)
    requires IsLoopbackShape(host, p, path, query) && IsLoopbackShape(host', q, path', query')
    ensures
      Same(LoopbackUri(host, p, TailText(path, query, None)), LoopbackUri(host', q, TailText(path', query', None)))
      <==> host == host' && path == path' && OrNothing(query) == OrNothing(query')
  {
    ShapeHosts(host, p, path, query);
    ShapeHosts(host', q, path', query');
    hide *;
    LoopbackParts(host, p, path, query);
    LoopbackParts(host', q, path', query');
    ShapesTellApart(host, host');
    MatchOfParts(LoopbackUri(host, p, TailText(path, query, None)), LoopbackUri(host', q, TailText(path', query', None)),
                 Split("http", host + p, path, OrNothing(query), ""), Split("http", host' + q, path', OrNothing(query'), ""));
  }

  lemma ShapeHosts(host: string, port: string, path: string, query: Option<string>)
    requires IsLoopbackShape(host, port, path, query)
    ensures host in {"127.0.0.1", "localhost", "[::1]"}
  {
    hide IsPort, ArePathAndQuery, NoUnsafe, TailText;
  }

  lemma LoopbackParts(host: string, port: string, path: string, query: Option<string>)
    requires IsLoopbackShape(host, port, path, query)
    ensures UrlSplit(LoopbackUri(host, port, TailText(path, query, None)))
         == Ok(Split("http", host + port, path, OrNothing(query), ""))
    ensures '@' !in host + port && Hostname(host + port) == Some(HostnameOfShape(host))
    ensures IsLoopbackHttp(Split("http", host + port, path, OrNothing(query), ""))
  {
    hide UrlSplit, Hostname, LoopbackUri, TailText, Tail, IsLoopbackHost;
    NoFragment(path, query);
    TailOfParts("http", host + port, path, query, None);
    ShapesTellApart(host, host);
    LoopbackSplit(host, port, TailText(path, query, None));
  }

  lemma NoFragment(path: string, query: Option<string>)
    requires ArePathAndQuery(path, query)
    ensures '#' !in TailText(path, query, None) && OrNothing(None) == ""
  {
  }

  /** Three spellings that are not byte-equal, differ in no port, and match all the same. */
  lemma SpellingsThatMatch()
    ensures Same("http://localhost/cb#", "http://localhost/cb")
    ensures Same("http://localhost/cb?", "http://localhost/cb")
    ensures Same("HTTP://LOCALHOST/cb", "http://localhost/cb")
  {
    hide *;
    SplitOfSpelling("http", "localhost", "/cb", "http://localhost/cb");
    SplitOfSpelling("http", "localhost", "/cb#", "http://localhost/cb#");
    SplitOfSpelling("http", "localhost", "/cb?", "http://localhost/cb?");
    SplitOfSpelling("HTTP", "LOCALHOST", "/cb", "HTTP://LOCALHOST/cb");
    var (plain, capital) := (Split("http", "localhost", "/cb", "", ""), Split("http", "LOCALHOST", "/cb", "", ""));
    SpellingHosts();
    MatchOfParts("http://localhost/cb#", "http://localhost/cb", plain, plain);
    MatchOfParts("http://localhost/cb?", "http://localhost/cb", plain, plain);
    MatchOfParts("HTTP://LOCALHOST/cb", "http://localhost/cb", capital, plain);
  }

  lemma SplitOfSpelling(scheme: string, host: string, tail: string, uri: string)
    requires scheme in {"http", "HTTP"} && host in {"localhost", "LOCALHOST"} && tail in {"/cb", "/cb#", "/cb?"}
    requires uri == scheme + ":" + ("//" + host + tail)
    ensures UrlSplit(uri) == Ok(Split("http", host, "/cb", "", ""))
  {
    SpellingScheme(scheme);
    SpellingHost(host);
    SpellingTail(host, tail);
    hide *;
    CleanJoin(scheme, host + tail);
    assert "//" + (host + tail) + "" == "//" + host + tail;
    SplitOfAbsolute(scheme, host, tail);
  }

  lemma SpellingScheme(scheme: string)
    requires scheme in {"http", "HTTP"}
    ensures IsScheme(scheme) && IsClean(scheme) && scheme != "" && Lower(scheme) == "http"
  {
    var (a, b) := (Lower(scheme), "http");
    assert |a| == |b| && a[0] == b[0] && a[1] == b[1] && a[2] == b[2] && a[3] == b[3];
  }

  lemma SpellingHost(host: string)
    requires host in {"localhost", "LOCALHOST"}
    ensures IsNetloc(host) && BracketsBalanced(host) && NoUnsafe(host)
  {
    hide AfterLast, After, Before;
    assert '[' !in host && ']' !in host;
  }

  lemma SpellingTail(host: string, tail: string)
    requires NoUnsafe(host) && tail in {"/cb", "/cb#", "/cb?"}
    ensures IsTail(tail) && NoUnsafe(host + tail)
    ensures forall scheme :: Tail(scheme, host, tail) == Split(scheme, host, "/cb", "", "")
  {
    hide Before, After;
    CutBack("/cb", '#', "");
    CutBack("/cb", '?', "");
    assert "/cb" + ['#'] + "" == "/cb#" && "/cb" + ['?'] + "" == "/cb?";
    WithoutSeparator(tail, '#');
    WithoutSeparator("/cb", '?');
    WithoutSeparator(tail, '?');
  }

  lemma SpellingHosts()
    ensures Hostname("localhost") == Hostname("LOCALHOST") == Some("localhost")
    ensures '@' !in "localhost" && '@' !in "LOCALHOST"
    ensures IsLoopbackHttp(Split("http", "localhost", "/cb", "", "")) && IsLoopbackHttp(Split("http", "LOCALHOST", "/cb", "", ""))
  {
    hide Hostname, Lower, ToLower, IsAlpha;
    AreAlpha();
    PlainHostname("localhost");
    PlainHostname("LOCALHOST");
    LowerOfPlain();
    LowerOfLocalhost();
  }

  predicate AllAlpha(s: string) { forall i | 0 <= i < |s| :: IsAlpha(s[i]) }

  lemma AreAlpha()
    ensures AllAlpha("localhost") && AllAlpha("LOCALHOST")
  {
  }

  lemma LowerOfPlain()
    ensures Lower("localhost") == "localhost"
  {
    LowerKeeps("localhost");
  }

  lemma LowerOfLocalhost()
    ensures Lower("LOCALHOST") == "localhost"
  {
    var (h, a, b) := ("LOCALHOST", Lower("LOCALHOST"), "localhost");
    assert forall i | 0 <= i < 9 :: a[i] == ToLower(h[i]);
    assert ToLower(h[0]) == b[0] && ToLower(h[1]) == b[1] && ToLower(h[2]) == b[2] && ToLower(h[3]) == b[3];
    assert ToLower(h[4]) == b[4] && ToLower(h[5]) == b[5] && ToLower(h[6]) == b[6] && ToLower(h[7]) == b[7];
    assert ToLower(h[8]) == b[8];
  }

  lemma PlainHostname(host: string)
    requires host != "" && AllAlpha(host)
    ensures Hostname(host) == Some(Lower(host)) && '@' !in host
  {
    hide Lower;
    assert '@' !in host && '[' !in host && ':' !in host && '%' !in host;
    assert host[|host|..] == "" && Lower(host) + "" == Lower(host);
  }

  // ----- the policy in plain terms -------------------------------------------

  /** Parsed: https with some host, or http on a loopback host; no fragment and no user information. */
  predicate IsHttpsOrLoopback(uri: string) {
    && UrlSplit(uri).Ok?
    && var s := UrlSplit(uri).value;
    && s.fragment == "" && '@' !in s.netloc && Hostname(s.netloc).Some?
    && (s.scheme == "https" || (s.scheme == "http" && Hostname(s.netloc).value in {"127.0.0.1", "::1", "localhost"}))
  }

  /** The policy accepts exactly https URIs and http URIs on the three loopback hosts. */
  lemma AcceptedMeans(uri: string)
    ensures Accepted(uri) <==> IsHttpsOrLoopback(uri)
  {
    hide UrlSplit, Hostname;
  }

  /** A host as it is written, without brackets, and a port behind it. */
  predicate IsPlainAuthority(host: string, port: string) {
    && (forall c | c in host :: c !in [':', '%', '[', ']', '@', '/', '?', '#'])
    && (port == "" || port[0] == ':') && forall c | c in port :: c !in ['[', ']', '@', '/', '?', '#']
  }

  lemma PlainAuthority(host: string, port: string)
    requires IsPlainAuthority(host, port)
    ensures IsNetloc(host + port) && BracketsBalanced(host + port) && '@' !in host + port
    ensures Hostname(host + port) == if host == "" then None else Some(Lower(host))
  {
    hide Lower;
    var n := host + port;
    assert forall i | 0 <= i < |n| :: n[i] in host || n[i] in port;
    assert '@' !in n && '[' !in n && ']' !in n;
    if port == "" {
      assert n == host;
    } else {
      assert n == host + [':'] + port[1..];
      CutBack(host, ':', port[1..]);
    }
    assert Before(n, ':') == host;
    assert Before(host, '%') == host && host[|host|..] == "";
    assert Lower(host) + "" == Lower(host);
  }

  /** The policy on a URI written out: it is accepted exactly if the fragment is absent or empty, there is a
      host, and the scheme is https, or http on 127.0.0.1 or localhost; letter case aside. */
  lemma AcceptedExactly(scheme: string, host: string, port: string, path: string, query: Option<string>, fragment: Option<string>)
    requires IsScheme(scheme) && IsPlainAuthority(host, port) && ArePathAndQuery(path, query)
    requires IsClean(scheme + ":" + ("//" + (host + port) + TailText(path, query, fragment)))
    ensures
      Accepted(scheme + ":" + ("//" + (host + port) + TailText(path, query, fragment))) <==>
      && OrNothing(fragment) == "" && host != ""
      && (Lower(scheme) == "https" || (Lower(scheme) == "http" && Lower(host) in {"127.0.0.1", "localhost"}))
  {
    PlainAuthority(host, port);
    NoColonLiteral(host);
    hide UrlSplit, Hostname, Lower, TailText, OrNothing, IsScheme, IsClean, IsNetloc, BracketsBalanced, ArePathAndQuery;
    hide IsPlainAuthority;
    SplitOfParts(scheme, host + port, path, query, fragment);
    AcceptedMeans(scheme + ":" + ("//" + (host + port) + TailText(path, query, fragment)));
  }

  lemma NoColonLiteral(host: string)
    requires forall c | c in host :: c !in [':', '%', '[', ']', '@', '/', '?', '#']
    ensures Lower(host) != "::1"
  {
    if host != "" { assert Lower(host)[0] == ToLower(host[0]) && host[0] in host; }
  }

  /** The same for the literal IPv6 loopback address. */
  lemma AcceptedV6Exactly(scheme: string, port: string, path: string, query: Option<string>, fragment: Option<string>)
    requires IsScheme(scheme) && IsPort(port) && ArePathAndQuery(path, query)
    requires IsClean(scheme + ":" + ("//" + ("[::1]" + port) + TailText(path, query, fragment)))
    ensures
      Accepted(scheme + ":" + ("//" + ("[::1]" + port) + TailText(path, query, fragment)))
      <==> OrNothing(fragment) == "" && Lower(scheme) in {"https", "http"}
  {
    PortChars("[::1]", port);
    LoopbackLiteralV6(port);
    hide UrlSplit, Hostname, Lower, TailText, OrNothing, IsScheme, IsClean, IsNetloc, BracketsBalanced, ArePathAndQuery;
    hide IsPort;
    SplitOfParts(scheme, "[::1]" + port, path, query, fragment);
    AcceptedMeans(scheme + ":" + ("//" + ("[::1]" + port) + TailText(path, query, fragment)));
  }

  /** User information is refused whatever else the URI says. */
  lemma UserInfoRefused(scheme: string, netloc: string, path: string, query: Option<string>, fragment: Option<string>)
    requires IsScheme(scheme) && IsNetloc(netloc) && BracketsBalanced(netloc) && ArePathAndQuery(path, query)
    requires IsClean(scheme + ":" + ("//" + netloc + TailText(path, query, fragment))) && '@' in netloc
    ensures !Accepted(scheme + ":" + ("//" + netloc + TailText(path, query, fragment)))
  {
    hide UrlSplit, Hostname, Lower, TailText, OrNothing, IsScheme, IsClean, IsNetloc, BracketsBalanced, ArePathAndQuery;
    SplitOfParts(scheme, netloc, path, query, fragment);
    AcceptedMeans(scheme + ":" + ("//" + netloc + TailText(path, query, fragment)));
  }
}
