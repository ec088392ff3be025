/** The configured resource table and its lookup (src/cimd_proxy/config.py). */
module Config {
  import opened Wrappers
  import opened Text
  import opened Uri

  datatype ResourceEntry = ResourceEntry(
    url: string, issuer: string, clientId: string, clientSecret: string,
    patClientId: string, patClientSecret: string)
  {
    predicate AcceptsPat() { patClientId != "" }
  }

  datatype ProxyConfig = ProxyConfig(
    publicUrl: string, defaultResource: string, defaultScope: string, resources: seq<ResourceEntry>)

  /** Fold an empty path and a `/` path of the same origin; touch nothing else. */
  function Normalise(url: string): Result<string, ValueError> {
    if url == "" then Ok(url) else
      var parts :- UrlSplit(url);
      if parts.path == "/" && parts.query == "" && parts.fragment == ""
      then Ok(Origin(parts.scheme, parts.netloc))
      else Ok(url)
  }

  function FirstWithUrl(entries: seq<ResourceEntry>, target: string): (found: Option<ResourceEntry>)
    ensures found.Some? ==> found.value in entries && found.value.url == target
    ensures found.None? ==> forall e | e in entries :: e.url != target
  {
    if entries == [] then None
    else if entries[0].url == target then Some(entries[0])
    else FirstWithUrl(entries[1..], target)
  }

  /** `ProxyConfig.resource_by_url`; the parser's error passes through. */
  function ResourceByUrl(entries: seq<ResourceEntry>, url: string): Result<Option<ResourceEntry>, ValueError> {
    var target :- Normalise(url);
    Ok(FirstWithUrl(entries, target))
  }

  /** Normalising twice is normalising once. */
  lemma NormaliseIdempotent(url: string)
    requires Normalise(url).Ok?
    ensures Normalise(Normalise(url).value) == Normalise(url)
  {
    hide UrlSplit, Origin;
    if url != "" { SplitOfOrigin(url); }
  }

  /** An entry that a lookup has found is found again under its own URL, first of all entries. */
  lemma FoundStaysFound(entries: seq<ResourceEntry>, url: string, e: ResourceEntry)
    requires ResourceByUrl(entries, url) == Ok(Some(e))
    ensures ResourceByUrl(entries, e.url) == Ok(Some(e)) && e in entries
  {
    hide Normalise;
    NormaliseIdempotent(url);
  }

  /** A bare origin: nothing behind the authority but, at most, a slash. */
  predicate IsOrigin(s: Split) { s.path in ["", "/"] && s.query == "" && s.fragment == "" }

  /** Two different requests name the same resource only if they are the same bare origin. */
  lemma NormaliseFoldsOnlyOrigins(a: string, b: string)
    requires Normalise(a).Ok? && Normalise(a) == Normalise(b) && a != b
    ensures UrlSplit(a).Ok? && UrlSplit(b).Ok?
    ensures
      var (r, s) := (UrlSplit(a).value, UrlSplit(b).value);
      IsOrigin(r) && IsOrigin(s) && r.scheme == s.scheme && r.netloc == s.netloc
  {
    EmptySplit();
    hide UrlSplit, Origin;
    var o := Normalise(a).value;
    if UrlSplit(a).Ok? { SplitOfOrigin(a); OriginIsEmptyOnlyIfBare(a); }
    if UrlSplit(b).Ok? { SplitOfOrigin(b); OriginIsEmptyOnlyIfBare(b); }
  }

  lemma EmptySplit()
    ensures UrlSplit("") == Ok(Split("", "", "", "", ""))
  {
    CleanKeeps("");
    assert CutScheme("") == ("", "") && CutNetloc("") == ("", "");
    assert Before("", '#') == "" && Before("", '?') == "";
  }

  lemma OriginIsEmptyOnlyIfBare(url: string)
    requires UrlSplit(url).Ok?
    ensures
      var s := UrlSplit(url).value;
      Origin(s.scheme, s.netloc) == "" ==> s.scheme == "" && s.netloc == ""
  {
    hide UrlSplit, UsesNetloc;
  }

  /** A trailing slash after the authority is folded away, together with capitals in the scheme, which stay
      if there is no slash: so both spellings name the same resource exactly if the scheme has no capitals. */
  lemma NormaliseFoldsSlash(scheme: string, netloc: string)
    requires IsScheme(scheme)
    requires netloc != "" && IsNetloc(netloc) && BracketsBalanced(netloc) && NoUnsafe(netloc)
    ensures
      var origin := scheme + ":" + ("//" + netloc);
      && Normalise(origin) == Ok(origin)
      && Normalise(origin + "/") == Ok(Lower(scheme) + ":" + ("//" + netloc))
      && (Normalise(origin) == Normalise(origin + "/") <==> Lower(scheme) == scheme)
  {
    var origin := scheme + ":" + ("//" + netloc);
    hide UrlSplit, IsNetloc, BracketsBalanced, IsScheme, Lower, UsesNetloc;
    SchemeIsClean(scheme);
    SplitOfSchemeAndAuthority(scheme, netloc);
    assert IsClean(scheme + ":" + ("//" + netloc + "/")) by {
      CleanJoin(scheme, netloc + "/");
      assert "//" + (netloc + "/") + "" == "//" + netloc + "/";
    }
    SplitOfAbsolute(scheme, netloc, "/");
    assert Tail(Lower(scheme), netloc, "/") == Split(Lower(scheme), netloc, "/", "", "");
    assert origin + "/" == scheme + ":" + ("//" + netloc + "/");
    if Lower(scheme) != scheme {
      assert origin[..|scheme|] == scheme && (Lower(scheme) + ":" + ("//" + netloc))[..|scheme|] == Lower(scheme);
    }
  }

  /** The failing spelling: with a capital scheme, one of the two is found in the table and the other is not. */
  lemma CapitalSchemeFoldsOneWay()
    ensures Normalise("HTTPS://h/") == Ok("https://h") && Normalise("HTTPS://h") == Ok("HTTPS://h")
  {
    CapitalScheme();
    hide *;
    NormaliseFoldsSlash("HTTPS", "h");
    assert "HTTPS" + ":" + ("//" + "h") == "HTTPS://h" && "HTTPS://h" + "/" == "HTTPS://h/";
    assert "https" + ":" + ("//" + "h") == "https://h";
  }

  lemma CapitalScheme()
    ensures IsScheme("HTTPS") && Lower("HTTPS") == "https"
    ensures IsNetloc("h") && BracketsBalanced("h") && NoUnsafe("h")
  {
    var (a, b) := (Lower("HTTPS"), "https");
    assert a[0] == b[0] && a[1] == b[1] && a[2] == b[2] && a[3] == b[3] && a[4] == b[4];
  }

  /** A table URL can be named by some request exactly when it is not an origin with a `/` path,
      such as `https://h/?`: the loader strips trailing slashes, but not in front of a `?` or `#`. */
  lemma NameableExactly(entries: seq<ResourceEntry>, e: ResourceEntry)
    requires e in entries && e.url != ""
    ensures Nameable(entries, e.url) <==> UrlSplit(e.url).Ok? && !HasBareSlash(UrlSplit(e.url).value)
  {
    hide UrlSplit, Origin;
    if Nameable(entries, e.url) {
      var url :| Names(entries, url, e.url);
      NormaliseIdempotent(url);
    }
    if UrlSplit(e.url).Ok? {
      if HasBareSlash(UrlSplit(e.url).value) {
        SplitOfOrigin(e.url);
      } else {
        assert Normalise(e.url) == Ok(e.url);
        assert Names(entries, e.url, e.url);
      }
    }
  }

  predicate HasBareSlash(s: Split) { s.path == "/" && s.query == "" && s.fragment == "" }

  /** The request `url` resolves to a table entry with this URL. */
  predicate Names(entries: seq<ResourceEntry>, url: string, entryUrl: string) {
    match ResourceByUrl(entries, url)
    case Ok(Some(e)) => e.url == entryUrl
    case _ => false
  }

  ghost predicate Nameable(entries: seq<ResourceEntry>, entryUrl: string) {
    exists url :: Names(entries, url, entryUrl)
  }

  /** The failing table URL: the loader leaves it as it is, and then no request can name it. */
  lemma BareQueryIsUnnameable(entries: seq<ResourceEntry>, e: ResourceEntry)
    requires e in entries && e.url == "https://h/?"
    ensures RStripChar(e.url, '/') == e.url && !Nameable(entries, e.url)
  {
    BareQuerySplit();
    hide UrlSplit, Nameable;
    NameableExactly(entries, e);
  }

  lemma BareQuerySplit()
    ensures UrlSplit("https://h/?") == Ok(Split("https", "h", "/", "", ""))
  {
    PlainScheme();
    BareQueryTail();
    hide *;
    SplitOfParts("https", "h", "/", Some(""), None);
    assert "https" + ":" + ("//" + "h" + "/?") == "https://h/?";
  }

  lemma PlainScheme()
    ensures IsScheme("https") && Lower("https") == "https"
    ensures IsNetloc("h") && BracketsBalanced("h")
  {
    LowerKeeps("https");
  }

  lemma BareQueryTail()
    ensures ArePathAndQuery("/", Some("")) && TailText("/", Some(""), None) == "/?"
    ensures IsClean("https" + ":" + ("//" + "h" + "/?"))
    ensures OrNothing(Some("")) == "" && OrNothing(None) == ""
  {
    assert "/" + "?" + "" + "" == "/?";
  }

  /** A URL written out with anything behind its authority but a single slash is looked up as it is: neither
      case nor port nor path, query or fragment is touched. */
  lemma NormaliseTouchesNothingElse(scheme: string, netloc: string, path: string, query: Option<string>,
                                    fragment: Option<string>)
    requires IsScheme(scheme) && IsNetloc(netloc) && BracketsBalanced(netloc) && ArePathAndQuery(path, query)
    requires IsClean(scheme + ":" + ("//" + netloc + TailText(path, query, fragment)))
    requires path != "/" || OrNothing(query) != "" || OrNothing(fragment) != ""
    ensures
      var url := scheme + ":" + ("//" + netloc + TailText(path, query, fragment));
      Normalise(url) == Ok(url)
  {
    hide UrlSplit, IsScheme, IsNetloc, BracketsBalanced, ArePathAndQuery, IsClean, TailText, OrNothing, Lower, Origin;
    SplitOfParts(scheme, netloc, path, query, fragment);
  }

  /** Entry `i` is the first with this URL. */
  predicate IsFirstWith(entries: seq<ResourceEntry>, url: string, i: nat) {
    i < |entries| && entries[i].url == url && forall j: nat | j < i :: entries[j].url != url
  }

  lemma {:induction false} FirstExactly(entries: seq<ResourceEntry>, url: string, e: ResourceEntry)
    ensures FirstWithUrl(entries, url) == Some(e) <==> exists i: nat :: IsFirstWith(entries, url, i) && entries[i] == e
  {
    if entries != [] {
      var rest := entries[1..];
      FirstExactly(rest, url, e);
      if entries[0].url == url {
        assert IsFirstWith(entries, url, 0);
      } else {
        if i: nat :| IsFirstWith(rest, url, i) && rest[i] == e { assert IsFirstWith(entries, url, i + 1); }
        if i: nat :| IsFirstWith(entries, url, i) && entries[i] == e {
          assert forall j: nat | j < i - 1 :: rest[j] == entries[j + 1];
          assert IsFirstWith(rest, url, i - 1);
        }
      }
    }
  }

  /** A lookup finds the first entry of the table with the folded URL, if there is one. */
  lemma LookupExactly(entries: seq<ResourceEntry>, url: string, e: ResourceEntry)
    ensures ResourceByUrl(entries, url) == Ok(Some(e)) <==>
      Normalise(url).Ok? && exists i: nat :: IsFirstWith(entries, Normalise(url).value, i) && entries[i] == e
    ensures ResourceByUrl(entries, url) == Ok(None) <==>
      Normalise(url).Ok? && forall i: nat | i < |entries| :: entries[i].url != Normalise(url).value
  {
    hide Normalise, FirstWithUrl;
    if Normalise(url).Ok? { FirstExactly(entries, Normalise(url).value, e); }
  }
}
