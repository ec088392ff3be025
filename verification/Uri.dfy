/** `urllib.parse.urlsplit` and the one use of `urlunsplit`, on ASCII text (RFC 3986, section 3). */
module Uri {
  import opened Wrappers
  import opened Text

  datatype Split = Split(scheme: string, netloc: string, path: string, query: string, fragment: string)

  /** The one error of the parser: brackets that do not pair up. */
  datatype ValueError = ValueError

  predicate IsUnsafe(c: char) { c == '\t' || c == '\r' || c == '\n' }

  function RemoveUnsafe(s: string): (r: string)
    ensures forall i | 0 <= i < |r| :: !IsUnsafe(r[i])
  {
    if s == "" then "" else if IsUnsafe(s[0]) then RemoveUnsafe(s[1..]) else [s[0]] + RemoveUnsafe(s[1..])
  }

  /** Leading control characters and blanks go, and so do tabs and line breaks anywhere. */
  function Clean(url: string): string { RemoveUnsafe(DropLeading(url, c => c <= ' ')) }

  predicate IsSchemeChar(c: char) { IsAlpha(c) || IsDigit(c) || c in ['+', '-', '.'] }

  predicate IsScheme(s: string) {
    s != "" && IsAlpha(s[0]) && forall i | 0 <= i < |s| :: IsSchemeChar(s[i])
  }

  /** The scheme, lower-cased, and what follows its colon. */
  function CutScheme(u: string): (string, string) {
    var i := IndexOf(u, ':');
    if i < |u| && IsScheme(u[..i]) then (Lower(u[..i]), u[i + 1..]) else ("", u)
  }

  /** Length of the authority: everything up to the first `/`, `?` or `#`. */
  function NetlocLength(s: string): (n: nat)
    ensures n <= |s| && forall i | 0 <= i < n :: s[i] !in ['/', '?', '#']
    ensures n < |s| ==> s[n] in ['/', '?', '#']
  {
    if s == "" || s[0] in ['/', '?', '#'] then 0 else 1 + NetlocLength(s[1..])
  }

  function CutNetloc(u: string): (string, string) {
    if |u| >= 2 && u[0] == '/' && u[1] == '/' then
      var n := NetlocLength(u[2..]);
      (u[2..][..n], u[2..][n..])
    else ("", u)
  }

  /** Brackets pair up: both present or both absent, at the head of the host, before a port. */
  predicate BracketsBalanced(netloc: string) {
    if '[' in netloc && ']' in netloc then
      var host := AfterLast(netloc, '@');
      var port := After(After(host, '['), ']');
      && ('[' in host ==> Before(host, '[') == "" && (port == "" || port[0] == ':'))
    else '[' !in netloc && ']' !in netloc
  }

  function UrlSplit(url: string): Result<Split, ValueError> {
    var (scheme, rest) := CutScheme(Clean(url));
    var (netloc, tail) := CutNetloc(rest);
    if !BracketsBalanced(netloc) then Err(ValueError) else
      var beforeFragment := Before(tail, '#');
      Ok(Split(scheme, netloc, Before(beforeFragment, '?'), After(beforeFragment, '?'), After(tail, '#')))
  }

  /** `SplitResult.hostname`: user information and port cut off, lower-cased up to an IPv6 zone. */
  function Hostname(netloc: string): Option<string> {
    var info := AfterLast(netloc, '@');
    var host := if '[' in info then Before(After(info, '['), ']') else Before(info, ':');
    if host == "" then None
    else Some(Lower(Before(host, '%')) + host[|Before(host, '%')|..])
  }

  /** The schemes for which an empty authority is still written as `//`. */
  predicate UsesNetloc(scheme: string) {
    scheme in {"ftp", "http", "gopher", "nntp", "telnet", "imap", "wais", "file", "mms", "https", "shttp", "snews",
               "prospero", "rtsp", "rtsps", "rtspu", "rsync", "svn", "svn+ssh", "sftp", "nfs", "git", "git+ssh",
               "ws", "wss", "itms-services"}
  }

  /** `urlunsplit` of a scheme and an authority with nothing behind them. */
  function Origin(scheme: string, netloc: string): string {
    var authority := if netloc != "" || UsesNetloc(scheme) then "//" + netloc else "";
    if scheme != "" then scheme + ":" + authority else authority
  }

  // ----- parsing what was composed ------------------------------------------

  /** Text the cleaning step leaves alone. */
  predicate IsClean(s: string) {
    (s == "" || s[0] > ' ') && forall i | 0 <= i < |s| :: !IsUnsafe(s[i])
  }

  lemma {:induction false} RemoveUnsafeKeeps(s: string)
    requires forall i | 0 <= i < |s| :: !IsUnsafe(s[i])
    ensures RemoveUnsafe(s) == s
  {
    if s != "" { RemoveUnsafeKeeps(s[1..]); }
  }

  lemma CleanKeeps(s: string)
    requires IsClean(s)
    ensures Clean(s) == s
  {
    RemoveUnsafeKeeps(s);
  }

  predicate IsNetloc(s: string) { forall i | 0 <= i < |s| :: s[i] !in ['/', '?', '#'] }

  predicate IsTail(s: string) { s == "" || s[0] in ['/', '?', '#'] }

  lemma {:induction false} NetlocLengthOf(netloc: string, tail: string)
    requires IsNetloc(netloc) && IsTail(tail)
    ensures NetlocLength(netloc + tail) == |netloc|
  {
    if netloc == "" {
      assert netloc + tail == tail;
    } else {
      assert (netloc + tail)[1..] == netloc[1..] + tail;
      NetlocLengthOf(netloc[1..], tail);
    }
  }

  lemma CutNetlocOf(netloc: string, tail: string)
    requires IsNetloc(netloc) && IsTail(tail)
    ensures CutNetloc("//" + netloc + tail) == (netloc, tail)
  {
    var u := "//" + netloc + tail;
    assert u[2..] == netloc + tail;
    NetlocLengthOf(netloc, tail);
  }

  lemma CutSchemeOf(scheme: string, rest: string)
    requires IsScheme(scheme)
    ensures CutScheme(scheme + ":" + rest) == (Lower(scheme), rest)
  {
    IndexOfPrefix(scheme, ':', rest);
    var u := scheme + ":" + rest;
    assert u[..|scheme|] == scheme && u[|scheme| + 1..] == rest;
  }

  /** The path, query and fragment of what follows the authority. */
  function Tail(scheme: string, netloc: string, tail: string): Split {
    var beforeFragment := Before(tail, '#');
    Split(scheme, netloc, Before(beforeFragment, '?'), After(beforeFragment, '?'), After(tail, '#'))
  }

  /** Scheme, authority and what is behind it come apart as they were put together. */
  lemma SplitOfAbsolute(scheme: string, netloc: string, tail: string)
    requires IsScheme(scheme) && IsNetloc(netloc) && IsTail(tail) && BracketsBalanced(netloc)
    requires IsClean(scheme + ":" + ("//" + netloc + tail))
    ensures UrlSplit(scheme + ":" + ("//" + netloc + tail)) == Ok(Tail(Lower(scheme), netloc, tail))
  {
    CleanKeeps(scheme + ":" + ("//" + netloc + tail));
    CutSchemeOf(scheme, "//" + netloc + tail);
    CutNetlocOf(netloc, tail);
  }

  /** What stands behind an authority: a path, a query and a fragment, each of the latter two if present. */
  function TailText(path: string, query: Option<string>, fragment: Option<string>): string {
    path + (if query.Some? then "?" + query.value else "") + (if fragment.Some? then "#" + fragment.value else "")
  }

  function OrNothing(part: Option<string>): string { if part.Some? then part.value else "" }

  predicate ArePathAndQuery(path: string, query: Option<string>) {
    && (path == "" || path[0] == '/') && '?' !in path && '#' !in path
    && (query.Some? ==> '#' !in query.value)
  }

  lemma TailOfParts(scheme: string, netloc: string, path: string, query: Option<string>, fragment: Option<string>)
    requires ArePathAndQuery(path, query)
    ensures IsTail(TailText(path, query, fragment))
    ensures Tail(scheme, netloc, TailText(path, query, fragment)) == Split(scheme, netloc, path, OrNothing(query), OrNothing(fragment))
  {
    hide Before, After;
    var asked := if query.Some? then "?" + query.value else "";
    var before := path + asked;
    var tail := TailText(path, query, fragment);
    assert '#' !in before;
    if fragment.Some? {
      assert tail == before + ['#'] + fragment.value;
      CutBack(before, '#', fragment.value);
    } else {
      assert tail == before;
    }
    if query.Some? {
      assert before == path + ['?'] + query.value;
      CutBack(path, '?', query.value);
    } else {
      assert before == path;
    }
    WithoutSeparator(tail, '#');
    WithoutSeparator(before, '?');
    assert path != "" ==> tail[0] == path[0];
    assert path == "" && query.Some? ==> tail[0] == '?';
    assert path == "" && query.None? && fragment.Some? ==> tail[0] == '#';
  }

  lemma WithoutSeparator(s: string, c: char)
    ensures c !in s ==> Before(s, c) == s && After(s, c) == ""
  {
  }

  /** An absolute URI parses into the parts it was composed of: scheme, authority, path, query, fragment. */
  lemma SplitOfParts(scheme: string, netloc: string, path: string, query: Option<string>, fragment: Option<string>)
    requires IsScheme(scheme) && IsNetloc(netloc) && BracketsBalanced(netloc) && ArePathAndQuery(path, query)
    requires IsClean(scheme + ":" + ("//" + netloc + TailText(path, query, fragment)))
    ensures UrlSplit(scheme + ":" + ("//" + netloc + TailText(path, query, fragment)))
         == Ok(Split(Lower(scheme), netloc, path, OrNothing(query), OrNothing(fragment)))
  {
    hide UrlSplit, Tail, TailText, Lower, IsClean, IsNetloc, IsScheme, BracketsBalanced;
    TailOfParts(Lower(scheme), netloc, path, query, fragment);
    SplitOfAbsolute(scheme, netloc, TailText(path, query, fragment));
  }

  predicate NoUnsafe(s: string) { forall i | 0 <= i < |s| :: !IsUnsafe(s[i]) }

  lemma LowerIsScheme(s: string)
    requires IsScheme(s)
    ensures IsScheme(Lower(s)) && Lower(Lower(s)) == Lower(s)
  {
  }

  lemma CutSchemeShape(u: string)
    requires NoUnsafe(u)
    ensures
      var (scheme, rest) := CutScheme(u);
      && (scheme == "" || (IsScheme(scheme) && Lower(scheme) == scheme)) && NoUnsafe(rest)
  {
    var i := IndexOf(u, ':');
    if i < |u| && IsScheme(u[..i]) { LowerIsScheme(u[..i]); }
  }

  lemma CutNetlocShape(u: string)
    requires NoUnsafe(u)
    ensures IsNetloc(CutNetloc(u).0) && NoUnsafe(CutNetloc(u).0)
  {
  }

  /** What a successful parse says about its scheme and authority. */
  lemma SplitShape(url: string)
    requires UrlSplit(url).Ok?
    ensures
      var s := UrlSplit(url).value;
      && (s.scheme == "" || (IsScheme(s.scheme) && Lower(s.scheme) == s.scheme))
      && IsNetloc(s.netloc) && BracketsBalanced(s.netloc) && NoUnsafe(s.netloc)
  {
    hide CutScheme, CutNetloc, BracketsBalanced, IsScheme, IsNetloc;
    var u := Clean(url);
    CutSchemeShape(u);
    CutNetlocShape(CutScheme(u).1);
  }

  lemma SplitOfBareAuthority(netloc: string)
    requires netloc != "" && IsNetloc(netloc) && BracketsBalanced(netloc) && NoUnsafe(netloc)
    ensures UrlSplit("//" + netloc) == Ok(Split("", netloc, "", "", ""))
  {
    hide BracketsBalanced;
    var o := "//" + netloc;
    CleanKeeps(o);
    var i := IndexOf(o, ':');
    assert i > 0 && o[..i][0] == '/';
    assert CutScheme(o) == ("", o);
    CutNetlocOf(netloc, "");
    assert "//" + netloc + "" == o;
  }

  lemma EmptyTail(scheme: string, netloc: string)
    ensures Tail(scheme, netloc, "") == Split(scheme, netloc, "", "", "") && CutNetloc("") == ("", "")
  {
  }

  lemma CleanColon(scheme: string)
    requires IsScheme(scheme)
    ensures IsClean(scheme + ":")
  {
    SchemeIsClean(scheme);
    hide IsScheme;
    assert forall i | 0 <= i < |scheme + ":"| :: (scheme + ":")[i] == if i < |scheme| then scheme[i] else ':';
  }

  lemma NoBrackets()
    ensures BracketsBalanced("")
  {
  }

  lemma SplitOfBareScheme(scheme: string)
    requires IsScheme(scheme)
    ensures UrlSplit(scheme + ":") == Ok(Split(Lower(scheme), "", "", "", ""))
  {
    var o := scheme + ":";
    hide IsScheme, Lower, CutScheme, Clean, Before, After, IsClean, BracketsBalanced;
    CleanColon(scheme);
    NoBrackets();
    assert o + "" == o;
    CleanKeeps(o);
    CutSchemeOf(scheme, "");
    EmptyTail(Lower(scheme), "");
  }

  lemma SchemeIsClean(scheme: string)
    requires IsScheme(scheme)
    ensures IsClean(scheme) && scheme != "" && scheme[0] > ' '
  {
  }

  lemma CleanJoin(scheme: string, netloc: string)
    requires IsClean(scheme) && scheme != "" && NoUnsafe(netloc)
    ensures IsClean(scheme + ":" + ("//" + netloc + ""))
  {
    var (a, b) := (scheme + ":", "//" + netloc + "");
    assert NoUnsafe(a) && NoUnsafe(b);
  }

  lemma SplitOfSchemeAndAuthority(scheme: string, netloc: string)
    requires IsScheme(scheme) && IsNetloc(netloc) && BracketsBalanced(netloc) && NoUnsafe(netloc)
    ensures UrlSplit(scheme + ":" + ("//" + netloc)) == Ok(Split(Lower(scheme), netloc, "", "", ""))
  {
    hide UrlSplit, BracketsBalanced, IsNetloc, IsScheme;
    SchemeIsClean(scheme);
    CleanJoin(scheme, netloc);
    SplitOfAbsolute(scheme, netloc, "");
    assert "//" + netloc + "" == "//" + netloc;
  }

  lemma SplitOfOriginParts(scheme: string, netloc: string)
    requires scheme == "" || (IsScheme(scheme) && Lower(scheme) == scheme)
    requires IsNetloc(netloc) && BracketsBalanced(netloc) && NoUnsafe(netloc)
    requires Origin(scheme, netloc) != ""
    ensures UrlSplit(Origin(scheme, netloc)) == Ok(Split(scheme, netloc, "", "", ""))
  {
    hide UrlSplit, IsNetloc, BracketsBalanced, IsScheme, Lower, UsesNetloc, NoUnsafe;
    if scheme == "" {
      assert netloc != "" by { if netloc == "" { SchemeIsNotEmpty(); } }
      SplitOfBareAuthority(netloc);
    } else if netloc != "" || UsesNetloc(scheme) {
      SplitOfSchemeAndAuthority(scheme, netloc);
    } else {
      SplitOfBareScheme(scheme);
      assert Origin(scheme, netloc) == scheme + ":";
    }
  }

  lemma SchemeIsNotEmpty()
    ensures !UsesNetloc("")
  {
  }

  /** A rewritten origin parses to its own scheme and authority, with nothing behind them. */
  lemma SplitOfOrigin(url: string)
    requires UrlSplit(url).Ok?
    ensures
      var s := UrlSplit(url).value;
      var o := Origin(s.scheme, s.netloc);
      o != "" ==> UrlSplit(o) == Ok(Split(s.scheme, s.netloc, "", "", ""))
  {
    SplitShape(url);
    hide *;
    var s := UrlSplit(url).value;
    if Origin(s.scheme, s.netloc) != "" { SplitOfOriginParts(s.scheme, s.netloc); }
  }
}
