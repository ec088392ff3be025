/** How long a document is cached (`choose_ttl` in src/cimd_proxy/cache.py). */
module CacheControl {
  import opened Wrappers
  import opened Text

  const MAX_DIGITS := 4300

  /** Digits with single underscores between them, the underscores removed. */
  function Ungrouped(s: string): Option<string> {
    if s == "" || !IsDigit(s[0]) then None
    else if |s| == 1 then Some(s)
    else
      match Ungrouped(if s[1] == '_' then s[2..] else s[1..])
      case None => None
      case Some(rest) => Some([s[0]] + rest)
  }

  lemma UngroupedDigits(s: string)
    ensures Ungrouped(s).Some? ==> AllDigits(Ungrouped(s).value)
    ensures s != "" && AllDigits(s) ==> Ungrouped(s) == Some(s)
  {
    if |s| > 1 {
      assert s == [s[0]] + s[1..];
      UngroupedDigits(if s[1] == '_' then s[2..] else s[1..]);
    }
  }

  /** `int(s)`: surrounding blanks, a sign, and at most 4300 digits. */
  function ParseInt(text: string): Option<int> {
    var s := Strip(text);
    var signed := s != "" && s[0] in ['+', '-'];
    var body := if signed then s[1..] else s;
    UngroupedDigits(body);
    match Ungrouped(body)
    case None => None
    case Some(digits) =>
      if |digits| > MAX_DIGITS then None
      else Some(if signed && s[0] == '-' then -(FromDecimal(digits) as int) else FromDecimal(digits))
  }

  /** The value of the first directive that starts with `max-age`, if it is a number. */
  function FirstMaxAge(directives: seq<string>): Option<int> {
    if directives == [] then None else
      var d := Strip(directives[0]);
      if "max-age" <= d then ParseInt(StripChar(Strip(After(d, '=')), '\"'))
      else FirstMaxAge(directives[1..])
  }

  function ExtractMaxAge(lower: string): Option<int> { FirstMaxAge(SplitOn(lower, ',')) }

  predicate Contains(s: string, part: string) {
    exists i | 0 <= i <= |s| :: part <= s[i..]
  }

  function Base(lower: string, defaultTtl: Option<int>, minTtl: int): int {
    match ExtractMaxAge(lower)
    case Some(n) => n
    case None =>
      if Contains(lower, "no-store") || Contains(lower, "no-cache") then minTtl
      else if defaultTtl.Some? then defaultTtl.value else minTtl
  }

  function Clamp(base: int, minTtl: int, maxTtl: int): int {
    var upper := if base <= maxTtl then base else maxTtl;
    if upper <= minTtl then minTtl else upper
  }

  function ChooseTtl(cacheControl: Option<string>, minTtl: int, maxTtl: int, defaultTtl: Option<int>): int {
    var base :=
      match cacheControl
      case None => if defaultTtl.Some? then defaultTtl.value else minTtl
      case Some(header) => Base(Lower(header), defaultTtl, minTtl);
    Clamp(base, minTtl, maxTtl)
  }

  /** Whatever the server sends, the lifetime stays within the configured bounds. */
  lemma TtlWithinBounds(cacheControl: Option<string>, minTtl: int, maxTtl: int, defaultTtl: Option<int>)
    requires minTtl <= maxTtl
    ensures minTtl <= ChooseTtl(cacheControl, minTtl, maxTtl, defaultTtl) <= maxTtl
  {
    hide Base, Lower;
  }

  /** A header that forbids caching gives the minimum exactly if it names no larger `max-age` beside it, or
      the bounds leave no other choice. */
  lemma NoStoreForcesMinimumExactly(header: string, minTtl: int, maxTtl: int, defaultTtl: Option<int>)
    requires minTtl <= maxTtl
    requires Contains(Lower(header), "no-store") || Contains(Lower(header), "no-cache")
    ensures
      var age := ExtractMaxAge(Lower(header));
      (ChooseTtl(Some(header), minTtl, maxTtl, defaultTtl) == minTtl
       <==> (minTtl == maxTtl || !(age.Some? && age.value > minTtl)))
  {
    hide ExtractMaxAge, Lower, Contains;
  }

  lemma StripKeeps(s: string)
    requires s != "" && !IsSpace(s[0]) && !IsSpace(s[|s| - 1])
    ensures Strip(s) == s
  {
  }

  lemma ParseIntDecimal(n: nat)
    requires |Decimal(n)| <= MAX_DIGITS
    ensures ParseInt(Decimal(n)) == Some(n)
  {
    var d := Decimal(n);
    hide Decimal, Ungrouped, Strip, FromDecimal;
    StripKeeps(d);
    UngroupedDigits(d);
    FromDecimalInverts(n);
  }

  lemma StripCharKeeps(s: string, x: char)
    requires s != "" && s[0] != x && s[|s| - 1] != x
    ensures StripChar(s, x) == s
  {
  }

  lemma DigitsNotSpecial(d: string)
    requires AllDigits(d) && d != ""
    ensures !IsSpace(d[0]) && !IsSpace(d[|d| - 1]) && d[0] != '\"' && d[|d| - 1] != '\"'
    ensures ',' !in d
  {
  }

  lemma FirstMaxAgeHit(directive: string, value: string)
    requires Strip(directive) == directive && "max-age" <= directive
    requires StripChar(Strip(After(directive, '=')), '\"') == value
    ensures FirstMaxAge([directive]) == ParseInt(value)
  {
    hide ParseInt, Strip, StripChar, After;
  }

  lemma DirectiveShape(d: string)
    requires AllDigits(d) && d != ""
    ensures
      var directive := "max-age=" + d;
      "max-age" <= directive && Strip(directive) == directive && After(directive, '=') == d && ',' !in directive
  {
    DigitsNotSpecial(d);
    LetterIsNoSpace();
    var directive := "max-age=" + d;
    hide AllDigits, IsSpace, Strip, After, Before;
    assert directive == "max-age" + ['='] + d by { assert "max-age=" == "max-age" + ['=']; }
    assert '=' !in "max-age";
    CutBack("max-age", '=', d);
    StripKeeps(directive);
  }

  lemma DirectiveIsRead(d: string, n: int)
    requires AllDigits(d) && d != "" && ParseInt(d) == Some(n)
    ensures FirstMaxAge(["max-age=" + d]) == Some(n) && ',' !in "max-age=" + d
  {
    hide *;
    DigitsNotSpecial(d);
    DirectiveShape(d);
    StripKeeps(d);
    StripCharKeeps(d, '\"');
    FirstMaxAgeHit("max-age=" + d, d);
  }

  lemma LetterIsNoSpace()
    ensures !IsSpace('m') && !IsSpace('n') && !IsSpace('e')
  {
  }

  lemma SplitTwo(a: string, c: char, b: string)
    requires c !in a && c !in b
    ensures SplitOn(a + [c] + b, c) == [a, b] && SplitOn(b, c) == [b]
  {
    hide Before, After;
    CutBack(a, c, b);
    assert (a + [c] + b)[|a|] == c;
    assert [a] + [b] == [a, b];
  }

  lemma OneDirective(s: string)
    requires ',' !in s
    ensures ExtractMaxAge(s) == FirstMaxAge([s])
  {
    hide FirstMaxAge;
  }

  lemma TwoDirectives(a: string, b: string)
    requires ',' !in a && ',' !in b
    ensures ExtractMaxAge(a + [','] + b) == FirstMaxAge([a, b])
  {
    hide FirstMaxAge, SplitOn;
    SplitTwo(a, ',', b);
  }

  /** A plain `max-age` is read back as written, also behind a `no-store`. */
  lemma MaxAgeIsRead(n: nat)
    requires |Decimal(n)| <= MAX_DIGITS
    ensures ExtractMaxAge("max-age=" + Decimal(n)) == Some(n)
    ensures ExtractMaxAge("no-store" + [','] + ("max-age=" + Decimal(n))) == Some(n)
  {
    var d := Decimal(n);
    hide *;
    ParseIntDecimal(n);
    DirectiveIsRead(d, n);
    OneDirective("max-age=" + d);
    NoStoreIsNoAge("max-age=" + d);
    TwoDirectives("no-store", "max-age=" + d);
  }

  lemma NoStoreIsNoAge(directive: string)
    ensures FirstMaxAge(["no-store", directive]) == FirstMaxAge([directive])
    ensures ',' !in "no-store"
  {
    hide ParseInt, Strip, IsSpace, After, StripChar;
    LetterIsNoSpace();
    StripKeeps("no-store");
    var all := ["no-store", directive];
    assert all[0] == "no-store" && all[1..] == [directive];
    assert "no-store"[0] != "max-age"[0];
  }

  function NoStoreAndAge(n: nat): string { "no-store" + [','] + ("max-age=" + Decimal(n)) }

  /** The failing headers: `no-store,max-age=n` is cached for n, as far as the bounds let it. */
  lemma MaxAgeBeatsNoStore(n: nat, minTtl: int, maxTtl: int, defaultTtl: Option<int>)
    requires |Decimal(n)| <= MAX_DIGITS && minTtl < n && minTtl < maxTtl
    ensures Contains(Lower(NoStoreAndAge(n)), "no-store")
    ensures minTtl < ChooseTtl(Some(NoStoreAndAge(n)), minTtl, maxTtl, defaultTtl) == (if n <= maxTtl then n else maxTtl)
  {
    hide *;
    var header := NoStoreAndAge(n);
    HeaderIsLower(n);
    HeaderForbids(n);
    HeaderNames(n);
    BaseIsAge(header, n, defaultTtl, minTtl);
    ChosenFrom(header, n, minTtl, maxTtl, defaultTtl);
  }

  lemma HeaderIsLower(n: nat)
    ensures Lower(NoStoreAndAge(n)) == NoStoreAndAge(n)
  {
    hide Lower, Decimal;
    LowerKeeps(NoStoreAndAge(n));
  }

  lemma HeaderForbids(n: nat)
    ensures Contains(NoStoreAndAge(n), "no-store")
  {
    hide Decimal;
    var header := NoStoreAndAge(n);
    assert header == "no-store" + ([','] + ("max-age=" + Decimal(n)));
    assert header[0..] == header && "no-store" <= header[0..];
  }

  lemma HeaderNames(n: nat)
    requires |Decimal(n)| <= MAX_DIGITS
    ensures ExtractMaxAge(NoStoreAndAge(n)) == Some(n)
  {
    hide Decimal, ExtractMaxAge;
    MaxAgeIsRead(n);
  }

  lemma BaseIsAge(header: string, n: int, defaultTtl: Option<int>, minTtl: int)
    requires ExtractMaxAge(header) == Some(n)
    ensures Base(header, defaultTtl, minTtl) == n
  {
    hide ExtractMaxAge, Contains;
  }

  lemma ChosenFrom(header: string, n: int, minTtl: int, maxTtl: int, defaultTtl: Option<int>)
    requires Lower(header) == header && Base(header, defaultTtl, minTtl) == n && minTtl < n && minTtl < maxTtl
    ensures ChooseTtl(Some(header), minTtl, maxTtl, defaultTtl) == if n <= maxTtl then n else maxTtl
  {
    hide Lower, Base;
  }

  // ----- what the server gets ------------------------------------------------------

  function Within(ttl: int, minTtl: int, maxTtl: int): int {
    if ttl < minTtl then minTtl else if ttl > maxTtl then maxTtl else ttl
  }

  /** Without a header, and under one that is silent about caching, the default applies, or else the minimum. */
  lemma SilenceExactly(cacheControl: Option<string>, minTtl: int, maxTtl: int, defaultTtl: Option<int>)
    requires minTtl <= maxTtl
    requires cacheControl.Some? ==>
      && ExtractMaxAge(Lower(cacheControl.value)) == None
      && !Contains(Lower(cacheControl.value), "no-store") && !Contains(Lower(cacheControl.value), "no-cache")
    ensures ChooseTtl(cacheControl, minTtl, maxTtl, defaultTtl)
         == if defaultTtl.Some? then Within(defaultTtl.value, minTtl, maxTtl) else minTtl
  {
    hide ExtractMaxAge, Contains, Lower;
  }

  /** A plain `max-age` is obeyed, as far as the bounds let it. */
  lemma MaxAgeIsObeyed(n: nat, minTtl: int, maxTtl: int, defaultTtl: Option<int>)
    requires |Decimal(n)| <= MAX_DIGITS && minTtl <= maxTtl
    ensures ChooseTtl(Some("max-age=" + Decimal(n)), minTtl, maxTtl, defaultTtl) == Within(n, minTtl, maxTtl)
  {
    var header := "max-age=" + Decimal(n);
    PlainIsLower(Decimal(n));
    MaxAgeIsRead(n);
    BaseIsAge(header, n, defaultTtl, minTtl);
    hide Base, Lower, Decimal, ExtractMaxAge;
  }

  lemma PlainIsLower(d: string)
    requires AllDigits(d)
    ensures Lower("max-age=" + d) == "max-age=" + d
  {
    hide Lower;
    LowerKeeps("max-age=" + d);
  }
}
