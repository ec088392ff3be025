/** JSON text as the sealed envelopes use it (RFC 8259, sections 2 to 7): a compact ASCII printer
    and a recursive-descent parser. Numbers are integers; fractions and exponents are refused. */
module Json {
  import opened Text

  datatype Json =
    | Null
    | Bool(b: bool)
    | Num(n: int)
    | Str(s: string)
    | Arr(items: seq<Json>)
    | Obj(members: seq<Member>)

  datatype Member = Member(key: string, value: Json)

  /** The dictionary a list of members denotes; a later member wins. */
  function ToMap(ms: seq<Member>): map<string, Json> {
    if ms == [] then map[] else
      var last := |ms| - 1;
      ToMap(ms[..last])[ms[last].key := ms[last].value]
  }

  // ----- printer ------------------------------------------------------------

  function HexDigit(d: nat): char
    requires d < 16
  {
    if d < 10 then ('0' as int + d) as char else ('a' as int + d - 10) as char
  }

  function Hex4(n: nat): (s: string)
    requires n < 0x10000
    ensures |s| == 4
  {
    var (h, l) := (n / 256, n % 256);
    [HexDigit(h / 16), HexDigit(h % 16), HexDigit(l / 16), HexDigit(l % 16)]
  }

  function Unit(n: nat): (s: string)
    requires n < 0x10000
    ensures |s| == 6
  {
    "\\u" + Hex4(n)
  }

  predicate IsPlain(c: char) {
    ' ' <= c <= '~' && c != '\"' && c != '\\'
  }

  function Escape(c: char): (s: string)
    ensures s != "" && s[0] != '\"'
  {
    var n := c as int;
    if IsPlain(c) then [c]
    else if c == '\"' then "\\\""
    else if c == '\\' then "\\\\"
    else if n == 8 then "\\b"
    else if n == 12 then "\\f"
    else if c == '\n' then "\\n"
    else if c == '\r' then "\\r"
    else if c == '\t' then "\\t"
    else if n < 0x10000 then Unit(n)
    else Unit(0xD800 + (n - 0x10000) / 0x400) + Unit(0xDC00 + (n - 0x10000) % 0x400)
  }

  function EscapeAll(s: string): string {
    if s == "" then "" else Escape(s[0]) + EscapeAll(s[1..])
  }

  function PrintString(s: string): (r: string)
    ensures r != "" && r[0] == '\"'
  {
    "\"" + EscapeAll(s) + "\""
  }

  function PrintInt(n: int): string {
    if n < 0 then "-" + Decimal(-n) else Decimal(n)
  }

  /** `json.dumps(j, separators=(",", ":"))`. */
  function Print(j: Json): string {
    match j
    case Null => "null"
    case Bool(b) => if b then "true" else "false"
    case Num(n) => PrintInt(n)
    case Str(s) => PrintString(s)
    case Arr(items) => "[" + PrintItems(items) + "]"
    case Obj(members) => "{" + PrintMembers(members) + "}"
  }

  function PrintItems(items: seq<Json>): string {
    if |items| == 0 then ""
    else if |items| == 1 then Print(items[0])
    else Print(items[0]) + "," + PrintItems(items[1..])
  }

  function PrintMember(m: Member): string { PrintString(m.key) + ":" + Print(m.value) }

  function PrintMembers(ms: seq<Member>): string {
    if |ms| == 0 then ""
    else if |ms| == 1 then PrintMember(ms[0])
    else PrintMember(ms[0]) + "," + PrintMembers(ms[1..])
  }

  // ----- parser -------------------------------------------------------------

  datatype Parsed<+T> = Fail | Got(value: T, rest: string)

  function HexValue(c: char): int {
    if '0' <= c <= '9' then c as int - '0' as int
    else if 'a' <= c <= 'f' then c as int - 'a' as int + 10
    else if 'A' <= c <= 'F' then c as int - 'A' as int + 10
    else -1
  }

  /** Four hexadecimal digits. */
  function ParseHex4(s: string): (p: Parsed<nat>)
    ensures p.Got? ==> |p.rest| == |s| - 4 && p.value < 0x10000
  {
    if |s| < 4 then Fail else
      var a, b, c, d := HexValue(s[0]), HexValue(s[1]), HexValue(s[2]), HexValue(s[3]);
      if a < 0 || b < 0 || c < 0 || d < 0 then Fail
      else Got((a * 16 + b) * 256 + (c * 16 + d), s[4..])
  }

  /** What follows `\u`: one unit, or a surrogate pair (RFC 8259, section 7). */
  function ParseUnits(s: string): (p: Parsed<char>)
    ensures p.Got? ==> |p.rest| < |s|
  {
    match ParseHex4(s)
    case Fail => Fail
    case Got(n, t) =>
      if n < 0xD800 || 0xE000 <= n then Got(n as char, t)
      else if n < 0xDC00 && "\\u" <= t then
        match ParseHex4(t[2..])
        case Got(m, u) =>
          if 0xDC00 <= m < 0xE000
          then Got((0x10000 + (n - 0xD800) * 0x400 + (m - 0xDC00)) as char, u)
          else Fail
        case Fail => Fail
      else Fail
  }

  function ParseChar(s: string): (p: Parsed<char>)
    ensures p.Got? ==> |p.rest| < |s|
  {
    if s == "" || s[0] < ' ' then Fail
    else if s[0] != '\\' then Got(s[0], s[1..])
    else if |s| < 2 then Fail
    else if s[1] == 'u' then ParseUnits(s[2..])
    else if s[1] in ['\"', '\\', '/'] then Got(s[1], s[2..])
    else if s[1] == 'b' then Got(8 as char, s[2..])
    else if s[1] == 'f' then Got(12 as char, s[2..])
    else if s[1] == 'n' then Got('\n', s[2..])
    else if s[1] == 'r' then Got('\r', s[2..])
    else if s[1] == 't' then Got('\t', s[2..])
    else Fail
  }

  /** The rest of a string whose opening quote has been read. */
  function ParseBody(s: string): (p: Parsed<string>)
    ensures p.Got? ==> |p.rest| < |s|
    decreases |s|
  {
    if s == "" then Fail
    else if s[0] == '\"' then Got("", s[1..])
    else
      match ParseChar(s)
      case Fail => Fail
      case Got(c, t) =>
        match ParseBody(t)
        case Fail => Fail
        case Got(v, u) => Got([c] + v, u)
  }

  function DigitRun(s: string): (n: nat)
    ensures n <= |s| && AllDigits(s[..n])
    ensures n < |s| ==> !IsDigit(s[n])
  {
    if s == "" || !IsDigit(s[0]) then 0 else
      assert s[1..][..DigitRun(s[1..])] == s[1..1 + DigitRun(s[1..])];
      1 + DigitRun(s[1..])
  }

  function ParseNat(s: string): (p: Parsed<nat>)
    ensures p.Got? ==> |p.rest| < |s|
  {
    var n := if s != "" && s[0] == '0' then 1 else DigitRun(s);
    if n == 0 || (n < |s| && s[n] in ['.', 'e', 'E']) then Fail
    else
      assert s[0] == '0' ==> s[..n] == "0";
      Got(FromDecimal(s[..n]), s[n..])
  }

  function SkipBlank(s: string): (r: string)
    ensures |r| <= |s|
  {
    if s != "" && s[0] in [' ', '\t', '\n', '\r'] then SkipBlank(s[1..]) else s
  }

  function ParseWord(s: string): (p: Parsed<Json>)
    ensures p.Got? ==> |p.rest| < |s|
  {
    if |s| >= 4 && s[..4] == "null" then Got(Null, s[4..])
    else if |s| >= 4 && s[..4] == "true" then Got(Bool(true), s[4..])
    else if |s| >= 5 && s[..5] == "false" then Got(Bool(false), s[5..])
    else Fail
  }

  function ParseNumber(s: string): (p: Parsed<Json>)
    ensures p.Got? ==> |p.rest| < |s|
  {
    var negative := s != "" && s[0] == '-';
    match ParseNat(if negative then s[1..] else s)
    case Fail => Fail
    case Got(n, t) => Got(Num(if negative then -(n as int) else n), t)
  }

  function ParseString(s: string): (p: Parsed<string>)
    ensures p.Got? ==> |p.rest| < |s|
  {
    if s == "" || s[0] != '\"' then Fail else ParseBody(s[1..])
  }

  function ParseValue(s: string): (p: Parsed<Json>)
    ensures p.Got? ==> |p.rest| < |s|
    decreases |s|, 0
  {
    if s == "" then Fail
    else if s[0] == '\"' then
      match ParseString(s)
      case Fail => Fail
      case Got(v, t) => Got(Str(v), t)
    else if s[0] == '[' then
      var t := SkipBlank(s[1..]);
      if t != "" && t[0] == ']' then Got(Arr([]), t[1..]) else
        match ParseItems(t)
        case Fail => Fail
        case Got(v, u) => Got(Arr(v), u)
    else if s[0] == '{' then
      var t := SkipBlank(s[1..]);
      if t != "" && t[0] == '}' then Got(Obj([]), t[1..]) else
        match ParseMembers(t)
        case Fail => Fail
        case Got(v, u) => Got(Obj(v), u)
    else if s[0] == '-' || IsDigit(s[0]) then ParseNumber(s)
    else ParseWord(s)
  }

  /** One or more values and the closing bracket. */
  function ParseItems(s: string): (p: Parsed<seq<Json>>)
    ensures p.Got? ==> |p.rest| < |s|
    decreases |s|, 1
  {
    match ParseValue(s)
    case Fail => Fail
    case Got(v, r) =>
      var t := SkipBlank(r);
      if t == "" then Fail
      else if t[0] == ']' then Got([v], t[1..])
      else if t[0] != ',' then Fail
      else
        match ParseItems(SkipBlank(t[1..]))
        case Fail => Fail
        case Got(vs, u) => Got([v] + vs, u)
  }

  function ParseMember(s: string): (p: Parsed<Member>)
    ensures p.Got? ==> |p.rest| < |s|
    decreases |s|, 1
  {
    match ParseString(s)
    case Fail => Fail
    case Got(k, r) =>
      var t := SkipBlank(r);
      if t == "" || t[0] != ':' then Fail else
        match ParseValue(SkipBlank(t[1..]))
        case Fail => Fail
        case Got(v, u) => Got(Member(k, v), u)
  }

  /** One or more members and the closing brace. */
  function ParseMembers(s: string): (p: Parsed<seq<Member>>)
    ensures p.Got? ==> |p.rest| < |s|
    decreases |s|, 2
  {
    match ParseMember(s)
    case Fail => Fail
    case Got(m, r) =>
      var t := SkipBlank(r);
      if t == "" then Fail
      else if t[0] == '}' then Got([m], t[1..])
      else if t[0] != ',' then Fail
      else
        match ParseMembers(SkipBlank(t[1..]))
        case Fail => Fail
        case Got(ms, u) => Got([m] + ms, u)
  }

  /** `json.loads(s)`. */
  function Loads(s: string): Parsed<Json> {
    match ParseValue(SkipBlank(s))
    case Fail => Fail
    case Got(j, r) => if SkipBlank(r) == "" then Got(j, "") else Fail
  }

  // ----- the parser inverts the printer -------------------------------------

  lemma HexDigitInverts(d: nat)
    requires d < 16
    ensures HexValue(HexDigit(d)) == d
  {
  }

  lemma HexInverts(n: nat, rest: string)
    requires n < 0x10000
    ensures ParseHex4(Hex4(n) + rest) == Got(n, rest)
  {
    hide HexValue, HexDigit;
    var a, b, c, d := n / 256 / 16, n / 256 % 16, n % 256 / 16, n % 256 % 16;
    HexDigitInverts(a);
    HexDigitInverts(b);
    HexDigitInverts(c);
    HexDigitInverts(d);
    var s := Hex4(n) + rest;
    assert s[0] == HexDigit(a) && s[1] == HexDigit(b) && s[2] == HexDigit(c) && s[3] == HexDigit(d);
    assert s[4..] == rest;
  }

  lemma UnitInverts(n: nat, rest: string)
    requires n < 0xD800 || 0xE000 <= n < 0x10000
    ensures ParseUnits(Hex4(n) + rest) == Got(n as char, rest)
  {
    HexInverts(n, rest);
  }

  lemma PairInverts(n: nat, rest: string)
    requires 0x10000 <= n <= 0x10FFFF
    ensures
      var hi, lo := 0xD800 + (n - 0x10000) / 0x400, 0xDC00 + (n - 0x10000) % 0x400;
      ParseUnits(Hex4(hi) + (Unit(lo) + rest)) == Got(n as char, rest)
  {
    hide ParseHex4, Hex4;
    var hi, lo := 0xD800 + (n - 0x10000) / 0x400, 0xDC00 + (n - 0x10000) % 0x400;
    var t := Unit(lo) + rest;
    HexInverts(hi, t);
    assert t[..2] == "\\u" && t[2..] == Hex4(lo) + rest;
    HexInverts(lo, rest);
  }

  lemma EscapeInverts(c: char, rest: string)
    ensures ParseChar(Escape(c) + rest) == Got(c, rest)
  {
    hide ParseUnits, Hex4;
    var n := c as int;
    var s := Escape(c) + rest;
    if IsPlain(c) {
      assert s[1..] == rest;
    } else if |Escape(c)| == 2 {
      assert s[1] == Escape(c)[1] && s[2..] == rest;
    } else if n < 0x10000 {
      assert s[1] == 'u' && s[2..] == Hex4(n) + rest;
      UnitInverts(n, rest);
    } else {
      var hi, lo := 0xD800 + (n - 0x10000) / 0x400, 0xDC00 + (n - 0x10000) % 0x400;
      assert s[1] == 'u' && s[2..] == Hex4(hi) + (Unit(lo) + rest);
      PairInverts(n, rest);
    }
  }

  lemma {:induction false} BodyInverts(v: string, rest: string)
    ensures ParseBody(EscapeAll(v) + ("\"" + rest)) == Got(v, rest)
  {
    hide ParseChar, Escape;
    if v != "" {
      var tail := EscapeAll(v[1..]) + ("\"" + rest);
      var s := Escape(v[0]) + tail;
      assert EscapeAll(v) + ("\"" + rest) == s && s[0] != '\"';
      EscapeInverts(v[0], tail);
      BodyInverts(v[1..], rest);
      assert v == [v[0]] + v[1..];
    } else {
      assert (EscapeAll(v) + ("\"" + rest))[1..] == rest;
    }
  }

  /** What may follow a value inside a document. */
  predicate Follows(rest: string) { rest == "" || rest[0] in [',', ']', '}'] }

  lemma DigitRunOf(d: string, rest: string)
    requires AllDigits(d) && (rest == "" || !IsDigit(rest[0]))
    ensures DigitRun(d + rest) == |d|
  {
    if d != "" {
      DigitRunOf(d[1..], rest);
      assert (d + rest)[1..] == d[1..] + rest;
    } else {
      assert d + rest == rest;
    }
  }

  lemma NatInverts(n: nat, rest: string)
    requires Follows(rest)
    ensures ParseNat(Decimal(n) + rest) == Got(n, rest)
  {
    var d := Decimal(n);
    DigitRunOf(d, rest);
    FromDecimalInverts(n);
    var s := d + rest;
    assert s[..|d|] == d && s[|d|..] == rest;
  }

  /** No value starts with a blank, a comma or a closing bracket. */
  predicate Starts(s: string) {
    s != "" && (s[0] in ['n', 't', 'f', '-', '\"', '[', '{'] || IsDigit(s[0]))
  }

  lemma PrintStarts(j: Json)
    ensures Starts(Print(j))
  {
  }

  lemma ItemsStart(items: seq<Json>)
    requires items != []
    ensures Starts(PrintItems(items))
  {
    PrintStarts(items[0]);
  }

  lemma MembersStart(ms: seq<Member>)
    requires ms != []
    ensures PrintMembers(ms) != "" && PrintMembers(ms)[0] == '\"'
  {
    assert PrintMember(ms[0])[0] == PrintString(ms[0].key)[0];
  }

  lemma WordInverts(j: Json, rest: string)
    requires j.Null? || j.Bool?
    ensures ParseValue(Print(j) + rest) == Got(j, rest)
  {
    var word := Print(j);
    var s := word + rest;
    assert s[0] == word[0] && s[|word|..] == rest;
    assert |word| == 5 ==> s[..5] == word;
    assert |word| == 4 ==> s[..4] == word;
  }

  lemma NumberInverts(n: int, rest: string)
    requires Follows(rest)
    ensures ParseValue(PrintInt(n) + rest) == Got(Num(n), rest)
  {
    hide ParseNat, Decimal;
    var s := PrintInt(n) + rest;
    if n < 0 {
      assert s[1..] == Decimal(-n) + rest;
      NatInverts(-n, rest);
    } else {
      NatInverts(n, rest);
    }
  }

  lemma StringInverts(v: string, rest: string)
    ensures ParseString(PrintString(v) + rest) == Got(v, rest)
  {
    hide ParseBody, EscapeAll;
    var s := PrintString(v) + rest;
    assert s[1..] == EscapeAll(v) + ("\"" + rest);
    BodyInverts(v, rest);
  }

  lemma TextInverts(v: string, rest: string)
    ensures ParseValue(PrintString(v) + rest) == Got(Str(v), rest)
  {
    hide ParseString, PrintString;
    assert (PrintString(v) + rest)[0] == PrintString(v)[0];
    StringInverts(v, rest);
  }

  lemma ArrayInverts(items: seq<Json>, rest: string)
    requires items != [] ==> ParseItems(PrintItems(items) + ("]" + rest)) == Got(items, rest)
    ensures ParseValue("[" + PrintItems(items) + "]" + rest) == Got(Arr(items), rest)
  {
    EmptyPrints();
    hide ParseItems, ParseMembers, ParseString, ParseWord, ParseNumber, PrintItems;
    var t := PrintItems(items) + ("]" + rest);
    var s := "[" + PrintItems(items) + "]" + rest;
    assert s[0] == '[' && s[1..] == t;
    if items == [] {
      assert t[1..] == rest;
    } else {
      ItemsStart(items);
    }
  }

  lemma EmptyPrints()
    ensures PrintItems([]) == "" && PrintMembers([]) == ""
  {
  }

  lemma ObjectInverts(members: seq<Member>, rest: string)
    requires members != [] ==> ParseMembers(PrintMembers(members) + ("}" + rest)) == Got(members, rest)
    ensures ParseValue("{" + PrintMembers(members) + "}" + rest) == Got(Obj(members), rest)
  {
    EmptyPrints();
    hide ParseMembers, ParseItems, ParseString, ParseWord, ParseNumber, PrintMembers;
    var t := PrintMembers(members) + ("}" + rest);
    var s := "{" + PrintMembers(members) + "}" + rest;
    assert s[0] == '{' && s[1..] == t;
    if members == [] {
      assert t[1..] == rest;
    } else {
      MembersStart(members);
    }
  }

  /** Any document parses back to itself, whatever follows it. */
  lemma {:induction false} ValueInverts(j: Json, rest: string)
    requires Follows(rest)
    ensures ParseValue(Print(j) + rest) == Got(j, rest)
    decreases j, 0
  {
    hide ParseValue, ParseString, ParseItems, ParseMembers, PrintItems, PrintMembers, PrintString, PrintInt;
    match j
    case Null => WordInverts(j, rest);
    case Bool(_) => WordInverts(j, rest);
    case Num(n) => NumberInverts(n, rest);
    case Str(v) =>
      TextInverts(v, rest);
    case Arr(items) =>
      if items != [] { ItemsInvert(items, rest); }
      ArrayInverts(items, rest);
    case Obj(members) =>
      if members != [] { MembersInvert(members, rest); }
      ObjectInverts(members, rest);
  }

  lemma {:induction false} ItemsInvert(items: seq<Json>, rest: string)
    requires items != []
    ensures ParseItems(PrintItems(items) + ("]" + rest)) == Got(items, rest)
    decreases items, 1
  {
    var s := PrintItems(items) + ("]" + rest);
    hide ParseValue, Print;
    if |items| == 1 {
      ValueInverts(items[0], "]" + rest);
      assert ("]" + rest)[1..] == rest;
      assert items == [items[0]];
    } else {
      var tail := PrintItems(items[1..]) + ("]" + rest);
      assert s == Print(items[0]) + ("," + tail);
      ValueInverts(items[0], "," + tail);
      assert ("," + tail)[1..] == tail;
      ItemsStart(items[1..]);
      ItemsInvert(items[1..], rest);
      assert items == [items[0]] + items[1..];
    }
  }

  lemma {:induction false} MemberInverts(m: Member, rest: string)
    requires Follows(rest)
    ensures ParseMember(PrintMember(m) + rest) == Got(m, rest)
    decreases m, 1
  {
    hide ParseValue, Print, ParseString, PrintString;
    var tail := ":" + Print(m.value) + rest;
    assert PrintMember(m) + rest == PrintString(m.key) + tail;
    StringInverts(m.key, tail);
    assert tail[1..] == Print(m.value) + rest;
    PrintStarts(m.value);
    ValueInverts(m.value, rest);
  }

  lemma {:induction false} MembersInvert(ms: seq<Member>, rest: string)
    requires ms != []
    ensures ParseMembers(PrintMembers(ms) + ("}" + rest)) == Got(ms, rest)
    decreases ms, 2
  {
    var s := PrintMembers(ms) + ("}" + rest);
    hide ParseMember, PrintMember;
    if |ms| == 1 {
      MemberInverts(ms[0], "}" + rest);
      assert ("}" + rest)[1..] == rest;
      assert ms == [ms[0]];
    } else {
      var tail := PrintMembers(ms[1..]) + ("}" + rest);
      assert s == PrintMember(ms[0]) + ("," + tail);
      MemberInverts(ms[0], "," + tail);
      assert ("," + tail)[1..] == tail;
      MembersStart(ms[1..]);
      MembersInvert(ms[1..], rest);
      assert ms == [ms[0]] + ms[1..];
    }
  }

  /** Reading back what was written gives the same document. */
  lemma LoadsPrint(j: Json)
    ensures Loads(Print(j)) == Got(j, "")
  {
    PrintStarts(j);
    ValueInverts(j, "");
    assert Print(j) + "" == Print(j);
  }

  // ----- samples of the text ----------------------------------------------------

  /** The escapes that come out, so that the round trip is not one between two private formats. */
  lemma EscapeSamples()
    ensures Escape('a') == "a" && Escape('\"') == "\\\"" && Escape('\\') == "\\\\" && Escape('\n') == "\\n"
    ensures Escape('\U{E9}') == "\\u00e9" && Escape('\U{1F600}') == "\\ud83d\\ude00"
  {
    HexSamples();
    hide Hex4;
  }

  lemma HexSamples()
    ensures Hex4(0xE9) == "00e9" && Hex4(0xD83D) == "d83d" && Hex4(0xDE00) == "de00"
  {
  }

  /** Compact text: no blanks, a colon within and a comma between members and items. */
  lemma PrintSample(a: Json, b: Json)
    ensures Print(Arr([b, Num(-1)])) == "[" + (Print(b) + "," + "-1") + "]"
    ensures Print(Obj([Member("k", a), Member("l", b)])) == "{" + ("\"k\"" + ":" + Print(a) + "," + ("\"l\"" + ":" + Print(b))) + "}"
  {
    var (list, ms) := ([b, Num(-1)], [Member("k", a), Member("l", b)]);
    assert list[1..] == [Num(-1)] && ms[1..] == [Member("l", b)];
    assert PrintItems(list[1..]) == "-1";
    assert PrintString("k") == "\"k\"" && PrintString("l") == "\"l\"";
    assert PrintMember(ms[0]) == "\"k\"" + ":" + Print(a) && PrintMember(ms[1]) == "\"l\"" + ":" + Print(b);
    assert PrintMembers(ms[1..]) == PrintMember(ms[1]);
    assert PrintMembers(ms) == PrintMember(ms[0]) + "," + PrintMembers(ms[1..]);
  }
}
