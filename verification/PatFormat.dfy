/** The personal access token as a string (src/cimd_proxy/pat_format.py): prefix, 43 base62 characters of
    randomness, 6 base62 characters of CRC-32. */
module PatFormat {
  import opened Wrappers
  import opened Crc32

  const PREFIX := "kmb_pat_"
  const RANDOM_BYTES := 32
  const RANDOM_CHARS := 43
  const CHECKSUM_CHARS := 6
  const BODY_LENGTH := 51
  const TOKEN_LENGTH := 57

  // ----- fixed-width base62 -------------------------------------------------

  function Pow(base: nat, n: nat): nat {
    if n == 0 then 1 else base * Pow(base, n - 1)
  }

  /** Digits, then upper-case, then lower-case letters. */
  function Symbol(d: nat): char
    requires d < 62
  {
    if d < 10 then ('0' as int + d) as char
    else if d < 36 then ('A' as int + d - 10) as char
    else ('a' as int + d - 36) as char
  }

  predicate IsSymbol(c: char) { '0' <= c <= '9' || 'A' <= c <= 'Z' || 'a' <= c <= 'z' }

  predicate AllSymbols(s: string) { forall i | 0 <= i < |s| :: IsSymbol(s[i]) }

  function SymbolValue(c: char): (d: nat)
    requires IsSymbol(c)
    ensures d < 62 && Symbol(d) == c
  {
    if c <= '9' then c as int - '0' as int
    else if c <= 'Z' then c as int - 'A' as int + 10
    else c as int - 'a' as int + 36
  }

  /** The last `width` base62 digits of a value. */
  function Digits(value: nat, width: nat): (s: string)
    ensures |s| == width && AllSymbols(s)
    decreases width
  {
    if width == 0 then "" else Digits(value / 62, width - 1) + [Symbol(value % 62)]
  }

  /** The positional value of a base62 string. */
  function Value(s: string): nat
    requires AllSymbols(s)
  {
    if s == "" then 0 else Value(s[..|s| - 1]) * 62 + SymbolValue(s[|s| - 1])
  }

  lemma {:induction false} ValueOfDigits(value: nat, width: nat)
    requires value < Pow(62, width)
    ensures Value(Digits(value, width)) == value
    decreases width
  {
    if width > 0 {
      var s := Digits(value, width);
      assert s[..|s| - 1] == Digits(value / 62, width - 1);
      ValueOfDigits(value / 62, width - 1);
    }
  }

  lemma {:induction false} DigitsOfValue(s: string)
    requires AllSymbols(s)
    ensures Value(s) < Pow(62, |s|) && Digits(Value(s), |s|) == s
  {
    if s != "" {
      var head := s[..|s| - 1];
      DigitsOfValue(head);
      assert Value(s) / 62 == Value(head) && Value(s) % 62 == SymbolValue(s[|s| - 1]);
      assert s == head + [s[|s| - 1]];
    }
  }

  datatype TooLarge = TooLarge

  function Reversed(s: string): string {
    if s == "" then "" else Reversed(s[1..]) + [s[0]]
  }

  lemma ReversedAppend(s: string, c: char)
    ensures Reversed(s + [c]) == [c] + Reversed(s)
  {
    if s != "" {
      assert (s + [c])[1..] == s[1..] + [c];
    }
  }

  /** `_base62`: succeeds exactly when the value fits, with exactly `width` digits. */
  method Base62(value: nat, width: nat) returns (r: Result<string, TooLarge>)
    ensures r.Ok? <==> value < Pow(62, width)
    ensures r.Ok? ==> r.value == Digits(value, width)
  {
    var chars := "";
    var rest: nat := value;
    for i := 0 to width
      invariant Digits(value, width) == Digits(rest, width - i) + Reversed(chars)
      invariant value < Pow(62, width) <==> rest < Pow(62, width - i)
    {
      var rem := rest % 62;
      rest := rest / 62;
      ReversedAppend(chars, Symbol(rem));
      chars := chars + [Symbol(rem)];
    }
    if rest != 0 { return Err(TooLarge); }
    r := Ok(Reversed(chars));
  }

  // ----- octets -------------------------------------------------------------

  predicate IsAscii(s: string) { forall i | 0 <= i < |s| :: s[i] < 128 as char }

  function Octet(c: char): bv32
    requires c < 128 as char
  {
    (c as int) as bv32
  }

  /** The n-th octet, counted up from zero: a bridge between numbers and bit vectors. */
  function Counted(n: nat): bv32 { if n == 0 then 0 else Counted(n - 1) + 1 }

  lemma {:induction false} CountedIsNumber(n: nat)
    requires n < 128
    ensures Counted(n) < 0x80 && (Counted(n) as int) == n
  {
    if n > 0 { CountedIsNumber(n - 1); }
  }

  lemma BackAndForth(r: bv32)
    ensures (r as int) as bv32 == r
  {
  }

  lemma OctetIsNumber(c: char)
    requires c < 128 as char
    ensures IsOctet(Octet(c)) && (Octet(c) as int) == c as int
  {
    CountedIsNumber(c as int);
    BackAndForth(Counted(c as int));
  }

  lemma OctetTellsApart(c: char, d: char)
    requires c < 128 as char && d < 128 as char && Octet(c) == Octet(d)
    ensures c == d
  {
    OctetIsNumber(c);
    OctetIsNumber(d);
  }

  /** `s.encode("ascii")`. */
  function Octets(s: string): (o: seq<bv32>)
    requires IsAscii(s)
    ensures |o| == |s| && forall i | 0 <= i < |s| :: o[i] == Octet(s[i])
  {
    seq(|s|, i requires 0 <= i < |s| => Octet(s[i]))
  }

  lemma RegisterFits(r: bv32)
    ensures (r as nat) < Pow(62, CHECKSUM_CHARS)
  {
  }

  lemma RegisterTellsApart(r: bv32, t: bv32)
    requires (r as nat) == (t as nat)
    ensures r == t
  {
    BackAndForth(r);
    BackAndForth(t);
  }

  lemma {:induction false} PowAdd(base: nat, m: nat, n: nat)
    ensures Pow(base, m + n) == Pow(base, m) * Pow(base, n)
  {
    if m > 0 {
      PowAdd(base, m - 1, n);
      MultiplyAssociates(base, Pow(base, m - 1), Pow(base, n));
    }
  }

  lemma MultiplyAssociates(x: nat, y: nat, z: nat)
    ensures x * (y * z) == x * y * z
  {
  }

  lemma PowerOf62()
    ensures Pow(62, RANDOM_CHARS) == 118261299920216034323567158324881157722618355000741423528102151243191317168128
  {
    assert Pow(62, 3) == 238328 && Pow(62, 5) == 916132832;
    hide Pow;
    PowAdd(62, 5, 5);
    PowAdd(62, 10, 10);
    PowAdd(62, 20, 20);
    PowAdd(62, 40, 3);
  }

  lemma PowerOf256()
    ensures Pow(256, RANDOM_BYTES) == 115792089237316195423570985008687907853269984665640564039457584007913129639936
  {
    assert Pow(256, 4) == 4294967296;
    hide Pow;
    PowAdd(256, 4, 4);
    PowAdd(256, 8, 8);
    PowAdd(256, 16, 16);
  }

  /** 2^256 <= 62^43: the random part always has room for 32 octets. */
  lemma RandomFits()
    ensures Pow(256, RANDOM_BYTES) <= Pow(62, RANDOM_CHARS)
  {
    hide Pow;
    PowerOf62();
    PowerOf256();
  }

  // ----- the token ----------------------------------------------------------

  function Checksum(body: string): string
    requires IsAscii(body)
  {
    Digits(Crc(Octets(body)) as nat, CHECKSUM_CHARS)
  }

  /** `int.from_bytes(b, "big")`. */
  function BigEndian(b: seq<nat>): nat {
    if b == [] then 0 else BigEndian(b[..|b| - 1]) * 256 + b[|b| - 1]
  }

  predicate AreBytes(b: seq<nat>) { forall i | 0 <= i < |b| :: b[i] < 256 }

  /** `generate`, for the random octets it draws. */
  function Generate(random: seq<nat>): string {
    var body := PREFIX + Digits(BigEndian(random), RANDOM_CHARS);
    SymbolsAreAscii(Digits(BigEndian(random), RANDOM_CHARS));
    body + Checksum(body)
  }

  predicate IsWellFormed(token: string) {
    && |token| == TOKEN_LENGTH && PREFIX <= token
    && AllSymbols(token[|PREFIX|..])
    && (WellFormedIsAscii(token); Checksum(token[..BODY_LENGTH]) == token[BODY_LENGTH..])
  }

  lemma SymbolsAreAscii(s: string)
    requires AllSymbols(s)
    ensures IsAscii(s)
  {
  }

  lemma WellFormedIsAscii(token: string)
    requires |token| == TOKEN_LENGTH && PREFIX <= token && AllSymbols(token[|PREFIX|..])
    ensures IsAscii(token) && IsAscii(token[..BODY_LENGTH])
  {
    assert forall i | 0 <= i < 8 :: token[i] == PREFIX[i];
    assert forall i | 8 <= i < |token| :: token[i] == token[|PREFIX|..][i - 8];
  }

  lemma {:induction false} BigEndianBound(b: seq<nat>)
    requires AreBytes(b)
    ensures BigEndian(b) < Pow(256, |b|)
  {
    if b != [] {
      var last := |b| - 1;
      BigEndianBound(b[..last]);
    }
  }

  lemma {:induction false} BigEndianInjective(a: seq<nat>, b: seq<nat>)
    requires AreBytes(a) && AreBytes(b) && |a| == |b| && BigEndian(a) == BigEndian(b)
    ensures a == b
  {
    if a != [] {
      var last := |a| - 1;
      BigEndianInjective(a[..last], b[..last]);
      assert a == a[..last] + [a[last]] && b == b[..last] + [b[last]];
    }
  }

  /** The random value always fits, so generation never fails, whatever octets are drawn. */
  lemma RandomValueFits(random: seq<nat>)
    requires AreBytes(random) && |random| == RANDOM_BYTES
    ensures BigEndian(random) < Pow(62, RANDOM_CHARS)
  {
    hide Pow;
    BigEndianBound(random);
    RandomFits();
  }

  /** The executable form: neither base62 conversion ever fails. */
  method GenerateToken(random: seq<nat>) returns (token: string)
    requires AreBytes(random) && |random| == RANDOM_BYTES
    ensures token == Generate(random)
  {
    hide Pow, BigEndian;
    RandomValueFits(random);
    var digits := Base62(BigEndian(random), RANDOM_CHARS);
    var body := PREFIX + digits.value;
    SymbolsAreAscii(digits.value);
    var crc := ComputeCrc(Octets(body));
    RegisterFits(crc);
    var check := Base62(crc as nat, CHECKSUM_CHARS);
    token := body + check.value;
  }

  /** Every generated token is well formed and ASCII. */
  lemma GeneratedIsWellFormed(random: seq<nat>)
    ensures IsWellFormed(Generate(random)) && IsAscii(Generate(random))
  {
    hide Digits, BigEndian, Crc;
    var digits := Digits(BigEndian(random), RANDOM_CHARS);
    SymbolsAreAscii(digits);
    var body := PREFIX + digits;
    var check := Checksum(body);
    var token := body + check;
    assert token[BODY_LENGTH..] == check && token[..BODY_LENGTH] == body;
    assert token[..8] == PREFIX && token[|PREFIX|..] == digits + check;
    WellFormedIsAscii(token);
  }

  /** Different draws give different tokens. */
  lemma GenerateInjective(a: seq<nat>, b: seq<nat>)
    requires AreBytes(a) && AreBytes(b) && |a| == |b| == RANDOM_BYTES
    requires Generate(a) == Generate(b)
    ensures a == b
  {
    hide Pow, BigEndian, Digits, Checksum;
    var x, y := Digits(BigEndian(a), RANDOM_CHARS), Digits(BigEndian(b), RANDOM_CHARS);
    assert x == Generate(a)[8..51] && y == Generate(b)[8..51];
    RandomValueFits(a);
    RandomValueFits(b);
    ValueOfDigits(BigEndian(a), RANDOM_CHARS);
    ValueOfDigits(BigEndian(b), RANDOM_CHARS);
    BigEndianInjective(a, b);
  }

  // ----- detection ----------------------------------------------------------

  /** Equal checksums mean equal CRC registers: six digits hold 32 bits. */
  lemma ChecksumTellsApart(a: string, b: string)
    requires IsAscii(a) && IsAscii(b) && Checksum(a) == Checksum(b)
    ensures Crc(Octets(a)) == Crc(Octets(b))
  {
    hide Pow, Crc, Digits;
    var x, y := Crc(Octets(a)), Crc(Octets(b));
    RegisterFits(x);
    RegisterFits(y);
    ValueOfDigits(x as nat, CHECKSUM_CHARS);
    ValueOfDigits(y as nat, CHECKSUM_CHARS);
    RegisterTellsApart(x, y);
  }

  /** `b` differs from `a` inside the window `[i, i + n)` at most. */
  predicate AgreeOutside(a: string, b: string, i: nat, n: nat) {
    |a| == |b| && forall k | 0 <= k < |a| && !(i <= k < i + n) :: a[k] == b[k]
  }

  lemma OctetsCut(a: string, i: nat)
    requires IsAscii(a) && i + 4 <= |a|
    ensures Octets(a) == Octets(a)[..i] + Octets(a)[i..i + 4] + Octets(a)[i + 4..]
    ensures AllOctets(Octets(a)[i..i + 4])
  {
    hide IsOctet, Octet;
    var window := Octets(a)[i..i + 4];
    forall o | o in window ensures IsOctet(o) {
      var k :| 0 <= k < 4 && window[k] == o;
      OctetIsNumber(a[i + k]);
    }
  }

  lemma OctetsInjective(a: string, b: string)
    requires IsAscii(a) && IsAscii(b) && Octets(a) == Octets(b)
    ensures a == b
  {
    hide Octet;
    assert |a| == |Octets(a)| == |b|;
    forall k | 0 <= k < |a| ensures a[k] == b[k] {
      assert Octets(a)[k] == Octets(b)[k];
      OctetTellsApart(a[k], b[k]);
    }
  }

  lemma OctetsAgree(a: string, b: string, i: nat)
    requires IsAscii(a) && IsAscii(b) && i + 4 <= |a| && AgreeOutside(a, b, i, 4)
    ensures Octets(a)[..i] == Octets(b)[..i] && Octets(a)[i + 4..] == Octets(b)[i + 4..]
  {
    hide Octet;
  }

  /** Bodies that agree but for four adjacent characters, and have the same checksum, are equal. */
  lemma BodyBurst(a: string, b: string, i: nat)
    requires IsAscii(a) && IsAscii(b) && i + 4 <= |a|
    requires AgreeOutside(a, b, i, 4) && Checksum(a) == Checksum(b)
    ensures a == b
  {
    assert |a| == |b|;
    hide Checksum, Crc, Octet, IsAscii, AllOctets, AgreeOutside;
    ChecksumTellsApart(a, b);
    OctetsCut(a, i);
    OctetsCut(b, i);
    OctetsAgree(a, b, i);
    var x, y := Octets(a), Octets(b);
    hide Octets;
    BurstDetected(x[..i], x[i..i + 4], y[i..i + 4], x[i + 4..]);
    OctetsInjective(a, b);
  }

  lemma WellFormedParts(token: string)
    requires IsWellFormed(token)
    ensures IsAscii(token) && IsAscii(token[..BODY_LENGTH])
    ensures token == token[..BODY_LENGTH] + Checksum(token[..BODY_LENGTH])
    ensures forall k | 0 <= k < |PREFIX| :: token[k] == PREFIX[k]
  {
    hide Checksum;
    WellFormedIsAscii(token);
    assert token == token[..BODY_LENGTH] + token[BODY_LENGTH..];
  }

  /** Well-formed tokens that agree but for four adjacent characters of the random part are equal. */
  lemma BurstDetermined(token: string, other: string, i: nat)
    requires IsWellFormed(token) && IsWellFormed(other)
    requires i + 4 <= BODY_LENGTH && AgreeOutside(token, other, i, 4)
    ensures token == other
  {
    hide Checksum, AllSymbols;
    WellFormedParts(token);
    WellFormedParts(other);
    var a, b := token[..BODY_LENGTH], other[..BODY_LENGTH];
    assert token[BODY_LENGTH..] == other[BODY_LENGTH..];
    BodyBurst(a, b, i);
  }

  /** Every change confined to four adjacent characters of the random part is rejected; any swap of two
      differing neighbours there is such a change. */
  lemma BurstRejected(token: string, other: string, i: nat)
    requires IsWellFormed(token) && token != other
    requires |PREFIX| <= i && i + 4 <= BODY_LENGTH && AgreeOutside(token, other, i, 4)
    ensures !IsWellFormed(other)
  {
    hide IsWellFormed, AgreeOutside;
    if IsWellFormed(other) { BurstDetermined(token, other, i); }
  }

  lemma SwapRejected(token: string, i: nat)
    requires IsWellFormed(token) && |PREFIX| <= i && i + 1 < BODY_LENGTH && token[i] != token[i + 1]
    ensures !IsWellFormed(token[i := token[i + 1]][i + 1 := token[i]])
  {
    var other := token[i := token[i + 1]][i + 1 := token[i]];
    assert |token| == TOKEN_LENGTH && other[i] != token[i];
    hide IsWellFormed;
    BurstRejected(token, other, if i + 4 <= BODY_LENGTH then i else BODY_LENGTH - 4);
  }

  /** The check characters are a function of the rest, and the prefix is fixed. */
  lemma OneCharacterDetermined(token: string, other: string, i: nat)
    requires IsWellFormed(token) && IsWellFormed(other) && AgreeOutside(token, other, i, 1)
    ensures token == other
  {
    WellFormedParts(token);
    WellFormedParts(other);
    if |PREFIX| <= i < BODY_LENGTH {
      hide IsWellFormed;
      BurstDetermined(token, other, if i + 4 <= BODY_LENGTH then i else BODY_LENGTH - 4);
    } else {
      hide Checksum, AllSymbols;
      assert token[..BODY_LENGTH] == other[..BODY_LENGTH];
    }
  }

  /** Changing exactly one character, anywhere, to whatever else is rejected. */
  lemma OneCharacterRejected(token: string, i: nat, c: char)
    requires IsWellFormed(token) && i < |token| && c != token[i]
    ensures !IsWellFormed(token[i := c])
  {
    hide IsWellFormed;
    if IsWellFormed(token[i := c]) { OneCharacterDetermined(token, token[i := c], i); }
  }

  /** `is_well_formed`, step by step. */
  method CheckWellFormed(token: string) returns (ok: bool)
    ensures ok == IsWellFormed(token)
  {
    if |token| != TOKEN_LENGTH || !(PREFIX <= token) { return false; }
    if !AllSymbols(token[|PREFIX|..]) { return false; }
    WellFormedIsAscii(token);
    var body := token[..BODY_LENGTH];
    var crc := ComputeCrc(Octets(body));
    RegisterFits(crc);
    var check := Base62(crc as nat, CHECKSUM_CHARS);
    ok := check.value == token[BODY_LENGTH..];
  }

  // ----- spelled out -------------------------------------------------------------

  /** The alphabet: ten digits, then 26 capitals, then 26 small letters, each run in its own order. */
  lemma AlphabetExactly(d: nat)
    requires d < 62
    ensures Symbol(0) == '0' && Symbol(9) == '9' && Symbol(10) == 'A' && Symbol(35) == 'Z'
    ensures Symbol(36) == 'a' && Symbol(61) == 'z'
    ensures d !in {9, 35, 61} ==> Symbol(d + 1) as int == Symbol(d) as int + 1
  {
  }

  lemma ChecksumExactly(body: string, check: string)
    requires IsAscii(body) && AllSymbols(check) && |check| == 6
    ensures Checksum(body) == check <==> Value(check) == Crc(Octets(body)) as nat
  {
    hide Crc, Digits, Value, Pow;
    RegisterFits(Crc(Octets(body)));
    ValueOfDigits(Crc(Octets(body)) as nat, 6);
    DigitsOfValue(check);
  }

  /** A token is well formed exactly if it is 57 characters long, begins with the prefix, goes on in the
      alphabet, and its last six are the base62 value of the CRC-32 of the 51 before them. */
  lemma WellFormedExactly(token: string)
    ensures IsWellFormed(token) <==>
      && |token| == 57 && token[..8] == "kmb_pat_" && AllSymbols(token[8..]) && AllSymbols(token[51..])
      && IsAscii(token[..51]) && Value(token[51..]) == Crc(Octets(token[..51])) as nat
  {
    hide Crc, Value, Checksum;
    if |token| == 57 && token[..8] == "kmb_pat_" && AllSymbols(token[8..]) {
      assert PREFIX <= token;
      WellFormedIsAscii(token);
      assert forall i | 0 <= i < 6 :: token[51..][i] == token[8..][i + 43];
      ChecksumExactly(token[..51], token[51..]);
    }
  }

  /** The 43 characters behind the prefix are the base62 value of the random octets, read big-endian. */
  lemma GeneratedExactly(random: seq<nat>)
    requires AreBytes(random) && |random| == 32
    ensures
      var token := Generate(random);
      |token| == 57 && AllSymbols(token[8..51]) && Value(token[8..51]) == BigEndian(random)
  {
    hide Crc, Pow, BigEndian, Checksum;
    RandomValueFits(random);
    ValueOfDigits(BigEndian(random), 43);
    GeneratedIsWellFormed(random);
    var digits := Digits(BigEndian(random), RANDOM_CHARS);
    assert Generate(random)[8..51] == digits by { GeneratedParts(random); }
  }

  lemma GeneratedParts(random: seq<nat>)
    ensures |Generate(random)| == 57 && Generate(random)[8..51] == Digits(BigEndian(random), 43)
  {
    hide Digits, BigEndian, Crc;
    GeneratedIsWellFormed(random);
    var digits := Digits(BigEndian(random), RANDOM_CHARS);
    SymbolsAreAscii(digits);
    var token := PREFIX + digits + Checksum(PREFIX + digits);
    assert token[8..51] == digits;
  }

  /** Big-endian: the first octet weighs most. */
  lemma {:induction false} BigEndianFirst(b: nat, rest: seq<nat>)
    ensures BigEndian([b] + rest) == b * Pow(256, |rest|) + BigEndian(rest)
  {
    var all := [b] + rest;
    if rest == [] {
      assert all[..0] == [];
    } else {
      var front := rest[..|rest| - 1];
      BigEndianFirst(b, front);
      assert all[..|all| - 1] == [b] + front;
      MultiplyAssociates(b, Pow(256, |front|), 256);
    }
  }
}
