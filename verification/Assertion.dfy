/** Signed assertions and the published key set (src/cimd_proxy/assertion.py; RFC 7515 section 7.1,
    RFC 7517, RFC 7518 section 6.3.1). Signing itself is a parameter. */
module Assertion {
  import opened Wrappers
  import opened Text
  import opened Json
  import opened Base64Url
  import opened PatFormat
  import opened ConfigLoad

  const MAX_ASSERTION_LIFETIME := 60

  datatype SigningError = BadLifetime | KeyNotFound

  /** The public numbers of an RSA key. */
  datatype PublicKey = PublicKey(n: nat, e: nat)

  type Signature = b: Bytes | AreBytes(b) witness []

  // ----- text as octets -----------------------------------------------------

  /** `s.encode()`, for ASCII text. */
  function AsciiBytes(s: string): (b: Bytes)
    requires IsAscii(s)
    ensures AreBytes(b)
  {
    seq(|s|, i requires 0 <= i < |s| => s[i] as int)
  }

  /** The text of octets, if they are ASCII. */
  function AsciiText(b: Bytes): Option<string> {
    if forall i | 0 <= i < |b| :: b[i] < 128
    then Some(seq(|b|, i requires 0 <= i < |b| && b[i] < 128 => b[i] as char))
    else None
  }

  lemma AsciiInverts(s: string)
    requires IsAscii(s)
    ensures AsciiText(AsciiBytes(s)) == Some(s)
  {
    assert AsciiText(AsciiBytes(s)).value == s;
  }

  lemma AsciiJoin(a: string, b: string)
    requires IsAscii(a) && IsAscii(b)
    ensures IsAscii(a + b)
  {
  }

  lemma EscapeIsAscii(c: char)
    ensures IsAscii(Escape(c))
  {
    hide Hex4;
    var n := c as int;
    if n < 0x10000 {
      UnitIsAscii(n);
    } else {
      UnitIsAscii(0xD800 + (n - 0x10000) / 0x400);
      UnitIsAscii(0xDC00 + (n - 0x10000) % 0x400);
    }
  }

  lemma UnitIsAscii(n: nat)
    requires n < 0x10000
    ensures IsAscii(Unit(n))
  {
    assert IsAscii(Hex4(n));
  }

  lemma {:induction false} EscapeAllIsAscii(s: string)
    ensures IsAscii(EscapeAll(s))
  {
    hide Escape;
    if s != "" {
      EscapeIsAscii(s[0]);
      EscapeAllIsAscii(s[1..]);
      AsciiJoin(Escape(s[0]), EscapeAll(s[1..]));
    }
  }

  lemma PrintStringIsAscii(s: string)
    ensures IsAscii(PrintString(s))
  {
    hide EscapeAll;
    EscapeAllIsAscii(s);
  }

  lemma PrintIntIsAscii(n: int)
    ensures IsAscii(PrintInt(n))
  {
    hide Decimal;
    if n < 0 { DigitsAreAscii(Decimal(-n)); } else { DigitsAreAscii(Decimal(n)); }
  }

  lemma DigitsAreAscii(s: string)
    requires AllDigits(s)
    ensures IsAscii(s)
  {
  }

  /** The printer only makes ASCII, whatever is in the strings. */
  lemma {:induction false} PrintIsAscii(j: Json)
    ensures IsAscii(Print(j))
    decreases j
  {
    hide PrintString, PrintInt, PrintItems, PrintMembers;
    match j
    case Null =>
    case Bool(b) =>
    case Num(n) => PrintIntIsAscii(n);
    case Str(s) => PrintStringIsAscii(s);
    case Arr(items) => PrintItemsIsAscii(items);
    case Obj(members) => PrintMembersIsAscii(members);
  }

  lemma {:induction false} PrintItemsIsAscii(items: seq<Json>)
    ensures IsAscii(PrintItems(items))
    decreases items
  {
    hide Print;
    if |items| > 0 {
      PrintIsAscii(items[0]);
      PrintItemsIsAscii(items[1..]);
    }
  }

  lemma {:induction false} PrintMembersIsAscii(ms: seq<Member>)
    ensures IsAscii(PrintMembers(ms))
    decreases ms
  {
    hide Print, PrintString;
    if |ms| > 0 {
      PrintStringIsAscii(ms[0].key);
      PrintIsAscii(ms[0].value);
      PrintMembersIsAscii(ms[1..]);
    }
  }

  // ----- the assertion ------------------------------------------------------

  function EncodeJson(j: Json): string {
    PrintIsAscii(j);
    Encode(AsciiBytes(Print(j)))
  }

  function Header(kid: string): Json {
    Obj([Member("alg", Str("RS256")), Member("typ", Str("JWT")), Member("kid", Str(kid))])
  }

  function Claims(issuer: string, subject: string, audience: string, now: int, lifetime: int, jti: string): Json {
    Obj([Member("iss", Str(issuer)), Member("sub", Str(subject)), Member("aud", Str(audience)),
         Member("iat", Num(now)), Member("exp", Num(now + lifetime)), Member("jti", Str(jti))])
  }

  /** The first key with the identifier. */
  function KeyFor<K>(keys: seq<SigningKey<K>>, kid: string): (found: Option<SigningKey<K>>)
    ensures found.Some? ==> found.value in keys && found.value.kid == kid
    ensures found.None? ==> !HasKid(keys, kid)
  {
    if keys == [] then None
    else if keys[0].kid == kid then Some(keys[0])
    else
      assert forall i | 1 <= i < |keys| :: keys[i] == keys[1..][i - 1];
      KeyFor(keys[1..], kid)
  }

  function SigningInput(header: Json, claims: Json): string { EncodeJson(header) + "." + EncodeJson(claims) }

  /** `AssertionSigner.sign`; `rsa` signs a text with a key. */
  function Sign<K>(signer: Signer<K>, rsa: (K, string) -> Signature, subject: string, audience: string, lifetime: int,
                   now: int, jti: string): Result<string, SigningError>
  {
    if !(0 < lifetime <= MAX_ASSERTION_LIFETIME) then Err(BadLifetime) else
      match KeyFor(signer.keys, signer.activeKid)
      case None => Err(KeyNotFound)
      case Some(key) =>
        var input := SigningInput(Header(key.kid), Claims(signer.issuer, subject, audience, now, lifetime, jti));
        Ok(input + "." + Encode(rsa(key.key, input)))
  }

  /** What a reader of the compact form takes out of it: header, claims, the signed text, the signature. */
  datatype Jws = Jws(header: Json, claims: Json, input: string, signature: Bytes)

  function DecodeJson(s: string): Option<Json> {
    match Decode(s)
    case None => None
    case Some(b) =>
      match AsciiText(b)
      case None => None
      case Some(text) =>
        match Loads(text)
        case Got(j, "") => Some(j)
        case _ => None
  }

  function ReadCompact(token: string): Option<Jws> {
    var parts := SplitOn(token, '.');
    if |parts| != 3 then None else
      match (DecodeJson(parts[0]), DecodeJson(parts[1]), Decode(parts[2]))
      case (Some(header), Some(claims), Some(signature)) =>
        Some(Jws(header, claims, parts[0] + "." + parts[1], signature))
      case _ => None
  }

  lemma DecodeEncodeJson(j: Json)
    ensures DecodeJson(EncodeJson(j)) == Some(j) && '.' !in EncodeJson(j)
  {
    hide Decode, Encode, Print, Loads, AsciiText, AsciiBytes;
    PrintIsAscii(j);
    var b := AsciiBytes(Print(j));
    DecodeEncode(b);
    EncodeHasNoDot(b);
    AsciiInverts(Print(j));
    LoadsPrint(j);
  }

  lemma SplitThree(a: string, b: string, c: string)
    requires '.' !in a && '.' !in b && '.' !in c
    ensures SplitOn(a + "." + b + "." + c, '.') == [a, b, c]
  {
    hide Before, After;
    var token := a + "." + b + "." + c;
    var rest := b + "." + c;
    assert token == a + ['.'] + rest && rest == b + ['.'] + c;
    CutBack(a, '.', rest);
    CutBack(b, '.', c);
    assert token[|a|] == '.' && rest[|b|] == '.';
    assert SplitOn(c, '.') == [c];
    assert SplitOn(rest, '.') == [b] + [c];
  }

  /** Splitting a signed assertion at its dots and decoding gives back exactly the header, the claims, the
      text that was signed and its signature. */
  lemma CompactReadsBack(header: Json, claims: Json, signature: Bytes)
    requires AreBytes(signature)
    ensures ReadCompact(SigningInput(header, claims) + "." + Encode(signature))
         == Some(Jws(header, claims, SigningInput(header, claims), signature))
  {
    hide EncodeJson, DecodeJson, Encode, Decode, SplitOn;
    DecodeEncodeJson(header);
    DecodeEncodeJson(claims);
    DecodeEncode(signature);
    EncodeHasNoDot(signature);
    SplitThree(EncodeJson(header), EncodeJson(claims), Encode(signature));
  }

  /** An assertion is made exactly for a lifetime of one to sixty seconds; it says who, to whom and until when,
      and is signed over its own header and claims with a key that carries the active identifier. */
  lemma SignedExactly<K>(signer: Signer<K>, rsa: (K, string) -> Signature, subject: string, audience: string,
                         lifetime: int, now: int, jti: string)
    requires HasKid(signer.keys, signer.activeKid)
    ensures
      var token := Sign(signer, rsa, subject, audience, lifetime, now, jti);
      && (token.Ok? <==> 1 <= lifetime <= 60)
      && (token.Ok? ==>
          && ReadCompact(token.value).Some?
          && var jws := ReadCompact(token.value).value;
          && jws.header == Header(signer.activeKid)
          && jws.claims == Claims(signer.issuer, subject, audience, now, lifetime, jti)
          && exists key :: key in signer.keys && key.kid == signer.activeKid && jws.signature == rsa(key.key, jws.input))
  {
    hide SigningInput, ReadCompact, Header, Claims, Encode, KeyFor, HasKid;
    var found := KeyFor(signer.keys, signer.activeKid);
    if 0 < lifetime <= 60 {
      var claims := Claims(signer.issuer, subject, audience, now, lifetime, jti);
      var input := SigningInput(Header(found.value.kid), claims);
      CompactReadsBack(Header(found.value.kid), claims, rsa(found.value.key, input));
    }
  }

  // ----- the key set --------------------------------------------------------

  /** One published key. */
  datatype Jwk = Jwk(kid: string, n: string, e: string)

  function IntegerText(n: nat): string {
    Encode(IntegerOctets(n))
  }

  function PublicJwk<K>(key: SigningKey<K>, public: K -> PublicKey): Jwk {
    Jwk(key.kid, IntegerText(public(key.key).n), IntegerText(public(key.key).e))
  }

  function Jwks<K>(signer: Signer<K>, public: K -> PublicKey): (published: seq<Jwk>)
    ensures |published| == |signer.keys|
    ensures forall i | 0 <= i < |published| :: published[i] == PublicJwk(signer.keys[i], public)
  {
    seq(|signer.keys|, i requires 0 <= i < |signer.keys| => PublicJwk(signer.keys[i], public))
  }

  /** `n` and `e` are published so that they decode to the same integers, without leading zero octets. */
  lemma IntegerTextExactly(n: nat)
    ensures
      var b := Decode(IntegerText(n));
      b.Some? && BigEndian(b.value) == n && (n != 0 ==> b.value != [] && b.value[0] != 0) && (n == 0 ==> b.value == [])
  {
    hide IntegerOctets, Decode, Encode;
    IntegerOctetsExactly(n);
    DecodeEncode(IntegerOctets(n));
  }

  /** With a loaded signer, the header of every assertion names exactly one published key, and it is the
      public half of the key that signed. */
  lemma SignedKeyIsPublished<K>(signer: Signer<K>, public: K -> PublicKey, i: nat)
    requires KidsUnique(signer.keys) && HasKid(signer.keys, signer.activeKid)
    requires i < |Jwks(signer, public)|
    ensures KeyFor(signer.keys, signer.activeKid).Some?
    ensures
      var key := KeyFor(signer.keys, signer.activeKid).value;
      && Jwks(signer, public)[i].kid == signer.activeKid <==> signer.keys[i] == key
  {
    hide KeyFor, PublicJwk;
    var key := KeyFor(signer.keys, signer.activeKid).value;
    var j: nat :| j < |signer.keys| && signer.keys[j] == key;
    KidOf(signer.keys[i], public);
    assert i < j ==> signer.keys[i].kid != signer.keys[j].kid;
    assert j < i ==> signer.keys[j].kid != signer.keys[i].kid;
  }

  lemma KidOf<K>(key: SigningKey<K>, public: K -> PublicKey)
    ensures PublicJwk(key, public).kid == key.kid
  {
  }

  // ----- member by member -----------------------------------------------------

  function Members(j: Json): map<string, Json> { if j.Obj? then ToMap(j.members) else map[] }

  lemma {:induction false} PutLast(ms: seq<Member>, key: string, value: Json)
    ensures ToMap(ms + [Member(key, value)]) == ToMap(ms)[key := value]
  {
    assert (ms + [Member(key, value)])[..|ms|] == ms;
  }

  lemma HeaderMembers(kid: string)
    ensures Members(Header(kid)) == map["alg" := Str("RS256"), "typ" := Str("JWT"), "kid" := Str(kid)]
  {
    hide ToMap;
    var a := [Member("alg", Str("RS256"))];
    var b := a + [Member("typ", Str("JWT"))];
    assert [] + a == a && Header(kid).members == b + [Member("kid", Str(kid))];
    PutLast([], "alg", Str("RS256"));
    PutLast(a, "typ", Str("JWT"));
    PutLast(b, "kid", Str(kid));
    NoMembers();
  }

  lemma NoMembers()
    ensures ToMap([]) == map[]
  {
  }

  lemma ClaimsMembers(issuer: string, subject: string, audience: string, now: int, lifetime: int, jti: string)
    ensures Members(Claims(issuer, subject, audience, now, lifetime, jti)) ==
      map["iss" := Str(issuer), "sub" := Str(subject), "aud" := Str(audience),
          "iat" := Num(now), "exp" := Num(now + lifetime), "jti" := Str(jti)]
  {
    hide ToMap;
    var a := [Member("iss", Str(issuer))];
    var b := a + [Member("sub", Str(subject))];
    var c := b + [Member("aud", Str(audience))];
    var d := c + [Member("iat", Num(now))];
    var e := d + [Member("exp", Num(now + lifetime))];
    assert [] + a == a;
    assert Claims(issuer, subject, audience, now, lifetime, jti).members == e + [Member("jti", Str(jti))];
    NoMembers();
    PutLast([], "iss", Str(issuer));
    PutLast(a, "sub", Str(subject));
    PutLast(b, "aud", Str(audience));
    PutLast(c, "iat", Num(now));
    PutLast(d, "exp", Num(now + lifetime));
    PutLast(e, "jti", Str(jti));
  }

  /** What a reader finds in an assertion: RS256 and the active key in the header; issuer, owner and audience as
      given, a span of the lifetime asked for from the time of signing, and a fresh identifier in the claims. */
  lemma SignedMembers<K>(signer: Signer<K>, rsa: (K, string) -> Signature, subject: string, audience: string,
                         lifetime: int, now: int, jti: string)
    requires HasKid(signer.keys, signer.activeKid) && 1 <= lifetime <= 60
    ensures Sign(signer, rsa, subject, audience, lifetime, now, jti).Ok?
    ensures
      var jws := ReadCompact(Sign(signer, rsa, subject, audience, lifetime, now, jti).value);
      && jws.Some?
      && Members(jws.value.header) == map["alg" := Str("RS256"), "typ" := Str("JWT"), "kid" := Str(signer.activeKid)]
      && Members(jws.value.claims) ==
         map["iss" := Str(signer.issuer), "sub" := Str(subject), "aud" := Str(audience),
             "iat" := Num(now), "exp" := Num(now + lifetime), "jti" := Str(jti)]
  {
    hide Sign, ReadCompact, Header, Claims, Members, HasKid;
    SignedExactly(signer, rsa, subject, audience, lifetime, now, jti);
    HeaderMembers(signer.activeKid);
    ClaimsMembers(signer.issuer, subject, audience, now, lifetime, jti);
  }

  /** Each published key has the identifier, modulus and exponent of the key at its place. */
  lemma PublishedExactly<K>(signer: Signer<K>, public: K -> PublicKey, i: nat)
    requires i < |signer.keys|
    ensures |Jwks(signer, public)| == |signer.keys|
    ensures
      var (jwk, key) := (Jwks(signer, public)[i], signer.keys[i]);
      && jwk.kid == key.kid
      && Decode(jwk.n).Some? && BigEndian(Decode(jwk.n).value) == public(key.key).n
      && Decode(jwk.e).Some? && BigEndian(Decode(jwk.e).value) == public(key.key).e
  {
    hide IntegerText, Decode, BigEndian;
    IntegerTextExactly(public(signer.keys[i].key).n);
    IntegerTextExactly(public(signer.keys[i].key).e);
  }
}
