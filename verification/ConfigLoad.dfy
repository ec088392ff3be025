/** Reading the indexed tables of the environment (src/cimd_proxy/config.py, `_load_resources`,
    `_load_signer`, `_load_pat`). */
module ConfigLoad {
  import opened Wrappers
  import opened Text
  import opened Config
  import opened PatScopes
  import opened PatCreate

  type Env = map<string, string>

  datatype ConfigError =
    | Missing(name: string) | Gap(index: nat) | NotAUrl(name: string) | HalfAPatClient(index: nat)
    | BadKey(index: nat) | NoKeys | KidsNotUnique | NoActiveKey
    | StrayPatKey | BadSchema | NoPatResource | ForeignIssuer(url: string)

  function Required(env: Env, name: string): Result<string, ConfigError> {
    if name in env && Strip(env[name]) != "" then Ok(Strip(env[name])) else Err(ConfigError.Missing(name))
  }

  function Get(env: Env, name: string): string {
    if name in env then env[name] else ""
  }

  predicate HasAt(s: string, t: string, i: nat) { i + |t| <= |s| && s[i..i + |t|] == t }

  predicate Contains(s: string, t: string) { exists i | 0 <= i <= |s| :: HasAt(s, t, i) }

  // ----- indexed keys ---------------------------------------------------------

  /** The index a key of an indexed table carries: decimal digits between `table` and the next `_`. */
  function IndexIn(table: string, key: string): Option<nat> {
    if !(table <= key) then None else
      var rest := key[|table|..];
      var digits := Before(rest, '_');
      if '_' !in rest || digits == "" || !AllDigits(digits) then None else Some(FromDecimal(digits))
  }

  /** The index is written the way the program writes it: without leading zeros. */
  predicate IsCanonical(table: string, key: string)
    requires table <= key
  {
    Before(key[|table|..], '_') == Decimal(match IndexIn(table, key) case Some(n) => n case None => 0)
  }

  function Prefix(table: string, i: nat): string { table + Decimal(i) + "_" }

  lemma DigitsAreNoUnderscore(d: string)
    requires AllDigits(d)
    ensures '_' !in d
  {
  }

  lemma PrefixHasIndex(table: string, key: string, i: nat)
    requires Prefix(table, i) <= key
    ensures table <= key && IndexIn(table, key) == Some(i) && IsCanonical(table, key)
  {
    hide AllDigits, FromDecimal, Decimal;
    var (d, tail) := (Decimal(i), key[|Prefix(table, i)|..]);
    DigitsAreNoUnderscore(d);
    FromDecimalInverts(i);
    assert key == Prefix(table, i) + tail;
    assert key[|table|..] == d + ['_'] + tail;
    CutBack(d, '_', tail);
  }

  lemma IndexGivesPrefix(table: string, key: string, i: nat)
    requires table <= key && IndexIn(table, key) == Some(i) && IsCanonical(table, key)
    ensures Prefix(table, i) <= key
  {
    hide AllDigits, FromDecimal, Decimal;
    var rest := key[|table|..];
    var k := IndexOf(rest, '_');
    assert rest[..k] == Decimal(i) && rest[k] == '_';
    assert key == table + rest && rest == Decimal(i) + "_" + rest[k + 1..];
    assert key == Prefix(table, i) + rest[k + 1..];
  }

  /** The keys read for index `i` are those that carry that index in canonical form. */
  lemma PrefixExactly(table: string, key: string, i: nat)
    ensures Prefix(table, i) <= key <==> table <= key && IndexIn(table, key) == Some(i) && IsCanonical(table, key)
  {
    hide IndexIn, IsCanonical, Prefix;
    if Prefix(table, i) <= key { PrefixHasIndex(table, key, i); }
    if table <= key && IndexIn(table, key) == Some(i) && IsCanonical(table, key) { IndexGivesPrefix(table, key, i); }
  }

  // ----- the resource table ---------------------------------------------------

  const RESOURCE := "RESOURCE_"

  predicate IsSet(env: Env, i: nat) { exists key | key in env :: Prefix(RESOURCE, i) <= key }

  function PatClient(env: Env, i: nat): Result<(string, string), ConfigError> {
    var id := Strip(Get(env, Prefix(RESOURCE, i) + "PAT_CLIENT_ID"));
    var secret := Strip(Get(env, Prefix(RESOURCE, i) + "PAT_CLIENT_SECRET"));
    if (id != "") != (secret != "") then Err(HalfAPatClient(i)) else Ok((id, secret))
  }

  /** The entry that is read at index `i`. */
  function EntryAt(env: Env, i: nat): Result<ResourceEntry, ConfigError> {
    var prefix := Prefix(RESOURCE, i);
    var url :- Required(env, prefix + "URL");
    var issuer :- Required(env, prefix + "ISSUER");
    var clientId :- Required(env, prefix + "CLIENT_ID");
    var (patId, patSecret) :- PatClient(env, i);
    if !Contains(RStripChar(url, '/'), "://") then Err(NotAUrl(prefix + "URL"))
    else if !Contains(RStripChar(issuer, '/'), "://") then Err(NotAUrl(prefix + "ISSUER"))
    else Ok(ResourceEntry(RStripChar(url, '/'), RStripChar(issuer, '/'), clientId,
                          Get(env, prefix + "CLIENT_SECRET"), patId, patSecret))
  }

  function EntriesUpTo(env: Env, n: nat): Result<seq<ResourceEntry>, ConfigError> {
    if n == 0 then Ok([]) else
      var entries :- EntriesUpTo(env, n - 1);
      if !IsSet(env, n - 1) then Err(Gap(n - 1)) else
        var entry :- EntryAt(env, n - 1);
        Ok(entries + [entry])
  }

  /** `h` is the highest index of any key, or -1. */
  predicate IsHighest(env: Env, h: int) {
    && -1 <= h
    && (forall key | key in env && IndexIn(RESOURCE, key).Some? :: IndexIn(RESOURCE, key).value <= h)
    && (h >= 0 ==> exists key | key in env :: IndexIn(RESOURCE, key) == Some(h))
  }

  lemma {:induction false} LoadingStopped(env: Env, n: nat, m: nat)
    requires n <= m && EntriesUpTo(env, n).Err?
    ensures EntriesUpTo(env, m) == EntriesUpTo(env, n)
  {
    hide IsSet, EntryAt;
    if n < m { LoadingStopped(env, n, m - 1); }
  }

  lemma HighestIsUnique(env: Env, h: int, k: int)
    requires IsHighest(env, h) && IsHighest(env, k)
    ensures h == k
  {
    hide IndexIn;
  }

  /** `_load_resources`: the table up to the one highest index, or the first error on the way. */
  method LoadResources(env: Env) returns (r: Result<seq<ResourceEntry>, ConfigError>)
    ensures exists h :: IsHighest(env, h)
    ensures forall h | IsHighest(env, h) :: r == EntriesUpTo(env, h + 1)
  {
    hide IndexIn, EntryAt, IsSet;
    var highestSeen: int := -1;
    var rest := env.Keys;
    while rest != {}
      invariant rest <= env.Keys && -1 <= highestSeen
      invariant forall key | key in env.Keys - rest && IndexIn(RESOURCE, key).Some? ::
          IndexIn(RESOURCE, key).value <= highestSeen
      invariant highestSeen >= 0 ==> exists key | key in env :: IndexIn(RESOURCE, key) == Some(highestSeen)
      decreases |rest|
    {
      var key :| key in rest;
      rest := rest - {key};
      var n := IndexIn(RESOURCE, key);
      if n.Some? && n.value > highestSeen { highestSeen := n.value; }
    }
    assert IsHighest(env, highestSeen);
    forall h | IsHighest(env, h) ensures h == highestSeen { HighestIsUnique(env, h, highestSeen); }
    hide IsHighest;
    var entries: seq<ResourceEntry> := [];
    var index: nat := 0;
    while index <= highestSeen
      invariant index <= highestSeen + 1 && EntriesUpTo(env, index) == Ok(entries)
    {
      var entry := EntryAt(env, index);
      if !IsSet(env, index) || entry.Err? {
        LoadingStopped(env, index + 1, highestSeen + 1);
        return Err(if !IsSet(env, index) then Gap(index) else entry.error);
      }
      entries := entries + [entry.value];
      index := index + 1;
    }
    r := Ok(entries);
  }

  /** The table loads exactly when every index up to the highest is set and readable, and then entry `i` is
      the one read at index `i`. */
  lemma {:induction false} LoadedExactly(env: Env, n: nat)
    ensures EntriesUpTo(env, n).Ok? <==> forall i: nat | i < n :: IsSet(env, i) && EntryAt(env, i).Ok?
    ensures EntriesUpTo(env, n).Ok? ==>
      && |EntriesUpTo(env, n).value| == n
      && forall i: nat | i < n :: EntryAt(env, i) == Ok(EntriesUpTo(env, n).value[i])
  {
    hide IsSet, EntryAt;
    if n > 0 { LoadedExactly(env, n - 1); }
  }

  /** No key with a canonical index is dropped: it is one of those read for the entry at its index. Keys
      whose index has leading zeros are read for no entry. */
  lemma NothingDropped(env: Env, h: int, key: string, i: nat)
    requires IsHighest(env, h) && EntriesUpTo(env, h + 1).Ok?
    requires key in env && IndexIn(RESOURCE, key).Some?
    ensures
      var n := IndexIn(RESOURCE, key).value;
      && n < |EntriesUpTo(env, h + 1).value|
      && (Prefix(RESOURCE, i) <= key <==> i == n && IsCanonical(RESOURCE, key))
  {
    hide EntryAt, IndexIn, IsCanonical, IsSet;
    LoadedExactly(env, h + 1);
    PrefixExactly(RESOURCE, key, i);
    assert RESOURCE <= key by { TableOf(key); }
  }

  lemma TableOf(key: string)
    requires IndexIn(RESOURCE, key).Some?
    ensures RESOURCE <= key
  {
  }

  /** An entry depends on the keys of its own index only. */
  lemma EntryReadsItsKeys(env: Env, other: Env, i: nat)
    requires forall key :: Prefix(RESOURCE, i) <= key ==> (key in env <==> key in other)
    requires forall key :: Prefix(RESOURCE, i) <= key && key in env ==> env[key] == other[key]
    ensures IsSet(env, i) == IsSet(other, i) && EntryAt(env, i) == EntryAt(other, i)
  {
    hide Strip, Contains, RStripChar, Decimal;
    var p := Prefix(RESOURCE, i);
    assert p <= p + "URL" && p <= p + "ISSUER" && p <= p + "CLIENT_ID" && p <= p + "CLIENT_SECRET";
    assert p <= p + "PAT_CLIENT_ID" && p <= p + "PAT_CLIENT_SECRET";
  }

  /** So a key such as RESOURCE_01_URL, whatever its value, changes nothing in a table that has index 1. */
  lemma {:induction false} LeadingZerosIgnored(env: Env, key: string, value: string, n: nat)
    requires key !in env && RESOURCE <= key && !IsCanonical(RESOURCE, key)
    ensures EntriesUpTo(env[key := value], n) == EntriesUpTo(env, n)
  {
    hide IndexIn, IsCanonical, EntryAt, IsSet, Prefix;
    if n > 0 {
      LeadingZerosIgnored(env, key, value, n - 1);
      PrefixExactly(RESOURCE, key, n - 1);
      EntryReadsItsKeys(env, env[key := value], n - 1);
    }
  }

  // ----- the signing keys -----------------------------------------------------

  const SIGNING := "PAT_SIGNING_KEY_"

  datatype SigningKey<K> = SigningKey(kid: string, key: K)

  datatype Signer<K> = Signer(issuer: string, keys: seq<SigningKey<K>>, activeKid: string)

  function KidName(i: nat): string { Prefix(SIGNING, i) + "KID" }

  function FileName(i: nat): string { Prefix(SIGNING, i) + "FILE" }

  predicate KeySet(env: Env, i: nat) { KidName(i) in env || FileName(i) in env }

  /** The key at index `i`; `load` reads and checks the PEM file at a path. */
  function KeyAt<K>(env: Env, load: string -> Option<K>, i: nat): Result<SigningKey<K>, ConfigError> {
    var kid :- Required(env, KidName(i));
    var path :- Required(env, FileName(i));
    match load(path)
    case None => Err(BadKey(i))
    case Some(key) => Ok(SigningKey(kid, key))
  }

  predicate KidsUnique<K>(keys: seq<SigningKey<K>>) {
    forall i, j | 0 <= i < j < |keys| :: keys[i].kid != keys[j].kid
  }

  predicate HasKid<K>(keys: seq<SigningKey<K>>, kid: string) { exists i | 0 <= i < |keys| :: keys[i].kid == kid }

  /** A key of the table whose index is `n` or higher. */
  predicate HasHigher(env: Env, n: nat) {
    exists key | key in env :: IndexIn(SIGNING, key).Some? && IndexIn(SIGNING, key).value >= n
  }

  /** What the environment has to hold for a signer with `n` keys. */
  ghost predicate Signs<K>(env: Env, load: string -> Option<K>, n: nat) {
    && n > 0 && !HasHigher(env, n)
    && (forall i: nat | i < n :: KeySet(env, i) && KeyAt(env, load, i).Ok?)
    && (forall i: nat, j: nat | i < j < n :: KeyAt(env, load, i).value.kid != KeyAt(env, load, j).value.kid)
    && Required(env, "PAT_SIGNING_KID").Ok?
    && exists i: nat :: i < n && KeyAt(env, load, i).value.kid == Required(env, "PAT_SIGNING_KID").value
  }

  lemma SetIsIndexed(env: Env, i: nat)
    requires KeySet(env, i)
    ensures exists key | key in env :: IndexIn(SIGNING, key) == Some(i)
  {
    hide IndexIn, IsCanonical, Prefix;
    var key := if KidName(i) in env then KidName(i) else FileName(i);
    PrefixExactly(SIGNING, key, i);
  }

  /** Only the first gap can end the table. */
  lemma SignsStops<K>(env: Env, load: string -> Option<K>, n: nat, i: nat)
    requires Signs(env, load, n)
    ensures KeySet(env, i) <==> i < n
    ensures i < n ==> KeyAt(env, load, i).Ok?
  {
    hide IndexIn, KeyAt;
    if KeySet(env, i) && i >= n { SetIsIndexed(env, i); }
  }

  /** The loop of `_load_signer`: the keys up to the first index that has none. */
  method LoadKeys<K>(env: Env, load: string -> Option<K>) returns (r: Result<seq<SigningKey<K>>, ConfigError>)
    ensures r.Ok? ==>
      && !KeySet(env, |r.value|)
      && forall i: nat | i < |r.value| :: KeySet(env, i) && KeyAt(env, load, i) == Ok(r.value[i])
    ensures r.Err? ==> exists i: nat :: KeySet(env, i) && KeyAt(env, load, i).Err?
  {
    hide IndexIn, KeyAt, KeySet, Required;
    var keys: seq<SigningKey<K>> := [];
    var index: nat := 0;
    ghost var rest := env.Keys;
    while KeySet(env, index)
      invariant |keys| == index && forall i: nat | i < index :: KeySet(env, i) && KeyAt(env, load, i) == Ok(keys[i])
      invariant rest <= env.Keys
      invariant forall key | key in env && IndexIn(SIGNING, key).Some? && IndexIn(SIGNING, key).value >= index :: key in rest
      decreases |rest|
    {
      SetIsIndexed(env, index);
      ghost var used :| used in env && IndexIn(SIGNING, used) == Some(index);
      rest := rest - {used};
      var key := KeyAt(env, load, index);
      if key.Err? { return Err(key.error); }
      keys := keys + [key.value];
      index := index + 1;
    }
    r := Ok(keys);
  }

  /** A signer can have no other number of keys than the loop found. */
  lemma SignsOnly<K>(env: Env, load: string -> Option<K>, keys: seq<SigningKey<K>>, n: nat)
    requires Signs(env, load, n) && !KeySet(env, |keys|)
    requires forall i: nat | i < |keys| :: KeySet(env, i) && KeyAt(env, load, i) == Ok(keys[i])
    ensures n == |keys|
  {
    hide KeyAt, KeySet, Signs;
    SignsStops(env, load, n, |keys|);
    if n < |keys| { SignsStops(env, load, n, n); }
  }

  /** What the checks after the loop decide. */
  lemma SignsExactly<K>(env: Env, load: string -> Option<K>, keys: seq<SigningKey<K>>)
    requires !KeySet(env, |keys|)
    requires forall i: nat | i < |keys| :: KeySet(env, i) && KeyAt(env, load, i) == Ok(keys[i])
    ensures Signs(env, load, |keys|) <==>
      && !HasHigher(env, |keys|) && keys != [] && KidsUnique(keys)
      && Required(env, "PAT_SIGNING_KID").Ok? && HasKid(keys, Required(env, "PAT_SIGNING_KID").value)
  {
    hide KeyAt, KeySet, HasHigher, Required;
    forall i: nat, j: nat | i < j < |keys|
      ensures KeyAt(env, load, i).value.kid == keys[i].kid && KeyAt(env, load, j).value.kid == keys[j].kid
    {
    }
    assert forall i: nat | i < |keys| :: KeyAt(env, load, i).value.kid == keys[i].kid;
  }

  /** `_load_signer`: it succeeds exactly if the environment signs with some number of keys, and the keys are
      then all of them, key `i` from index `i`. */
  method LoadSigner<K>(env: Env, publicUrl: string, load: string -> Option<K>) returns (r: Result<Signer<K>, ConfigError>)
    ensures r.Ok? ==>
      && Signs(env, load, |r.value.keys|)
      && (forall i: nat | i < |r.value.keys| :: KeyAt(env, load, i) == Ok(r.value.keys[i]))
      && HasKid(r.value.keys, r.value.activeKid) && Required(env, "PAT_SIGNING_KID") == Ok(r.value.activeKid)
      && var issuer := Strip(Get(env, "PAT_ASSERTION_ISSUER"));
      && r.value.issuer == if issuer != "" then issuer else publicUrl
    ensures r.Err? ==> forall n: nat :: !Signs(env, load, n)
  {
    hide KeyAt, KeySet, Required, Signs, HasHigher, KidsUnique, HasKid, Get;
    var loaded := LoadKeys(env, load);
    forall n: nat | Signs(env, load, n)
      ensures loaded.Ok? && n == |loaded.value|
    {
      if loaded.Ok? {
        SignsOnly(env, load, loaded.value, n);
      } else {
        var i: nat :| KeySet(env, i) && KeyAt(env, load, i).Err?;
        SignsStops(env, load, n, i);
      }
    }
    if loaded.Err? { return Err(loaded.error); }
    var keys := loaded.value;
    SignsExactly(env, load, keys);
    if HasHigher(env, |keys|) { return Err(Gap(|keys|)); }
    if keys == [] { return Err(NoKeys); }
    if !KidsUnique(keys) { return Err(KidsNotUnique); }
    var active := Required(env, "PAT_SIGNING_KID");
    if active.Err? { return Err(active.error); }
    if !HasKid(keys, active.value) { return Err(NoActiveKey); }
    var issuer := Strip(Get(env, "PAT_ASSERTION_ISSUER"));
    r := Ok(Signer(if issuer != "" then issuer else publicUrl, keys, active.value));
  }

  // ----- the block of personal access tokens ----------------------------------

  predicate IsStray(env: Env, key: string)
    requires key in env
  {
    ("PAT_" <= key || Contains(key, "_PAT_CLIENT_")) && Strip(env[key]) != ""
  }

  predicate IsSchemaName(s: string) {
    && 1 <= |s| <= 63 && !IsDigit(s[0])
    && forall i | 0 <= i < |s| :: 'a' <= s[i] <= 'z' || s[i] == '_' || IsDigit(s[i])
  }

  /** The first entry that takes personal access tokens but belongs to another issuer. */
  function FirstForeign(entries: seq<ResourceEntry>, realm: string): Option<string> {
    if entries == [] then None
    else if entries[0].AcceptsPat() && entries[0].issuer != realm then Some(entries[0].url)
    else FirstForeign(entries[1..], realm)
  }

  /** `_load_pat` without the signer and the fields that are only passed on: none if the block is off. */
  function LoadPat(env: Env, entries: seq<ResourceEntry>): Result<Option<Setup>, ConfigError> {
    if Strip(Get(env, "PAT_DATABASE_URL")) == "" then
      if exists key | key in env :: IsStray(env, key) then Err(StrayPatKey) else Ok(None)
    else if !IsSchemaName(Strip(if "PAT_DATABASE_SCHEMA" in env then env["PAT_DATABASE_SCHEMA"] else "cimd_proxy"))
    then Err(BadSchema)
    else
      var realm :- Required(env, "PAT_REALM_ISSUER");
      var scopes :- Required(env, "PAT_SCOPES");
      if !(exists e | e in entries :: e.AcceptsPat()) then Err(NoPatResource) else
        match FirstForeign(entries, RStripChar(realm, '/'))
        case Some(url) => Err(ForeignIssuer(url))
        case None => Ok(Some(Setup(entries, RStripChar(realm, '/'), SplitWords(scopes))))
  }

  lemma {:induction false} FirstForeignMeans(entries: seq<ResourceEntry>, realm: string)
    ensures FirstForeign(entries, realm).None? <==> forall e | e in entries && e.AcceptsPat() :: e.issuer == realm
  {
    if entries != [] { FirstForeignMeans(entries[1..], realm); assert entries == [entries[0]] + entries[1..]; }
  }

  /** In any loaded configuration, every resource that a token can name belongs to the configured realm, so
      the assertion of every trial exchange and of every exchange is addressed to it; and the offered scopes
      are words. */
  lemma LoadedAudience(env: Env, entries: seq<ResourceEntry>, url: string)
    requires LoadPat(env, entries).Ok? && LoadPat(env, entries).value.Some?
    ensures
      var setup := LoadPat(env, entries).value.value;
      && setup.entries == entries && AreWords(setup.offered) && SplitWords(JoinWords(setup.offered)) == setup.offered
      && (TakesPat(entries, url) ==> EntryOf(entries, url).value.issuer == setup.realmIssuer)
  {
    hide Strip, RStripChar, Required, SplitWords, IsSchemaName, ResourceByUrl, JoinWords, IsStray, FirstForeign;
    var setup := LoadPat(env, entries).value.value;
    FirstForeignMeans(entries, setup.realmIssuer);
    SplitJoin(setup.offered);
    if TakesPat(entries, url) { FoundStaysFound(entries, url, EntryOf(entries, url).value); }
  }

  /** The configuration of personal access tokens that a process starts with, if it starts and has the block
      switched on; `highest` is the highest index of its resource table. */
  function Configured(env: Env, highest: int): Option<Setup> {
    if !IsHighest(env, highest) then None else
      match EntriesUpTo(env, highest + 1)
      case Err(_) => None
      case Ok(entries) => match LoadPat(env, entries) case Ok(setup) => setup case Err(_) => None
  }

  lemma ConfiguredWords(env: Env, highest: int)
    requires Configured(env, highest).Some?
    ensures AreWords(Configured(env, highest).value.offered)
  {
    assert highest >= -1;
    hide IsHighest, EntriesUpTo, LoadPat;
    LoadedAudience(env, EntriesUpTo(env, highest + 1).value, "");
  }

  /** The failing key: it counts as index 1, and is read at no index. */
  lemma LeadingZeroKey(i: nat)
    ensures IndexIn(RESOURCE, "RESOURCE_01_URL") == Some(1)
    ensures !(Prefix(RESOURCE, i) <= "RESOURCE_01_URL")
  {
    var key := "RESOURCE_01_URL";
    assert key[|RESOURCE|..] == "01" + ['_'] + "URL" && RESOURCE <= key;
    CutBack("01", '_', "URL");
    assert "01"[..1] == "0" && "0"[..0] == "";
    assert FromDecimal("0") == 0 && FromDecimal("01") == 1;
    hide Prefix, IndexIn;
    PrefixExactly(RESOURCE, key, i);
  }

  // ----- which variable goes where ------------------------------------------------

  /** The variable is set to something that is not blank, and this is it without the blanks around it. */
  predicate Given(env: Env, name: string, value: string) {
    name in env && value != "" && value == Strip(env[name])
  }

  /** The variable as it is set, or nothing. */
  predicate IsSetTo(env: Env, name: string, value: string) {
    value == if name in env then env[name] else ""
  }

  function Stripped(env: Env, name: string): string { if name in env then Strip(env[name]) else "" }

  lemma StripNothing()
    ensures Strip("") == ""
  {
  }

  /** The name of a variable of resource `i`. */
  function OfResource(i: nat, field: string): string { "RESOURCE_" + Decimal(i) + "_" + field }

  /** Entry `i`, field by field. */
  lemma EntryAtExactly(env: Env, i: nat, e: ResourceEntry)
    ensures EntryAt(env, i) == Ok(e) <==>
      && (exists url :: Given(env, OfResource(i, "URL"), url) && e.url == RStripChar(url, '/'))
      && (exists issuer :: Given(env, OfResource(i, "ISSUER"), issuer) && e.issuer == RStripChar(issuer, '/'))
      && Given(env, OfResource(i, "CLIENT_ID"), e.clientId)
      && IsSetTo(env, OfResource(i, "CLIENT_SECRET"), e.clientSecret)
      && e.patClientId == Stripped(env, OfResource(i, "PAT_CLIENT_ID"))
      && e.patClientSecret == Stripped(env, OfResource(i, "PAT_CLIENT_SECRET"))
      && (e.patClientId == "" <==> e.patClientSecret == "")
      && Contains(e.url, "://") && Contains(e.issuer, "://")
  {
    StripNothing();
    hide Strip, RStripChar, Contains, Decimal, Given;
    var (url, issuer, clientId) := (OfResource(i, "URL"), OfResource(i, "ISSUER"), OfResource(i, "CLIENT_ID"));
    RequiredIsGiven(env, url);
    RequiredIsGiven(env, issuer);
    RequiredIsGiven(env, clientId);
    hide Required;
  }

  lemma RequiredIsGiven(env: Env, name: string)
    ensures Required(env, name).Ok? ==> Given(env, name, Required(env, name).value)
    ensures forall value :: Given(env, name, value) ==> Required(env, name) == Ok(value)
  {
    hide Strip;
  }

  /** Signing key `i`, field by field. */
  lemma KeyAtExactly<K>(env: Env, load: string -> Option<K>, i: nat, key: SigningKey<K>)
    ensures KeyAt(env, load, i) == Ok(key) <==>
      && Given(env, "PAT_SIGNING_KEY_" + Decimal(i) + "_KID", key.kid)
      && exists path :: Given(env, "PAT_SIGNING_KEY_" + Decimal(i) + "_FILE", path) && load(path) == Some(key.key)
  {
    hide Strip, Decimal, Given;
    assert KidName(i) == "PAT_SIGNING_KEY_" + Decimal(i) + "_KID" && FileName(i) == "PAT_SIGNING_KEY_" + Decimal(i) + "_FILE";
    RequiredIsGiven(env, KidName(i));
    RequiredIsGiven(env, FileName(i));
    hide Required, KidName, FileName;
  }

  /** When the block of personal access tokens is on, and what is read out of it: the realm and the offered
      scopes, which are the words of their variable; every resource that takes tokens belongs to the realm. */
  lemma LoadPatExactly(env: Env, entries: seq<ResourceEntry>, setup: Setup)
    ensures LoadPat(env, entries) == Ok(Some(setup)) <==>
      && Stripped(env, "PAT_DATABASE_URL") != ""
      && IsSchemaName(if "PAT_DATABASE_SCHEMA" in env then Strip(env["PAT_DATABASE_SCHEMA"]) else "cimd_proxy")
      && (exists realm :: Given(env, "PAT_REALM_ISSUER", realm) && setup.realmIssuer == RStripChar(realm, '/'))
      && (exists scopes :: Given(env, "PAT_SCOPES", scopes) && setup.offered == SplitWords(scopes))
      && setup.entries == entries
      && (exists e :: e in entries && e.patClientId != "")
      && forall e | e in entries && e.patClientId != "" :: e.issuer == setup.realmIssuer
  {
    StripNothing();
    DefaultSchema();
    hide Strip, RStripChar, Contains, Given, SplitWords, IsSchemaName, IsStray, FirstForeign;
    RequiredIsGiven(env, "PAT_REALM_ISSUER");
    RequiredIsGiven(env, "PAT_SCOPES");
    FirstForeignMeans(entries, setup.realmIssuer);
    hide Required;
  }

  lemma DefaultSchema()
    ensures Strip("cimd_proxy") == "cimd_proxy"
  {
    assert !IsSpace("cimd_proxy"[0]) && !IsSpace("cimd_proxy"[9]);
  }

  /** It is off, without an error, exactly if none of its variables is set. */
  lemma PatOffExactly(env: Env, entries: seq<ResourceEntry>)
    ensures LoadPat(env, entries) == Ok(None) <==>
      && Stripped(env, "PAT_DATABASE_URL") == ""
      && forall key | key in env && ("PAT_" <= key || Contains(key, "_PAT_CLIENT_")) :: Strip(env[key]) == ""
  {
    StripNothing();
    hide Strip, RStripChar, Contains, Required, SplitWords, IsSchemaName, FirstForeign;
  }
}
