/** Creating a personal access token (src/cimd_proxy/pat.py, `parse_create` and `create`). */
module PatCreate {
  import opened Wrappers
  import opened Text
  import opened Json
  import opened Config
  import opened PatScopes
  import opened PatStore
  import PatFormat

  /** What the service is configured with. */
  datatype Setup = Setup(entries: seq<ResourceEntry>, realmIssuer: string, offered: seq<string>)

  datatype Caller = Caller(subject: string, organizations: seq<string>)

  const DEFAULT_LIFETIME_DAYS := 90
  const LONG_LIFETIME_DAYS := 365
  const DAY := 24 * 60 * 60 * 1_000_000

  /** The last instant of the year 9999; times count microseconds from the start of 1970. */
  const MAX_TIME := 253_402_300_800 * 1_000_000 - 1

  datatype CreateRequest = CreateRequest(
    name: string, resources: seq<string>, wish: Wish, days: int, allowLong: bool, organization: Option<string>)

  // ----- fields of the body -------------------------------------------------

  function Field(m: map<string, Json>, key: string, default: Json): Json {
    if key in m then m[key] else default
  }

  predicate IsStringList(v: Json) {
    v.Arr? && forall i | 0 <= i < |v.items| :: v.items[i].Str? && v.items[i].s != ""
  }

  function Texts(v: Json): seq<string>
    requires IsStringList(v)
  {
    seq(|v.items|, i requires 0 <= i < |v.items| => v.items[i].s)
  }

  /** `tuple(dict.fromkeys(s))`: first occurrences, in order. */
  function Dedup(s: seq<string>): (r: seq<string>)
    ensures forall x :: x in r <==> x in s
    ensures forall i, j | 0 <= i < j < |r| :: r[i] != r[j]
    ensures s != [] ==> r != [] && r[0] == s[0]
  {
    if s == [] then [] else
      var front, last := s[..|s| - 1], s[|s| - 1];
      assert s == front + [last];
      if last in front then Dedup(front) else Dedup(front) + [last]
  }

  function StringList(v: Json): Result<seq<string>, ManagementError> {
    if IsStringList(v) then Ok(Dedup(Texts(v))) else Err(InvalidRequest)
  }

  function Lifetime(m: map<string, Json>): Result<(int, bool), ManagementError> {
    var days := Field(m, "expires_in_days", Num(DEFAULT_LIFETIME_DAYS));
    if !days.Num? || days.n < 1 then Err(InvalidRequest) else
      var longOk := Field(m, "allow_long_lifetime", Bool(false));
      if !longOk.Bool? then Err(InvalidRequest)
      else if days.n > LONG_LIFETIME_DAYS && !longOk.b then Err(InvalidRequest)
      else Ok((days.n, longOk.b))
  }

  /** A lifetime is granted exactly when it is at least a day, and over a year only if that was allowed. */
  lemma LifetimeExactly(m: map<string, Json>, days: int, longOk: bool)
    ensures Lifetime(m) == Ok((days, longOk)) <==>
      && 1 <= days && (days <= 365 || longOk)
      && (if "expires_in_days" in m then m["expires_in_days"] == Num(days) else days == 90)
      && (if "allow_long_lifetime" in m then m["allow_long_lifetime"] == Bool(longOk) else !longOk)
  {
  }

  // ----- the request --------------------------------------------------------

  function CheckResources(entries: seq<ResourceEntry>, urls: seq<string>): Result<(), ManagementError> {
    if urls == [] then Ok(()) else
      match ResourceByUrl(entries, urls[0])
      case Err(_) => Err(ParserError)
      case Ok(None) => Err(InvalidTarget)
      case Ok(Some(e)) => if e.AcceptsPat() then CheckResources(entries, urls[1..]) else Err(InvalidTarget)
  }

  predicate TakesPat(entries: seq<ResourceEntry>, url: string) {
    EntryOf(entries, url).Ok? && EntryOf(entries, url).value.AcceptsPat()
  }

  lemma {:induction false} CheckResourcesMeans(entries: seq<ResourceEntry>, urls: seq<string>)
    ensures CheckResources(entries, urls).Ok? <==> forall i | 0 <= i < |urls| :: TakesPat(entries, urls[i])
  {
    hide ResourceByUrl;
    if urls != [] {
      CheckResourcesMeans(entries, urls[1..]);
      assert forall i | 1 <= i < |urls| :: urls[i] == urls[1..][i - 1];
    }
  }

  /** The tuple that is stored: the table URL of each named resource. */
  function TableUrls(entries: seq<ResourceEntry>, urls: seq<string>): (r: seq<string>)
    requires forall i | 0 <= i < |urls| :: TakesPat(entries, urls[i])
    ensures |r| == |urls|
  {
    seq(|urls|, i requires 0 <= i < |urls| && TakesPat(entries, urls[i]) => EntryOf(entries, urls[i]).value.url)
  }

  function ParseCreate(setup: Setup, body: Json): Result<CreateRequest, ManagementError> {
    if !body.Obj? then Err(InvalidRequest) else
      var m := ToMap(body.members);
      var name := Field(m, "name", Null);
      if !name.Str? || !(1 <= |Strip(name.s)| <= 100) then Err(InvalidRequest) else
        var urls :- StringList(Field(m, "resources", Null));
        if urls == [] then Err(InvalidRequest) else
          var _ :- CheckResources(setup.entries, urls);
          CheckResourcesMeans(setup.entries, urls);
          var scopes :- StringList(Field(m, "scopes", Arr([])));
          if Missing(scopes, setup.offered) != [] then Err(InvalidScope) else
            var all := Field(m, "all_permitted_scopes", Bool(false));
            if !all.Bool? || (all.b && scopes != []) then Err(InvalidRequest) else
              var (days, longOk) :- Lifetime(m);
              var organization := Field(m, "organization", Null);
              if !organization.Null? && !organization.Str? then Err(InvalidRequest) else
                Ok(CreateRequest(Strip(name.s), TableUrls(setup.entries, urls),
                                 if all.b then AllPermitted else Named(scopes), days, longOk,
                                 if organization.Str? then Some(organization.s) else None))
  }

  /** A stored URL resolves to its own entry, which accepts personal access tokens. */
  predicate ResourceOk(entries: seq<ResourceEntry>, url: string) {
    TakesPat(entries, url) && EntryOf(entries, url).value.url == url
  }

  predicate RequestOk(setup: Setup, q: CreateRequest) {
    && 1 <= |q.name| <= 100 && q.resources != []
    && (forall url | url in q.resources :: ResourceOk(setup.entries, url))
    && (q.wish.Named? ==> forall s | s in q.wish.scopes :: s in setup.offered)
    && 1 <= q.days && (q.days <= LONG_LIFETIME_DAYS || q.allowLong)
  }

  lemma TableUrlsAreOk(entries: seq<ResourceEntry>, urls: seq<string>)
    requires forall i | 0 <= i < |urls| :: TakesPat(entries, urls[i])
    ensures forall url | url in TableUrls(entries, urls) :: ResourceOk(entries, url)
  {
    hide ResourceByUrl;
    forall url | url in TableUrls(entries, urls) ensures ResourceOk(entries, url) {
      var i: nat :| i < |urls| && TableUrls(entries, urls)[i] == url;
      FoundStaysFound(entries, urls[i], EntryOf(entries, urls[i]).value);
    }
  }

  /** Whatever the body, what is parsed out of it names resources, scopes and a lifetime that may be had. */
  lemma ParsedIsOk(setup: Setup, body: Json)
    requires ParseCreate(setup, body).Ok?
    ensures RequestOk(setup, ParseCreate(setup, body).value)
  {
    hide Strip, EntryOf, Missing, CheckResources, ResourceOk, ToMap;
    var m := ToMap(body.members);
    var urls := StringList(Field(m, "resources", Null)).value;
    CheckResourcesMeans(setup.entries, urls);
    TableUrlsAreOk(setup.entries, urls);
    NothingMissing(StringList(Field(m, "scopes", Arr([]))).value, setup.offered);
    assert TableUrls(setup.entries, urls) != [];
  }

  /** The bodies that are accepted. */
  lemma ParseAcceptsExactly(setup: Setup, body: Json)
    ensures ParseCreate(setup, body).Ok? <==>
      && body.Obj?
      && var m := ToMap(body.members);
      && var resources, scopes := Field(m, "resources", Null), Field(m, "scopes", Arr([]));
      && var all, organization := Field(m, "all_permitted_scopes", Bool(false)), Field(m, "organization", Null);
      && Field(m, "name", Null).Str? && 1 <= |Strip(Field(m, "name", Null).s)| <= 100
      && IsStringList(resources) && resources.items != []
      && (forall i | 0 <= i < |resources.items| :: TakesPat(setup.entries, resources.items[i].s))
      && IsStringList(scopes) && (forall i | 0 <= i < |scopes.items| :: scopes.items[i].s in setup.offered)
      && all.Bool? && (all.b ==> scopes.items == [])
      && Lifetime(m).Ok? && (organization.Null? || organization.Str?)
  {
    hide Strip, TakesPat, Missing, CheckResources, ToMap, Dedup, Lifetime;
    if body.Obj? {
      var m := ToMap(body.members);
      var resources, scopes := Field(m, "resources", Null), Field(m, "scopes", Arr([]));
      if IsStringList(resources) { NamedResources(setup.entries, resources); }
      if IsStringList(scopes) { NamedScopes(setup.offered, scopes); }
    }
  }

  /** The request `url` is for an entry that takes tokens, and `tableUrl` is how the table names it. */
  predicate IsTableUrl(entries: seq<ResourceEntry>, url: string, tableUrl: string) {
    match ResourceByUrl(entries, url)
    case Ok(Some(e)) => e.patClientId != "" && e.url == tableUrl
    case _ => false
  }

  /** What is read out of an accepted body: each named resource once, in order, under its table URL; the scopes
      once, in order, or all that are permitted; name, lifetime and organization as given. */
  lemma ParsedExactly(setup: Setup, body: Json)
    requires ParseCreate(setup, body).Ok? && body.Obj?
    ensures
      var m, q := ToMap(body.members), ParseCreate(setup, body).value;
      && "name" in m && m["name"].Str? && q.name == Strip(m["name"].s)
      && "resources" in m && IsStringList(m["resources"])
      && var named := Dedup(Texts(m["resources"]));
      && |q.resources| == |named|
      && (forall i | 0 <= i < |named| :: IsTableUrl(setup.entries, named[i], q.resources[i]))
      && (q.wish == AllPermitted <==> "all_permitted_scopes" in m && m["all_permitted_scopes"] == Bool(true))
      && (q.wish.Named? ==>
          if "scopes" in m then IsStringList(m["scopes"]) && q.wish.scopes == Dedup(Texts(m["scopes"])) else q.wish.scopes == [])
      && (if "expires_in_days" in m then m["expires_in_days"] == Num(q.days) else q.days == 90)
      && (if "allow_long_lifetime" in m then m["allow_long_lifetime"] == Bool(q.allowLong) else !q.allowLong)
      && q.organization == if "organization" in m && m["organization"].Str? then Some(m["organization"].s) else None
  {
    hide Strip, ResourceByUrl, Missing, CheckResources, ToMap, Dedup;
    var m := ToMap(body.members);
    var named := Dedup(Texts(m["resources"]));
    CheckResourcesMeans(setup.entries, named);
    assert forall i | 0 <= i < |named| :: TakesPat(setup.entries, named[i]);
    NoTexts();
  }

  lemma NoTexts()
    ensures Dedup(Texts(Arr([]))) == []
  {
    assert Texts(Arr([])) == [];
  }

  lemma DedupKeeps(s: seq<string>)
    ensures Dedup(s) == [] <==> s == []
    ensures forall i | 0 <= i < |s| :: s[i] in Dedup(s)
    ensures forall i | 0 <= i < |Dedup(s)| :: Dedup(s)[i] in s
  {
  }

  lemma NamedResources(entries: seq<ResourceEntry>, v: Json)
    requires IsStringList(v)
    ensures Dedup(Texts(v)) == [] <==> v.items == []
    ensures CheckResources(entries, Dedup(Texts(v))).Ok? <==> forall i | 0 <= i < |v.items| :: TakesPat(entries, v.items[i].s)
  {
    hide CheckResources, TakesPat, Dedup;
    var texts := Texts(v);
    var urls := Dedup(texts);
    DedupKeeps(texts);
    CheckResourcesMeans(entries, urls);
    if forall i | 0 <= i < |urls| :: TakesPat(entries, urls[i]) {
      forall i | 0 <= i < |v.items| ensures TakesPat(entries, v.items[i].s) {
        assert texts[i] == v.items[i].s && texts[i] in urls;
      }
    }
    if forall i | 0 <= i < |v.items| :: TakesPat(entries, v.items[i].s) {
      forall i | 0 <= i < |urls| ensures TakesPat(entries, urls[i]) {
        assert urls[i] in texts;
      }
    }
  }

  lemma NamedScopes(offered: seq<string>, v: Json)
    requires IsStringList(v)
    ensures Dedup(Texts(v)) == [] <==> v.items == []
    ensures Missing(Dedup(Texts(v)), offered) == [] <==> forall i | 0 <= i < |v.items| :: v.items[i].s in offered
  {
    hide Missing, Dedup;
    var texts := Texts(v);
    DedupKeeps(texts);
    NothingMissing(Dedup(texts), offered);
    assert forall i | 0 <= i < |v.items| :: texts[i] == v.items[i].s;
  }

  /** The same resource may be stored twice: duplicates are dropped before the URLs are brought to the shape
      of the table, so two spellings of one URL both stay. */
  lemma StoredTwiceExactly(entries: seq<ResourceEntry>, urls: seq<string>, i: nat, j: nat)
    requires forall k | 0 <= k < |urls| :: TakesPat(entries, urls[k])
    requires i < |urls| && j < |urls|
    ensures TableUrls(entries, urls)[i] == TableUrls(entries, urls)[j] <==> Normalise(urls[i]) == Normalise(urls[j])
  {
    hide Normalise;
    assert TakesPat(entries, urls[i]) && TakesPat(entries, urls[j]);
  }

  // ----- the token ----------------------------------------------------------

  function TenantFor(caller: Caller, requested: Option<string>): Result<string, ManagementError> {
    if requested.Some? then
      if requested.value in caller.organizations then Ok(requested.value) else Err(InsufficientScope)
    else if caller.organizations == [] then Err(OrganizationRequired)
    else if |caller.organizations| > 1 then Err(InvalidRequest)
    else Ok(caller.organizations[0])
  }

  /** A token is bound to an organization of its owner: the one that is named, or the only one. */
  lemma TenantExactly(caller: Caller, requested: Option<string>, tenant: string)
    ensures TenantFor(caller, requested) == Ok(tenant) <==>
      tenant in caller.organizations && (requested == Some(tenant) || (requested == None && caller.organizations == [tenant]))
  {
    if requested.None? && TenantFor(caller, requested) == Ok(tenant) {
      assert caller.organizations == [caller.organizations[0]];
    }
  }

  /** `create` up to the INSERT; `linked` tells whether the owner's upstream link is in order. */
  function NewRecord(setup: Setup, caller: Caller, q: CreateRequest, linked: bool, ask: Upstream, id: nat, now: int)
    : Result<PatRecord, ManagementError>
  {
    var tenant :- TenantFor(caller, q.organization);
    if !linked then Err(LinkConflict) else
      var scopes :- Selection(setup.entries, tenant, ask, setup.offered, q.resources, q.wish);
      if now + q.days * DAY > MAX_TIME then Err(DateOverflow) else
        Ok(PatRecord(id, tenant, setup.realmIssuer, caller.subject, q.name, q.resources, scopes,
                     now, now + q.days * DAY, None, None))
  }

  /** What holds of a record from its creation on. */
  predicate RecordOk(setup: Setup, r: PatRecord) {
    && r.realmIssuer == setup.realmIssuer && 1 <= |r.name| <= 100 && r.resources != []
    && (forall url | url in r.resources :: ResourceOk(setup.entries, url))
    && (forall s | s in r.scopes :: s in setup.offered)
    && r.createdAt + DAY <= r.expiresAt <= MAX_TIME
  }

  /** What is made, column by column. */
  lemma NewRecordExactly(setup: Setup, caller: Caller, q: CreateRequest, linked: bool, ask: Upstream, id: nat, now: int,
                         r: PatRecord)
    ensures NewRecord(setup, caller, q, linked, ask, id, now) == Ok(r) <==>
      && TenantFor(caller, q.organization) == Ok(r.tenant) && linked
      && Selection(setup.entries, r.tenant, ask, setup.offered, q.resources, q.wish) == Ok(r.scopes)
      && r.id == id && r.realmIssuer == setup.realmIssuer && r.ownerSub == caller.subject
      && r.name == q.name && r.resources == q.resources
      && r.createdAt == now && r.expiresAt == now + q.days * 86_400_000_000 && r.expiresAt <= 253_402_300_799_999_999
      && r.lastUsedAt == None && r.revokedAt == None
  {
    hide Selection, TenantFor;
  }

  /** At each resource of the record, some trial exchange of its creation came back with every scope of it. */
  ghost predicate AllGranted(setup: Setup, ask: Upstream, r: PatRecord) {
    forall i: nat | i < |r.resources| :: GrantedAt(setup, ask, r, i)
  }

  ghost predicate GrantedAt(setup: Setup, ask: Upstream, r: PatRecord, i: nat)
    requires i < |r.resources|
  {
    exists asked :: GrantedFor(setup.entries, r.tenant, ask, i, r.resources[i], asked, r.scopes)
  }

  /** The scopes of a record are those that were named, or taken from the offer, and in either case granted at
      every one of its resources. */
  lemma RecordScopes(setup: Setup, caller: Caller, q: CreateRequest, linked: bool, ask: Upstream, id: nat, now: int)
    requires NewRecord(setup, caller, q, linked, ask, id, now).Ok?
    ensures
      var r := NewRecord(setup, caller, q, linked, ask, id, now).value;
      && AllGranted(setup, ask, r)
      && if q.wish.Named? then r.scopes == q.wish.scopes else r.scopes != [] && forall s | s in r.scopes :: s in setup.offered
  {
    hide NewRecord, Selection, GrantedFor;
    var r := NewRecord(setup, caller, q, linked, ask, id, now).value;
    NewRecordExactly(setup, caller, q, linked, ask, id, now, r);
    SelectionWithin(setup.entries, r.tenant, ask, setup.offered, q.resources, q.wish);
    forall i: nat | i < |r.resources|
      ensures GrantedAt(setup, ask, r, i)
    {
      NothingUngranted(setup.entries, r.tenant, ask, setup.offered, q.resources, q.wish, i);
    }
  }

  /** With a pointwise upstream: the named scopes, each allowed at each resource; or, of the offer, in its order,
      exactly those that are. */
  lemma RecordScopesExactly(setup: Setup, caller: Caller, q: CreateRequest, linked: bool, ask: Upstream, id: nat, now: int,
                            may: (string, string) -> bool)
    requires NewRecord(setup, caller, q, linked, ask, id, now).Ok? && RequestOk(setup, q)
    requires Pointwise(NewRecord(setup, caller, q, linked, ask, id, now).value.tenant, ask, may)
    ensures
      var r := NewRecord(setup, caller, q, linked, ask, id, now).value;
      && r.scopes == (if q.wish.Named? then q.wish.scopes else Filter(setup.offered, s => MayAtAll(may, r.resources, s)))
      && forall s | s in r.scopes :: MayAtAll(may, r.resources, s)
  {
    AreResolvable(setup, q);
    hide NewRecord, Selection, MayAtAll, Filter, Pointwise, RequestOk, Resolvable;
    var r := NewRecord(setup, caller, q, linked, ask, id, now).value;
    NewRecordExactly(setup, caller, q, linked, ask, id, now, r);
    match q.wish
    case Named(scopes) => NamedExactly(setup.entries, r.tenant, ask, may, setup.offered, q.resources, scopes);
    case AllPermitted => AllPermittedExactly(setup.entries, r.tenant, ask, may, setup.offered, q.resources);
  }

  lemma AreResolvable(setup: Setup, q: CreateRequest)
    requires RequestOk(setup, q)
    ensures Resolvable(setup.entries, q.resources)
  {
    hide EntryOf;
  }

  lemma NewRecordIsOk(setup: Setup, caller: Caller, q: CreateRequest, linked: bool, ask: Upstream, id: nat, now: int)
    requires RequestOk(setup, q) && NewRecord(setup, caller, q, linked, ask, id, now).Ok?
    ensures
      var r := NewRecord(setup, caller, q, linked, ask, id, now).value;
      && RecordOk(setup, r) && r.id == id && r.createdAt == now && r.ownerSub == caller.subject
      && r.tenant in caller.organizations && r.lastUsedAt == r.revokedAt == None
  {
    hide Selection, ResourceOk;
    TenantExactly(caller, q.organization, TenantFor(caller, q.organization).value);
    SelectionWithin(setup.entries, TenantFor(caller, q.organization).value, ask, setup.offered, q.resources, q.wish);
  }

  /** With non-empty aliases, the INSERT of a parsed creation fails exactly on an identifier or a token hash
      that is already there, or on a NUL in one of its texts, such as the name, which the parser lets through. */
  lemma InsertFailsExactly(
    setup: Setup, caller: Caller, body: Json, linked: bool, ask: Upstream, id: nat, now: int, t: Table, tokenHash: Bytes)
    requires ParseCreate(setup, body).Ok?
    requires NewRecord(setup, caller, ParseCreate(setup, body).value, linked, ask, id, now).Ok?
    requires |tokenHash| == 32 && "" !in caller.organizations
    ensures
      var record := NewRecord(setup, caller, ParseCreate(setup, body).value, linked, ask, id, now).value;
      Insertable(t, record, tokenHash)
      <==> id !in t && (forall k | k in t :: t[k].tokenHash != tokenHash) && TextsOk(record)
  {
    hide ParseCreate, NewRecord, ResourceOk, IsStorable;
    var q := ParseCreate(setup, body).value;
    ParsedIsOk(setup, body);
    NewRecordIsOk(setup, caller, q, linked, ask, id, now);
  }

  /** A name with a NUL inside is not stripped of it, so it passes the length check. */
  lemma InnerNulPasses()
    ensures Strip("a\0b") == "a\0b" && !IsStorable("a\0b")
  {
    var s := "a\0b";
    assert s[0] == 'a' && s[1] == '\0' && s[2] == 'b';
    assert !IsSpace('a') && !IsSpace('b');
  }

  /** A record is made exactly if an organization is found, the link is in order, the scopes are granted and
      the expiry falls before the end of the year 9999: a long enough lifetime raises. */
  lemma RecordMadeExactly(setup: Setup, caller: Caller, q: CreateRequest, linked: bool, ask: Upstream, id: nat, now: int)
    ensures NewRecord(setup, caller, q, linked, ask, id, now).Ok? <==>
      && TenantFor(caller, q.organization).Ok? && linked && now + q.days * DAY <= MAX_TIME
      && var tenant := TenantFor(caller, q.organization).value;
      Selection(setup.entries, tenant, ask, setup.offered, q.resources, q.wish).Ok?
  {
    hide Selection, TenantFor;
  }

  /** `create`: the record that is stored and the token that is shown once. The draw of random octets and
      the hash are inputs. */
  method Create(setup: Setup, store: Store, caller: Caller, q: CreateRequest, linked: bool, ask: Upstream, id: nat, now: int,
                random: Bytes, hash: string -> Bytes)
    returns (r: Result<(PatRecord, string), ManagementError>)
    requires TableOk(store.rows) && PatFormat.AreBytes(random) && |random| == PatFormat.RANDOM_BYTES
    modifies store
    ensures TableOk(store.rows)
    ensures
      match NewRecord(setup, caller, q, linked, ask, id, now)
      case Err(e) => r == Err(e) && store.rows == old(store.rows)
      case Ok(record) =>
        var token := PatFormat.Generate(random);
        && r == (if Insertable(old(store.rows), record, hash(token)) then Ok((record, token)) else Err(StorageFailed))
        && store.rows == Inserted(old(store.rows), record, hash(token))
  {
    hide PatFormat.Generate, Selection, Inserted, Insertable;
    var tenant := TenantFor(caller, q.organization);
    if tenant.Err? { return Err(tenant.error); }
    if !linked { return Err(LinkConflict); }
    var scopes := GrantedScopes(setup.entries, tenant.value, ask, setup.offered, q.resources, q.wish);
    if scopes.Err? { return Err(scopes.error); }
    if now + q.days * DAY > MAX_TIME { return Err(DateOverflow); }
    var record := PatRecord(id, tenant.value, setup.realmIssuer, caller.subject, q.name, q.resources, scopes.value,
                            now, now + q.days * DAY, None, None);
    var token := PatFormat.GenerateToken(random);
    var inserted := store.Insert(record, hash(token));
    r := if inserted then Ok((record, token)) else Err(StorageFailed);
  }
}
