# A verified model of cimd-proxy

cimd-proxy is an OAuth 2.1 authorization server in front of an OpenID Connect provider. This project
models its behaviour in Dafny 4.11 and proves what its documentation and tests promise.

- **Sign-in** keeps no server-side state. `SignIn.dfy` is a labelled transition system over /register,
  /authorize, /callback and /token: any party may present any string to any endpoint, in any order, over
  any number of concurrent flows. The steps are the endpoint functions of `Register`, `Authorize`,
  `Callback` and `TokenEndpoint`; `SignInTheorems.dfy` states what holds of every run.
- **Personal access tokens** keep a table. `PatStore` is the table as a mutable class, `PatCreate` and
  `PatExchange` are the operations, `PatRuns` is the transition system in which creations, revocations and
  exchanges interleave, over any number of processes that start at any time with configurations of their
  own, and `PatTheorems` states what holds of every interleaving. A creation is cut where it waits for the
  INSERT; its link check and trial exchanges are one step before that, which is harmless because they read
  nothing of the table. Exchanges are cut at each of their waits.
  `PatScopes` is the selection of scopes at creation.
- **The token string** (`Crc32`, `PatFormat`), **the TTL cache and its client** (`TtlCache`, `CacheControl`,
  `CimdService`), **URL relations and tables** (`Uri`, `RedirectUri`, `Config`, `ConfigLoad`, `Fetcher`), and
  **codecs and redaction** (`Json`, `Envelope`, `Base64Url`, `Assertion`, `Redaction`).
- `Text` and `Wrappers` hold the string operations and result types the others share.

Beside each specification function stands a statement that does not call it: most are if-and-only-if, in
literal field names, constants and parts.

Where the program changes a field or runs a loop, the model is a class or a method with its loop, proved
equal to a specification function; the promises are lemmas about those functions.

Inputs rather than model: clock readings, random octets, verifiers and identifiers, ciphertexts, SHA-256
(injective where a statement needs it), S256 (injective, RFC 7636), RSA signing, the upstream's replies,
fetched documents, database failures other than violated constraints. Sealing is ideal: what opens was
sealed, under the one key, at the recorded time (`Envelope.Open`). The upstream redeems a code only against
a verifier of the challenge it was minted for (RFC 7636, section 4.6).

## What the code does where its text says otherwise

- `choose_ttl` says that `no-store` and `no-cache` force the minimum lifetime
  (src/cimd_proxy/cache.py:85-88). A `max-age` beside them wins, because it is looked up first
  (src/cimd_proxy/cache.py:68-72). The model follows the code; `CacheControl.NoStoreForcesMinimumExactly`
  gives the exact condition and `CacheControl.MaxAgeBeatsNoStore` the headers that fail.
- The lazily evicting cache does not always answer like a history that never evicts. `get` reads the clock
  before it takes the lock, so a thread that is held up in between can miss an entry that another thread,
  with a later reading, has removed in the meantime, although the entry was live at the first thread's own
  reading. `TtlCache.StaleReadingMisses` is such a schedule and `TtlCache.AgreesExactly` says precisely when
  the two agree. A hit is always right (`TtlCache.HitIsStanding`).
- A table URL such as `https://h/?` can never be named by a request: the request side folds it to
  `https://h`, the loader does not (`Config.BareQueryIsUnnameable`). `Config.NameableExactly` says which URLs
  can be named. An entry that was
  found once is found again under its own URL for every table (`Config.FoundStaysFound`), so the refresh
  theorem needs no restriction on table URLs.
- `https://h` and `https://h/` are said to fold the same way, and case is said not to be folded
  (src/cimd_proxy/config.py:100-116). Folding the slash writes the URL again and so also lower-cases the
  scheme: `HTTPS://h/` finds `https://h`, `HTTPS://h` does not (`Config.CapitalSchemeFoldsOneWay`). The two
  spellings agree exactly if the scheme has no capitals (`Config.NormaliseFoldsSlash`).
- The comparison of redirect URIs is said to normalise nothing but the port
  (src/cimd_proxy/redirect_uri.py:21-26, src/cimd_proxy/redirect_uri.py:73-75). For loopback http URIs it
  compares parsed parts, and parsing forgets more: `http://localhost/cb#`, `http://localhost/cb?` and
  `HTTP://LOCALHOST/cb` all match `http://localhost/cb` (`RedirectUri.SpellingsThatMatch`). Between URIs in
  plain form nothing but the port, and an empty query, is tolerated (`RedirectUri.LoopbackMatchesExactly`).
- A token name is checked for its length only. A NUL inside it passes the parser and makes the INSERT raise
  (`PatCreate.InnerNulPasses`, `PatCreate.InsertFailsExactly`); and with `allow_long_lifetime` a lifetime
  past the end of the year 9999 raises instead of being refused (`PatCreate.RecordMadeExactly`).
- The environment loader says that a gap in the indices is an error. A key whose index is written with
  leading zeros (`RESOURCE_01_URL`) counts towards the highest index but is read for no entry
  (`ConfigLoad.LeadingZeroKey`, `ConfigLoad.LeadingZerosIgnored`, `ConfigLoad.NothingDropped`).
- The scope string of a token is read back as intended exactly if the organization alias has no white space
  (`PatScopes.ScopeParamTokenises`); the program relies on the provider for that.

## Model

| member | source | states |
|---|---|---|
| `SignInTheorems.AcceptedRedemptionIsOneFlow` | src/cimd_proxy/token.py:118-175 | In every run, however codes and states are mixed: a redemption the upstream accepts is for a code minted for the challenge of one /authorize and of no other; the caller proved that flow's own challenge; issuer and client are those of that flow's resource; less than 60 seconds have passed since the code was sealed and at most 659 since /authorize |
| `SignInTheorems.RedirectsWereRegistered` | src/cimd_proxy/callback.py:95-136 | In every run, every redirect goes to a URI that its /authorize matched against a list sealed by /register or kept from a validated document, and that URI itself is https, or http on a loopback host |
| `SignInTheorems.RefreshesKeepResourceAndToken` | src/cimd_proxy/token.py:178-264 | Through any number of refreshes: the upstream token sent is the one that the answer with the presented token replaced, for the entry of the original /authorize; that answer left every other field alone |
| `SignInTheorems.RefreshReachesUpstream` | src/cimd_proxy/token.py:178-264 | After a success of /token that carried a refresh token, whatever comes after and however much later: the client holds a sealed string in its place, and presenting it sends exactly that upstream token to the entry of its flow |
| `SignInTheorems.RunsExtend` | src/cimd_proxy/envelope.py:153-182 | Over any continuation of a run nothing that was sealed is lost or changed |
| `SignInTheorems.HonestFlowReachesUpstream` | src/cimd_proxy/token.py:118-175 | From any state, a valid /authorize, a /callback within 600 s and a redemption less than 60 s later with the client's own verifier reach the upstream with that flow's code, verifier and client |
| `SignInTheorems.HonestFlowIsAccepted` | src/cimd_proxy/authorize.py:220-251 | What /authorize seals and what it sends upstream, field by field; a code minted for that request is redeemed by the form of that flow |
| `SignInTheorems.RegistrationComesBack` | src/cimd_proxy/register.py:111-118 | A client that registered is known at /authorize ever after by exactly its registered URIs, and may use each of them; what else its registration holds |
| `SignIn.RunKeepsInv` | src/cimd_proxy/authorize.py:139-251 | Every reachable state keeps the provenance invariant over flows, sealed strings, redemptions, redirects and renewals |
| `SignIn.StepKeepsInv` | src/cimd_proxy/callback.py:95-136 | Every single request keeps it |
| `Authorize.ValidatedMeans` | src/cimd_proxy/authorize.py:103-217 | What passes names an entry found again under its own URL, uses S256, and has a redirect URI that matches a registered one and keeps the policy if those do; scope and state are taken as given, silence is filled |
| `Authorize.ValidatedExactly` | src/cimd_proxy/authorize.py:103-217 | Which requests pass and what is taken from each, the resource being the one asked for or else the default: if and only if |
| `Authorize.TargetRefusedExactly` | src/cimd_proxy/authorize.py:116-129 | When the resource is what is refused: if and only if |
| `Callback.RedirectsExactly` | src/cimd_proxy/callback.py:43-136 | The browser is sent back exactly for a sealed flow at most 600 s old with an error or a code, always to the flow's own redirect URI, with the upstream's error and description or with a new code, which is given field by field and expires 60 s from now |
| `TokenEndpoint.RedeemedExactly` | src/cimd_proxy/token.py:118-167 | When a code is redeemed, and with which form: if and only if |
| `TokenEndpoint.RefreshedExactly` | src/cimd_proxy/token.py:178-207 | When a refresh goes upstream, and with which form: if and only if |
| `TokenEndpoint.RedeemRefused` | src/cimd_proxy/token.py:127-157 | Which refusal a code meets: the request's, the server's or the grant's |
| `TokenEndpoint.FinalisedExactly` | src/cimd_proxy/token.py:225-264 | The answer for every reply: an error verbatim; a success with its refresh token replaced by the sealed one, or unchanged without one: if and only if |
| `TokenEndpoint.FinaliseUpstreamResponse` | src/cimd_proxy/token.py:225-264 | The method that overwrites one field of the reply gives that answer: the ciphertext in place of the token, the token and the resource sealed, all other fields as they were |
| `Register.GrantedExactly` | src/cimd_proxy/register.py:155-194 | A registration is granted if and only if the body is an object without a secret that lists only accepted URIs, at least one, for a public client; it seals that whole list |
| `Register.CheckAllMeans` | src/cimd_proxy/register.py:170-211 | A registration is refused whole on one failing URI, and only then |
| `Fetcher.KeptExactly` | src/cimd_proxy/fetcher.py:180-204 | A document keeps a listed redirect URI if and only if it passes the policy |
| `Fetcher.KeptAppends` | src/cimd_proxy/fetcher.py:180-204 | Each entry is kept or dropped on its own, in the order of the list |
| `Fetcher.ClientIdUrlExactly` | src/cimd_proxy/fetcher.py:85-108 | A client-id URL written out is taken if and only if it is https with a host, a path beyond the root, no fragment and a proper port; what is read off it |
| `Fetcher.ClientIdUserInfoRefused` | src/cimd_proxy/fetcher.py:95-96 | With user information it is refused |
| `Fetcher.FindUsableRedirectUris` | src/cimd_proxy/fetcher.py:180-204 | The loop that sorts the URIs returns the filtered list, and refuses a document with nothing to keep |
| `Fetcher.ValidatedDocument` | src/cimd_proxy/fetcher.py:148-204 | A validated document is the URL's own and carries exactly the accepted ones of the URIs it lists |
| `Fetcher.AcceptedExactly` | src/cimd_proxy/fetcher.py:148-204 | Which documents are accepted, secrets and methods with a shared secret included: if and only if |
| `Envelope.OpenPacked` | src/cimd_proxy/envelope.py:132-182 | Opening what was packed gives it back field for field, lists restored, for each of the four kinds; as any other kind it fails |
| `Envelope.OpenExactly` | src/cimd_proxy/envelope.py:132-182 | Any presented string opens if and only if it is a sealed record of that kind in its lifetime |
| `Envelope.SortedMembersKeepAll` | src/cimd_proxy/envelope.py:153-160 | Sorting the keys loses and changes no member |
| `Json.LoadsPrint` | src/cimd_proxy/envelope.py:153-176 | Parsing the compact ASCII text of any JSON tree gives the tree back, with escapes and surrogate pairs (RFC 8259, section 7) |
| `Json.EscapeSamples` | src/cimd_proxy/envelope.py:153-160 | The escapes of the text are those of JSON |
| `Json.PrintSample` | src/cimd_proxy/envelope.py:153-160 | The text is compact |
| `RedirectUri.SameIsEquivalence` | src/cimd_proxy/redirect_uri.py:70-98 | On parseable URIs the comparison always answers and is an equivalence relation |
| `RedirectUri.SameAgreesOnParts` | src/cimd_proxy/redirect_uri.py:70-98 | Different URIs that match are loopback http URIs whose parsed scheme, host, path and query agree |
| `RedirectUri.LoopbackMatchesExactly` | src/cimd_proxy/redirect_uri.py:70-98 | Loopback URIs in plain form match if and only if host, path and query are equal, whatever the ports |
| `RedirectUri.SpellingsThatMatch` | src/cimd_proxy/redirect_uri.py:70-98 | Three spellings that differ in more than the port and match all the same |
| `RedirectUri.SameKeepsPolicy` | src/cimd_proxy/redirect_uri.py:43-98 | A URI that matches an accepted registration would itself be accepted |
| `RedirectUri.AcceptedExactly` | src/cimd_proxy/redirect_uri.py:43-67 | A URI written out is accepted if and only if it has no fragment, has a host, and is https, or http on 127.0.0.1 or localhost |
| `RedirectUri.AcceptedV6Exactly` | src/cimd_proxy/redirect_uri.py:43-67 | The same for the literal IPv6 loopback address |
| `RedirectUri.UserInfoRefused` | src/cimd_proxy/redirect_uri.py:59-60 | User information is refused |
| `RedirectUri.AcceptedMeans` | src/cimd_proxy/redirect_uri.py:43-67 | The same for every URI, in terms of its parsed parts |
| `RedirectUri.HttpsMatchesOnlyItself` | src/cimd_proxy/redirect_uri.py:70-98 | An https registration is matched by itself alone |
| `RedirectUri.LoopbackPortIsFree` | src/cimd_proxy/redirect_uri.py:70-98 | A loopback registration is accepted and matched whatever port either side names (RFC 8252, section 8.3) |
| `RedirectUri.MatchesAnyAnswers` | src/cimd_proxy/authorize.py:168-172 | Over an accepted list the search never fails, and says whether one of them matches |
| `RedirectUri.MatchesAnyExactly` | src/cimd_proxy/authorize.py:168-172 | Over any list, the search finds a match if and only if one entry matches and no earlier one raises |
| `Uri.SplitOfParts` | src/cimd_proxy/redirect_uri.py:50-57 | The parser takes an absolute URI apart into the scheme, authority, path, query and fragment it was composed of (RFC 3986, section 3) |
| `Uri.SplitOfOrigin` | src/cimd_proxy/config.py:119-121 | The origin written back after folding parses to the same scheme and authority with nothing behind |
| `Config.NormaliseIdempotent` | src/cimd_proxy/config.py:100-122 | Normalising a requested URL twice is normalising it once |
| `Config.FoundStaysFound` | src/cimd_proxy/config.py:88-122 | An entry a lookup found is found again under its own URL, in every table |
| `Config.NormaliseFoldsOnlyOrigins` | src/cimd_proxy/config.py:100-122 | Two different requests name one resource only if they are the same bare origin |
| `Config.NormaliseFoldsSlash` | src/cimd_proxy/config.py:100-122 | What an origin with and without the slash fold to: the same resource if and only if the scheme has no capitals |
| `Config.NormaliseTouchesNothingElse` | src/cimd_proxy/config.py:100-122 | A URL with anything but a single slash behind its authority is looked up as it is written |
| `Config.LookupExactly` | src/cimd_proxy/config.py:88-93 | A lookup finds the first entry with the folded URL, if and only if there is one |
| `Config.CapitalSchemeFoldsOneWay` | src/cimd_proxy/config.py:100-122 | The spelling for which they differ |
| `Config.NameableExactly` | src/cimd_proxy/config.py:88-122 | Which table URLs some request can name: if and only if |
| `Config.BareQueryIsUnnameable` | src/cimd_proxy/config.py:88-122 | In every table that holds `https://h/?`, as the loader leaves it, no request names it |
| `ConfigLoad.LoadResources` | src/cimd_proxy/config.py:288-331 | The two loops find the highest index and load the table up to it, or stop at the first error |
| `ConfigLoad.LoadedExactly` | src/cimd_proxy/config.py:303-331 | The table loads if and only if every index up to the highest is set and readable; entry `i` then comes from index `i` |
| `ConfigLoad.NothingDropped` | src/cimd_proxy/config.py:288-331 | Every key with a canonical index is read for the entry at that index; one with leading zeros for none |
| `ConfigLoad.PrefixExactly` | src/cimd_proxy/config.py:293-305 | The keys under the prefix of an index are exactly those that carry it in canonical form |
| `ConfigLoad.EntryReadsItsKeys` | src/cimd_proxy/config.py:303-329 | An entry depends on the keys of its own index only |
| `ConfigLoad.LeadingZerosIgnored` | src/cimd_proxy/config.py:293-305 | A key with leading zeros changes nothing in a table that has its index |
| `ConfigLoad.LeadingZeroKey` | src/cimd_proxy/config.py:293-305 | `RESOURCE_01_URL` counts as index 1 and is read at none |
| `ConfigLoad.LoadKeys` | src/cimd_proxy/config.py:234-247 | The loop reads the keys up to the first index that has none, and ends |
| `ConfigLoad.LoadSigner` | src/cimd_proxy/config.py:231-264 | A signer loads if and only if the environment has a gapless table of readable keys with unique identifiers, one of them active; key `i` comes from index `i` |
| `ConfigLoad.LoadedAudience` | src/cimd_proxy/config.py:185-228 | In any loaded configuration, every resource that a token can name belongs to the configured realm, and the offered scopes are words |
| `ConfigLoad.EntryAtExactly` | src/cimd_proxy/config.py:310-342 | Which variable each field of an entry is read from, and when there is an entry: if and only if |
| `ConfigLoad.KeyAtExactly` | src/cimd_proxy/config.py:237-246 | The same for a signing key |
| `ConfigLoad.LoadPatExactly` | src/cimd_proxy/config.py:185-228 | The same for the realm and the offered scopes, which are the words of `PAT_SCOPES` |
| `ConfigLoad.PatOffExactly` | src/cimd_proxy/config.py:188-198 | The block is off without an error if and only if none of its variables is set |
| `PatScopes.ScopeParamTokenises` | src/cimd_proxy/pat.py:378-379 | The scope string tokenises to the scopes followed by the one organization if and only if the alias has no white space |
| `PatScopes.ScopeParamInjective` | src/cimd_proxy/pat.py:378-379 | No two different sets or organizations are sent as one string |
| `PatScopes.GrantedScopes` | src/cimd_proxy/pat.py:218-252 | The two loops over the resources compute the specified selection, for any upstream |
| `PatScopes.AllPermittedExactly` | src/cimd_proxy/pat.py:242-252 | With a pointwise upstream: the offered scopes, in order, that are allowed at every named resource; refused exactly if there are none |
| `PatScopes.NamedExactly` | src/cimd_proxy/pat.py:228-240 | A named set is accepted if and only if each scope is allowed at each named resource |
| `PatScopes.PermittedIgnoresOrder` | src/cimd_proxy/pat.py:242-252 | The permitted set does not depend on order or repetition of the resources |
| `PatScopes.PermittedIsGreatest` | src/cimd_proxy/pat.py:218-252 | Naming the permitted set is accepted, and a set of offered scopes is accepted if and only if it is contained in it |
| `PatScopes.SelectionWithin` | src/cimd_proxy/pat.py:218-252 | For any upstream, the result is what was named or is taken from the offer |
| `PatScopes.NothingUngranted` | src/cimd_proxy/pat.py:218-252 | For any upstream, some trial exchange at every resource came back with every scope of the result |
| `PatCreate.ParsedIsOk` | src/cimd_proxy/pat.py:138-178 | Whatever the body: the stored URLs resolve to their own entries, which accept tokens; scopes are offered ones; name and lifetime are within bounds |
| `PatCreate.ParseAcceptsExactly` | src/cimd_proxy/pat.py:138-178 | Which bodies are accepted: if and only if |
| `PatCreate.ParsedExactly` | src/cimd_proxy/pat.py:138-178 | What is read out of an accepted body, field by field |
| `PatCreate.LifetimeExactly` | src/cimd_proxy/pat.py:416-429 | A lifetime is granted if and only if it is at least a day, and over 365 days only if allowed; 90 days by default |
| `PatCreate.TenantExactly` | src/cimd_proxy/pat.py:394-413 | A token is bound to an organization if and only if the owner belongs to it and it is named, or is the only one |
| `PatCreate.StoredTwiceExactly` | src/cimd_proxy/pat.py:144-172 | Two named resources are stored as one URL exactly if they normalise alike, so duplicates can remain |
| `PatCreate.NewRecordIsOk` | src/cimd_proxy/pat.py:180-199 | What holds of a record at creation: realm, owner, an organization of the owner, offered scopes, resolvable resources, expiry a day or more later |
| `PatCreate.NewRecordExactly` | src/cimd_proxy/pat.py:188-199 | What is made, column by column: the selected scopes, the named resources, the days asked for: if and only if |
| `PatCreate.RecordScopes` | src/cimd_proxy/pat.py:186-199 | For any upstream, the scopes of a record are the named ones or offered ones, and each was granted at every resource of the record |
| `PatCreate.RecordScopesExactly` | src/cimd_proxy/pat.py:186-199 | With a pointwise upstream, they are exactly the named ones, or the offered ones allowed at every resource, in order |
| `PatCreate.RecordMadeExactly` | src/cimd_proxy/pat.py:180-199 | Which creations get as far as the INSERT, date overflow included: if and only if |
| `PatCreate.InsertFailsExactly` | src/cimd_proxy/migrations/V1__personal_access_token.sql:84-98 | With non-empty aliases, the INSERT of a created record fails if and only if its identifier or hash is already present or one of its texts has a NUL |
| `PatCreate.InnerNulPasses` | src/cimd_proxy/pat.py:141-143 | A name with an inner NUL is left as it is by the parser |
| `PatCreate.Create` | src/cimd_proxy/pat.py:180-203 | The token returned is the generated one; the row of `NewRecordExactly` is inserted, or the table is as before |
| `PatStore.Store.Insert` | src/cimd_proxy/pat_store.py:176-192 | Inserts if and only if no constraint is violated, and keeps the constraints |
| `PatStore.Store.FindByHash` | src/cimd_proxy/pat_store.py:194-199 | Returns the row with the hash, or none if there is none |
| `PatStore.Store.Revoke` | src/cimd_proxy/pat_store.py:208-211 | True if and only if this call revoked a row of that owner; nothing else changes |
| `PatStore.Store.Touch` | src/cimd_proxy/pat_store.py:213-215 | Changes one column of one row |
| `PatStore.FoundIsUnique` | src/cimd_proxy/pat_store.py:194-199 | A lookup has one possible answer |
| `PatStore.StatementsKeep` | src/cimd_proxy/pat_store.py:138-152 | No statement deletes a row, changes its owner, organization, sets, expiry or hash, or undoes a revocation; all keep the constraints |
| `PatExchange.GrantedExactly` | src/cimd_proxy/pat.py:291-348 | A grant goes upstream if and only if the row is live, the request resolves to an entry the row names, and that entry takes tokens of the realm; the assertion names the owner and is addressed to the realm |
| `PatExchange.PresentedExactly` | src/cimd_proxy/pat.py:282-291 | Which requests get as far as the lookup, and with which token: if and only if |
| `PatExchange.StoredResourceGranted` | src/cimd_proxy/pat.py:338-348 | A live token exchanges under each of its stored URLs, and without one if it names only one |
| `PatExchange.DeliveredExactly` | src/cimd_proxy/pat.py:311-336 | The agent gets the upstream's fields without the refresh token and its expiry, and the issued token type: if and only if |
| `PatExchange.Exchange` | src/cimd_proxy/pat.py:274-336 | The exchange without interruption: its answer, and the one row it marks as used, exactly on success |
| `PatRuns.RunKeepsInv` | src/cimd_proxy/pat.py:180-336 | Every reachable state of every interleaving, over processes of any loaded configurations, keeps the invariant over table, log, drafts and running exchanges |
| `PatRuns.StepKeepsInv` | src/cimd_proxy/pat.py:274-336 | Every step between two waits keeps it |
| `PatTheorems.SuccessSawLiveRow` | src/cimd_proxy/pat.py:291-302 | Each successful exchange saw, at its lookup, a row that was not revoked and not expired at its clock reading, of the realm its process is configured for; the row is marked as used |
| `PatTheorems.RevokedIsFinal` | src/cimd_proxy/pat_store.py:148-151 | Once a revocation has succeeded, no exchange whose lookup comes later sends a grant or succeeds |
| `PatTheorems.RevokedOnce` | src/cimd_proxy/pat.py:208-216 | Revoking succeeds at most once per token, only for its owner in its realm, and its time stays |
| `PatTheorems.RevokedExactly` | src/cimd_proxy/pat_store.py:148-152 | A row is revoked if and only if a revocation of it has succeeded |
| `PatTheorems.RowsOnlyGrow` | src/cimd_proxy/pat_store.py:138-152 | Over any continuation of any run: no row disappears; owner, organization, scopes, resources, expiry and hash stay; a touch that ends after a revocation does not undo it |
| `PatTheorems.GrantsCarryCreationScopes` | src/cimd_proxy/pat.py:291-348 | Whatever later happens to the owner's rights, the offered scopes, the resource table or the realm: every grant ever sent is for the token one creation showed, names its owner, is addressed to the realm of that creation, which is the one configured where it was sent, for a resource named then and configured there, and carries exactly the scopes fixed then, each of them granted then at every resource, followed by the organization |
| `PatTheorems.TokenExchanges` | src/cimd_proxy/pat.py:274-336 | In any run, a token that was created and not revoked goes through to a success where it may be used, whatever other steps come before and between those of its exchange, a revocation after the lookup included |
| `PatTheorems.CreationRuns` | src/cimd_proxy/pat.py:180-203 | In any run, a granted creation without a collision ends with its row in the table and its token shown |
| `PatTheorems.RevokeRuns` | src/cimd_proxy/pat.py:208-216 | In any run, an owner's revocation of an unrevoked row of the realm succeeds and marks it; any other changes nothing |
| `Crc32.ComputeCrc` | src/cimd_proxy/pat_format.py:39-40 | The register loop computes the check value (RFC 1952, section 8) |
| `Crc32.ShiftInjective` | src/cimd_proxy/pat_format.py:39-40 | The one-bit step loses nothing |
| `Crc32.ShiftsLinear` | src/cimd_proxy/pat_format.py:39-40 | Any number of one-bit steps is linear over XOR |
| `Crc32.BurstDetected` | src/cimd_proxy/pat_format.py:39-40 | Messages that differ only within four adjacent octets have different check values |
| `Crc32.OctetDetected` | src/cimd_proxy/pat_format.py:39-40 | Messages that differ in one octet have different check values |
| `Crc32.CheckValue` | src/cimd_proxy/pat_format.py:39-40 | The check value of "123456789" is CBF43926, so it is this polynomial with these complements |
| `PatFormat.Base62` | src/cimd_proxy/pat_format.py:29-36 | The digit loop succeeds if and only if the value is below 62^width, and then yields its digits |
| `PatFormat.ValueOfDigits` | src/cimd_proxy/pat_format.py:29-36 | Positional decoding inverts the digits |
| `PatFormat.DigitsOfValue` | src/cimd_proxy/pat_format.py:29-36 | And the digits invert positional decoding |
| `PatFormat.RandomFits` | src/cimd_proxy/pat_format.py:23-24 | 256^32 <= 62^43 |
| `PatFormat.GenerateToken` | src/cimd_proxy/pat_format.py:43-47 | Generation never raises, whatever octets are drawn |
| `PatFormat.GeneratedIsWellFormed` | src/cimd_proxy/pat_format.py:43-63 | Every generated token is well formed and ASCII, so it can be hashed |
| `PatFormat.GenerateInjective` | src/cimd_proxy/pat_format.py:43-47 | Different random octets give different tokens |
| `PatFormat.OneCharacterRejected` | src/cimd_proxy/pat_format.py:50-59 | Changing exactly one character anywhere, to any character, is rejected |
| `PatFormat.BurstRejected` | src/cimd_proxy/pat_format.py:50-59 | Any change within four adjacent characters of the random part is rejected |
| `PatFormat.SwapRejected` | src/cimd_proxy/pat_format.py:50-59 | So is every swap of two differing neighbours there |
| `PatFormat.CheckWellFormed` | src/cimd_proxy/pat_format.py:50-59 | The executable check decides well-formedness |
| `PatFormat.WellFormedExactly` | src/cimd_proxy/pat_format.py:50-59 | Well-formedness spelled out: length, prefix, alphabet, and the base62 value of the last six characters |
| `PatFormat.GeneratedExactly` | src/cimd_proxy/pat_format.py:43-47 | The 43 characters are the base62 value of the random octets |
| `PatFormat.AlphabetExactly` | src/cimd_proxy/pat_format.py:22 | The alphabet and its order |
| `PatFormat.BigEndianFirst` | src/cimd_proxy/pat_format.py:44-46 | The octets are read with the first one weighing most |
| `TtlCache.Cache.Get` | src/cimd_proxy/cache.py:34-43 | Answers from the entry if unexpired at the reading, removes only its own expired entry, and extends the history |
| `TtlCache.Cache.Put` | src/cimd_proxy/cache.py:45-50 | Stores only with a positive lifetime, and extends the history |
| `TtlCache.LazyHolds` | src/cimd_proxy/cache.py:34-58 | After any history the table holds exactly the standing put that no get has seen expired |
| `TtlCache.HitIsStanding` | src/cimd_proxy/cache.py:34-43 | A hit is the latest effective put, unexpired at the clock value the get read |
| `TtlCache.AgreesExactly` | src/cimd_proxy/cache.py:34-58 | When the cache answers like a history that never evicts: if and only if |
| `TtlCache.AgreesInOrder` | src/cimd_proxy/cache.py:34-58 | They agree whenever no earlier section had a later reading |
| `TtlCache.StaleReadingMisses` | src/cimd_proxy/cache.py:34-43 | A schedule of two threads in which they do not |
| `TtlCache.GetRemovesOnlyExpired` | src/cimd_proxy/cache.py:40-42 | A get never removes an unexpired entry, whoever wrote it and when |
| `CacheControl.TtlWithinBounds` | src/cimd_proxy/cache.py:76-98 | Whatever the server sends, the lifetime is within the configured bounds |
| `CacheControl.NoStoreForcesMinimumExactly` | src/cimd_proxy/cache.py:65-98 | When a header that forbids caching gives the minimum: if and only if |
| `CacheControl.MaxAgeIsRead` | src/cimd_proxy/cache.py:101-112 | A plain `max-age` is read back as written, also behind a `no-store` |
| `CacheControl.MaxAgeIsObeyed` | src/cimd_proxy/cache.py:65-112 | A plain `max-age` is the lifetime, as far as the bounds let it |
| `CacheControl.MaxAgeBeatsNoStore` | src/cimd_proxy/cache.py:65-73 | Beside `no-store` too |
| `CacheControl.SilenceExactly` | src/cimd_proxy/cache.py:71-98 | Without a header, or under one silent about caching, the default applies, or else the minimum |
| `CimdService.Service.Obtain` | src/cimd_proxy/cimd_service.py:45-61 | One call as a step on the slot of its URL; other URLs are untouched |
| `CimdService.FetchExactly` | src/cimd_proxy/fetcher.py:230-234 | A fetch succeeds if and only if the URL has the right shape and a document valid for exactly that URL is served; what it returns |
| `CimdService.FailsOnlyIfFetchFails` | src/cimd_proxy/cimd_service.py:45-61 | A call fails only with the error of its own fetch |
| `CimdService.CachedExactly` | src/cimd_proxy/cimd_service.py:45-61 | Once fetched, a document is served without the network for as long as its header says within the bounds |
| `CimdService.ReturnedDocuments` | src/cimd_proxy/cimd_service.py:45-61 | Every returned document was validated for exactly that URL, less than the maximum lifetime earlier |
| `CimdService.FetchesAreSpaced` | src/cimd_proxy/cimd_service.py:45-61 | Two successful fetches of one URL are at least the minimum lifetime apart |
| `CimdService.FetchesAreBounded` | src/cimd_proxy/cimd_service.py:45-61 | At most floor(T / ttl_min) + 1 successful fetches fall in any window of length T |
| `Base64Url.DecodeEncode` | src/cimd_proxy/assertion.py:37-38 | Unpadded base64url decodes back to the same octets, for every input |
| `Base64Url.DecodeExactly` | src/cimd_proxy/assertion.py:37-38 | A text decodes to given octets if and only if it is their encoding (RFC 4648, section 5) |
| `Base64Url.EncodeHasNoDot` | src/cimd_proxy/assertion.py:37-38 | An encoding contains neither a dot nor padding |
| `Base64Url.AlphabetExactly` | src/cimd_proxy/assertion.py:37-38 | The URL-safe alphabet and its order |
| `Base64Url.IntegerOctetsExactly` | src/cimd_proxy/assertion.py:67-68 | The octets of an integer are big-endian for it and have no leading zero |
| `Assertion.PrintIsAscii` | src/cimd_proxy/assertion.py:99-102 | The JSON text of any tree is ASCII, so encoding it cannot fail |
| `Assertion.CompactReadsBack` | src/cimd_proxy/assertion.py:99-106 | Splitting at the dots and decoding recovers exactly header, claims, signed text and signature (RFC 7515, section 7.1) |
| `Assertion.SignedExactly` | src/cimd_proxy/assertion.py:85-106 | An assertion is made if and only if its lifetime is 1 to 60 seconds; it says who, to whom and until when, and is signed over its own text by a key with the active identifier |
| `Assertion.SignedMembers` | src/cimd_proxy/assertion.py:99-108 | What a reader finds in an assertion, member by member |
| `Assertion.PublishedExactly` | src/cimd_proxy/assertion.py:60-83 | Each published key has the identifier, modulus and exponent of the key at its place |
| `Assertion.IntegerTextExactly` | src/cimd_proxy/assertion.py:60-69 | Published `n` and `e` decode to the same integers without leading zero octets (RFC 7518, section 6.3.1) |
| `Assertion.SignedKeyIsPublished` | src/cimd_proxy/assertion.py:82-88 | The header of an assertion names exactly one published key, that of the signing key |
| `Redaction.RedactExactly` | src/cimd_proxy/logging_setup.py:54-75 | Two payloads redact to the same output if and only if they differ only under secret names, where both are at most six characters or both longer with the same first six; at any depth |
| `Redaction.RedactIdempotent` | src/cimd_proxy/logging_setup.py:54-75 | Redacting twice is redacting once |
| `Redaction.RedactAt` | src/cimd_proxy/logging_setup.py:54-75 | Along every path without a secret name, redaction commutes with looking up: plain values stay, nested secrets are cut |
| `Redaction.SecretsAreCut` | src/cimd_proxy/logging_setup.py:21-75 | At any depth, a field under one of the thirteen names keeps at most six characters and a mark |
| `Redaction.SecretsExactly` | src/cimd_proxy/logging_setup.py:21-37 | The thirteen names, and no other |
| `Redaction.LogRecord.Filter` | src/cimd_proxy/logging_setup.py:81-91 | The in-place filter computes the filtered record |
| `Redaction.FilteredExactly` | src/cimd_proxy/logging_setup.py:81-91 | What two records may differ in without their filtered forms differing: if and only if |
| `Redaction.SanitizeExactly` | src/cimd_proxy/logging_setup.py:40-51 | No CR, LF or NUL survives, and a value without them is left alone |
| `Redaction.SanitizeAppends` | src/cimd_proxy/logging_setup.py:40-51 | Character by character, the three become escapes and all others stay |

## Left out

- HTTP servers and clients, routing, TLS, DNS, address classification, response rendering and `urlencode`: a redirect is its target and its parameters.
- Error texts, log lines and status codes, beyond which refusal it is.
- Each request of the sign-in path is one atomic step with one clock reading; it shares no state with other requests.
- The sign-in runs keep one configuration; the runs of personal access tokens let it change.
- The document served at an https `client_id` is an input of /authorize in the transition system; `CimdService` models the cache in front of it on its own.
- The URL parser covers printable ASCII: Unicode normalisation of host names and the syntax check of addresses in brackets are not part of it.
- JSON numbers with fractions or exponents and lone surrogates: the envelopes contain none, and the parser of the model refuses them.
- Digits outside ASCII, which Python's `isdigit`, `\d` and `int` also take, in environment keys and in `max-age`.
- Fernet, SHA-256 and RSA are ideal; PEM parsing and the 2048-bit minimum are inside the key loader, which is an input.
- PostgreSQL itself, the connection pool, migrations, role grants, and a lost connection during a statement.
- The listing of an owner's tokens: one SELECT with the owner in its WHERE clause.
- `authenticate` and `ensure_link` of the management endpoints, apart from the outcome of the latter.
- The rest of `load_config`: independent range checks of single values.
- `pat_cli.py`, `discovery.py`, `correlation.py`, `errors.py`, `upstream.py`, `app.py`, `pat_api.py`, `JsonFormatter`: wiring, constant documents, user interface.
- Not claimed, because the code does not promise it: single use of a code at the proxy, binding of a refresh token to one client, that `last_used_at` only moves forward, that an exchange past its lookup is stopped by a revocation.
- `Redaction.Redact`: a tuple comes out as a list, as in the program, so idempotence is of the output, not of the type.
- `PatStore.Store.FindByHash`: picks the row by its property, as a SELECT does; there is no search order to model.
