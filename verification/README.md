# Cifera: cookies, cache and addon matching, verified

Cifera is a forward proxy that keeps the cookies of the origin sites on the server. This project
models its stateful cores in Dafny and proves what they guarantee over every input, every run and
every interleaving.

- **The synchronisation protocol.** The browser runtime keeps a shadow store of cookies and a set
  of dirty keys; each request carries the dirty entries, each response acknowledges keys and pushes
  what the origin set. `ShadowJar` is the browser's store, `Wire` the headers, `SyncProtocol` the
  step system with bags of requests, running handlers and responses, each for some origin,
  `SyncSafety` what it guarantees to a page that follows a discipline, `SyncLoss` that the
  discipline is exact, `SyncRuns` runs that go wrong, `SyncRound` one undisturbed round from end to
  end, `SyncConverge` that such a round stays possible from every reachable state.
- **The cookie jar and its manager.** `Jar` is the two-level map, proved against the flat jar of
  `JarModel`; `JarHistory` is about what a jar forgets of its past; `Matching` holds path and domain
  matching; `Manager` keeps one jar object a key, with
  the persistence queue of `WriteBehind` and the periodic cleanup; `Sessions` makes the keys;
  `CookieHandler` is the cookie block of the request handler.
- **The response cache.** `ResponseCache` is the list, the map and the byte counter, proved against
  the recency list of `LruModel`; `CacheRuns` interleaves writers, readers and Resize calls.
- **Addon matching.** `AddonMatcher` has the sequential and the concurrent matcher and the
  per-tenant render cache.

Time is a parameter everywhere, in nanoseconds from the Unix epoch on the server and in
milliseconds in the browser. `Text`, `Clock`, `Cookies`, `NestedMap` and `Wrappers` hold what the
others share. Dafny's `hide` keeps proofs short; it assumes nothing.

## What turned out not to hold

Each is stated with the exact condition under which it does hold.

- A key rewritten while a message can still acknowledge it can be lost: it ends up clean, with a
  value the server never gets. In every reachable state that is so if and only if such a message is
  on its way (`SyncLoss.RewriteLosesIff`, `SyncRuns.LostWrite`).
- A reused XMLHttpRequest handles each response once for every `open`, with the page's own listeners
  in between. The response stays under way until the last of them has run; a page that takes the
  first handling for the last loses a write (`SyncRuns.HandledTwice`).
- The page attaches its dirty cookies to every request, and the server stores them for the host the
  request is for. A write sent to another origin lands among that origin's cookies and is
  acknowledged, and the page's own slot never gets it. A request can lose what it carries if and
  only if its host and the page's have different canonical domains (`SyncLoss.SendLosesIff`,
  `SyncRuns.LostAbroad`). Likewise a value another origin pushes is taken for the page's own; it is
  what the server holds for the page exactly when the domains are the same, or the slot held just
  that before (`SyncRuns.PushAgreesIff`, `SyncRuns.PushedAbroad`).
- A page that rewrites no key under way and sends its dirty keys home loses no write, but a write
  can come too late: an entry that expires on its way is ignored and acknowledged all the same,
  exactly when its expiry has passed at the server (`SyncSafety.RecordsAreTrue`). The value it was
  to replace can then stay on the server while the page holds nothing and has nothing dirty
  (`SyncRuns.OldValueSurvives`).
- `AddCookie` can panic: when the jar is full and the oldest entry is the only one of the domain
  being written, the bucket is deleted before the write (`NestedMap.RemovalTakesRow`,
  `Jar.Jar.MakeRoom`). At every capacity a run leads there (`JarModel.PanicIsReachable`).
- Restoring a snapshot ignores the capacity: the jar is over it exactly when the snapshot has more
  entries that last (`JarModel.SnapshotRestoreSize`, `JarModel.RestoreCanOverfill`).
- `RemoveCookie` answers the number of domains it looked at, which is the number of deletions only
  when each of them holds the cookie (`JarModel.RemoveAnswerExact`).
- A positive Max-Age is honoured exactly up to 9,223,372,036 seconds. Beyond that its product with
  one second overflows 64 bits, and the cookie is dropped on arrival or goes before its time
  (`Cookies.MaxAgeHonouredIff`, `Cookies.MaxAgeCutShort`).
- `expires=Thu, 01 Jan 1970 00:00:00 GMT`, the customary way to delete a cookie, stores a session
  cookie (`ShadowJar.PastExpiryDeletes`).
- The push header loses positive Max-Age values and expiries at or before the epoch
  (`Wire.PushRoundTrip`); acknowledgement keys must be free of commas and outer blanks
  (`Wire.AckRoundTrip`, `Wire.CommaAcksOthers`).
- The server's path matcher misses exactly the requests below a cookie path that ends in a slash
  and is not "/" (`Matching.ServerPathMatchIsRfcOutsideGap`).
- The server matches an address with a dotted suffix of itself, and ignores a leading dot of a
  stored domain; `Matching.DomainGap` is the exact difference from section 5.1.3 of RFC 6265
  (`Matching.DomainMatchIsRfcOutsideGap`, `Matching.AddressMatchesItsEnd`).
- A secure-only cookie goes out on plain requests: the jar is not told the scheme.
  `JarModel.RetrievalGap` is the exact difference from section 5.4 of RFC 6265, by secure flag, path
  and domain (`JarModel.AppliesIsRfcOutsideGaps`, `JarModel.SecureCookieGoesOutPlain`).
- A Domain attribute is stored whichever host sets it, so a host can set a cookie for another one,
  which section 5.3 of RFC 6265 forbids (`JarHistory.ReceivesIsRfcIff`,
  `JarHistory.AnotherDomainReceives`).
- Setting a cookie again resets its creation time, which section 5.3 of RFC 6265 keeps, and with it
  its place in the Cookie header. The order is the RFC's as long as nothing in the answer has replaced
  a live cookie (`JarHistory.OrderIsRfcUnlessRewritten`, `JarHistory.RewriteChangesOrder`).
- A rejected write leaves the older cached response in place (`CacheRuns.RejectedWriteServesOld`),
  and until a Resize call has trimmed, the cache can exceed the bound it published
  (`CacheRuns.StaleBoundOverfills`).
- The render cache answers with the first parameters it saw for a tenant
  (`AddonMatcher.CacheTransparentIff`). The concurrent matcher equals the sequential one whatever
  the caches hold; with fixed parameters the cache is invisible over all runs
  (`AddonMatcher.TransparentOverCalls`).

`docs/cookie.md` says a full jar evicts the entry that expires first; the code, and so the model,
evicts the one created first. It also says a jar is stored under the session id; the code uses
tenant id and session id.

## Model

| member | source | states |
|---|---|---|
| SyncSafety.NoLostWrite | scripts/src/cookie.ts:146-280 | over every disciplined run, in which requests with dirty keys go to the page's own domain and others anywhere, with loss, reordering, retries, sweeps, replies without headers and responses handled several times, a written key that is clean has had its latest write taken over by the jar, or found expired there, or given up for a push |
| SyncSafety.LeavesDirtyOnlySettled | scripts/src/cookie.ts:235-280 | a key leaves the dirty set only when the page handles a response, for the first time or again, and only if its latest write is settled at the server or the response pushes a value for it |
| SyncSafety.CleanMeansEqual | scripts/src/cookie.ts:146-280 | in every reachable state a clean key whose slot nothing else changed on either side is held alike by page and jar: both without it, or same value, flags and expiry |
| SyncSafety.UntouchedChangesOnlyBySync | internal/server.go:405-417 | the record of slots changed by others is complete: any other slot changes only when a handler applies an entry for it, to what that entry asks for |
| SyncSafety.RecordsAreTrue | internal/server.go:409-412 | applying an entry for the page's own host records its write as late exactly when its expiry has passed at the server, else as applied with the jar showing it, unless AddCookie panics; for another host it records nothing |
| SyncLoss.RewriteLosesIff | scripts/src/cookie.ts:240-247 | in every reachable state a write can get lost, from whatever instant on, if and only if a request, a handler, or a response still to be handled can acknowledge its key |
| SyncLoss.SendLosesIff | scripts/src/interceptors/fetch.ts:57-91 | in every reachable state a request with an unsettled write can lose it, from whatever instant on, if and only if its host and the page's have different canonical domains |
| SyncRuns.RewriteUnderAckIsLost | scripts/src/cookie.ts:240-247 | from every reachable state, writing a key whose acknowledgement is in flight and then delivering it leaves the key clean with a write the server never settled |
| SyncRuns.LostWrite | scripts/src/cookie.ts:235-249 | a legal run from the empty page that loses a write: the page shows the cookie, nothing is dirty or under way, and the jar is empty |
| SyncRuns.HandledTwice | scripts/src/interceptors/xhr.ts:68-83 | a legal run in which a response is handled and leaves nothing dirty, and handled again after a write, which loses it for good |
| SyncRuns.LostAbroad | scripts/src/rewriter.ts:141-153 | a run in which a write goes to another origin: it is acknowledged and held in that host's slot, the page's own slot never gets it, and nothing is dirty or under way |
| SyncRuns.OldValueSurvives | internal/cookiejar/jar.go:102-104 | a disciplined run in which a cookie that expires on its way leaves the value it replaced on the server for good, with the page empty and nothing dirty or under way |
| SyncRuns.PushAgreesIff | internal/server.go:709-721 | after an origin sets any cookies and the page takes the push, page and server agree on each exactly when the origin's domain is the page's, or the page's slot held just that before; the last of one key counts |
| SyncRuns.PushedAbroad | internal/server.go:709-721 | a disciplined run from the empty page after which the page shows a cookie of another host, and the server has none for it |
| SyncSafety.StepKeepsInv | scripts/src/cookie.ts:146-280 | every disciplined step keeps, for every cookie, that messages carry its current version and entry, and that confirmed or clean keys agree |
| SyncSafety.StaysSentHome | internal/server.go:405-417 | under the discipline every message that carries or acknowledges a key is for the page's own domain |
| SyncSafety.SoundStaysSound | scripts/src/cookie.ts:146-280 | every disciplined step keeps the store consistent and every key one that survives the separators |
| SyncSafety.AddHasEffect | internal/cookiejar/jar.go:66-118 | AddCookie on a decoded entry makes the slot show what the entry asks for, or leaves it, and touches no other slot but the evicted one |
| SyncProtocol.LoadedPageStarts | scripts/src/cookie.ts:186-201 | a page loaded from injected cookies holds the last of each name and path, as given and nothing else, and is a legal start of a run that tracks every one the server holds alike and every slot neither side has |
| SyncProtocol.InjectedIsFaithful | internal/cookie.go:89-108 | a live cookie without Max-Age and with whole-second expiry is injected without loss, field by field, under its own key and slot |
| SyncProtocol.ShownExactlyAsRfc | scripts/src/cookie.ts:105-132 | an entry that page and jar hold alike is shown to scripts exactly when section 5.4 of RFC 6265 would send the stored cookie with such a request, and it is not for HTTP only |
| SyncProtocol.CaseInjective | internal/server.go:412 | for names without '\|' and NUL, the browser's key and the jar's slot determine each other |
| SyncRound.LosslessRound | scripts/src/cookie.ts:207-249 | one undisturbed round through encode, decode, the AddCookie loop, ACK join and ACK split empties the dirty set, leaves every formerly dirty key equal on the page and in the slots of the requested host, tombstoned ones in neither, and changes nothing else; the page's own slots are then in step exactly when the domains are the same or they were before |
| SyncConverge.Converges | scripts/src/cookie.ts:207-249 | from every reachable state, whatever was lost or left unanswered, if the jar has room for the dirty keys and none has expired, some disciplined run empties the dirty set and leaves every key that was dirty equal on both sides |
| SyncRound.ServeAppliesAll | internal/server.go:405-417 | with room in the jar the sync loop applies every entry, collects all keys in order, and leaves all other slots alone |
| SyncRound.ServeKeepsBound | internal/server.go:405-417 | without room, whatever the header holds and whichever oldest entries go, the loop keeps a jar within its capacity and every entry in its slot |
| SyncRound.AckClears | scripts/src/cookie.ts:235-249 | acknowledging keys cleans exactly those keys and removes exactly their tombstones |
| ShadowJar.ReachableIsValid | scripts/src/cookie.ts:146-280 | every reachable store keeps the dirty set inside its keys, every tombstone dirty, and every entry under its own key |
| ShadowJar.PayloadCoversDirty | scripts/src/cookie.ts:207-221 | the sync payload has exactly one entry for each dirty key, so the branch that clears a non-empty dirty set is dead |
| ShadowJar.LoadKeepsAll | scripts/src/cookie.ts:186-201 | the store after a load has exactly the last entry for each name and path, an empty path turned into "/", none of them dirty |
| ShadowJar.ReadYourWrites | scripts/src/cookie.ts:146-168 | after a write the getter shows the cookie as written, unless it was a deletion or had expired, which leaves a tombstone; all other cookies are as before, and exactly this key becomes dirty |
| ShadowJar.SweepIsInvisible | scripts/src/cookie.ts:175-183 | a sweep turns exactly the expired entries into dirty tombstones, and no later read can tell |
| ShadowJar.AckIsInvisible | scripts/src/cookie.ts:235-249 | no acknowledgement changes what the page reads |
| ShadowJar.LoadIsValid | scripts/src/cookie.ts:186-201 | a page that is given no tombstone starts out consistent |
| ShadowJar.InjectedIsNoTombstone | internal/cookie.go:89-108 | a live cookie is never injected as a tombstone |
| ShadowJar.PastExpiryDeletes | scripts/src/cookie.ts:92-98 | a write with a past Expires deletes exactly when that instant is at least a second after the epoch or in the last second before it |
| ShadowJar.ShadowStore.Set | scripts/src/cookie.ts:146-168 | the setter stores or turns into a tombstone, and marks dirty, as the step system's write does |
| ShadowJar.ShadowStore.CleanExpired | scripts/src/cookie.ts:175-183 | every expired entry and no other becomes a dirty tombstone, in any iteration order |
| ShadowJar.ShadowStore.GetDocumentCookie | scripts/src/cookie.ts:105-149 | the getter sweeps and returns exactly the entries to be shown, each once |
| ShadowJar.ShadowStore.InitServerCookies | scripts/src/cookie.ts:186-201 | the store is rebuilt from the injected list and has exactly its last entry for each name and path, with nothing dirty |
| ShadowJar.ShadowStore.GetCookieSyncHeader | scripts/src/cookie.ts:207-229 | the header lists the entries of the dirty keys; a consistent store is left unchanged |
| ShadowJar.ShadowStore.ProcessCookieAck | scripts/src/cookie.ts:235-249 | the keys of the header are acknowledged one by one |
| ShadowJar.ShadowStore.ProcessCookiePush | scripts/src/cookie.ts:256-280 | pushed entries replace or delete and are never dirty |
| Wire.AckRoundTrip | internal/server.go:742-745 | the ACK split inverts the ACK join exactly when every key is non-empty, comma-free and trimmed |
| Wire.CommaAcksOthers | scripts/src/cookie.ts:238 | a key with a comma acknowledges two other keys |
| Wire.PushRoundTrip | internal/cookie.go:111-133 | decoding a pushed cookie gives it back, path defaulted and expiry in seconds, exactly when Max-Age is not positive and the expiry is unset or after the epoch |
| Wire.PushRoundTripAll | internal/cookie.go:56-86 | the same for whole lists |
| Wire.ReencodeStable | internal/cookie.go:111-133 | encoding again what was decoded is the identity exactly for entries with a path and no expiry before the epoch |
| Wire.CookieKeyInjective | scripts/src/cookie.ts:22-24 | keys of '\|'-free names determine name and path |
| Wire.DecodeCookieSyncHeader | internal/cookie.go:56-86 | the decoding loop, entry by entry |
| Wire.BuildCookiePushHeader | internal/cookie.go:111-133 | the push loop, cookie by cookie |
| Wire.BuildCookiesJson | internal/cookie.go:89-108 | the injection loop, cookie by cookie |
| Matching.BrowserPathMatchIsRfc | scripts/src/cookie.ts:26-33 | the browser's matcher is section 5.1.4 of RFC 6265 |
| Matching.ServerPathMatchIsRfcOutsideGap | internal/cookiejar/matcher.go:35-52 | the server's matcher implies section 5.1.4 and equals it except below a cookie path ending in '/' other than "/" |
| Matching.ServerMissesSlashPath | internal/cookiejar/matcher.go:40-48 | a request the server's matcher misses |
| Matching.PathMatchPreorder | internal/cookiejar/matcher.go:35-52 | both matchers are reflexive and transitive |
| Matching.DomainMatchIsRfcOutsideGap | internal/cookiejar/matcher.go:10-31 | for every host and stored domain, matching is section 5.1.3 of RFC 6265 exactly outside the stated gap: addresses with dotted suffixes, leading dots, empty domains |
| Matching.AddressMatchesItsEnd | internal/cookiejar/matcher.go:10-31 | an address the server matches with a suffix of itself |
| Matching.CanonicalDomainSpellings | internal/cookiejar/matcher.go:54-60 | spellings of a domain that differ in case or in one leading dot have one canonical form |
| Text.TrimCutsBlanks | internal/cookiejar/matcher.go:54-60 | trimming cuts off exactly the blanks at both ends |
| Cookies.ExpiredStaysExpired | internal/cookiejar/jar.go:32-40 | expiry is final |
| Cookies.ExpiryInFields | internal/cookiejar/jar.go:32-40 | a cookie without a lifetime never expires, one with an expiry right after it, one with a Max-Age that fits right after that many seconds |
| Cookies.MaxAgeHonouredIff | internal/cookiejar/jar.go:36-38 | a cookie lives for exactly its positive Max-Age if and only if that is at most 9,223,372,036; it is dropped on arrival exactly when the product wraps to a negative duration |
| Cookies.MaxAgeCutShort | internal/cookiejar/jar.go:36-38 | one Max-Age dropped on arrival, one gone within a second |
| Cookies.EntryKeyInjective | internal/cookiejar/jar.go:61-63 | inner keys of NUL-free names determine name and path |
| JarModel.ReachableJarsAreBounded | internal/cookiejar/jar.go:66-195 | a jar built by adding, removing and expiring keeps every entry in its own slot and never holds more than its capacity |
| JarModel.EvictionTakesOneOldest | internal/cookiejar/jar.go:160-186 | a new cookie at capacity removes exactly one entry, created before every other, or with the smallest key among those created at the same instant, and changes no other |
| JarModel.VictimIsOldest | internal/cookiejar/jar.go:166-181 | the entries the walk can end with are exactly those created first, by key among equals |
| Text.LessIsLexicographic | internal/cookiejar/jar.go:174-175 | the order on keys is the lexicographic one, and total |
| NestedMap.RemovalTakesRow | internal/cookiejar/jar.go:121-128 | evicting an entry takes the bucket about to be written with it exactly when the entry is alone in that domain |
| Jar.Jar.MakeRoom | internal/cookiejar/jar.go:109-117 | before the write nothing is evicted unless the key is new and the jar full, then one oldest entry; the bucket to be written is missing exactly when that was its last entry |
| JarModel.PanicIsReachable | internal/cookiejar/jar.go:109-117 | at every capacity a run of additions from the empty jar ends in a panic |
| JarModel.AddFrame | internal/cookiejar/jar.go:66-118 | only the slot written and the slot evicted change; what was stored reads back, what was deleted is gone |
| JarModel.RemoveAnswerExact | internal/cookiejar/jar.go:132-157 | RemoveCookie's answer is the number deleted exactly when every domain looked at held the cookie |
| JarModel.RemovesExactlyNamed | internal/cookiejar/jar.go:132-157 | removed are exactly the entries with the name and path given, in the domain given or in all |
| JarModel.AppliesIsRfcOutsideGaps | internal/cookiejar/jar.go:205-226 | for every request, to a name or an address, secure or not, and every stored domain, a cookie is retrieved exactly when section 5.4 of RFC 6265 says so, outside the secure, path and domain gaps |
| JarModel.SecureCookieGoesOutPlain | internal/cookiejar/jar.go:224 | a secure-only cookie is retrieved for a plain request, which the RFC rules out |
| JarHistory.ReceiversExact | internal/cookiejar/jar.go:78-84 | a stored cookie can ever be retrieved for a host exactly when it is host-only and the host is its setter's, or its Domain attribute matches the host |
| JarHistory.AnswersWereSet | internal/cookiejar/jar.go:198-253 | over every run, whatever is retrieved for a host was set by an addition whose cookie that host receives |
| JarHistory.ReceivesIsRfcIff | internal/cookiejar/jar.go:78-84 | who receives a cookie is as in sections 5.3 and 5.4 of RFC 6265 except, with a Domain attribute, for what the RFC rejects at setting and for the domain gap |
| JarHistory.DomainAttributeUnchecked | internal/cookiejar/jar.go:78-80 | what becomes of a cookie with a Domain attribute does not depend on the host that sets it |
| JarHistory.AnotherDomainReceives | internal/cookiejar/jar.go:78-84 | a cookie set by one host that another domain's host receives |
| JarHistory.OrderIsRfcUnlessRewritten | internal/cookiejar/jar.go:229-235 | over every run, an answer in the jar's order is in the RFC's when no entry in it has replaced a live one since it was first set |
| JarHistory.RewriteChangesOrder | internal/cookiejar/jar.go:117 | a run after which jar and RFC order two cookies differently |
| JarHistory.TrackedRuns | internal/cookiejar/jar.go:66-118 | the runs with creation times kept beside them are the runs of the jar |
| JarHistory.RunsAreTracked | internal/cookiejar/jar.go:66-118 | every run of the jar has creation times to keep beside it |
| JarModel.OrderedAnswersAgree | internal/cookiejar/jar.go:229-235 | two answers from different map iteration orders have the same path length and creation time at every position |
| JarModel.StoredCookieIsFound | internal/cookiejar/jar.go:198-253 | a host-only cookie just stored for a canonical host is found under every path it covers |
| JarModel.CleanupInvisible | internal/cookiejar/jar.go:256-270 | removing expired entries changes no lookup from then on |
| JarModel.SweepInFields | internal/cookiejar/jar.go:256-270 | exactly the expired entries go, the rest stays as it was |
| JarModel.SnapshotInFields | internal/cookiejar/jar.go:288-305 | a snapshot has exactly the unexpired entries that have an expiry or a Max-Age |
| JarModel.SpellingsAreOne | internal/cookiejar/matcher.go:54-60 | two spellings of a host or domain differing in case, or in one leading dot, reach the same slot and get the same answers |
| JarModel.SnapshotRestore | internal/cookiejar/jar.go:288-327 | restoring a snapshot later yields exactly the non-session entries still unexpired |
| JarModel.RestoredLookup | internal/cookiejar/jar.go:288-327 | every later lookup on the restored jar is the persistent part of the original's answer |
| JarModel.SnapshotRestoreSize | internal/cookiejar/jar.go:308-327 | a restored jar holds as many entries as the original has lasting ones: over a capacity exactly when they are, never over one that bounded the original |
| JarModel.RestoreCanOverfill | internal/cookiejar/jar.go:308-327 | a jar filled under one capacity is restored whole under a smaller one |
| Jar.Jar.AddCookie | internal/cookiejar/jar.go:66-118 | the two-level map refines the flat jar for a victim the eviction could pick; no bucket is left empty |
| Jar.Jar.RemoveEntry | internal/cookiejar/jar.go:121-128 | one entry goes, and its bucket with the last one |
| Jar.Jar.RemoveCookie | internal/cookiejar/jar.go:132-157 | removal by name in one domain or in all, and the answer it gives |
| Jar.Jar.FindVictim | internal/cookiejar/jar.go:166-181 | the walk finds the entry created first, by key among equals, in any iteration order |
| Jar.Jar.EvictIfNeeded | internal/cookiejar/jar.go:160-186 | nothing below capacity, else exactly one entry, one created first |
| Jar.Jar.TotalCount | internal/cookiejar/jar.go:189-195 | the sum of bucket sizes is the number of entries |
| Jar.Jar.CookiesFor | internal/cookiejar/jar.go:198-253 | every applicable entry exactly once, longest path first, then earliest last write, each cookie equal to its entry in all nine fields |
| Jar.Jar.RemoveExpired | internal/cookiejar/jar.go:256-270 | exactly the expired entries go |
| Jar.Jar.IsExpired | internal/cookiejar/jar.go:273-285 | true exactly when nothing live is left |
| Jar.Jar.AllCookies | internal/cookiejar/jar.go:288-305 | every live non-session entry exactly once |
| Jar.Jar.RestoreCookies | internal/cookiejar/jar.go:308-327 | the unexpired entries are written in order |
| Jar.StableSortSorts | internal/cookiejar/jar.go:230-235 | the sort orders by path length, longest first, then by time of last write, and permutes |
| WriteBehind.WriteBehindIsReplay | internal/cookiejar/manager.go:114-158 | in every interleaving of offers and worker steps, replaying what is under way onto the database is the replay of all accepted tasks in order |
| WriteBehind.CloseDrains | internal/cookiejar/manager.go:117-123 | when the worker exits after Close the database is the replay of all accepted tasks |
| WriteBehind.OfferedExactlyWithRoom | internal/cookiejar/manager.go:206-220 | a snapshot is accepted exactly when fewer than 4096 are pending |
| WriteBehind.WorkerCanDrain | internal/cookiejar/manager.go:114-129 | from every state of every run the worker can write out all it holds, and then the database is the replay of all accepted tasks |
| WriteBehind.ReplayKeepsLast | internal/cookiejar/manager.go:131-158 | what a replay leaves under a key is the last snapshot for it, absent if that was empty |
| WriteBehind.ReplayLeavesOthers | internal/cookiejar/manager.go:131-158 | keys without a task keep their record |
| Manager.CleanupKeepsAnswers | internal/cookiejar/manager.go:258-290 | cleanup changes no session's answer from then on, dropped jars made again included |
| Manager.CleanedInFields | internal/cookiejar/manager.go:258-280 | a jar survives cleanup exactly when an entry in it is live, with exactly its live entries |
| Manager.RestartKeepsPersistent | internal/cookiejar/manager.go:359-372 | after a drained shutdown and a restart a session gets the persistent part of what its last accepted snapshot's jar would answer |
| Manager.RestartAfterCleanup | internal/cookiejar/manager.go:283-289 | whatever snapshots the full queue dropped, a restart after a cleanup gives every session in memory the persistent part of its jar's answers, and the others what the old database would |
| Manager.Manager.GetOrCreateJar | internal/cookiejar/manager.go:174-201 | the jar in memory, or restored, or new; distinct keys keep distinct objects and no other jar changes |
| Manager.Manager.PersistJar | internal/cookiejar/manager.go:206-220 | a snapshot is enqueued, or dropped when the queue is full |
| Manager.Manager.WorkerStep | internal/cookiejar/manager.go:124-126 | the worker writes the oldest task |
| Manager.Manager.Close | internal/cookiejar/manager.go:233-239 | closing drains the queue in order |
| Manager.Manager.SweepJars | internal/cookiejar/manager.go:263-270 | every jar loses exactly its expired entries, and exactly the empty ones are reported |
| Manager.Manager.Cleanup | internal/cookiejar/manager.go:258-290 | expired entries and empty jars go from memory; dropped jars have no record, each survivor's record lists its lasting entries once, other keys keep theirs |
| Sessions.NewUuidIsValid | internal/cookiejar/manager.go:16-31 | a generated id passes the recogniser for all 16 random bytes |
| Sessions.ValidExactlyGenerated | internal/cookiejar/manager.go:16-31 | the recogniser accepts exactly the ids that some 16 bytes generate |
| Sessions.NewUuidKeepsRandomness | internal/cookiejar/manager.go:24-31 | ids collide only when the random bytes agree outside the fixed bits |
| Sessions.BootstrapSession | internal/server.go:367-395 | every request ends with a valid session id, its own if valid; an automatic tenant is the session; a managed one needs a valid token |
| Sessions.JarKeyInjective | internal/tenant/tenant.go:40-42 | tenantID:sessionID determines both for valid session ids, colons in the tenant included |
| Sessions.JarKeyNeedsValidSessions | internal/tenant/tenant.go:40-42 | without valid session ids the key is ambiguous |
| CookieHandler.CookieBlock | internal/server.go:367-417 | the session's Cookie header is its jar's answer before the sync, its jar of the manager's capacity takes the sync entries with evictions of oldest entries only, no other jar changes, and one snapshot of the jar is enqueued if there was a sync, no panic, and room |
| CookieHandler.RequestSurvivesRestart | internal/server.go:416 | after such a request, a drained shutdown and a restart, the session gets the persistent part of what its jar would answer |
| CookieHandler.SyncKeepsBound | internal/server.go:405-417 | no sync header takes a jar over its capacity |
| CookieHandler.SessionIsolation | internal/server.go:393-395 | whatever one tenant and session does to its jar, every other pair's jar is the same |
| CookieHandler.SharedJarExactly | internal/server.go:367-395 | two requests share a jar exactly when tenant and session, as the request's cookies and token give them, are the same |
| CookieHandler.SetCookieIsSent | internal/server.go:397-403 | once a host has set a cookie for itself and it was stored, every Cookie header for that host under a covered path has it, with the name, value and attributes it was set with, until it expires |
| CookieHandler.ApplySync | internal/server.go:409-413 | the AddCookie loop, each entry at its own time, with its keys, ended by a panic, each eviction taking an oldest entry |
| CookieHandler.FinishResponse | internal/server.go:709-745 | origin cookies go to the jar in order and are all pushed, one snapshot is enqueued if there are any, no panic, and room; the request's keys are acknowledged |
| LruModel.Inclusion | internal/cache/cache.go:105-126 | after any references the smaller cache's list is a prefix of the larger one's, oversized entries included |
| LruModel.LargerNeverMisses | internal/cache/cache.go:105-126 | a larger maxSize never turns a hit into a miss |
| LruModel.InclusionOfAccesses | internal/cache/cache.go:105-126 | the same for the cache's own Get and store at any times: the keys of the smaller cache are a prefix of the larger one's |
| LruModel.LargerAlwaysHits | internal/cache/cache.go:105-126 | a Get that hits in the smaller cache hits in the larger one |
| LruModel.CacheIsRecencyPrefix | internal/cache/cache.go:205-258 | the list is always a prefix of the order of last use and holds the last reference |
| LruModel.LastUseIsLastUse | internal/cache/cache.go:105-126 | that order has exactly the keys referred to, each once, latest last reference first |
| LruModel.LookExactly | internal/cache/cache.go:105-126 | a lookup hits exactly when an entry for the key is within its lifetime; the hit is that entry and is in front afterwards, a miss leaves none |
| LruModel.WithoutKeepsOrder | internal/cache/cache.go:345-350 | removing an entry leaves the others in their order |
| LruModel.FitIsLongest | internal/cache/cache.go:227-232 | eviction keeps exactly the longest recency prefix that fits |
| LruModel.PutKeeps | internal/cache/cache.go:205-258 | after a store keys are distinct and the total fits, or the entry is alone |
| LruModel.PutKeepsMost | internal/cache/cache.go:226-257 | a store puts the entry in front and keeps as many of the most recent others as fit |
| LruModel.MoveToFrontKeeps | internal/cache/cache.go:123 | a hit moves exactly its own entry to the front |
| ResponseCache.Cache.Get | internal/cache/cache.go:105-126 | Get refines the recency list: hit to the front, stale entry out, and the entry found |
| ResponseCache.Cache.SetLocked | internal/cache/cache.go:205-258 | a store refines the recency list; an empty body or a no-cache response changes nothing, any other write is in front with its payload, its size, the time, and the lifetime it asks for or five minutes |
| ResponseCache.Cache.Evict | internal/cache/cache.go:227-232 | the eviction loop |
| ResponseCache.Cache.Resize | internal/cache/cache.go:261-276 | a positive bound is stored and the list trimmed to it |
| ResponseCache.Cache.RemoveElement | internal/cache/cache.go:345-350 | list, map and byte counter stay in step |
| ResponseCache.Cache.SetAsync | internal/cache/cache.go:181-202 | a write is queued unless its body is empty or the queue is full |
| ResponseCache.Cache.Close | internal/cache/cache.go:90-102 | all queued writes are carried out in order, each at its own time |
| ResponseCache.EntryCountBound | internal/cache/cache.go:217 | entries of positive size number at most max(1, maxSize) |
| CacheRuns.ResizeTakesEffect | internal/cache/cache.go:226-276 | in every interleaving, once the latest storer of maxSize has trimmed, the total fits maxSize or exactly one entry is held |
| CacheRuns.StaleBoundOverfills | internal/cache/cache.go:265-270 | a run in which the cache exceeds a bound just published |
| CacheRuns.HitIsLastWrite | internal/cache/cache.go:105-126 | over every run a key is hit exactly when it is in the list and the write carried out last for it is within the lifetime it asked for, five minutes by default; the hit has that write's payload and size |
| CacheRuns.LastIsTrue | internal/cache/cache.go:205-258 | that write was carried out at the time recorded by an action of the run, and no later action carried out one for the key |
| CacheRuns.CloseIsARun | internal/cache/cache.go:181-258 | what Close makes of the list is what some run of the interleaved system makes of it, from every state in which the writer is idle |
| CacheRuns.RejectedWriteServesOld | internal/cache/cache.go:210-215 | a run in which the write submitted last for a key is rejected and the one before it is hit |
| CacheRuns.ActKeepsInv | internal/cache/cache.go:205-276 | every step keeps keys distinct, entries backed by the last write, and the bound once the latest Resize is done |
| AddonMatcher.MatchInjectConcurrent | internal/addon/matcher.go:95-130 | for every interleaving and finishing order of the goroutines, and whatever the render caches hold, the same items in the same order |
| AddonMatcher.MatchInjectSequential | internal/addon/matcher.go:78-92 | exactly one item for each inject rule that matches, of each addon the tenant has, by addon and then by rule, with the addon's id, the rule's placement, and its content from what its cache held at the start |
| AddonMatcher.MatchInjectFor | internal/addon/matcher.go:51-56 | the choice between the two is invisible |
| AddonMatcher.AllItemsList | internal/addon/matcher.go:78-140 | the list of items is in one-to-one correspondence, in order, with the places whose rule fires |
| AddonMatcher.BuildInjectItem | internal/addon/matcher.go:59-75 | an item and its rule's cache are those of one request on the cache at the start; a second request by the same tenant finds what the first left |
| AddonMatcher.FixedParamsAreTransparent | internal/addon/addon.go:187-212 | when no tenant's parameters for an addon change, the items are those of rules with nothing cached |
| AddonMatcher.TransparentOverCalls | internal/addon/addon.go:187-212 | at every moment of any run of match calls by any tenants, from nothing cached, a call gets the items of rules with nothing cached, when no tenant's parameters for an addon change |
| AddonMatcher.EvolvedIsEvolvedTo | internal/addon/matcher.go:78-140 | a step of such a run is what the sequential and the concurrent matcher leave of the caches |
| AddonMatcher.MatchingKeepsCoherence | internal/addon/addon.go:187-212 | every match leaves coherent caches with renderings of the same parameters |
| AddonMatcher.Rule.ResourceContentFor | internal/addon/addon.go:187-212 | the cached or fresh rendering, remembered for the tenant |
| AddonMatcher.CacheHoldsFirst | internal/addon/addon.go:187-212 | over any history the cache holds for each tenant the rendering of the first parameters it was asked for |
| AddonMatcher.CacheTransparentIff | internal/addon/addon.go:187-212 | a cached answer is the fresh one exactly when the parameters render like the tenant's first ones |

## Left out

- JSON, base64 and their failures, and `btoa` on characters outside Latin-1: a header is the list it encodes.
- Parsing of `document.cookie` strings and Set-Cookie lines, and the order and text of what the getter returns, which sorts by locale: string handling around the store, without state of its own.
- Unicode: case folding and blanks are those of ASCII, and Go bytes and JavaScript code units are both characters.
- Secure cookies, SameSite and Domain attributes in the protocol: the wire entry carries no domain, so the page's own writes are host-only cookies of one host; any other cookie the origin sets only counts as touching its slot.
- Page navigation: a run of the protocol is one page lifetime.
- SyncSafety.CleanMeansEqual: says nothing of slots changed by an origin, another tab, eviction or cleanup, of entries that expired on their way to the server, and of entries swept while a message for them was on its way; a lost push leaves the page stale there, and the code has no remedy.
- The lock of a jar is held for one AddCookie, so handlers interleave at that grain; CookieHandler.CookieBlock is one request with nothing in between, each step at its own time.
- Races the code does not order: two first requests for one key in GetOrCreateJar, a request holding a jar that cleanup drops, and cleanup's database writes against older snapshots still queued; hence Manager.Manager.Cleanup requires an empty queue.
- Manager.Manager.Cleanup: reads the clock once, where the code reads it for each call.
- Snapshots offered after the worker has exited stay in the queue; WriteBehind.CloseDrains speaks of the moment of exit.
- Badger is a map whose writes succeed; opening it, loading all jars at start and JSON errors of stored records are not modelled.
- Conditional requests, header parsing, TTL extraction, cacheability and statistics of the cache: they compute the size and TTL a write is given here.
- container/list is taken as the sequence of its elements, sort.SliceStable as an insertion sort.
- The expiry branch of the cache in LruModel.Inclusion: inclusion needs fixed entries per key, since an entry that goes stale is removed from both lists at different times.
- Lazy creation of a rule's cache object is not modelled: loading an addon always creates it.
- Regular expressions, templates and the tenant resolver are parameters; block and replace rules, which return the first match, are not modelled.
- Compression, HTML and URL rewriting, virtual hosts, WebSocket bridging, configuration and process start-up.
