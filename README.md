# rdt-li short links, modelled in Dafny

This project models the short-link service of the rdt-li URL shortener. It covers four parts:

- **Owned links.** Signed-in users and API clients create, list, rename and delete their own short links.
- **Anonymous links.** Anyone can create one, and a public listing shows them.
- **API keys.** A key is issued and then verified by a 32-character lookup prefix and an AES-GCM check.
- **The request funnel.** It pulls the key out of the `Authorization` header and turns thrown errors into HTTP statuses.

The Postgres tables `short_urls` and `users` are the class `Store.Database`. It has two sequence fields, and its methods are the query shapes the code issues:

- delete-where;
- insert, which fails on a taken id, like unique_violation 23505;
- update-where, which fails when the result would repeat an id;
- the key-column update of a user.

Each operation that changes the tables is an imperative method. Its postcondition ties the result and the new table to a pure `...Outcome` function of the old table. The lemmas about those functions state what the code promises: the order of the checks, the rows each branch removes or adds, and the rows it leaves alone.

Modules follow the source files:

| module | file | models |
|---|---|---|
| `ShortUrlTypes` | short_url_types.dfy | the payloads, `ShortUrlApiError`, `unauthorizedError` and JavaScript truthiness |
| `Text` | text.dfy | `startsWith`, `includes` / SQL `LIKE '%p%'`, `slice(0, n)`, `split(' ')` |
| `Foreign` | foreign.dfy | the primitives the code calls but does not define, kept abstract |
| `Store` | store.dfy | the two tables and the ORM queries |
| `ApiHelpers` | api_helpers.dfy | `withApiKey`, `getUserIdForApiKey`, `getApiKey` |
| `ShortUrlHelpers` | short_url_helpers.dfy | owned create, read, update and delete, with their session and API-key wrappers |
| `PublicUrlHelpers` | public_url_helpers.dfy | `getPublicShortUrls`, `createPublicShortUrl` |
| `AuthHelpers` | auth_helpers.dfy | the older helpers, where they differ |

The older `src/lib/auth-helpers.ts` repeats three pieces of code, and the same members model them:

- `getUserIdForApiKey` (lines 14-63) is modelled by `ApiHelpers.GetUserIdForApiKey`. It reads the secret from `process.env` instead of the validated environment, and both are the one `secret` parameter here.
- `getApiKey` (lines 65-118) is modelled by `ApiHelpers.GetApiKey`.
- `createShortUrlUnsafe` (lines 183-240) is modelled by `ShortUrlHelpers.CreateShortUrlUnsafe`, the create of `src/lib/short-url-helpers.ts:61-118`.

The older file imports `ShortUrlApiError` from `src/lib/auth-types.ts`, which does not export it. The model reads that name as the class of `src/lib/short-url-types.ts`, so the older create throws the same error values as the current one.

Nondeterminism and the swallowed failures become parameters:

- `freshId` is the value `nanoid(6)` draws.
- `salt` is what `nanoid(32)` draws.
- `now` is the clock in seconds, used both for `new Date()` and for `NOW()`.
- `blocked` is the blocklist.
- `purgeFails`, `expiryFails` and `countFails` say whether a database call inside a `try { } catch { console.log }` fails.
- A session is `Option<string>`: the signed-in user's id, or none.

Behaviour that follows the code where the obvious reading differs:

- The whole presented key is base64-decoded, not the part after the prefix.
- That decode and the key import both sit outside the `try`. A key with a known prefix that is not base64 therefore throws, and the funnel answers it with 500, not 401.
- A missing token answers with the serialised unauthorized error and status 200, because `NextResponse.json` is given no status.
- With an empty blocklist, the public create never parses the url where a failure could escape. The raw text is stored.

## Model

| member | source | states |
|---|---|---|
| `ApiHelpers.BearerToken` | src/lib/api-helpers.ts:18 | the header yields a token exactly when it is present and holds a space, since only then does `split(' ')` have a second piece |
| `ApiHelpers.BearerTokenAfterScheme` | src/lib/api-helpers.ts:18 | the token is the word after the first space, whatever the scheme word before it |
| `ApiHelpers.BearerTokenNeedsSpace` | src/lib/api-helpers.ts:18-19 | a header without a space yields no token |
| `ApiHelpers.BearerTokenHasNoSpace` | src/lib/api-helpers.ts:18 | a token never contains a space |
| `ApiHelpers.WithApiKey` | src/lib/api-helpers.ts:13-38 | a missing or empty token answers the unauthorized body with status 200; otherwise the handler's response is returned, a thrown `ShortUrlApiError` becomes its code and message, anything else becomes 500 'Please try again' |
| `ApiHelpers.WithApiKeyIgnoresScheme` | src/lib/api-helpers.ts:18-21 | two headers that differ only in the scheme word get the same response |
| `ApiHelpers.WithApiKeyWithoutTokenSkipsHandler` | src/lib/api-helpers.ts:19-23 | without a token the handler is never consulted and the body is the unauthorized error |
| `ApiHelpers.FirstWithApiKey` | src/lib/api-helpers.ts:41-47 | the lookup finds a user exactly when one stores the prefix, and then the first such user |
| `ApiHelpers.KeyPlaintext` | src/lib/api-helpers.ts:105 | the plaintext of a key is the user id, one '.', then the salt, and splits back into them |
| `ApiHelpers.GetUserIdForApiKey` | src/lib/api-helpers.ts:40-89 | `false` exactly when no user stores the first 32 characters; it throws exactly when a user matches and the key import or the base64 decode fails; it yields an id exactly when the ciphertext decrypts to `id.salt`, and that id is the id of the first user holding the prefix, the one whose salt was used; any other case is `null` |
| `ApiHelpers.ResolveApiKey` | src/lib/short-url-helpers.ts:29-32 | the wrappers' falsy check: lookup errors pass through, `false`, `null` and an empty id become the unauthorized error, and a non-empty id is accepted |
| `ApiHelpers.FirstWithId` | src/lib/api-helpers.ts:98-101 | the caller's user row, if any |
| `ApiHelpers.GetApiKey` | src/lib/api-helpers.ts:91-144 | no session throws 'Session not found'; with intent not 'new', a missing user row throws a TypeError and a held key returns `true`, both changing nothing; otherwise, including intent 'new' with no user row (the `intent === 'new'` test short-circuits, so `user[0]` is never read), it issues a key, stores its first 32 characters and the salt in the caller's row only (with no row, the table is unchanged), and returns the full key |
| `ApiHelpers.IssueApiKey` | src/lib/api-helpers.ts:104-129 | the key import throws exactly when the salt is not importable; the encrypt's error is thrown exactly when the salt imports and the encrypt fails, and no other error is thrown; a key is returned exactly when both succeed, and under the cipher and base64 round trips it decodes and decrypts to `<uid>.<salt>` |
| `ApiHelpers.IssuedKeyVerifies` | src/lib/api-helpers.ts:103-141 | under the cipher, base64 and UTF-8 round trips, when no other user holds the prefix, a key just issued is looked up as its owner's id |
| `ApiHelpers.IssuedKeyResolves` | src/lib/short-url-helpers.ts:28-33 | a key just issued for a non-empty id passes the wrappers' falsy check as that id |
| `Store.StoreApiKey` | src/lib/api-helpers.ts:132-139 | the users table after issuance: the caller's row carries the new prefix, salt and time, every other row is unchanged |
| `Store.Database.SetApiKey` | src/lib/api-helpers.ts:132-139 | the users table becomes `StoreApiKey` of the old one, the links table is unchanged and ids stay unique |
| `Store.Database.Insert` | src/lib/short-url-helpers.ts:108-109 | the insert succeeds exactly when the id is free, appending the row; otherwise nothing changes |
| `Store.Database.Update` | src/lib/short-url-helpers.ts:156-167 | the update applies to the matching rows unless that would repeat an id, in which case nothing changes |
| `Store.Database.DeleteWhere` | src/lib/short-url-helpers.ts:216-218 | the table keeps exactly the rows not matching the condition, in order |
| `Store.WhereMember` | src/lib/short-url-helpers.ts:37 | a row is selected exactly when it is in the table and satisfies the condition |
| `ShortUrlHelpers.GetShortUrlsUnsafe` | src/lib/short-url-helpers.ts:36-38 | the listing holds exactly the rows whose owner is the caller |
| `ShortUrlHelpers.GetShortUrlsSessioned` | src/lib/short-url-helpers.ts:20-26 | no session throws 401; otherwise exactly the session user's rows |
| `ShortUrlHelpers.GetShortUrlsWithApiKey` | src/lib/short-url-helpers.ts:28-34 | a lookup error passes through, a falsy lookup throws 401, otherwise exactly the key owner's rows |
| `ShortUrlHelpers.UndecodableKeyAnswers500` | src/lib/api-helpers.ts:64-67 | through the funnel, a key with a known prefix that is not base64 is answered 500, not 401 |
| `ShortUrlHelpers.UnknownKeyAnswers401` | src/lib/api-helpers.ts:49-51 | through the funnel, a key whose prefix nobody holds is answered 401 'Unauthorized' |
| `ShortUrlHelpers.FirstBlocked` | src/lib/short-url-helpers.ts:75-76 | no entry matches exactly when the host contains none; otherwise the first entry the host contains |
| `ShortUrlHelpers.CreateShortUrlUnsafe` | src/lib/short-url-helpers.ts:61-118 | the outcome and the new table are those of `CreateOutcome`, the checks in the code's order, with the blocklist loop proved equal to the first matching entry |
| `ShortUrlHelpers.CreateRejectsMalformedUrl` | src/lib/short-url-helpers.ts:65-66 | an unparsable url throws an error that is not a `ShortUrlApiError` and changes nothing |
| `Text.StartsWith` | src/lib/short-url-helpers.ts:104 | `s.startsWith(p)` holds exactly when `p` is no longer than `s` and agrees with it character by character |
| `Text.Contains` | src/lib/short-url-helpers.ts:76-78 | `includes` and `LIKE '%p%'`: a prefix match is an occurrence, and an occurrence needs `p` no longer than `s` |
| `Text.ContainsIff` | src/lib/short-url-helpers.ts:76-78 | `includes` agrees with the positional definition: `p` occurs in `s` exactly when some slice of `s` equals `p` |
| `Text.SliceTo` | src/lib/api-helpers.ts:47 | `slice(0, n)` has length min(n, length) and is a prefix of the string |
| `Text.SplitJoin` | src/lib/api-helpers.ts:18 | `split(sep)` loses nothing: joining the pieces with `sep` gives the string back, and no piece contains `sep` |
| `Text.Utf16Length` | src/lib/short-url-helpers.ts:68 | `id.length` counts UTF-16 code units: at least one and at most two per character |
| `Text.Utf16LengthOfBmp` | src/lib/short-url-helpers.ts:68 | on text below U+10000 the length is the number of characters |
| `Text.Utf16LengthConcat` | src/lib/short-url-helpers.ts:68 | the length of a concatenation is the sum of the lengths |
| `Text.Utf16LengthCountsAstral` | src/lib/short-url-helpers.ts:68 | the length is the number of characters plus one for each character above U+FFFF |
| `Text.Utf16LengthOfAstral` | src/lib/short-url-helpers.ts:68 | text made only of characters above U+FFFF has length twice its character count |
| `Text.TwoAstralCharsHaveLengthFour` | src/lib/short-url-helpers.ts:68 | two characters above U+FFFF have length 4, so such an id passes the length check |
| `ShortUrlHelpers.CreateRejectsShortIdFirst` | src/lib/short-url-helpers.ts:68-73 | an id under 4 UTF-16 code units (JavaScript's `length`) fails 400 before the blocklist, even for a blocked host, and changes nothing |
| `ShortUrlHelpers.CreateBlockedPurges` | src/lib/short-url-helpers.ts:75-85 | a blocked host fails 406 whatever the click limit or id; unless the purge fails, exactly the rows of any owner whose url contains the first matching entry are gone |
| `ShortUrlHelpers.CreateValidatesAfterBlocklist` | src/lib/short-url-helpers.ts:87-106 | past the blocklist, a non-numeric click limit and then a leading underscore each fail 400 and change nothing |
| `ShortUrlHelpers.CreateRejectsTakenId` | src/lib/short-url-helpers.ts:108-117 | an id any row already holds, whoever owns it, fails 400 'Short URL already exists' and changes nothing |
| `ShortUrlHelpers.CreateFailuresLeaveTable` | src/lib/short-url-helpers.ts:61-117 | every failure other than the blocked host leaves the table unchanged |
| `ShortUrlHelpers.CreateInsertsOneRow` | src/lib/short-url-helpers.ts:91-110 | success appends exactly the returned row: the resolved, free id of at least 4 UTF-16 code units, the caller as owner, the parsed url's normalised text, both timestamps now |
| `ShortUrlHelpers.CreateKeepsIdsUnique` | src/lib/short-url-helpers.ts:108-113 | create keeps the ids of the table unique |
| `ShortUrlHelpers.CreateThenReadOnce` | src/lib/short-url-helpers.ts:36-37 | after a successful create, the caller's listing holds the new id exactly once, as the returned row |
| `ShortUrlHelpers.CreateShortUrlSessioned` | src/lib/short-url-helpers.ts:42-48 | no session throws 401 and changes nothing; otherwise the create for the session user |
| `ShortUrlHelpers.CreateShortUrlWithApiKey` | src/lib/short-url-helpers.ts:50-59 | a failed lookup throws and changes nothing; otherwise the create for the key owner |
| `ShortUrlHelpers.UpdateShortUrlUnsafe` | src/lib/short-url-helpers.ts:141-185 | the outcome and the new table are those of `UpdateOutcome` |
| `ShortUrlHelpers.UpdateRejectsUnderscore` | src/lib/short-url-helpers.ts:145-154 | a target id starting with `_` returns code '400' and changes nothing |
| `ShortUrlHelpers.UpdateTouchesOnlyOwnedRow` | src/lib/short-url-helpers.ts:156-167 | only the caller's row with that id changes: id to the sanitised target, title to title-or-null, url to the text as given, fresh `updatedAt`, every other column of that row unchanged; every other row is untouched |
| `ShortUrlHelpers.UpdateWithoutMatchIsNoOp` | src/lib/short-url-helpers.ts:165-167 | with no row matching (id, caller) the update reports 0 rows and changes nothing, even when another user owns the id |
| `ShortUrlHelpers.UpdateCollidesIffTargetTaken` | src/lib/short-url-helpers.ts:168-175 | with the caller's row matching, code '23505' is returned exactly when another row holds the new id, and then nothing changes; otherwise one row is reported updated |
| `ShortUrlHelpers.UpdateShortUrlSessioned` | src/lib/short-url-helpers.ts:122-128 | no session throws a plain 'Session not found' Error and changes nothing; otherwise the update for the session user |
| `ShortUrlHelpers.UpdateShortUrlWithApiKey` | src/lib/short-url-helpers.ts:130-139 | a failed lookup throws and changes nothing; otherwise the update for the key owner |
| `ShortUrlHelpers.DeleteShortUrlUnsafe` | src/lib/short-url-helpers.ts:205-219 | the outcome and the new table are those of `DeleteOutcome` |
| `ShortUrlHelpers.DeleteWithoutMatchIsNotFound` | src/lib/short-url-helpers.ts:206-215 | with no row matching (id, caller) it fails 404 'shortend url not found' and changes nothing, even when another user owns the id |
| `ShortUrlHelpers.DeleteRemovesExactlyOne` | src/lib/short-url-helpers.ts:216-218 | with the caller's row at position k, the table afterwards is exactly the old table without position k |
| `ShortUrlHelpers.DeleteKeepsOthersRows` | src/lib/short-url-helpers.ts:211-218 | no row of another owner is ever removed |
| `ShortUrlHelpers.DeleteShortUrlSessioned` | src/lib/short-url-helpers.ts:189-195 | no session throws 401 and changes nothing; otherwise the delete for the session user |
| `ShortUrlHelpers.DeleteShortUrlWithApiKey` | src/lib/short-url-helpers.ts:197-203 | a failed lookup throws and changes nothing; otherwise the delete for the key owner |
| `PublicUrlHelpers.GetPublicShortUrls` | src/lib/public-url-helpers.ts:9-20 | at most 100 `{id, url}` projections, each of an anonymous row; exactly min(100, anonymous rows) of them, each projection listed no more often than it occurs among the anonymous rows, and all anonymous rows when there are no more than 100 |
| `PublicUrlHelpers.CreatePublicShortUrl` | src/lib/public-url-helpers.ts:22-91 | the outcome and the new table are those of `PublicCreateOutcome`, with the blocklist loop proved equal to the first matching entry |
| `PublicUrlHelpers.PublicCreateRejectsMalformedUrl` | src/lib/public-url-helpers.ts:23-24 | with a non-empty blocklist, an unparsable url throws and changes nothing |
| `PublicUrlHelpers.PublicCreateStoresUnparsedUrl` | src/lib/public-url-helpers.ts:53-90 | with an empty blocklist, an unparsable url is stored as given after the expiry |
| `PublicUrlHelpers.PublicCreateBlockedPurges` | src/lib/public-url-helpers.ts:23-38 | a blocked host returns 406; unless the purge fails, exactly the rows of any owner whose url contains the first matching entry are gone, and there is no expiry or insert |
| `PublicUrlHelpers.PublicCreateExpiresOnlyOldAnonymous` | src/lib/public-url-helpers.ts:40-51 | past the blocklist, owned rows and anonymous rows less than 24 hours old survive whatever follows; unless the expiry fails, no older anonymous row is left |
| `PublicUrlHelpers.PublicCreateSpamCap` | src/lib/public-url-helpers.ts:53-71 | more than 100 anonymous rows for the host return 409 with nothing inserted; 100 or fewer let a free id be inserted |
| `PublicUrlHelpers.PublicCreateCountFailureProceeds` | src/lib/public-url-helpers.ts:72-74 | when the count fails, the insert is attempted whatever the host's count |
| `PublicUrlHelpers.PublicCreateInsertsOneRow` | src/lib/public-url-helpers.ts:76-90 | success appends exactly one anonymous row with the drawn, free id and the url as given, and returns `[{id, url}]` |
| `PublicUrlHelpers.PublicCreateKeepsIdsUnique` | src/lib/public-url-helpers.ts:76-88 | the public create keeps the ids of the table unique |
| `PublicUrlHelpers.PublicCreateThenListed` | src/lib/public-url-helpers.ts:16-17 | a public link just created is on the public listing while that holds no more than 100 anonymous rows |
| `AuthHelpers.GetShortUrlsSessioned` | src/lib/auth-helpers.ts:139-146 | no session throws the plain unauthorized object; otherwise exactly the session user's rows |
| `AuthHelpers.GetShortUrlsWithApiKey` | src/lib/auth-helpers.ts:148-155 | a lookup error passes through, a falsy lookup throws the plain unauthorized object, otherwise exactly the key owner's rows |
| `AuthHelpers.UnknownKeyAnswers500` | src/lib/auth-helpers.ts:149-152 | behind the api-helpers funnel, an unknown key through these helpers is answered 500, since the plain object is not a `ShortUrlApiError` |
| `AuthHelpers.CreateShortUrlSessioned` | src/lib/auth-helpers.ts:163-170 | no session throws the plain object and changes nothing; otherwise the shared create for the session user |
| `AuthHelpers.CreateShortUrlWithApiKey` | src/lib/auth-helpers.ts:172-181 | a failed lookup throws (the plain object when falsy) and changes nothing; otherwise the shared create for the key owner |
| `AuthHelpers.UpdateShortUrl` | src/lib/auth-helpers.ts:244-298 | no session throws 'Session not found' and changes nothing; otherwise the owner-scoped update with the underscore check |
| `AuthHelpers.DeleteShortUrl` | src/lib/auth-helpers.ts:302-309 | no session throws 'Session not found'; otherwise every row with that id is deleted, whoever owns it, and the count is returned |
| `AuthHelpers.DeleteRemovesOthersRow` | src/lib/auth-helpers.ts:308 | a row with that id owned by someone other than the signed-in user is deleted |
| `AuthHelpers.DeleteMissingIsSilent` | src/lib/auth-helpers.ts:308 | an id nobody holds deletes nothing and signals nothing |
| `AuthHelpers.DeleteRemovesExactlyOne` | src/lib/auth-helpers.ts:308 | with unique ids, exactly the row holding the id is removed and the count is 1 |

## Left out

- AES-GCM (NIST SP 800-38D), UTF-8 `TextEncoder`/`TextDecoder` and `btoa`/`atob` (section 4 of RFC 4648) are abstract functions. Their round trips are assumed only where a lemma names them. Tamper resistance is not modelled.
- `sanitize` and `nanoid` from `@/lib/utils` are not part of this model. `sanitize` is an abstract function. The `nanoid` draws are parameters, with no alphabet, length or uniqueness assumed.
- `new URL(text)` (WHATWG URL Standard) is an abstract partial function that yields a host and a serialised string.
- SQL `LIKE '%p%'` is substring containment. `%` and `_` inside a blocklist entry or a host are taken literally.
- `isNaN` on a click limit is an abstract `numericText` test on string values. JSON numbers never count as NaN.
- The blocklists (`@/lib/blocked-urls`, `@/url-center/blocked`) are not part of this model. They are a parameter.
- Database failures other than unique_violation are left out. These are the `ShortUrlApiError(500, error.message)` of the owned create and the code '500' object of the update. The swallowed failures of the purges, the expiry and the count are boolean parameters.
- An update that collides is modelled as the unique-id check of the whole table. The driver's errors other than 23505 are not modelled.
- ShortUrlHelpers.UpdateShortUrlUnsafe: the driver's update result is reduced to the number of rows that matched.
- AuthHelpers.DeleteShortUrl: the driver's delete result is reduced to the number of rows deleted.
- PublicUrlHelpers.GetPublicShortUrls: takes the first 100 anonymous rows in table order. Postgres gives no order without `ORDER BY` and may return any 100.
- PublicUrlHelpers.CreatePublicShortUrl: the inserted row leaves the columns the code does not set as none. Column defaults of the schema are not part of this model.
- The session is the signed-in user's id. Next-auth, its JWT callbacks and `getServerSession` are not modelled.
- The environment validation of `src/lib/env.ts` and the route glue of `src/app/api/v1/route.ts` are not part of this model. That route has its own copy of `withApiKey` with a different `ShortUrlApiError` import.
- The `ShortUrlApiError` of `src/lib/auth-helpers.ts` is taken to be the class of `src/lib/short-url-types.ts`. As written the import is unresolved: TypeScript rejects it, and at run time `new ShortUrlApiError(...)` in the older create would throw a TypeError instead of the coded error.
- ApiHelpers.GetUserIdForApiKey: `user[0]` of a select without `ORDER BY` is modelled as the first matching user in table order. Postgres may return any matching row first.
- A click limit that is a JSON boolean, object or array is not modelled. `isNaN({})` is true, so the source answers such a limit with 400 'Click limit is not a number'. `ClickLimit` only has null, number and string cases.
- Text.SliceTo: `slice(0, 32)` of a key is modelled on characters, not UTF-16 code units. A stored prefix is ASCII base64 text, so under either count a presented key matches it exactly when the key starts with that text.
- `console.log`, concurrency and races on ids are left out. The store is sequential.
- Timestamps are integer seconds, and the application clock and the database clock are the same `now`.

## Findings

| source | as written | input that shows it | evidently intended | confidence | as-written member | corrected member |
|---|---|---|---|---|---|---|
| src/lib/auth-helpers.ts:302-309 | `deleteShortUrl` checks that a session exists, then deletes `where(eq(shortUrls.id, id))` with no owner condition | a table holding row `abcd` owned by user B; user A, signed in, calls `deleteShortUrl({ id: 'abcd' })` and B's row is deleted | delete only a row the signed-in user owns, as `deleteShortUrlUnsafe` in src/lib/short-url-helpers.ts:205-219 does | high that the code behaves so; medium that it is unintended; not executed | `AuthHelpers.DeleteRemovesOthersRow` | `ShortUrlHelpers.DeleteKeepsOthersRows` |
