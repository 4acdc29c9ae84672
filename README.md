# Journal API routes: a verified model

The journal app has two API routes, and this project models their server-side logic in Dafny:

- **Posts route.** `GET` lists posts and `POST` creates one. Both look for the platform bindings with `getCloudflareRuntime`: a relational database handle (`DB`, Cloudflare D1) and a blob store handle (`STORAGE`, Cloudflare R2). With a database the handlers defer to it. Without one, posts live in a process-wide store: a list `__posts` and a counter `__nextId`.
  - A create passes a fixed pipeline: cookie check, form read, required fields, image reference, then the database insert or an append to the store.
  - An image becomes either a URL on the site's own image endpoint or an inline `data:` URL.
  - A list returns the database rows or a stably sorted copy of the store, newest first. Some database errors mean the table is missing and list as empty.
- **Auth route.** `POST /api/auth` picks the expected secret by first-truthy fallback. It compares the trimmed password with the trimmed secret. On a match it sets the session cookie whose value the posts route demands.

Modules, one per file:

| module | file | what it holds |
|---|---|---|
| `Common` | common.dfy | Option/Result, octets, `includes`/`indexOf`/`lastIndexOf`, first-truthy selection, decimal rendering of a number |
| `Base64` | base64.dfy | the base64 encoder of section 4 of RFC 4648, a reference decoder and the round trip |
| `Api` | api.dfy | the post record and the JSON responses |
| `Bindings` | bindings.dfy | `getCloudflareRuntime` |
| `Images` | images.dfy | the file-name sanitiser, the blob key, the image URL and the `data:` URL of section 3 of RFC 2397 |
| `Posts` | posts.dfy | listing, error classification, the create pipeline and the fallback store (`class Store`) |
| `JsString` | jsstring.dfy | `String.prototype.trim` with the ECMAScript white-space and line-terminator set |
| `Auth` | auth.dfy | secret selection, login, the `Set-Cookie` header and its cookie-pair |
| `Journal` | journal.dfy | the two routes used together: log in, post, list |

Modelling choices:

- **State.** The fallback store is a class. Its fields `posts: seq<Post>` and `nextId: nat` stand for `__posts` and `__nextId`. `Create` appends and bumps the counter in place. `List` reads the store but does not change it.
- **Binding lookup.** `getCloudflareRuntime` updates `db` and `storage` place by place. It is modelled as a method with the same probe sequence, and it is proved equal to a first-found specification function, `Located`.
- **Outside services and the clock.** The outcomes of the database and blob-store calls are parameters, and so are both clock reads (`new Date()` and `Date.now()`).
- **JavaScript truthiness.** A missing or falsy value is `None`. For strings, `Truthy` also maps the empty string to `None`.
- **Timestamps** are milliseconds since the epoch (`Instant`). This is the value `new Date(created_at).getTime()` gives for the ISO strings the store holds, so the list sort compares these numbers.

In the source, the comment at app/api/posts/route.ts:58 says the request context is tried "first". The code tries it second, after `process.env`. The model follows the code (`Bindings.RequestEnvTriedSecond`).

A configured secret made only of white space trims to the empty string. A login without any password then succeeds (`Auth.BlankSecretAdmitsMissingPassword`).

## Model

| member | source | states |
|---|---|---|
| Common.Contains | app/api/posts/route.ts:145 | `includes` is true exactly when the searched text occurs at some position of the message |
| Common.FirstSome | app/api/auth/route.ts:12-16 | an `a \|\| b \|\| c` chain is absent exactly when every candidate is; otherwise it is the first present candidate, and every earlier one is absent |
| Common.Truthy | app/api/auth/route.ts:13-15 | a string value counts as present exactly when it is given and not empty, and then it is unchanged |
| Common.DecimalString | app/api/posts/route.ts:215 | a number in a template string renders as digits only, with no leading zero, and the digits read back as the number |
| Base64.Encode | app/api/posts/route.ts:228-229 | the base64 text of n octets has 4·⌈n/3⌉ characters, all from the alphabet or the pad |
| Base64.DecodeGroup | app/api/posts/route.ts:229 | one encoded 3-octet group in front of a decodable text decodes to those octets in front of the text's octets |
| Base64.DecodeEncode | app/api/posts/route.ts:228-229 | decoding the base64 text of any octets gives those octets back |
| Bindings.Located | app/api/posts/route.ts:54-93 | which bindings `getCloudflareRuntime` finds; its properties are stated by `LocatedNullIff`, `LocatedFirstFound`, `LocatedIndependently`, `RequestEnvTriedSecond` and `RequestEnvHidesCfEnv`, and `GetCloudflareRuntime` is proved equal to it |
| Bindings.GetCloudflareRuntime | app/api/posts/route.ts:35-122 | the step-by-step probe returns exactly the first-found resolution `Located` that the lemmas below characterise |
| Bindings.LocatedNullIff | app/api/posts/route.ts:81-121 | the result is `null` exactly when no place holds either binding |
| Bindings.LocatedFirstFound | app/api/posts/route.ts:54-78 | each binding found is the first present one in the order process.env, request env, globalThis.ENV, __CF_RUNTIME.env; it is missing exactly when all four lack it |
| Bindings.LocatedIndependently | app/api/posts/route.ts:54-78 | DB and STORAGE are resolved independently: each depends only on its own candidates |
| Bindings.RequestEnvTriedSecond | app/api/posts/route.ts:58-62 | when process.env lacks DB and the request env has it, the request env's DB is used, ahead of globalThis.ENV and __CF_RUNTIME.env |
| Bindings.RequestEnvHidesCfEnv | app/api/posts/route.ts:50 | a request `env` object hides `request.cf.env`, even when it lacks DB |
| Images.Sanitize | app/api/posts/route.ts:215 | same length; every `[a-zA-Z0-9.-]` character stays in place; every other character becomes `_` |
| Images.SanitizedCharacters | app/api/posts/route.ts:215 | a sanitised name holds only kept characters and `_`, so no `/` |
| Images.SanitizeIdempotent | app/api/posts/route.ts:215 | sanitising twice is sanitising once |
| Images.SanitizeKeepsSafeNames | app/api/posts/route.ts:215 | a name made of kept characters only is unchanged |
| Images.DashJoinParts | app/api/posts/route.ts:215 | `d-n` splits back at its first dash when `d` has none, and holds no `/` when neither part does |
| Images.ImageKey | app/api/posts/route.ts:215 | the blob key `${Date.now()}-${sanitised name}`; `ImageKeyParts` states that it splits back into the time and the sanitised name and holds no `/` |
| Images.ImageKeyParts | app/api/posts/route.ts:215 | the blob key splits at its first dash into the upload time (which parses back) and the sanitised name, and holds no `/` |
| Images.ImageUrl | app/api/posts/route.ts:221-222 | the URL of a stored image on the site's own endpoint; `ImageUrlLastSegment` states its prefix and that its last path segment is the key |
| Images.ImageUrlLastSegment | app/api/posts/route.ts:221-222 | the URL is `origin + "/api/images/"` followed by the key, and its last path segment is exactly the key |
| Images.DataUrl | app/api/posts/route.ts:228-230 | the inline `data:<type>;base64,<payload>` URL; `DataUrlRoundTrip` states that it parses back to the type and the octets |
| Images.ParseDataUrlOf | app/api/posts/route.ts:230 | a `data:<type>;base64,<payload>` URL with a comma-free payload parses back to the type (commas included) and the payload's octets |
| Images.DataUrlRoundTrip | app/api/posts/route.ts:228-230 | the inline image URL parses back to the image's media type and octets |
| Images.ImageReference | app/api/posts/route.ts:206-232 | the image reference of a new post, or the error its upload throws; `ImageReferenceResolves` states when each case happens and that every reference resolves to the image |
| Images.ImageReferenceResolves | app/api/posts/route.ts:206-232 | no reference exactly when no non-empty image is given; failure exactly when a blob store upload throws; with a store, the URL's last segment is the key of this upload; without one, the data URL decodes to the image |
| Posts.ErrorDetailsOnlyInDevelopment | app/api/posts/route.ts:287-301 | every 500 of either handler comes from a caught error (the list handler's at lines 161-175 too): it has the handler's fixed error text and no cookie, and its details are the caught error's message in development and absent otherwise |
| Posts.SortNewestFirst | app/api/posts/route.ts:157-159 | the stable newest-first sort of the store's copy; `SortNewestFirstCorrect` states that it is ordered, a permutation and stable |
| Posts.CreatedAtAppend | app/api/posts/route.ts:157-159 | the posts created at one time in a concatenation are those of each part, in order |
| Posts.InsertByTimeKeepsOrder | app/api/posts/route.ts:157-159 | inserting into a newest-first list keeps it newest first and one longer |
| Posts.InsertByTimePermutes | app/api/posts/route.ts:157-159 | inserting adds exactly the new post to the multiset |
| Posts.InsertByTimeCreatedAt | app/api/posts/route.ts:157-159 | the inserted post goes before every post with the same creation time |
| Posts.SortNewestFirstCorrect | app/api/posts/route.ts:155-160 | the sorted copy is newest first and a permutation of the store, and posts with equal creation times keep their store order (stable) |
| Posts.ListResponse | app/api/posts/route.ts:124-177 | the list handler; `FallbackListing`, `ListErrorClassification` and `ErrorDetailsOnlyInDevelopment` state its answers |
| Posts.IsMissingTable | app/api/posts/route.ts:145 | a query error that means the table is missing; `ListErrorClassification` states that it holds exactly when the message contains "no such table" or "does not exist" |
| Posts.FallbackListing | app/api/posts/route.ts:153-160 | without a database, GET answers 200 with a newest-first, stable permutation of the store; an empty store lists as empty |
| Posts.ListErrorClassification | app/api/posts/route.ts:145-149 | a database error whose message contains "no such table" or "does not exist" lists as empty; any other is a 500 "Failed to fetch posts" |
| Posts.DecideCreate | app/api/posts/route.ts:179-303 | the create handler's decision; `CreateRejectsUnauthorized`, `CreateRequiresFields`, `CreateNeedsImageFirst`, `CreateAppendsToStore` and `ErrorDetailsOnlyInDevelopment` state it, and `Store.Create` carries it out |
| Posts.InsertResponse | app/api/posts/route.ts:234-266 | the answer on the database path: 201 with the row read back, otherwise a caught error, as `ErrorDetailsOnlyInDevelopment` states |
| Posts.CreateRejectsUnauthorized | app/api/posts/route.ts:182-190 | without a cookie valued exactly "authenticated" the answer is 401 "Unauthorized", whatever the form holds or whether it can be read |
| Posts.CreateRequiresFields | app/api/posts/route.ts:193-202 | the answer is 400 exactly when the title or content is missing or empty; white-space-only values pass |
| Posts.CreateNeedsImageFirst | app/api/posts/route.ts:209-218 | a failed image upload is a 500 and no post is written |
| Posts.CreateAppendsToStore | app/api/posts/route.ts:269-286 | without a database, a valid request appends a post with the next id, the given title and content, both timestamps `now`, and the upload's image reference |
| Posts.SequentialIdsDistinct | app/api/posts/route.ts:271-282 | ids numbered 1..n in insertion order are pairwise distinct and all below the next id |
| Posts.AppendKeepsIdsSequential | app/api/posts/route.ts:271-282 | appending a post that takes the next id keeps the numbering 1..n+1 |
| Posts.Store.constructor | app/api/posts/route.ts:25-30 | the store starts as `[]` with next id 1 and is consistent |
| Posts.Store.Create | app/api/posts/route.ts:179-303 | keeps the store consistent; every reply other than an append leaves posts and counter unchanged; an append gives the new post the old counter, adds it at the end, keeps every earlier post, bumps the counter by one and answers 201 with the post |
| Posts.Store.List | app/api/posts/route.ts:124-177 | answers the list response for the store as it is, leaving it unchanged |
| JsString.SkipForward | app/api/auth/route.ts:27-28 | stops at the first non-white-space character at or after the start, having skipped only white space |
| JsString.SkipBackward | app/api/auth/route.ts:27-28 | stops after the last non-white-space character, having dropped only white space |
| JsString.Trim | app/api/auth/route.ts:27-28 | a trimmed string is empty or begins and ends with a non-white-space character |
| JsString.TrimSplits | app/api/auth/route.ts:27-28 | every string is leading white space, its trimmed core and trailing white space, in that order |
| JsString.TrimOfBlank | app/api/auth/route.ts:27-28 | a white-space-only string trims to "" |
| JsString.TrimOfPadded | app/api/auth/route.ts:27-28 | any white space around a core that starts and ends with non-white-space trims away to that core |
| JsString.TrimIgnoresPadding | app/api/auth/route.ts:27-28 | adding white space at either end never changes what a string trims to |
| Auth.ExpectedSecret | app/api/auth/route.ts:12-16 | the secret the password is compared with; `ExpectedSecretChoice` states which source it comes from |
| Auth.ExpectedSecretChoice | app/api/auth/route.ts:12-16 | the secret is the first non-empty of process.env, globalThis and request.env ADMIN_PASSWORD, else "admin123"; it is never empty |
| Auth.MaxAgeRendering | app/api/auth/route.ts:50-52 | seven days are 604800 seconds and render as "604800" |
| Auth.SessionCookie | app/api/auth/route.ts:50-52 | the `Set-Cookie` value of a login; `SessionCookieExact` states the header and `SessionCookieAdmitsWrites` its cookie-pair |
| Auth.SessionCookieExact | app/api/auth/route.ts:50-53 | the header is `auth=authenticated; Path=/; HttpOnly; SameSite=Lax; Max-Age=604800`, followed by `; Secure` exactly when asked |
| Auth.CookiePairOfHeader | app/api/auth/route.ts:52 | a header starting `name=value;` has that name and value as the cookie-pair a user agent reads from it (section 5.2 of RFC 6265) |
| Auth.SessionCookieAdmitsWrites | app/api/auth/route.ts:52 | the session cookie is named `auth` and its value is exactly the one the posts route admits |
| Auth.Login | app/api/auth/route.ts:5-68 | the login handler; `LoginDecision`, `LoginErrors`, the padding lemmas and `LoginAdmitsWrites` state its answers |
| Auth.AuthError | app/api/auth/route.ts:59-66 | a caught error's answer; `LoginErrors` states its status, text and details |
| Auth.LoginDecision | app/api/auth/route.ts:26-58 | login succeeds exactly when the trimmed password equals the trimmed secret (a missing password counts as ""): then 200 `{success:true}` with the cookie, Secure exactly in production; otherwise 401 "Invalid password" and no cookie |
| Auth.LoginIgnoresPasswordPadding | app/api/auth/route.ts:27-36 | white space around the submitted password never changes the response |
| Auth.LoginIgnoresSecretPadding | app/api/auth/route.ts:28-36 | white space around the configured secret never changes the response |
| Auth.LoginErrors | app/api/auth/route.ts:59-66 | an unreadable body or a non-string password is a 500 "Authentication failed" with the error message, or "Unknown error", as details, and no cookie |
| Auth.LoginAdmitsWrites | app/api/auth/route.ts:39-55 | every successful login sets a cookie whose pair is `auth` and the value the create path admits |
| Auth.BlankSecretAdmitsMissingPassword | app/api/auth/route.ts:27-36 | with a white-space-only secret, a request without a password logs in |
| Journal.UnconfiguredLocatesNothing | app/api/posts/route.ts:81-121 | with nothing configured, no binding is found |
| Journal.DefaultSecretAccepted | app/api/auth/route.ts:12-36 | with nothing configured, "admin123" padded with spaces logs in |
| Journal.HelloWorldAppended | app/api/posts/route.ts:269-279 | an authorised "Hello"/"World" post without an image, with nothing configured, is appended with id 1 |
| Journal.SingleListing | app/api/posts/route.ts:155-160 | a store of one post lists as that post |
| Journal.FirstPost | app/api/posts/route.ts:271-286 | on a fresh store, logging in, posting with the cookie's value and listing gives 200, then 201 with post 1, then exactly that post |

## Left out

- Logging, including the once-only `__bindingCheckLogged` flag. It affects only console output.
- The database and blob store themselves. The D1 queries and the R2 `put` are foreign services, so their outcomes are parameters (`QueryOutcome`, `InsertOutcome`, `PutOutcome`). SQL semantics, id assignment by the database and the database's `ORDER BY` are not modelled; database rows are passed through as given.
- Clock reads. `new Date().toISOString()` and `Date.now()` are parameters.
- ISO-8601 text. Timestamps are milliseconds, so the ISO rendering of `created_at` and `Date` parsing (including `NaN` for a malformed date) are not modelled.
- Request framework glue. Multipart form parsing, JSON body parsing, `arrayBuffer()` and building `NextResponse` objects are not modelled; the `Content-Type` header is not part of `Response`. A failed form read is an input (`CreateRequest.form`).
- Values of unexpected types. A title or content field holding a `File` is not modelled, and neither is a non-string `globalThis.ADMIN_PASSWORD`.
- Concurrency. Concurrent requests racing on `__nextId` are not modelled, because the model is sequential.
- The image-serving endpoint, the clear-posts script, lib/cloudflare.ts, lib/db.ts (beyond the shape of `Post`), next.config.js and the React pages. scripts/clear-posts.ts is not part of this model.
- Posts.Store.Create: it states `created_at` and `updated_at` as one `Instant`, not as the ISO string the source stores.
- Auth.SessionCookieExact: it states the header through the named constants `CookieName`, `Posts.AuthSentinel` and `SessionAttributes`, whose definitions spell out the literal, rather than as one string literal.
- Base64.DecodeEncode: the decoder is a reference decoder written for the round trip. The source only encodes.
- Images.Sanitize: file names are sequences of Unicode code points, not UTF-16 code units. The source's regex has no `u` flag, so it replaces each code unit on its own: a character outside the Basic Multilingual Plane becomes `__` there and `_` here, and the blob key and image URL differ to match.
- Auth.CookiePair: it does not strip the white space that section 5.2 of RFC 6265 removes around the name and the value; the session cookie has none there.
- JsString.Trim: characters are Dafny `char` values, not UTF-16 code units. Surrogate pairs are not modelled; no trimmed character is one.
