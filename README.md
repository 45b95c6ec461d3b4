# painel-zap in Dafny

painel-zap is a small HTTP service. It maps a web domain, normalised, to the
WhatsApp number that landing pages on that domain should show.

- Anyone can look a number up with `GET /api/zap?domain=...`.
- An administrator who presents the shared secret in the `x-admin-secret` header can:
  - set a domain's number with `POST /admin/save-zap`;
  - remove it with `DELETE /admin/delete-zap`.
- The numbers are kept in the `zap_configs` document collection, one `ZapConfig` document per domain.
- The repository also has a second admin guard, `requireAdmin`, which checks a Bearer token. The server does not mount it.

This project models that core and proves properties of the model.

- `wrappers.dfy`: `Option` and `Result`.
- `js_string.dfy` (module `JsString`): the JavaScript string operations the normalisers use, over `seq<char>`:
  - `String(x || "")` on an optional string;
  - `toLowerCase` on ASCII letters;
  - `trim` with the ECMAScript white-space set;
  - removing an anchored literal prefix, as `replace(/^p/, "")` does;
  - `split` on one character, specified through its inverse `join` (which the service itself does not call).
- `domain.dfy` (module `Domain`): `normalizeDomain`. Its lemmas cover:
  - which inputs it leaves unchanged (exactly the canonical domains);
  - how it treats URLs;
  - why it is not idempotent.
- `phone.dfy` (module `Phone`): `normalizePhone`, and the digit string it keeps.
- `http.dfy` (module `Http`): responses (status and JSON body) and the decision a middleware makes (`Next`, or a rejection).
- `middlewares.dfy` (module `Middlewares`):
  - `adminAuth`;
  - `requireAdmin`, with JWT verification passed in as a predicate.
- `models.dfy` (module `Models`):
  - the `ZapConfig` schema, with its required `domain` and its defaults;
  - the collection as a map keyed by the unique `domain`, with the invariant that every document is filed under its own non-empty domain;
  - the class `ZapConfigs`, whose `findOne`, `findOneAndUpdate` and `deleteOne` change that map in place.
- `server.dfy` (module `Server`), for each route:
  - a specification function from the collection and the request to the response and the new collection;
  - a handler method that calls the store as the route does, proved to follow that function;
  - lemmas about lookups after saves and deletes, about store failures and about the admin guard.

Whether the database answers is a parameter (`Connection`). A failing store
call writes nothing and makes the route answer 500. The time a save writes
into `updatedAt` is also a parameter.

## Model

| member | source | states |
|---|---|---|
| JsString.IsWhitespace | src/server.js:25 | the characters `trim` removes (ECMAScript WhiteSpace and LineTerminator); specified through TrimStartSpec, TrimEndSpec and TrimSpec |
| JsString.Coerce | src/server.js:23 | an absent field becomes `""`; a string is kept as it is |
| JsString.LowerChar | src/server.js:24 | the result is never an upper-case letter; an upper-case letter becomes its lower-case letter (code point plus 32); anything else is kept |
| JsString.ToLowerCase | src/server.js:24 | lower-casing keeps the length |
| JsString.ToLowerCaseAt | src/server.js:24 | lower-casing works character by character |
| JsString.ToLowerCaseSpec | src/server.js:24 | the result has no upper-case letter; non-upper-case characters are kept; upper-case letters move down by 32 |
| JsString.ToLowerCaseNoUpper | src/server.js:24 | a string without upper-case letters is unchanged |
| JsString.ToLowerCaseConcat | src/server.js:24 | lower-casing distributes over concatenation |
| JsString.ToLowerCaseIdempotent | src/server.js:24 | lower-casing twice is the same as lower-casing once |
| JsString.TrimStart | src/server.js:25 | the result is a suffix of the input |
| JsString.TrimStartSpec | src/server.js:25 | everything dropped at the front is white space, and the result does not start with white space |
| JsString.TrimEnd | src/server.js:25 | the result is a prefix of the input |
| JsString.TrimEndSpec | src/server.js:25 | everything dropped at the back is white space, and the result does not end with white space |
| JsString.Trim | src/server.js:25 | trimming never lengthens |
| JsString.TrimSpec | src/server.js:25 | `trim` gives a contiguous slice of the input, and everything around that slice is white space |
| JsString.TrimEnds | src/server.js:25 | a trimmed string is empty or has no white space at either end |
| JsString.TrimClean | src/server.js:25 | trimming a string with no white space at its ends changes nothing |
| JsString.TrimSameLength | src/server.js:25 | trimming keeps the length only when it changes nothing |
| JsString.NoUpperTrim | src/server.js:24-25 | trimming keeps a lower-case string lower-case |
| JsString.TrimStartFrom | src/server.js:25 | nothing is trimmed in front of a string that starts with a non-white-space character |
| JsString.TrimEndAfter | src/server.js:25 | trailing white space is looked for only after the last non-white-space character |
| JsString.TrimStartAppend | src/server.js:25 | how trimming the front interacts with appending one character |
| JsString.TrimAppendWhitespace | src/server.js:25 | trimming ignores one extra white-space character at the end |
| JsString.StartsWith | src/middlewares/requireAdmin.js:7 | `startsWith`: `p` is a prefix of `s`; used by StripPrefix, StripScheme and RequireAdmin, whose contracts state what follows from it |
| JsString.StripPrefix | src/server.js:27 | with the prefix present, prefix plus result gives back the input; otherwise the input is unchanged |
| JsString.NoUpperStripPrefix | src/server.js:27 | removing a prefix keeps a string lower-case |
| JsString.Split | src/server.js:28 | there is always at least one part, and no part contains the separator |
| JsString.SplitFirstSpec | src/server.js:28 | the first part is a prefix that stops right before a separator or at the end; there is one part exactly when the separator does not occur |
| JsString.SplitFirst | src/server.js:28 | the first part is the text before the first separator |
| JsString.SplitNoSeparator | src/server.js:28 | a string without the separator splits into itself alone |
| JsString.Join | src/server.js:28 | `join` on one character; not called by the service, it is the inverse by which JoinSplit pins down Split |
| JsString.JoinSplit | src/server.js:28 | joining the parts with the separator gives back the string |
| JsString.SplitAfterWord | src/middlewares/requireAdmin.js:11 | splitting a separator-free word, a separator and a tail gives the word followed by the tail's parts |
| Domain.HostAndPath | src/server.js:23-27 | the steps before the cut at `/`; specified by NoUpperHostAndPath, CanonicalHostAndPath and, on URLs, CutTrimmedUrl and LowerTrimUrl |
| Domain.NormalizeDomain | src/server.js:22-29 | `normalizeDomain`; specified by NormalizeDomainEmpty, NormalizeDomainShape, NormalizeDomainFixedPoint, NormalizeDomainOfUrl, NormalizeDomainIgnoresCase, NormalizeDomainIgnoresLeadingWhitespace, NormalizeDomainIgnoresTrailingWhitespace and NormalizeDomainNotIdempotent |
| Domain.StripScheme | src/server.js:26 | removes exactly one leading `http://` or `https://`, and nothing when neither is present |
| Domain.NormalizeDomainEmpty | src/server.js:23 | an absent or empty field normalises to `""` |
| Domain.NormalizeDomainShape | src/server.js:24-28 | the result has no `/` and no upper-case letter, and is a prefix of the lower-cased, trimmed string with the scheme and `www.` removed |
| Domain.NoUpperHostAndPath | src/server.js:24-27 | no upper-case letter survives lower-casing, trimming and prefix removal |
| Domain.NoUpperStripScheme | src/server.js:26 | removing the scheme keeps a string lower-case |
| Domain.NormalizeDomainFixedPoint | src/server.js:22-29 | the domains left unchanged are exactly the canonical ones: lower-case, no white space at either end, no scheme, no `www.`, no `/` |
| Domain.CanonicalIsFixed | src/server.js:22-29 | a canonical domain normalises to itself |
| Domain.CanonicalHostAndPath | src/server.js:24-27 | no step before the cut at `/` changes a canonical domain |
| Domain.FixedIsCanonical | src/server.js:22-29 | a domain that normalises to itself is canonical |
| Domain.NormalizeDomainIgnoresCase | src/server.js:22-29 | the result does not depend on the input's letter case |
| Domain.NormalizeDomainIgnoresTrailingWhitespace | src/server.js:22-29 | one more white-space character at the end never changes the result |
| Domain.NormalizeDomainIgnoresLeadingWhitespace | src/server.js:22-29 | one more white-space character at the start never changes the result: trimming comes before the scheme and `www.` are stripped |
| Domain.LowerTrimUrl | src/server.js:24-25 | on a lower-case start followed by a path, lower-casing and trimming keep the start and trim only the path |
| Domain.SchemeNotInHost | src/server.js:26 | a string whose first `/` comes right after the host starts with a prefix whose first `/` is at index `k` only if the host is exactly the prefix's first `k` characters |
| Domain.StripSchemeUrl | src/server.js:26 | the scheme in front of a host is removed, and with no scheme in front every host except `http:` and `https:` is kept |
| Domain.StripWwwUrl | src/server.js:27 | removing `www.` from a host followed by a path touches only the host |
| Domain.CutUrl | src/server.js:28 | cutting at the first `/` keeps exactly the host |
| Domain.CutTrimmedUrl | src/server.js:26-28 | after lower-casing and trimming, a URL loses its scheme, one `www.` and the path |
| Domain.NormalizeDomainOfUrl | src/server.js:22-29 | for a non-empty, lower-case host without `/` (with no white space at its start when there is no scheme, and none at its end when there is no path), `scheme + host + path` normalises to the host without one leading `www.`, whatever the path; among such hosts only `http:` and `https:` are excluded when there is no scheme. Other spellings are covered by NormalizeDomainIgnoresCase, NormalizeDomainIgnoresLeadingWhitespace and NormalizeDomainIgnoresTrailingWhitespace |
| Domain.NormalizeDomainOfHost | src/server.js:22-29 | a non-empty, lower-case host without `/` and without white space at its start (and at its end when there is no path), other than `http:` and `https:`, followed by any path, normalises to the host without one leading `www.` |
| Domain.NormalizeDomainSchemeLikeHost | src/server.js:26 | the excluded host `http:` followed by the path `//h` reads as a scheme: the result is `h` without its `www.` |
| Domain.NormalizeDomainStripsOneWww | src/server.js:27 | one `www.` in front of a canonical domain is removed; of two, the second survives |
| Domain.WwwHost | src/server.js:27 | `www.` in front of a lower-case host without `/` or trailing white space is removed |
| Domain.NormalizeDomainSpaceBeforePath | src/server.js:25-28 | white space between the domain and the path survives one pass and is removed by a second pass |
| Domain.NormalizeDomainNotIdempotent | src/server.js:22-29 | `"www.www.a.com"` → `"www.a.com"` → `"a.com"`, and `"a.com /x"` → `"a.com "` → `"a.com"` |
| Domain.NormalizeDomainExample | src/server.js:22-29 | `"HTTPS://WWW.Example.com/path"` normalises to `"example.com"` |
| Phone.Digits | src/server.js:32 | the result is made of digits only and is no longer than the input |
| Phone.DigitsOfDigits | src/server.js:32 | a string of digits is kept whole |
| Phone.DigitsSubsequence | src/server.js:32 | the digits are kept in their original order |
| Phone.DigitsCount | src/server.js:32 | every digit is kept as many times as it occurs, and no other character is kept |
| Phone.DigitsConcat | src/server.js:32 | the digits of a concatenation are the concatenation of the digits |
| Phone.NormalizePhone | src/server.js:31-33 | `normalizePhone`; specified by NormalizePhoneSpec and NormalizePhoneExample |
| Phone.NormalizePhoneSpec | src/server.js:31-33 | the result is digits only, no longer than the input, and the input's digits in order and with their counts; normalising again changes nothing |
| Phone.NormalizePhoneExample | src/server.js:31-33 | `"(11) 98888-7777"` normalises to `"11988887777"` |
| Middlewares.AdminAuth | src/middlewares/adminAuth.js:1-7 | the result is `Next` or 401 `unauthorized`. It rejects a missing header, an empty header, an unset `ADMIN_SECRET` and any header that differs from it. It passes a non-empty header equal to `ADMIN_SECRET` |
| Middlewares.BearerToken | src/middlewares/requireAdmin.js:11 | the token has no space, is a prefix of the text after `"Bearer "`, and is followed by a space or the end of the header |
| Middlewares.BearerSplit | src/middlewares/requireAdmin.js:11 | a header with the prefix splits into `"Bearer"` and the parts of the rest, so element 1 is the first part of the rest |
| Middlewares.BearerTokenOf | src/middlewares/requireAdmin.js:11 | for a space-free `token`, the token of `"Bearer " + token + " " + rest` is `token`, whatever `rest` holds |
| Middlewares.BearerTokenExamples | src/middlewares/requireAdmin.js:11 | `"Bearer  x"` gives the token `""`; `"Bearer a b"` gives `"a"` |
| Middlewares.RequireAdmin | src/middlewares/requireAdmin.js:3-20 | a missing header, or one without the exact prefix `"Bearer "`, gives 401 `Não autorizado`. Otherwise the result is `Next` exactly when the token verifies against `JWT_SECRET`, and 401 `Token inválido ou expirado` when it does not |
| Middlewares.RequireAdminMessagesDiffer | src/middlewares/requireAdmin.js:8-18 | the two rejections are different responses |
| Models.NewZapConfig | src/models/ZapConfig.js:3-7 | creation succeeds exactly when `domain` is present and non-empty, and keeps it; `numero` defaults to `""`; `updatedAt` defaults to the creation time |
| Models.TableValid | src/models/ZapConfig.js:4 | every document is filed under its own `domain`, which is non-empty; kept by UpsertSpec, RemoveSpec and the store methods, with TableValidUnique stating what it means |
| Models.TableValidUnique | src/models/ZapConfig.js:4 | in a valid collection a domain has at most one document, the one filed under it, and no document has the empty domain |
| Models.Find | src/server.js:41 | a document is found exactly when one is filed under the domain |
| Models.FindByField | src/server.js:41 | the lookup by key finds exactly the document whose `domain` field matches |
| Models.Upsert | src/server.js:57-61 | the map after `findOneAndUpdate` with `upsert: true`; specified by UpsertSpec and UpsertEmptyDomain |
| Models.UpsertSpec | src/server.js:57-61 | for a non-empty domain: validity is kept; the domain holds the new number and time; a document is added only when none was there; every other domain is unchanged |
| Models.UpsertEmptyDomain | src/server.js:55-61 | unguarded, an upsert of the empty domain would break validity, which is why the route checks first |
| Models.Remove | src/server.js:76 | the map after `deleteOne`; specified by RemoveSpec |
| Models.RemoveSpec | src/server.js:76 | the domain is gone, every other domain is unchanged, validity is kept, a second delete changes nothing, and deleting an absent domain changes nothing |
| Models.ZapConfigs.constructor | src/models/ZapConfig.js:3-9 | the collection starts empty and valid |
| Models.ZapConfigs.FindOne | src/server.js:41 | fails when the store is unavailable; otherwise answers the lookup |
| Models.ZapConfigs.FindOneAndUpdate | src/server.js:57-61 | fails and writes nothing when the store is unavailable; otherwise performs the upsert and answers the new document; keeps validity for a non-empty domain |
| Models.ZapConfigs.DeleteOne | src/server.js:76 | fails and writes nothing when the store is unavailable; otherwise removes the domain, answers how many documents went, and keeps validity |
| Server.NumeroOf | src/server.js:42 | the found document's number, or `""` when none was found; GetZapAnswers states the lookup's answer that results |
| Server.GetZapFor | src/server.js:38-46 | the answer is 200 with a number, or 500 with the lookup error exactly when the domain is non-empty and the store fails; an empty domain gets `""` |
| Server.SaveZapFor | src/server.js:52-67 | an empty domain gets 400 and no change; the answer is 500 exactly when the domain is non-empty and the store fails, and then nothing changes; success exactly when the domain is non-empty and the store answers |
| Server.DeleteZapFor | src/server.js:73-81 | an empty domain gets 400 and no change; the answer is 500 exactly when the domain is non-empty and the store fails, and then nothing changes; success exactly when the domain is non-empty and the store answers |
| Server.GetZap | src/server.js:36-47 | the lookup on the raw query parameter: GetZapFor of its normalised domain; specified by GetZapEmptyDomainSkipsStore, SaveThenGet and DeleteThenGet |
| Server.SaveZap | src/server.js:50-68 | the save on the raw body: SaveZapFor of its normalised domain and number; specified by SaveThenGet and AdminRoutesKeepValid |
| Server.DeleteZap | src/server.js:71-82 | the delete on the raw body: DeleteZapFor of its normalised domain; specified by DeleteThenGet and AdminRoutesKeepValid |
| Server.SaveZapRoute | src/server.js:50-68 | a request `adminAuth` rejects gets 401 and no change; any other request is handled as a save |
| Server.DeleteZapRoute | src/server.js:71-82 | a request `adminAuth` rejects gets 401 and no change; any other request is handled as a delete |
| Server.HandleGetZap | src/server.js:36-47 | the handler's answer is the one the lookup specification gives |
| Server.HandleSaveZap | src/server.js:50-68 | the handler's answer and the collection afterwards are those the save specification gives, and validity is kept |
| Server.HandleDeleteZap | src/server.js:71-82 | the handler's answer and the collection afterwards are those the delete specification gives, and validity is kept |
| Server.SaveZapEndpoint | src/server.js:50 | the guarded save route follows its specification and keeps validity |
| Server.DeleteZapEndpoint | src/server.js:71 | the guarded delete route follows its specification and keeps validity |
| Server.GetZapEmptyDomainSkipsStore | src/server.js:38-39 | with an empty domain the answer is `""` whatever the store holds and whether or not it answers |
| Server.GetZapAnswers | src/server.js:41-42 | with a store that answers, the lookup gives the number of the document whose `domain` matches, or `""`; it never fails with "not found" |
| Server.SaveThenGetFor | src/server.js:57-63 | after a save, looking up the domain gives the saved number |
| Server.SaveThenGet | src/server.js:52-63 | after a save, any spelling that normalises to the same domain looks up the normalised number |
| Server.SaveZapStores | src/server.js:57-63 | a save succeeds and keeps validity. Afterwards exactly one document has the domain, holding the number and the save time, and every other domain is unchanged |
| Server.SaveZapTwice | src/server.js:57-61 | saving a domain again replaces its document: the size is unchanged, the later number and time win, and the document is still the only one |
| Server.DeleteThenGetFor | src/server.js:73-77 | after a delete the domain is looked up as `""`, and every other domain is unchanged |
| Server.DeleteThenGet | src/server.js:73-77 | after a delete, every spelling of the domain is looked up as `""` |
| Server.DeleteZapIdempotent | src/server.js:73-77 | deleting twice is the same as deleting once, and deleting an absent domain succeeds without changing anything |
| Server.StoreFailure | src/server.js:43-45 | with the store failing, each route answers 500 with its own message for a non-empty domain and changes nothing; an empty domain gets `""` or 400 |
| Server.AdminRoutesGuarded | src/middlewares/adminAuth.js:3-5 | when the header is missing, empty or different from `ADMIN_SECRET`, both admin routes answer 401 and leave the collection unchanged |
| Server.StoresKeepValid | src/server.js:52-76 | a save or a delete keeps a valid collection valid, whatever the domain, the number and the store's state |
| Server.AdminRoutesKeepValid | src/server.js:50-82 | both guarded admin routes keep the collection valid for every request |

## Left out

- Server start-up, the database connection, `listen` and `dotenv` loading (src/server.js:1-10, 84-91) are process plumbing.
- The rate limiter on `/api/` (src/server.js:13) lives in a library that is not part of this model and depends on wall-clock time.
- The CORS configuration (src/server.js:16-20) configures a library and has no logic of its own. It does not list `Authorization` among the allowed headers.
- `console.error` logging in the three `catch` blocks is output only.
- JWT verification inside `requireAdmin` is the parameter `verifies`. Signatures and expiry are not modelled.
- Token issuance, a login endpoint and a listing endpoint do not appear in the source files modelled here.
- Concurrent requests are not modelled. Each route is one step on the collection, and two simultaneous upserts rely on the database's unique index.
- A failing store call is assumed to write nothing. The model does not cover a call that fails after writing.
- The exact `Date` written to `updatedAt` is the parameter `now`.
- JsString.ToLowerCase: lower-cases ASCII letters only. Characters outside ASCII are kept, which differs from JavaScript's full Unicode mapping.
- JsString.Coerce: request fields are modelled as absent or a string. JavaScript's `String(...)` of numbers, arrays or objects (including a repeated query parameter) is not modelled.
- The request body is assumed to be a JSON object. A request without a body is not modelled. With Express 4, `express.json()` leaves `req.body` as `{}`, so such a request takes the 400 path. With Express 5, `req.body` is `undefined`, so reading `req.body.domain` throws inside the route's `try` and the answer is the route's 500 (src/server.js:52, 64-66 and 73, 78-80).
- `requireAdmin` is not mounted on any route in the source, so it is modelled on its own.

### Notes on the modelled behaviour

- `normalizeDomain` is not idempotent. It removes at most one `www.` per call, and it trims before cutting at `/`, so white space before a path survives one pass. `Domain.NormalizeDomainNotIdempotent` and `Domain.NormalizeDomainSpaceBeforePath` show both effects. `Domain.NormalizeDomainFixedPoint` characterises exactly the inputs it leaves unchanged.
- Without a scheme in front, the host `http:` or `https:` followed by a path `//...` is read as a scheme, and what follows is taken as the host (`Domain.NormalizeDomainSchemeLikeHost`). Among non-empty, lower-case hosts without `/` and without white space at the ends that the lemma looks at, these two are the only ones `Domain.NormalizeDomainOfUrl` excludes. Upper-case letters and white space at either end are handled by `Domain.NormalizeDomainIgnoresCase`, `Domain.NormalizeDomainIgnoresLeadingWhitespace` and `Domain.NormalizeDomainIgnoresTrailingWhitespace`.
- The phone field is `numero`, as the code and the schema call it.
- The upsert itself does not check the domain. The collection stays valid only because the route refuses an empty domain first (`Models.UpsertEmptyDomain`).
