# Ephemeral secret store — a Dafny model

This project models the core of a small Next.js application for sharing a
secret through a one-off link.

- **Store.** An in-memory map from secret id to a record `{secret, expiryDate, maxViews, views}`.
  A sweep deletes, in place, every record that is expired (`expiryDate < now`) or whose view budget is used up (`views >= maxViews`).
  The repository holds two separate copies of the map and its sweep:
  one exported by `src/app/lib/store.ts`, one private to the create route.
  Both are modelled as two objects of one class, `Store.SecretStore`.
- **Create route** (`POST /api/secrets`).
  It rejects a falsy secret with a 400 and leaves the store alone.
  Otherwise it defaults the expiry to 7 days and the view budget to 1 with JavaScript `||`, with no range check.
  It then inserts a record with no views under the drawn id, sweeps its store and returns the id.
- **Create form.**
  The validation schema (a non-empty secret, 1–30 days, 1–100 views), the default form values, and the encryption key (the passkey, or `'default-key'`).
  Also the JSON body the form posts, and the link or error message it shows afterwards.
- **Download dialog.**
  The language-to-extension table with its `'txt'` fallback, the file name derived from what the user typed, and the dialog's two state fields.

Files: `wrappers.dfy` (an `Option` type), `store.dfy` (module `Store`),
`route.dfy` (module `Route`), `page.dfy` (module `Page`), `download.dfy`
(module `Download`).

Modelling choices:
- Time is an integer count of milliseconds. `setDate(getDate() + n)` is `now + n * DAY_MS`.
- `POST` reads the clock twice, once for the expiry and once in the sweep. The model uses one instant `now` for both.
  For the new record this changes nothing. With integer days its expiry is either a whole day or more in the future, or at or before creation.
  For an old record it can: one whose expiry falls between the two clock reads is removed by the source's sweep, but the model removes it only at the next sweep.
- `randomUUID` is an `id` parameter. `Route.Post` has no freshness requirement, because the source does not check for a collision.
  What a collision would do is stated by `Route.PostOverwrites`. `Route.PostPreservesLive` takes `id !in m`; the other lemmas hold for any id.
- JSON fields are `Option`s. A falsy `secret` is an absent one or `""`. A falsy number is an absent one or `0`.
- The AES encryption is a function-valued parameter `encrypt(plaintext, key)`.
- The sweep visits the keys in `Object.keys` order. The model does not fix the order: it picks any pending key, records the visiting order in a ghost out-parameter, and its result does not depend on the order.

Behaviour a reader might not expect of a secret store, kept as the code has it:
- The code has no server-side range checks.
- The code keeps a record whose expiry equals `now`.
- The sweep also removes view-exhausted records.
- Nothing in the modelled code increments `views`.

## Model

| member | source | states |
|---|---|---|
| Store.Doomed | src/app/lib/store.ts:16 | a record is deleted when it has expired (`expiryDate < now`) or used up its views (`views >= maxViews`); either test alone suffices, and a record that is not doomed passes both keep tests |
| Store.Swept | src/app/lib/store.ts:15-18 | the swept store keeps only old keys; every remaining record has `expiryDate >= now` and `views < maxViews`, unchanged from before; every such record of the old store is kept |
| Store.SecretStore.constructor | src/app/lib/store.ts:2-10 | a new store is empty |
| Store.SecretStore.Cleanup | src/app/lib/store.ts:13-20 | the in-place loop over the key snapshot leaves exactly `Swept(old store, now)`, and visits each old key exactly once |
| Store.SweptIdempotent | src/app/lib/store.ts:16 | a second sweep at the same instant removes nothing |
| Store.ExpiryBoundaryKept | src/app/lib/store.ts:16 | a record expiring exactly at `now` with views left survives unchanged (strict `<`) |
| Store.ExhaustedRemoved | src/app/lib/store.ts:16 | a record with `views >= maxViews` is removed even when not expired |
| Store.ExpiredRemoved | src/app/lib/store.ts:16 | an expired record is removed even with views left |
| Store.SweptKeys | src/app/lib/store.ts:15-18 | the new key set is exactly the old keys whose records pass the keep test |
| Route.Truthy | src/app/api/secrets/route.ts:30 | the secret is falsy exactly when it is absent or `""` |
| Route.OrDefault | src/app/api/secrets/route.ts:39-45 | a given non-zero value is kept with no range check; an absent or zero one becomes the fallback; the result is never zero when the fallback is not |
| Route.NewRecord | src/app/api/secrets/route.ts:38-47 | the record holds the secret as sent and no views; its view budget is never zero; its expiry is a whole, non-zero number of days from `now` |
| Route.PostOutcome | src/app/api/secrets/route.ts:26-52 | falsy secret: 400 "Secret is required" and the store unchanged; otherwise the id is returned, every remaining record passes the keep test, and only the new id can be a new key or a changed record |
| Route.Post | src/app/api/secrets/route.ts:26-52 | the route's create, updating its own store in place, yields exactly `PostOutcome` |
| Route.PostRecordFields | src/app/api/secrets/route.ts:38-47 | the record holds the secret verbatim with `views = 0`; a missing or zero expiry means 7 days and a missing or zero budget means 1 view; any other value is stored as given |
| Route.PostKeepsNewRecord | src/app/api/secrets/route.ts:42-52 | with at least 1 day and 1 view after defaulting, the returned id is in the store holding the record as built, however large the values |
| Route.PostSelfDeleting | src/app/api/secrets/route.ts:39-52 | a budget of 0 or less after defaulting, or a negative day count, makes the same call's sweep delete the new record while its id is still returned |
| Route.PostPreservesLive | src/app/api/secrets/route.ts:42-50 | for a fresh id, an old record survives a create exactly when it passes the keep test, and then unchanged |
| Route.PostOverwrites | src/app/api/secrets/route.ts:35-47 | an id already in use is overwritten silently: the old record under it is lost |
| Route.PostLeavesOtherStores | src/app/api/secrets/route.ts:6-14 | a create through the route's store leaves any other store exactly as it was |
| Route.SeparateStores | src/app/api/secrets/route.ts:6-14 | the route's store is its own: a create through it leaves a second store (the library's) empty |
| Page.SchemaValid | src/app/page.tsx:10-15 | a valid form has no falsy field: a non-empty secret and positive day and view counts |
| Page.SchemaBounds | src/app/page.tsx:10-15 | the schema accepts exactly a non-empty secret, 1..30 days and 1..100 views |
| Page.DefaultsSatisfySchema | src/app/page.tsx:26-29 | the default 7 days and 1 view pass the schema with any non-empty secret |
| Page.EncryptionKey | src/app/page.tsx:38-40 | the key is the passkey when it is a non-empty string, else `'default-key'`; never empty |
| Page.RequestBody | src/app/page.tsx:47-51 | the body carries the ciphertext under `secret` and forwards both numbers unchanged |
| Page.SecretLink | src/app/page.tsx:60-61 | the link is the origin, then `/secret/`, then the id |
| Page.SecretLinkInjective | src/app/page.tsx:60-61 | different ids give different links from one origin |
| Page.ShowResponse | src/app/page.tsx:56-63 | a success shows the link to the returned id; a failure shows the server's error text when it is non-empty, and `'Failed to create secret'` when it is empty |
| Page.ValidFormSkipsServerDefaults | src/app/page.tsx:12-13 | for schema-valid input the route never falls back to 7 days or 1 view |
| Page.ValidFormCreatesLiveRecord | src/app/page.tsx:32-61 | schema-valid input with a non-empty ciphertext is stored as entered, survives the route's sweep, and the page shows its link |
| Download.Extension | src/app/components/DownloadButton.tsx:10-32 | the table entry for a listed language, `'txt'` otherwise; always a non-empty word without whitespace or `'.'` |
| Download.EditorLanguagesCovered | src/app/components/CodeEditor.tsx:5-20 | every language the editor offers has its own table entry |
| Download.IsWhitespace | src/app/components/DownloadButton.tsx:33 | the characters `trim()` removes: tab, line feed, carriage return and space among them; never a letter, a digit or `'.'` |
| Download.TrimStart | src/app/components/DownloadButton.tsx:33 | the result is a suffix of the input, everything dropped is whitespace, and it does not start with whitespace |
| Download.TrimEnd | src/app/components/DownloadButton.tsx:33 | the result is a prefix of the input, everything dropped is whitespace, and it does not end with whitespace |
| Download.Trim | src/app/components/DownloadButton.tsx:33 | the trim is no longer than the input, and is empty or starts and ends with a non-whitespace character |
| Download.TrimIdempotent | src/app/components/DownloadButton.tsx:33 | trimming twice is trimming once |
| Download.TrimEmptyIffBlank | src/app/components/DownloadButton.tsx:33 | the trim is empty exactly when every character is whitespace |
| Download.TrimKeepsForward | src/app/components/DownloadButton.tsx:33 | every non-whitespace character of the input is in its trim |
| Download.TrimKeepsBackward | src/app/components/DownloadButton.tsx:33 | every character of the trim is in the input |
| Download.TrimKeeps | src/app/components/DownloadButton.tsx:33-34 | trimming keeps every non-whitespace character, so `'.'` is in the input iff it is in the trim |
| Download.FinalName | src/app/components/DownloadButton.tsx:33-35 | the name derived for any extension is never empty and always contains `'.'` |
| Download.FinalFilename | src/app/components/DownloadButton.tsx:32-35 | the name derived for a language's extension is never empty and always contains `'.'` |
| Download.BlankFilename | src/app/components/DownloadButton.tsx:33-35 | an empty or whitespace-only input gives `secret-code.` + extension |
| Download.DottedFilename | src/app/components/DownloadButton.tsx:33-34 | an input containing `'.'` is used trimmed, with no extension appended |
| Download.UndottedFilename | src/app/components/DownloadButton.tsx:33-34 | a non-blank input without `'.'` gets `'.'` + extension appended to its trim |
| Download.FinalNameTrimmed | src/app/components/DownloadButton.tsx:33-35 | for a table extension the derived name is its own trim |
| Download.FinalFilenameIdempotent | src/app/components/DownloadButton.tsx:33-35 | typing the final name back in, same language, gives the same name |
| Download.DownloadDialog.constructor | src/app/components/DownloadButton.tsx:28-29 | the dialog starts closed with an empty name |
| Download.DownloadDialog.Open | src/app/components/DownloadButton.tsx:53 | opening shows the dialog and keeps the typed name |
| Download.DownloadDialog.Edit | src/app/components/DownloadButton.tsx:71 | typing replaces the name and leaves the dialog open or closed as it was |
| Download.DownloadDialog.Cancel | src/app/components/DownloadButton.tsx:77-80 | Cancel closes the dialog and resets the name to `''` |
| Download.DownloadDialog.Download | src/app/components/DownloadButton.tsx:31-48 | Download saves under `FinalFilename(typed name, language)`, then closes the dialog and resets the name to `''` |

## Left out

- The read route `GET /api/secrets/[id]` (src/app/api/secrets/[id]/route.ts) is not part of this model. It declares a third map of its own, and nothing modelled here reads a secret back or increments `views`.
- AES encryption (CryptoJS) is a parameter. No round trip or wrong-key behaviour is modelled.
- Real ids (`randomUUID`) are not modelled. The caller supplies the id.
- Wall-clock and calendar effects of `Date` and `setDate` are not modelled: local time, daylight saving, and dates beyond the representable range. Times and day counts are integers.
- JSON values that are neither strings nor integers are not modelled: fractional numbers, strings in number fields, `NaN`.
- The HTTP plumbing is not modelled: `request.json`, response objects, the `catch` that answers 500, `fetch`, and the clipboard.
- The browser steps of a download are not modelled: the Blob, object URL, and anchor click.
- React state beyond the dialog's two fields is not modelled: loading flag, error and link state, and form wiring.
- Download.Extension: treats the table as a plain dictionary. A language naming an inherited JavaScript object property (e.g. `constructor`) would look up that property in the source. The editor's language menu offers only the 14 table keys (src/app/components/CodeEditor.tsx:5-20).
- Page.SchemaBounds: zod's `z.number()` also rejects `NaN` and accepts fractions. The model's numbers are integers.
- Route.Post: uses one instant for the expiry and the sweep. The source reads the clock twice, so an old record whose expiry falls between the two reads survives one sweep longer in the model.
- Concurrency is not modelled: the handlers run one at a time on a single thread.
