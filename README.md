# Admin backend: record stores and login, modelled in Dafny

This project models the data-handling core of a small Express admin backend for a
news site. The backend keeps two kinds of stores:

- MongoDB collections, reached through Mongoose:
  - blueprints, with their history log;
  - advertisements.
- SQLite tables:
  - the verified articles and the three tables that reference them;
  - the newspapers.

In the model each store is a class holding its tables as sequences of records. Every
database call has the plain meaning of its query: a `find` with a filter is a
`Filter`, a sort is a sorted permutation, an `updateMany` maps over the whole table,
and a `DELETE ... WHERE` keeps the rows that do not match. Each route handler of the
stores is a method. Its contract states the reply (status and body or error text)
and the new contents of every table it touches. The login route touches no store: it
is the function `Auth.Login`, whose result is the response body (it always answers
with status 200), or nothing when the handler throws. Pure lemmas about the
specification functions carry the properties that relate several calls.

Modules:

| module | what it covers |
|---|---|
| `Wrappers`, `Json`, `Http` | the shared vocabulary: `Option`, request-body JSON with JavaScript truthiness and `\|\|`, an abstract `JSON.stringify`/`JSON.parse` pair, replies, and the header-only admin check |
| `Strings` | `split`, `trim` and ASCII `toLowerCase` |
| `Tables` | filtering, counting and sorting tables |
| `BlueprintSchema`, `HistorySchema`, `AdvertisementSchema` | the three Mongoose schemas: required fields, defaults, the `action` enum, and the pre-save hook |
| `Blueprints` | the blueprint routes |
| `Articles` | the article routes |
| `Newspapers` | the newspaper routes |
| `Ads` | the advertisement routes |
| `Auth` | the login route |

Modelling conventions:

- Time is a natural-number clock reading passed in by the caller.
- Mongo ObjectIds come from a counter held by the store.
- A route `:id` that does not cast to an ObjectId is `Uncastable`. Mongoose then throws a CastError, which the route answers with 500.
- The DELETE routes of the SQLite tables bind `Number(id)`. The model takes it as an `Option<int>`, where `None` stands for NaN or a fraction, which matches no row.
- The article PUT route binds the `:id` text itself. SQLite compares that text with the INTEGER `id` column after converting it to a number where the conversion is lossless. `Articles.NewsDb.Update` takes as `key` the integer that results, or `None` when the text converts to no integer; then no row matches.
- The SQLite driver binds numbers, strings and NULL, each to one `?`. It spreads an array argument into its elements, each filling the next `?`. It reads a plain object as named parameters; these statements have none, so an object fills no `?`. It refuses a boolean, an array holding anything else, or a second object. The statement throws unless the arguments fill exactly the statement's `?`. A throw makes the route answer 500. So a one-element array such as `["t"]` stores its element, and a `[]` title followed by a two-element `content` fills both columns from `content`.
- A caught exception is written `Caught(prefix)`. The exception's own message is not modelled.

## Model

| member | source | states |
|---|---|---|
| `Json.OrKeepsTruthy` | routes/articles.js:72-79 | `x \|\| d` yields either the submitted value or the fallback, and it yields the submitted value exactly when that value is truthy (not null, false, 0 or the empty string) |
| `Json.Stringify` | routes/articles.js:67-68 | `JSON.stringify` of a value is never the empty text, so the list route's falsy check never skips a written column |
| `Json.Parse` | routes/articles.js:33-35 | `JSON.parse` succeeds exactly on text that `JSON.stringify` produced |
| `Json.ParseStringify` | routes/articles.js:33-35 | parsing undoes stringifying, and stringifying is injective |
| `Strings.TrimStart` | routes/auth.js:9 | the result is a suffix of the input, everything dropped is white space, and the result does not start with white space |
| `Strings.TrimEnd` | routes/auth.js:9 | the result is a prefix of the input, everything dropped is white space, and the result does not end with white space |
| `Strings.ToLower` | routes/auth.js:11 | lower-casing keeps the length |
| `Strings.TrimTrims` | routes/auth.js:11 | a trimmed string has white space at neither end |
| `Strings.TrimIgnoresSpace` | routes/auth.js:11 | white space added around a string does not change its trimmed form |
| `Strings.TrimLowerCommute` | routes/auth.js:9 | trimming and lower-casing commute |
| `Strings.NormalizeIgnoresSpaceAndCase` | routes/auth.js:11 | `trim().toLowerCase()` ignores surrounding white space and ASCII case |
| `Strings.TrimIdempotent` | routes/auth.js:9 | trimming twice is trimming once |
| `Strings.NormalizeIdempotent` | routes/auth.js:9 | a normalised address is its own normal form |
| `Strings.NormalizeAllSpace` | routes/auth.js:11 | an address made only of white space normalises to the empty string |
| `Strings.Split` | routes/auth.js:9 | `split` gives at least one piece and no piece contains the separator |
| `Strings.JoinSplit` | routes/auth.js:9 | joining the pieces with the separator gives back the original string |
| `Strings.SplitJoin` | routes/auth.js:9 | splitting a join of separator-free pieces gives the pieces back |
| `Strings.SplitNoSeparator` | routes/auth.js:9 | text with no separator splits into itself alone, so `''` splits into `['']` |
| `Strings.SplitAfterPiece` | routes/articles.js:16 | a separator-free first piece splits off on its own |
| `Tables.FirstIndex` | routes/blueprints.js:31 | `findOne`: the first matching position, with no match before it, or none when nothing matches |
| `Tables.FilterMembers` | routes/newspapers.js:55 | a delete-by-condition keeps exactly the rows that do not match |
| `Tables.FilterLength` | routes/newspapers.js:55-56 | a delete-by-condition never grows the table, and it removes nothing exactly when no row matches (`changes === 0`) |
| `Tables.FilterKeepsMultiplicity` | routes/articles.js:144-146 | every row the condition keeps survives as many times as it was there |
| `Tables.FilterKeepsAll` | routes/articles.js:144-146 | when no row matches, the table is unchanged |
| `Tables.FilterDropsOne` | routes/ads.js:38 | when exactly one row fails the condition, filtering removes that row and keeps the order of the rest |
| `Tables.FilterKeepsDistinct` | routes/articles.js:149 | deleting rows keeps the remaining keys distinct |
| `Tables.Count` | routes/blueprints.js:31 | the count is at most the size of the table, zero exactly when nothing matches, and the full size exactly when everything matches |
| `Tables.CountAppend` | routes/blueprints.js:41-46 | appending a row adds one to the count exactly when the row matches |
| `Tables.Sort` | routes/blueprints.js:9 | `sort` returns a sorted permutation of the table |
| `Tables.TakeIsLeast` | routes/ads.js:15 | the first `k` rows of a sorted table are sorted, come from the table, and precede every row left out |
| `Tables.SameRows` | routes/blueprints.js:81 | a permutation has the same rows |
| `Tables.RemoveFirst` | routes/articles.js:29 | the first row of one arrangement occurs in any other arrangement of the same rows, and taking it out of both leaves two arrangements of the same rows |
| `Tables.RemoveAt` | routes/articles.js:29 | taking out the row at a position takes exactly one copy of it out of the multiset of rows |
| `BlueprintSchema.Stamp` | models/Blueprint.js:13-16 | the pre-save hook sets `updated_at` to now and changes nothing else |
| `BlueprintSchema.NewBlueprint` | models/Blueprint.js:3-11 | creation succeeds exactly when `name` and `structure` are given; then the blueprint is unpublished, at version 1, by 'admin', created and updated now |
| `BlueprintSchema.Restructure` | routes/blueprints.js:33-34 | rewriting a stored blueprint succeeds exactly when the structure is given; only `structure` and `updated_at` change |
| `BlueprintSchema.MarkPublished` | routes/blueprints.js:61-62 | publishing sets the flag and `updated_at` and keeps id, name, structure, version, author and creation time |
| `HistorySchema.ParseAction` | models/History.js:7 | the enum admits exactly 'save', 'publish', 'undo' and 'redo', each naming its action |
| `HistorySchema.ActionNamesRoundTrip` | models/History.js:7 | every action's name passes the enum check and names that action |
| `HistorySchema.NewEntry` | models/History.js:3-8 | an entry is accepted exactly when `blueprint_id` and `structure` are given and `action` is absent or in the enum; `action` defaults to save and `timestamp` to now |
| `Blueprints.NewestPublished` | routes/blueprints.js:19-20 | the active query returns a published blueprint updated no earlier than any other published one, and none exactly when nothing is published |
| `Blueprints.NewerFirstOrders` | routes/blueprints.js:9 | the `updated_at` and `timestamp` descending orders are total preorders |
| `Blueprints.Upsert` | routes/blueprints.js:31-38 | no ensures of its own: `findOne({name})`, then either rewrite the structure of the match or create a new blueprint; `UpsertExisting`, `UpsertNew`, `UpsertFails` and `SavedNameIsUnique` state it |
| `Blueprints.UnpublishAll` | routes/blueprints.js:58 | no ensures of its own: `updateMany({}, {is_published: false})` clears every flag and runs no save hook; `UnpublishKeepsPositions` and `UnpublishKeepsInvariant` state it |
| `Blueprints.Published` | routes/blueprints.js:58-62 | no ensures of its own: every flag cleared, then the chosen blueprint marked published and stamped; `PublishIsExclusive`, `PublishedIsNewest`, `PublishedIsActive` and `PublishKeepsInvariant` state it |
| `Blueprints.UpsertExisting` | routes/blueprints.js:31-34 | saving an existing name rewrites only that blueprint's structure and `updated_at`, keeping its id and flag; the count of that name stays 1 |
| `Blueprints.CountSingle` | routes/blueprints.js:31 | with unique names, a present name is counted once |
| `Blueprints.UpsertNew` | routes/blueprints.js:35-37 | saving a new name appends exactly one blueprint with that name and structure, unpublished, at version 1, by 'admin', under a fresh id |
| `Blueprints.SavedNameIsUnique` | routes/blueprints.js:31-38 | in a store with unique names, every successful save leaves exactly one blueprint with the saved name |
| `Blueprints.UpsertFails` | routes/blueprints.js:28-51 | over a well-formed store, a save succeeds exactly when `name` and `structure` pass validation |
| `Blueprints.UpsertKeepsInvariants` | routes/blueprints.js:31-38 | an upsert keeps ids distinct, names unique, at most one blueprint published, the version and author defaults, and every document well-formed |
| `Blueprints.ReplaceKeepsInvariants` | routes/blueprints.js:33-34 | an in-place rewrite that keeps id, name, flag, version and author keeps every table invariant |
| `Blueprints.AppendKeepsInvariants` | routes/blueprints.js:36-37 | appending an unpublished blueprint under a new name keeps names unique and at most one published |
| `Blueprints.SavedIsNewest` | models/Blueprint.js:13-16 | a saved blueprint is stamped now, so it is updated no earlier than any other |
| `Blueprints.PublishedIsNewest` | routes/blueprints.js:58-62 | the published blueprint's `save()` stamps it now, and the `updateMany` before it stamps nothing, so under a clock that never runs backwards it is updated no earlier than any other |
| `Blueprints.PublishIsExclusive` | routes/blueprints.js:58-62 | after a publish of X, X is the only published blueprint, and every blueprint keeps its id, name and structure |
| `Blueprints.PublishedIsActive` | routes/blueprints.js:58-62 | after a publish, the active query returns exactly the published blueprint |
| `Blueprints.FailedPublishUnpublishesAll` | routes/blueprints.js:58-61 | a publish that finds no target has already cleared every flag, so the active query then finds nothing |
| `Blueprints.UnpublishKeepsPositions` | routes/blueprints.js:58-60 | clearing the flags moves no blueprint, so `findById` finds the same one |
| `Blueprints.HistoryGrowsByOne` | routes/blueprints.js:41-46 | logging one entry grows that blueprint's history by one and no other blueprint's |
| `Blueprints.SaveKeepsInvariant` | routes/blueprints.js:28-51 | a save followed by its history entry keeps the store invariant: distinct ids, unique names, at most one published blueprint, default version and author, well-formed documents, and every id below the counter |
| `Blueprints.UnpublishKeepsInvariant` | routes/blueprints.js:58 | `updateMany` clearing every flag keeps that whole store invariant |
| `Blueprints.PublishKeepsInvariant` | routes/blueprints.js:58-70 | a publish followed by its history entry keeps that whole store invariant, so exactly the target is published afterwards |
| `Blueprints.BlueprintStore.constructor` | routes/blueprints.js:1-4 | the store starts empty and valid: names unique and at most one blueprint published |
| `Blueprints.BlueprintStore.Allocate` | routes/blueprints.js:36 | each new document gets a fresh ObjectId |
| `Blueprints.BlueprintStore.List` | routes/blueprints.js:7-14 | GET / returns every blueprint, most recently updated first |
| `Blueprints.BlueprintStore.Active` | routes/blueprints.js:17-25 | GET /active returns a published blueprint updated no earlier than any other published one, or 404 'No published blueprint found' exactly when none is published |
| `Blueprints.BlueprintStore.Save` | routes/blueprints.js:28-52 | POST / is the upsert; on success it appends exactly one 'save' entry with the submitted structure and the blueprint's id; a rejected save gives 500 and changes nothing; the store invariant (unique names, at most one published) is kept |
| `Blueprints.BlueprintStore.Publish` | routes/blueprints.js:55-76 | POST /publish/:id clears every flag and then publishes the target, logging one 'publish' entry with its structure; an unknown or uncastable id gives 500 with all flags cleared and no entry |
| `Blueprints.BlueprintStore.HistoryOf` | routes/blueprints.js:79-86 | GET /history/:id returns exactly that blueprint's entries, newest first; an uncastable id gives 500 |
| `Articles.Authenticate` | routes/articles.js:12-24 | no header gives 'No token provided'; the request passes exactly when the word after the first space verifies; otherwise 'Invalid token' |
| `Articles.BearerHeaderAdmits` | routes/articles.js:16-18 | a `Bearer <token>` header passes exactly when the token verifies |
| `Articles.DecodeColumn` | routes/articles.js:33-35 | a NULL or empty column yields the fallback, stringified text yields its document, and malformed text makes the parse throw |
| `Articles.DecodeRow` | routes/articles.js:31-36 | no ensures of its own: one row with its three JSON columns parsed; `DecodeColumn` states each column, and `DecodeAll` and `DecodePermutation` build on it |
| `Articles.DecodeAll` | routes/articles.js:31-36 | the `map` succeeds exactly when every row decodes, and then yields each row's view at the same position |
| `Articles.DecodeOrdered` | routes/articles.js:29-37 | the list fails exactly when some row does not decode; otherwise it is a permutation of the rows decoded in table order (each view as often as its row occurs), latest `published_at` first |
| `Articles.DecodeAllAppend` | routes/articles.js:31-36 | decoding a concatenation succeeds exactly when both parts decode, and gives the two parts' views in order |
| `Articles.DecodePermutation` | routes/articles.js:29-36 | two arrangements of the same rows both decode or both fail, and give the same views with the same multiplicities |
| `Articles.DecodeAround` | routes/articles.js:31-36 | decoding rows around one row gives the other rows' views plus that row's view |
| `Articles.DecodeKeepsOrder` | routes/articles.js:29-36 | decoding keeps `published_at`, so sorted rows decode to sorted views |
| `Articles.DecodeCovers` | routes/articles.js:31-36 | the decoded list holds every row's view and nothing else |
| `Articles.Spread` | routes/articles.js:64-82 | one argument binds no values exactly when the driver refuses it (a boolean, or an array holding something other than a number, string or null); otherwise it binds as many values as it fills `?`, each a number, string or NULL, and a single value binds as itself |
| `Articles.SpreadAll` | routes/articles.js:64-82 | a run of arguments binds exactly when none is refused, and then fills as many `?` as their widths add up to, with numbers, strings and NULLs only |
| `Articles.BindPlain` | routes/articles.js:64-82 | no ensures of its own: how the driver fills the statement's `?` from the twelve plain arguments; `BindsExactly` characterises it, and `CreateBindsAsIs`, `UpdateBindsAsIs` and `UnwrapKeepsBinding` state what it stores |
| `Articles.BindsExactly` | routes/articles.js:64-82 | a write statement throws exactly when an argument is refused, two arguments are objects, or the plain arguments fill other than twelve `?`; its values land in the plain columns exactly when, besides, the groups around the JSON columns fill two, eight and two; every stored plain column is then a number, string or NULL |
| `Articles.BindSingles` | routes/articles.js:64-82 | twelve single values land in the twelve plain columns in order |
| `Articles.CreateBindsAsIs` | routes/articles.js:64-82 | when every plain field of the insert is one value (a falsy score, sentiment or impact replaced by its default first), the plain columns are the submitted values with their defaults |
| `Articles.UpdateBindsAsIs` | routes/articles.js:110-127 | when every plain field of the update is absent or one value, the plain columns are the submitted values, with no defaults |
| `Articles.UnwrapKeepsBinding` | routes/articles.js:110-127 | an argument holding a one-element array of a number, string or null binds exactly as that element |
| `Articles.ArrayTitleBinds` | routes/articles.js:64-82 | a create request with title `["t"]` inserts the same plain columns as one with title 't' |
| `Articles.ShiftedTitleBinds` | routes/articles.js:64-82 | a create request with title `[]` and content `["a", "b"]` inserts title 'a' and content 'b' |
| `Articles.CreateThenDecode` | routes/articles.js:63-84 | reading back a created row gives the submitted nested values or `[]`, `[]`, `{}`; scores default to 0.9 and 5, sentiment to 'Neutral', impacts to ''; `published_at` equals `created_at` |
| `Articles.UpdateThenDecode` | routes/articles.js:101-127 | reading back an updated row gives the submitted values with no score or sentiment defaults, keeping id and timestamps |
| `Articles.Overwrite` | routes/articles.js:101-127 | no ensures of its own: `UPDATE ... WHERE id = ?` over the table; `OverwriteFrame` states it |
| `Articles.OverwriteFrame` | routes/articles.js:101-127 | the update rewrites exactly the rows with that id, and the table is unchanged when none has it |
| `Articles.WithoutArticle` | routes/articles.js:149 | the delete keeps exactly the rows with another id, and removes nothing exactly when no row has the id |
| `Articles.Unreferenced` | routes/articles.js:144-146 | no ensures of its own: a dependent-table `DELETE ... WHERE` reference `= ?`; `UnreferencedRemovesExactly` states it |
| `Articles.UnreferencedRemovesExactly` | routes/articles.js:144-146 | each dependent-table delete removes exactly the referencing rows, keeps every other row with its multiplicity, and leaves the table as it was when no row references the id |
| `Articles.MaxId` | routes/articles.js:84 | the largest rowid bounds every id, so the next rowid is new |
| `Articles.NewsDb.constructor` | routes/articles.js:8-9 | the database starts with four empty tables |
| `Articles.NewsDb.List` | routes/articles.js:27-41 | GET / gives 401 with the middleware's message, 500 exactly when some JSON column does not parse, and otherwise a permutation of the rows decoded in table order, latest first |
| `Articles.NewsDb.Create` | routes/articles.js:44-88 | POST / gives 401 without a valid token and 500 with nothing inserted when the statement throws; otherwise it inserts, under a new rowid, the row whose plain columns are the values the driver bound and whose JSON columns are encoded, and answers 201 with the rowid |
| `Articles.NewsDb.Update` | routes/articles.js:91-133 | PUT /:id gives 500 with nothing changed when the statement throws; otherwise it overwrites the rows with that id with the bound plain values and the encoded JSON columns, and answers success even when none matched |
| `Articles.NewsDb.Delete` | routes/articles.js:136-162 | DELETE /:id removes every referencing row from the three dependent tables and then the article; a failing statement rolls all four back and gives 500; no article with the id gives 404 'Article not found in database', with the dependent rows still removed |
| `AdvertisementSchema.NewAd` | models/Advertisement.js:3-8 | an ad is accepted exactly when `image_url` is given and non-empty; an absent caption defaults to '', an absent target to 'Global', and `created_at` to now |
| `Ads.NewerFirstOrders` | routes/ads.js:15 | `created_at` descending is a total preorder |
| `Ads.TargetOrGlobal` | routes/ads.js:26 | `target_node \|\| 'Global'` is never empty, and it keeps a non-empty target |
| `Ads.RemoveAtIsFilter` | routes/ads.js:38 | with distinct ids, removing the one ad found is deleting by id |
| `Ads.AdCollection.constructor` | routes/ads.js:3 | the collection starts empty |
| `Ads.AdCollection.List` | routes/ads.js:13-20 | GET / returns min(10, n) ads, newest first, and no ad left out is newer than one returned |
| `Ads.AdCollection.Create` | routes/ads.js:23-32 | POST / gives 401 without a header and 500 without an image; otherwise it appends one ad under a fresh id with the target defaulted, and answers with that id |
| `Ads.AdCollection.Delete` | routes/ads.js:35-45 | DELETE /:id gives 401 without a header, 500 for an uncastable id, and 404 'Advertisement not found' when no ad has the id; otherwise it removes exactly that ad |
| `Newspapers.CountryOrGlobal` | routes/newspapers.js:44 | `country \|\| 'Global'` is never empty; it keeps a non-empty country, and it is 'Global' when the country is absent or empty |
| `Newspapers.TextLeqTotal` | routes/newspapers.js:32 | the text order is total |
| `Newspapers.TextLeqTransitive` | routes/newspapers.js:32 | the text order is transitive |
| `Newspapers.NameOrderIsPreorder` | routes/newspapers.js:32 | `ORDER BY name ASC` is a total preorder |
| `Newspapers.WithoutId` | routes/newspapers.js:55-56 | the delete keeps exactly the rows with another id, and removes nothing exactly when no row has it |
| `Newspapers.OnlyRowDeleted` | routes/newspapers.js:55 | deleting the id of the only row empties the table |
| `Newspapers.NewspaperTable.constructor` | routes/newspapers.js:10-20 | the table starts empty with its counter at 0 |
| `Newspapers.NewspaperTable.List` | routes/newspapers.js:30-37 | GET / needs no header and returns every row ordered by name |
| `Newspapers.NewspaperTable.Insert` | routes/newspapers.js:40-49 | POST / gives 401 without a header and 500 when `name` or `url` is missing; otherwise it appends the row with country defaulted, under an id above every id ever used, and answers with it |
| `Newspapers.NewspaperTable.Delete` | routes/newspapers.js:52-64 | DELETE /:id removes exactly the rows with that id; it answers success when one existed and 404 'Newspaper not found' otherwise |
| `Newspapers.AddThenDeleteTwice` | routes/newspapers.js:40-64 | adding a newspaper and deleting its id twice answers success and then 404 |
| `Auth.NormalizeAll` | routes/auth.js:9 | `.map(e => e.trim().toLowerCase())` normalises each piece in place |
| `Auth.AllowList` | routes/auth.js:9 | the list has one entry per comma-separated piece of `ADMIN_EMAIL`, and at least one |
| `Auth.AllowListNormalized` | routes/auth.js:9 | every entry of the list is already in normal form |
| `Auth.NormalizedEntries` | routes/auth.js:9 | every normalised piece is its own normal form |
| `Auth.Admits` | routes/auth.js:11 | no ensures of its own: the normalised address is on the allow-list and the password equals `ADMIN_PASSWORD`; `AdminIgnoresSpaceAndCase` and `EveryListedAddressIsAdmin` state it |
| `Auth.Login` | routes/auth.js:5-21 | login yields admin with a token signed over the address exactly when the normalised address is listed and the password matches; otherwise user with a null token; no reply when `email` is missing |
| `Auth.AdminIgnoresSpaceAndCase` | routes/auth.js:11 | surrounding white space and ASCII case in the address never change the outcome |
| `Auth.EveryListedAddressIsAdmin` | routes/auth.js:9-13 | every address listed in `ADMIN_EMAIL`, in any case and spacing, logs in as admin with the right password |
| `Auth.UnsetAllowList` | routes/auth.js:9 | an unset `ADMIN_EMAIL` gives the list `['']` |
| `Auth.UnconfiguredAdmitsBlank` | routes/auth.js:9-13 | with neither variable set, a blank address with no password logs in as admin |

## Left out

- index.js is not part of this model: the Express wiring, CORS, logging, the database connection and the sync proxy are plumbing.
- The `/refresh` route (routes/articles.js:165-174) only forwards a call to another service.
- Signing and verifying tokens are parameters: `sign` for the login route and `verify` for the article middleware. Expiry and the secret are not modelled.
- Database driver faults are not modelled, except for two cases. The first is a failing statement inside the article delete transaction, given as `failsAt`. The second is an article create or update whose arguments the SQLite driver refuses or that fill the wrong number of `?`. A write that fails for other reasons, such as the network or the disk, is not modelled.
- JSON text is not parsed: `Text` records only whether `JSON.parse` would succeed and on which document.
- Numbers are exact reals. No floating-point rounding is modelled for `credibility_score` or `impact_score`.
- Time is an abstract clock. Date formatting at routes/articles.js:63 is not modelled, so `published_at` and `created_at` are the same reading.
- Concurrency is not modelled: each request runs as one step. In particular, another request cannot slip in between the unpublish and the publish.
- models/Newspaper.js is not part of this model: no route imports it, and the live schema is the SQLite table in routes/newspapers.js.
- The 'undo' and 'redo' actions exist only in the History enum. No route writes them.
- Strings.ToLower: lowers ASCII letters only. JavaScript's full Unicode case mapping is not modelled.
- Request bodies are typed. Every body field outside the article routes is a string or absent (`undefined`): `name`, `url`, `logo_text`, `logo_color` and `country` of a newspaper; `image_url`, `caption` and `target_node` of an advertisement; `email` and `password` of the login. A JSON `null` or a non-string value in any of them is not modelled. For example, a `null` caption would be stored as null, because Mongoose applies a default only to an undefined field.
- Ads.AdCollection.Delete: ObjectIds are modelled as counter values, and no collision with a stored id is modelled.
- Sort order among equal keys is not pinned down: the contracts state a sorted permutation, which is all MongoDB and SQLite promise.
- Blueprints.BlueprintStore.Save: the blueprint `name` is always a string. A body without `name` is not modelled. The route then runs `findOne({ name: undefined })`, and whether that matches nothing (so `required` fails and the reply is 500) or matches any blueprint (so the first one is overwritten) depends on whether Mongoose and the MongoDB driver drop the undefined key. That is driver configuration outside this model.
- Articles.NewsDb.Create: when arrays or objects in the body move a bound value across one of the JSON columns, the source stores values in the wrong columns and answers 201. An example is a `[]` title with a two-element `bias_rating`. The model answers 500 and inserts nothing (`Misplaced`), because a JSON column holding a submitted value, or a plain column holding JSON text, has no representation here.
- Articles.NewsDb.Update: when arrays or objects in the body move a bound value across one of the JSON columns, the source stores values in the wrong columns and answers success. The model answers 500 and changes nothing, for the same reason.
- Articles.NewsDb.Create: the new rowid is one above the largest present. SQLite's fallback search once rowids reach 2^63-1 is not modelled.
- Blueprints.BlueprintStore.Save: the response and history are stated for the saved document. Mongoose's serialisation of that document is not modelled.
