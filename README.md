# URL-key generator and field-validator message — a Dafny model

This project models two pieces of the MageModule Core module for Magento 2:

- `UrlKeyGenerator` is the class that picks a URL key for an entity (a product, a category, an extensible model) being saved.
  - It reads the entity's URL-key attribute value.
  - It chooses the store ids that the attribute's scope reaches: the entity's own store, its website's stores, or every store.
  - It projects one request path per store: the value with at most one trailing copy of that store's URL suffix removed (ignoring case), then the suffix appended.
  - It asks the URL-rewrite storage for every row at one of those paths, in one of those stores. The key collides when such a row is not the exact-match row of one of the projected records. The query crosses paths with stores, so the entity's own row in one store can collide under another store's path. A new entity has no id, so another entity's row at the same path, store and entity type counts as its own exact match, and that collision goes unnoticed.
  - While the key collides, it appends `-` and a four-character token, at most 100 times. Then it returns the last value it tried, without the suffix.
  - Suffixes read from the store configuration are cached per store id.
- `FieldValidatorException` builds its message from validator results. From a list, it makes one line per result, naming the field and the result's missing fields, and joins the lines with the line separator. From a single result, it takes that result's own message.

Layout:

- `wrappers.dfy`: `Option` and `Result`.
- `url_rewrite_storage.dfy`: the rewrite table as a sequence of rows.
  - `findOneByData` returns the first row that agrees with every field present.
  - `findAllByData` selects rows whose request path and store id are each in a list. A null entry comes from a criteria array without that field. The model assumes it matches nothing, as a null does in SQL `IN`.
- `store_manager.dfy`: stores with their website ids. Store 0 is the admin store.
- `request_path.dfy`: the suffix strip and append. The `$` anchor of the pattern also matches just before a final newline. The `i` modifier folds ASCII letters only.
- `url_key_generator.dfy`: the specification functions and the `UrlKeyGenerator` class.
  - The class fields are the collaborators, the two suffix settings, the suffix cache and the attribute. The setters and `getSuffix` update them in place.
  - `getProjectedUrlKeys`, `checkUrlKeyAvailability` and `generate` are methods with loops. Each is proved against a specification function.
- `url_key_properties.dfy`: lemmas about the generator.
- `field_validator_exception.dfy`: the exception message.

Conventions of the model:

- The random part of `makeUnique`, `uniqid(rand(), true)`, is injected as a sequence `uniqids`. Pass `j` (from 1) uses `uniqids[j - 1]`.
- `generate` returns a `Result`. The `Err` case is the `NoSuchEntityException` that `getStore` throws for an unknown store id.
- A ghost out-parameter `checks` is the number of passes plus one: the first check and one check per pass. A ghost field `configReads` counts configuration queries.
- The model follows the code in three places where a reader might expect otherwise:
  - A website- or store-scoped attribute whose store id is absent or `0` is checked only under that store id (`[$storeId]`), not in every store.
  - `generate` returns the unsuffixed value.
  - A new entity's candidate is free even when another entity's row sits at the same path, store and entity type (`NewEntityClaimsMatchingRecord`).

## Model

| member | source | states |
|---|---|---|
| UrlKeys.UrlKeyGenerator.constructor | Model/ResourceModel/Entity/UrlKeyGenerator.php:56-68 | stores the storage, store manager, configuration, default suffix and config path; the suffix cache starts empty and no attribute is set |
| UrlKeys.UrlKeyGenerator.SetAttribute | Model/ResourceModel/Entity/UrlKeyGenerator.php:75-80 | the attribute becomes the given one |
| UrlKeys.UrlKeyGenerator.SetDefaultSuffix | Model/ResourceModel/Entity/UrlKeyGenerator.php:87-92 | the default suffix becomes the given one |
| UrlKeys.UrlKeyGenerator.SetSuffixXmlConfigPath | Model/ResourceModel/Entity/UrlKeyGenerator.php:99-104 | the config path becomes the given one; the cache is left as it is |
| UrlKeys.UrlKeyGenerator.GetSuffix | Model/ResourceModel/Entity/UrlKeyGenerator.php:111-126 | returns the default suffix when the path is falsy or the store id is not numeric. Otherwise it returns the store's configured value through the cache: a cached non-null value is returned as is; a missing or null entry is queried (one more config read) and stored. The new cache is exactly the old one with that entry, and no store's suffix changes |
| UrlKeyProperties.CacheFillKeepsSuffixes | Model/ResourceModel/Entity/UrlKeyGenerator.php:113-122 | filling the cache for one store never changes the suffix of any store |
| UrlKeyProperties.DefaultSuffixWithoutConfigPath | Model/ResourceModel/Entity/UrlKeyGenerator.php:113-125 | without a truthy config path, or for an absent store id, the suffix is the default suffix |
| UrlKeyProperties.StaleSuffixAfterPathChange | Model/ResourceModel/Entity/UrlKeyGenerator.php:111-122 | a suffix cached under one path is still returned after the path changes to one configured differently |
| RequestPaths.StripSuffixRemovesAtMostOne | Model/ResourceModel/Entity/UrlKeyGenerator.php:143 | the strip leaves the value alone or removes exactly one case-insensitive copy of the suffix, at the end or just before a final newline |
| RequestPaths.RequestPathShape | Model/ResourceModel/Entity/UrlKeyGenerator.php:142-144 | the request path ends with the exact suffix, preceded by the value with at most one copy of the suffix removed |
| RequestPaths.StripEmptySuffix | Model/ResourceModel/Entity/UrlKeyGenerator.php:143 | with an empty (or null) suffix nothing is stripped |
| RequestPaths.RequestPathIdempotent | Model/ResourceModel/Entity/UrlKeyGenerator.php:142-144 | projecting a projected path again gives the same path |
| RequestPaths.StripCaseFoldedCopy | Model/ResourceModel/Entity/UrlKeyGenerator.php:143 | a value ending with the suffix up to case loses exactly that copy, even when the `$` before a final newline matches first |
| RequestPaths.ShiftedCopyAllNewlines | Model/ResourceModel/Entity/UrlKeyGenerator.php:143 | when the copy before the final newline and the copy at the end both match, the suffix is all newlines |
| RequestPaths.RequestPathNormalisesCase | Model/ResourceModel/Entity/UrlKeyGenerator.php:143-144 | a value ending with the suffix in another case gets the suffix in its configured case |
| RequestPaths.RequestPathAppends | Model/ResourceModel/Entity/UrlKeyGenerator.php:143-144 | a value that does not end with the suffix (and has no final newline) gets the suffix appended |
| RequestPaths.RequestPathBeforeFinalNewline | Model/ResourceModel/Entity/UrlKeyGenerator.php:143 | `shoes.html` plus a newline projects to `shoes`, a newline, `.html`: the suffix is cut before the final newline |
| UrlKeys.ProjectedUrlKeys | Model/ResourceModel/Entity/UrlKeyGenerator.php:140-156 | one criteria array per store id, in order, each projected with that store's suffix |
| UrlKeys.UrlKeyGenerator.GetProjectedUrlKeys | Model/ResourceModel/Entity/UrlKeyGenerator.php:135-157 | the loop returns exactly the projection under the suffixes in force when it started. The new cache is the old one filled for each store id in turn, the config reads grow by one per uncached numeric id, and no store's suffix changes |
| UrlKeys.UrlKeyGenerator.ProjectNext | Model/ResourceModel/Entity/UrlKeyGenerator.php:141-154 | pass i of the loop, stated against the settings the loop started from: the cache and read count grow as for one more store id, and the record uses the suffix in force at the start |
| UrlKeys.UrlKeyGenerator.ProjectForStore | Model/ResourceModel/Entity/UrlKeyGenerator.php:142-153 | one pass of the loop: the record of one store id under its suffix, with the cache and config reads of one `getSuffix` |
| UrlKeys.ReadsToFill | Model/ResourceModel/Entity/UrlKeyGenerator.php:113-122 | filling the cache for n store ids costs at most n config reads, and none without a config path |
| UrlKeys.FillStep | Model/ResourceModel/Entity/UrlKeyGenerator.php:141-142 | one more store id in the loop changes the cache and the read count exactly as one more `getSuffix` does |
| UrlKeys.FilledCacheHolds | Model/ResourceModel/Entity/UrlKeyGenerator.php:113-122 | after the loop, entries cached before survive, every numeric id asked for holds its suffix, and no other entry is added or changed |
| UrlKeys.RefillKeepsCache | Model/ResourceModel/Entity/UrlKeyGenerator.php:113-122 | a second pass over the same store ids leaves the filled cache as it is |
| UrlKeys.FilledKeepsSuffixes | Model/ResourceModel/Entity/UrlKeyGenerator.php:113-122 | filling the cache changes no store's suffix |
| UrlKeys.FilledKeepsSuffix | Model/ResourceModel/Entity/UrlKeyGenerator.php:113-122 | the same for one store |
| UrlKeyProperties.RefillReadsNothing | Model/ResourceModel/Entity/UrlKeyGenerator.php:113-122 | when every store's suffix is non-null, a second pass makes no config read: each is read once |
| UrlKeyProperties.RepeatedReadsIsProduct | Model/ResourceModel/Entity/UrlKeyGenerator.php:257-263 | the reads of the retry passes are the number of passes times the reads of one pass |
| UrlKeys.ProjectionsAgree | Model/ResourceModel/Entity/UrlKeyGenerator.php:142 | the projection depends on the settings only through the suffixes they yield |
| UrlKeyProperties.EmptyFieldsOmitted | Model/ResourceModel/Entity/UrlKeyGenerator.php:146-153 | fields with an empty string form are dropped: the path only for an empty value with no suffix, the entity type when empty, the store id only when absent (0 is kept) |
| UrlKeyProperties.OneRecordPerStore | Model/ResourceModel/Entity/UrlKeyGenerator.php:140-156 | as many records as store ids, record i carries store id i and the entity id, and its path ends with store i's suffix |
| UrlKeyProperties.ProjectionIdempotent | Model/ResourceModel/Entity/UrlKeyGenerator.php:142-153 | re-projecting a record's request path for the same store gives the same record |
| UrlRewriteStorage.FindOneByData | Model/ResourceModel/Entity/UrlKeyGenerator.php:170 | the row found is in the table and matches every present field; none is found exactly when no row matches |
| UrlRewriteStorage.FindAllByData | Model/ResourceModel/Entity/UrlKeyGenerator.php:183-188 | a row is returned exactly when it is in the table with its path and its store id among the given ones |
| UrlKeys.AvailableMeans | Model/ResourceModel/Entity/UrlKeyGenerator.php:164-198 | a candidate is available exactly when every row of the broad query is one of the exact-match rows |
| UrlKeys.QueryDecidesAvailability | Model/ResourceModel/Entity/UrlKeyGenerator.php:166-197 | the broad query over the collected paths and store ids, minus the collected own ids, is empty exactly when the candidate is available |
| UrlKeys.UrlKeyGenerator.CheckUrlKeyAvailability | Model/ResourceModel/Entity/UrlKeyGenerator.php:164-198 | the two loops return exactly availability; the storage is only read |
| UrlKeyProperties.ForeignRecordCollides | Model/ResourceModel/Entity/UrlKeyGenerator.php:170-197 | with unique row ids and an entity id, another entity's row at a projected path in a checked store makes the candidate unavailable |
| UrlKeyProperties.OwnRecordsAreNoCollision | Model/ResourceModel/Entity/UrlKeyGenerator.php:169-197 | when paths are unique per store and every broad match is an exact match of some record, the candidate is available |
| UrlKeyProperties.MissingStoreIdsMatchNothing | Model/ResourceModel/Entity/UrlKeyGenerator.php:176-188 | records without a store id put only nulls in the store list; if a null matches no row, the candidate is available |
| UrlKeyProperties.CrossProductSelfCollision | Model/ResourceModel/Entity/UrlKeyGenerator.php:180-188 | the broad query crosses paths with stores: the entity's own row in store 2 with store 1's path is a collision |
| UrlKeyProperties.NewEntityClaimsMatchingRecord | Model/ResourceModel/Entity/UrlKeyGenerator.php:137-173 | a new entity has no id, so another entity's row at the same path, store and type is counted as its own and the candidate reads as free |
| UrlKeys.Token | Model/ResourceModel/Entity/UrlKeyGenerator.php:207 | the token is the first four characters of the uniqid (all of it when shorter) |
| UrlKeys.MakeUniqueShape | Model/ResourceModel/Entity/UrlKeyGenerator.php:205-208 | the value is kept whole at the front, followed by one hyphen and the token |
| UrlKeyProperties.MutatedLayout | Model/ResourceModel/Entity/UrlKeyGenerator.php:257-263 | after k passes the value is the original followed by k segments, segment j a hyphen and four characters of uniqid j |
| StoreManagement.StoreIds | Model/ResourceModel/Entity/UrlKeyGenerator.php:247 | exactly the ids of existing stores other than the admin store |
| StoreManagement.GetStore | Model/ResourceModel/Entity/UrlKeyGenerator.php:238-239 | a store with the given id, or a no-such-entity error exactly when none exists |
| StoreManagement.WebsiteStoreIds | Model/ResourceModel/Entity/UrlKeyGenerator.php:238-241 | exactly the ids of the stores of the given website |
| UrlKeyProperties.GlobalScopeChecksEveryStore | Model/ResourceModel/Entity/UrlKeyGenerator.php:245-252 | a global attribute, or one without scope, is checked in exactly the non-admin stores |
| UrlKeyProperties.StoreScopeChecksOneStore | Model/ResourceModel/Entity/UrlKeyGenerator.php:242-244 | a store-scoped attribute is checked only in the entity's own store |
| UrlKeyProperties.WebsiteScopeChecksWebsiteStores | Model/ResourceModel/Entity/UrlKeyGenerator.php:236-241 | a website-scoped attribute with a truthy store id is checked in exactly the stores of that store's website, the store included; an unknown id is an error |
| UrlKeyProperties.UnsetStoreIdChecksOnlyItself | Model/ResourceModel/Entity/UrlKeyGenerator.php:228-248 | a website- or store-scoped attribute with an absent or zero store id is checked only under that id |
| UrlKeyProperties.AbsentStoreIdNeverRetries | Model/ResourceModel/Entity/UrlKeyGenerator.php:228-258 | with only an absent store id to check, and a null matching no row, the first value is free and no pass is made |
| UrlKeys.RetryCount | Model/ResourceModel/Entity/UrlKeyGenerator.php:257-263 | the number of passes lies between the starting pass and 100 |
| UrlKeyProperties.RetryCountStopsAtFirstFree | Model/ResourceModel/Entity/UrlKeyGenerator.php:258 | every value tried before the stopping pass collides; the value at the stopping pass is free unless 100 passes were made |
| UrlKeyProperties.NoRetryIffFree | Model/ResourceModel/Entity/UrlKeyGenerator.php:255-265 | no pass is made exactly when the attribute value itself is free, and then that value is returned |
| UrlKeyProperties.AlwaysCollidingGivesUp | Model/ResourceModel/Entity/UrlKeyGenerator.php:257-265 | when every value collides, exactly 100 passes are made |
| UrlKeyProperties.RetryOutcome | Model/ResourceModel/Entity/UrlKeyGenerator.php:257-265 | all values before the returned one collide, and the returned one is free unless the loop gave up |
| UrlKeys.UrlKeyGenerator.Generate | Model/ResourceModel/Entity/UrlKeyGenerator.php:217-266 | an unknown store under website scope is an error with no check made and no cache change. Otherwise the result is the value after the first free pass (or after 100), with one more check than passes, using the suffixes in force at the call. The cache is then filled for the checked store ids, and the config reads are those of the first check plus, per pass, those of a second fill (only null suffixes are read again) |
| UrlKeys.UrlKeyGenerator.RetryUntilAvailable | Model/ResourceModel/Entity/UrlKeyGenerator.php:255-265 | the loop returns the value after the stopping pass and makes one more availability check than passes; the cache and read count are as stated for `Generate` |
| UrlKeys.UrlKeyGenerator.RetryWhileTaken | Model/ResourceModel/Entity/UrlKeyGenerator.php:257-263 | after a first check, the loop stops at the first free pass or after 100, with the value of that pass; the cache stays as the first check left it, and each pass costs the reads of one refill |
| UrlKeys.UrlKeyGenerator.RetryPass | Model/ResourceModel/Entity/UrlKeyGenerator.php:258-261 | pass j appends the token of `uniqids[j - 1]` and checks the result under the suffixes in force at the start, leaving the cache as it is |
| UrlKeys.UrlKeyGenerator.IsAvailable | Model/ResourceModel/Entity/UrlKeyGenerator.php:258-260 | one projection plus one check decides exactly whether the value is free under the suffixes in force when the loop began; the cache is filled for the store ids and the reads counted |
| UrlKeyProperties.BlueShoesScenario | Model/ResourceModel/Entity/UrlKeyGenerator.php:217-266 | `Blue Shoes`, store-scoped in store 1 with suffix `.html` and an empty table, projects to `Blue Shoes.html`, is free and is returned unchanged |
| UrlKeyProperties.ShoesCollides | Model/ResourceModel/Entity/UrlKeyGenerator.php:255-258 | entity 6's `shoes` meets entity 5's `shoes.html` in store 1 and collides |
| UrlKeyProperties.RetriedShoesIsFree | Model/ResourceModel/Entity/UrlKeyGenerator.php:259-260 | any `shoes-` plus a four-character token is free there |
| UrlKeyProperties.CollisionScenario | Model/ResourceModel/Entity/UrlKeyGenerator.php:257-265 | in that shop exactly one pass is made and the result is `shoes-` plus the first token |
| FieldValidation.FormatLine | Exception/FieldValidatorException.php:38-40 | every line starts with the fixed prefix and so is never empty |
| FieldValidation.Lines | Exception/FieldValidatorException.php:37-41 | one line per result, in the order of the results |
| FieldValidation.FilterNonEmpty | Exception/FieldValidatorException.php:43 | keeps exactly the non-empty lines, and never more lines than it was given |
| FieldValidation.FilterAppend | Exception/FieldValidatorException.php:43 | the filter keeps order: filtering two lists in turn gives the two filtered lists in turn (with the membership clause on one-line lists, the result is fixed line by line) |
| FieldValidation.NewFieldValidatorException | Exception/FieldValidatorException.php:33-50 | the message is the newline-join of the lines for a list, or the result's own message for a single result; code and previous are passed through |
| FieldValidation.LinesOfLongerPrefix | Exception/FieldValidatorException.php:37-41 | each pass of the loop appends the line of the next result |
| FieldValidation.LinesAppend | Exception/FieldValidatorException.php:37-41 | the lines of two lists of results are the lines of each in turn |
| FieldValidation.FilterKeepsNonEmpty | Exception/FieldValidatorException.php:43 | a list of non-empty lines passes the filter unchanged |
| FieldValidation.FilterKeepsFormattedLines | Exception/FieldValidatorException.php:43 | the filter never removes a formatted line |
| FieldValidation.ImplodeAppend | Exception/FieldValidatorException.php:44 | joining two non-empty lists gives the two joins with one separator between |
| FieldValidation.EmptyMessageIffNoResults | Exception/FieldValidatorException.php:35-44 | the message of a list is empty exactly when the list is empty |
| FieldValidation.SingleResultOneLine | Exception/FieldValidatorException.php:38-44 | a list of one result gives exactly that result's line |
| FieldValidation.MessageAppendsLine | Exception/FieldValidatorException.php:37-44 | one more result appends a separator and its line to the message |
| FieldValidation.OneLinePerResult | Exception/FieldValidatorException.php:37-44 | when no name holds a newline, a message for n results holds exactly n - 1 newlines |

## Left out

- The randomness of `uniqid(rand(), true)`: it is injected as the sequence `uniqids`, and `generate` requires at least 100 entries.
- The internals of the URL-rewrite storage, the store manager, the scope configuration and the attribute and entity-type metadata. These are modelled as data: a table of rows, a list of stores with website ids, a map from (path, store id) to value, and the attribute's code, entity type and scope. `findOneByData` returns the first matching row in table order.
- `array_unique` on the ids, paths and store ids collected in `checkUrlKeyAvailability`: the model keeps duplicates, which changes neither `in_array` nor SQL `IN`.
- The `instanceof AbstractExtensibleModel` choice of the store-id field name: the entity carries its store-id value directly.
- A null or non-string attribute value: it is read as a string, and a missing one as the empty string.
- Characters that `preg_quote` leaves unescaped before PHP 7.3 (`#`, the pattern delimiter): the model treats every suffix literally.
- Full PCRE semantics: only the strip of one case-insensitive trailing copy of the suffix is modelled, including the `$` match before a final newline.
- The fluent `return $this` of the setters.
- The race between the availability check and the caller's later save of the rewrite: the class never writes, and concurrency is not modelled.
- The exception object's base-class behaviour (stack trace, file and line): the exception is the value of its message, code and previous exception, and `PHP_EOL` is `"\n"`.
- UrlKeys.UrlKeyGenerator.Generate: requires an attribute to be set. In PHP a missing attribute is a fatal call on null.
- UrlKeys.UrlKeyGenerator.CheckUrlKeyAvailability: a criteria array without a store id or request path (line 153 drops empty fields) is read at lines 175-176 as a silent null. PHP raises an undefined-key warning there, and Magento's error handler may turn it into an exception.
- UrlRewriteStorage.FindAllByData: a null in either list is assumed to match no row. How the storage's SQL layer quotes a null is not part of this model.
- UrlKeyProperties.MissingStoreIdsMatchNothing: holds only under the two assumptions above (silent null, null matches nothing).
- UrlKeyProperties.AbsentStoreIdNeverRetries: rests on MissingStoreIdsMatchNothing, and so on the same two assumptions.
