# laravel-hunt in Dafny

A Dafny model of the core of Torann/laravel-hunt, a Laravel package that keeps
Eloquent models in one Elasticsearch index and searches them. The model covers:

- the `Hunter` service (src/Hunter.php):
  - the bulk `update` and `remove` requests;
  - the search parameters (`getBasicParams`, `getSearchParams`), with the
    locale filter and the must-filters;
  - `search`, `quickSearch` and their paging;
  - grouping results by table;
  - rebuilding models from search hits, recursively through their relations
    and pivots;
- the fluent search `Builder` (src/Builder.php);
- the `Huntable` trait (src/Huntable.php);
- the `ModelObserver` that reindexes a model on its lifecycle events
  (src/ModelObserver.php);
- the argument handling shared by the console commands
  (src/Console/AbstractCommand.php).

PHP values are the datatype `Php.Value`:

- null, booleans, integers, strings;
- ordered arrays of key/value pairs, with PHP's numeric-string key
  normalisation;
- model objects.

`Arr::get` (an existing key wins, then a dotted path), `array_filter`,
`array_merge`, `empty`, `is_numeric`, `explode`, `implode`, `strtolower`,
`basename`, `preg_replace('/\s+/', '')` and `Str::studly` are written out as
functions. Every PHP error or exception the code can raise becomes a
`Php.Fault` in a `Result`. This includes the notices Laravel's error handler
turns into exceptions.

The rest of the environment is modelled as follows:

- The Elasticsearch client is the list of requests the `Hunter` has sent
  (`Hunter.Hunter.requests`). Each response is a parameter.
- The current page and `config('app.locale')` are parameters.
- The classes the application defines form a `Registry`. For each class it
  records the table, the `searchableAs` override, `$mappingProperties`,
  `getPerPage`, whether it is huntable and its relation methods.

Where the code is a loop or changes state, the model is a method. Examples are
`update`, `remove`, `groupResults`, `isMultiLevelArray`, the relation walk of
`loadRelationsAttributesRecursive` and the `array_map`s of the hydration. Each
such method is proved equal to a function of its inputs. The properties are
proved about those functions.

## Model

| member | source | states |
|---|---|---|
| Hunter.Hunter.constructor | src/Hunter.php:42-48 | the configuration is kept; the locale is ignored exactly when no `locale_field` is configured; no request has been sent yet |
| Hunter.Hunter.IgnoreLocale | src/Hunter.php:389-392 | the flag takes the given value |
| Hunter.Hunter.Update | src/Hunter.php:122-154 | exactly one bulk request is appended, with refresh on and a body of one index action and one document per model, in order; a single model counts as a one-model collection |
| Hunter.Hunter.Remove | src/Hunter.php:163-186 | exactly one bulk request is appended, with refresh on and a body of one delete action per model, in order |
| BulkSync.AsCollection | src/Hunter.php:125-127 | a single model becomes a one-element collection; a collection is kept as it is |
| BulkSync.BulkParams | src/Hunter.php:150-153 | the bulk parameters ask for a refresh and carry the body as a list |
| BulkSync.SingleModelBodies | src/Hunter.php:131-148 | for one model, the update body is its index action followed by its document, and the remove body is its delete action |
| BulkSync.UpdateBodySnoc | src/Hunter.php:131-148 | each further model appends exactly its action and its document to the update body |
| BulkSync.RemoveBodySnoc | src/Hunter.php:172-180 | each further model appends exactly its delete action to the remove body |
| BulkSync.UpdateBodyLength | src/Hunter.php:131-148 | the update body has two entries per model, because the `empty($array)` guard never skips a model |
| BulkSync.UpdateBodyShape | src/Hunter.php:131-148 | entry 2i of the update body is the i-th model's index action and entry 2i+1 is its document: no model is skipped, repeated or reordered |
| BulkSync.RemoveBodyShape | src/Hunter.php:172-180 | the remove body holds exactly one delete action per model, in order |
| BulkSync.IndexActionFields | src/Hunter.php:138-145 | an index action names the configured index (`default` when none is set), the model's index type and key, and retries 3 times on conflict |
| Documents.GetIndexName | src/Hunter.php:616-619 | the configured `index`, or `default` when the key is absent |
| Documents.ModelIndexNameFallback | src/Hunter.php:561-568 | a model's index type is its `searchableAs()` when its class declares one, else its table |
| Documents.GetModelDocumentData | src/Hunter.php:577-586 | the document always carries the model's class under `huntable_type`, so it is never empty |
| Documents.DocumentDataKeepsFields | src/Hunter.php:577-586 | every other document field is the model's own `toArray()` field |
| Documents.GetModelParams | src/Hunter.php:456-463 | every parameter kept is truthy |
| Documents.ModelParamsFields | src/Hunter.php:456-463 | index, type and id are each present exactly when truthy, and then with their own value |
| Huntable.GetMappingProperties | src/Huntable.php:31-34 | the class's mapping properties when truthy, otherwise an empty array |
| Huntable.GetHunterIndex | src/Huntable.php:61-64 | a model's index is its table name |
| Huntable.GetHunterDocumentData | src/Huntable.php:84-87 | a model's document data is its `toArray()` |
| Huntable.NewInstance | src/Huntable.php:74-77 | `new static` gives an instance of the class with no key, no data and no score |
| HuntableHooks.AddToHunt | src/Huntable.php:41-44 | one bulk request: the model's index action followed by its document |
| HuntableHooks.RemoveFromHunt | src/Huntable.php:51-54 | one bulk request: the model's delete action |
| HuntableHooks.Search | src/Huntable.php:74-77 | a new builder over a fresh instance of the class, with the query and options given and no limit |
| ModelObserver.Created | src/ModelObserver.php:12-15 | a created model is indexed by one bulk request |
| ModelObserver.Updated | src/ModelObserver.php:22-25 | an updated model is indexed again, exactly as on creation |
| ModelObserver.Deleted | src/ModelObserver.php:32-35 | a deleted model's document is deleted by one bulk request |
| ModelObserver.Restored | src/ModelObserver.php:42-45 | a restored model is indexed again, exactly as on creation |
| Php.ToPhpString | src/Hunter.php:378 | a string converts to itself; converting an array or an object is an error, whether for a `preg_replace` subject or for the `'filter_musts.' . $locale_field` concatenation |
| Query.StripEach | src/Hunter.php:378 | an array of types keeps its keys, and every value becomes a string without whitespace |
| Query.StripTypes | src/Hunter.php:378 | a string of types loses all its whitespace; the result is a string or an array of strings |
| Query.SizeFromParams | src/Hunter.php:367-368 | `size` is the caller's when numeric and 25 otherwise; `from` is the caller's when numeric and null otherwise |
| Query.BasicCandidatesLookup | src/Hunter.php:376-381 | the four candidate parameters are index, type, size and from, with their values, and there is no `body` |
| Query.GetBasicParams | src/Hunter.php:365-382 | every kept parameter is truthy and there is no `body`; it fails exactly when the types cannot be stripped |
| Query.BasicParamsLookup | src/Hunter.php:376-381 | a parameter is present exactly when its candidate is truthy, and then with the candidate's value |
| Query.BasicParamsFields | src/Hunter.php:365-382 | size is the caller's when numeric and truthy, 25 when absent or not numeric, and absent when 0; from is present only when numeric and truthy; index is the configured index when truthy |
| Query.BasicParamsType | src/Hunter.php:369-378 | the type is the stripped types option when truthy; a string of types becomes a type without whitespace |
| Query.DefaultTypes | src/Hunter.php:369 | with no `types` in the options or the configuration, every type (`_all`) is searched and the basic parameters are built |
| Query.SearchOptionsLookup | src/Hunter.php:223-226 | the caller's own `size` and `from` win over the paging ones |
| Query.PageOffset | src/Hunter.php:220-226 | a page starts `(page - 1) * perPage` results in, and a zero offset or zero size is dropped from the parameters |
| Query.FirstPageHasNoOffset | src/Hunter.php:225 | the first page sends no `from` |
| Query.PagingParams | src/Hunter.php:365-382 | integer size and from reach the parameters exactly when non-zero |
| Query.QueryClauseShape | src/Hunter.php:415-426 | with fields, the term is the one `multi_match` under `bool.must` and there is no `match`; without fields, it is the one entry of `match._all` and there is no `bool` |
| Query.LocaleOptions | src/Hunter.php:429-433 | the options are unchanged when the locale is ignored or no locale field is configured |
| Query.LocalePathFacts | src/Hunter.php:430 | `filter_musts.<field>` is read as the two-step path `filter_musts`, then the field |
| Query.LocaleLookup | src/Hunter.php:430 | the caller's locale filter is read from `filter_musts[<field>]`, and is null when absent |
| Query.LocaleInjected | src/Hunter.php:429-433 | without must-filters from the caller, the application locale becomes the filter on the locale field |
| Query.LocaleRespectsCaller | src/Hunter.php:429-433 | a non-null locale filter from the caller is kept as it is |
| Query.LocaleIntoFilters | src/Hunter.php:430-431 | with the caller's locale filter null or absent, the locale is added to the caller's must-filters, replaces null or false must-filters, and any other scalar must-filters are an error |
| Query.LocaleMerged | src/Hunter.php:429-433 | must-filters from the caller without the locale field keep every filter and gain the locale |
| Query.LocaleOverridesNull | src/Hunter.php:429-433 | a null locale filter from the caller is replaced by the application locale, and the other filters are kept |
| Query.LocaleReplacesFalsy | src/Hunter.php:429-433 | must-filters given as null or false become the locale alone |
| Query.LocaleArrayField | src/Hunter.php:429-430 | an array `locale_field` makes the locale step fail on array-to-string conversion |
| Query.TermClausesMembers | src/Hunter.php:437-443 | one `term` clause per filter, and a clause for a filter exactly when it is one of them |
| Query.FilterClausesExact | src/Hunter.php:437-443 | the `term` clauses are exactly those of the truthy must-filters, at most one per filter |
| Query.MustFiltersLookup | src/Hunter.php:436 | the must-filters are the `filter_musts` option, or null without one |
| Query.FilterSectionDig | src/Hunter.php:438-442 | `filter.bool.must` holds the clauses when there are any and is absent otherwise; the query is kept |
| Query.SearchBodyShape | src/Hunter.php:415-443 | the body's `query` is the query clause of the term; `filter.bool.must` holds the `term` clauses of the truthy must-filters, and is absent when there are none |
| Query.WithBodyShape | src/Hunter.php:417-438 | adding the body leaves every basic parameter as it was |
| Query.SearchParamsValue | src/Hunter.php:402-447 | successful search parameters are the basic parameters plus the body built from the term, the fields and the must-filters after the locale step |
| Query.SearchParamsBody | src/Hunter.php:402-447 | the search parameters keep every basic parameter, and their body carries the query clause and the must-filter clauses |
| Query.SearchParamsSuccess | src/Hunter.php:402-447 | the parameters are built exactly when the basic parameters and the locale step succeed and the must-filters are falsy or an array |
| Query.GetSearchParamsAsWritten | src/Hunter.php:445 | as written, `getSearchParams` never returns parameters: whenever it gets that far, it dumps them and stops |
| Query.AsWrittenNeverReturns | src/Hunter.php:445 | for default types and no must-filters, parameters are built, yet the code as written dumps them instead of returning them |
| Hunter.Hunter.GetSearchParams | src/Hunter.php:402-447 | computes the search parameters, the must-filter loop included |
| Hunter.Hunter.TermFilters | src/Hunter.php:437-443 | the loop produces one `term` clause per must-filter, in order |
| Hunter.SearchParamsSteps | src/Hunter.php:402-447 | once the basic parameters and the locale step are known, the search parameters fail exactly when the must-filters are truthy and not an array |
| Hunter.Hunter.PerformSearch | src/Hunter.php:242-247 | one search request is sent when the parameters can be built; the result is the hydrated response |
| Hunter.Hunter.PaginateResults | src/Hunter.php:293-304 | computes the page of the response, or the error reading it raises |
| Hunter.CurrentPage | src/Hunter.php:299 | the paginator's page number is at least 1: the given page when it is 1 or more, else 1 |
| Hunter.PaginatedPage | src/Hunter.php:293-304 | a page is built exactly when `hits.total` and the hits can be read and the page size is non-zero (the paginator divides by it); it holds every hydrated hit, the total, the page size, the page number (a number below 1 counting as page 1) and the term to append |
| Hunter.Hunter.Search | src/Hunter.php:217-232 | one search request for the requested page of `perPage` results; the result is that page |
| Hunter.Hunter.QuickSearch | src/Hunter.php:197-206 | one search request of `perPage` results; grouped by table when asked |
| Hunter.QuickOptionsLookup | src/Hunter.php:199-201 | a quick search asks for `perPage` results and sets no offset |
| Hunter.QuickSearchSize | src/Hunter.php:197-206 | the quick search's size is `perPage` when numeric and truthy, 25 when not numeric, and absent when 0; there is never an offset |
| Hunter.QuickSearchGroups | src/Hunter.php:197-206 | the results are grouped exactly when `group` is truthy; otherwise they are the search's results; grouped, every result is present and every group holds the results of its table in order |
| Hunter.Hunter.GroupResults | src/Hunter.php:272-281 | the loop computes the grouping of the results |
| Hunter.GroupResultsNull | src/Hunter.php:276-278 | a null result makes grouping fail on `getTable()` |
| Hunter.GroupResultsAll | src/Hunter.php:272-281 | with every result present, grouping gives the groups built result by result |
| Hunter.GroupResultsByTable | src/Hunter.php:272-281 | grouping succeeds only when every result is present; the group of each table holds exactly the results of that table, in order |
| Hunter.GroupedUpToPresent | src/Hunter.php:276-278 | building the groups result by result gives the groups of the present results |
| Hunter.GroupedByTable | src/Hunter.php:276-278 | each table's group holds exactly that table's models, in order; table keys are distinct; no group is empty |
| Hunter.GroupExists | src/Hunter.php:276-278 | a group exists exactly when some model has that table |
| Hunter.AddToGroupOf | src/Hunter.php:277 | adding a model appends it to its table's group and changes no other group |
| Hunter.AddToGroupOrigin | src/Hunter.php:277 | adding a model introduces its table's key and no other |
| Hunter.AddToGroupKeys | src/Hunter.php:277 | adding a model keeps the group keys distinct |
| Hunter.AddToGroupNonEmpty | src/Hunter.php:277 | adding a model leaves no group empty |
| Hunter.FirstGroupOf | src/Hunter.php:272-281 | with distinct keys, a group is found by its key |
| Hunter.GroupOfFound | src/Hunter.php:272-281 | a non-empty group found by key is one of the groups |
| Hydration.ClassName | src/Hunter.php:323 | the class `new $model` instantiates is the name without a leading backslash |
| Hydration.NewFromHitBuilder | src/Hunter.php:313-330 | computes the model a hit rebuilds, the error a malformed hit raises, or null for a hit without a type |
| Hydration.FromHitSteps | src/Hunter.php:313-330 | a typed hit builds its class from its attributes and takes its score; an unknown class, a failed build or a missing score is an error |
| Hydration.UntypedHitSkipped | src/Hunter.php:316 | a hit whose document has no truthy `huntable_type` gives null |
| Hydration.TypedHitModel | src/Hunter.php:316-329 | a rebuilt model is of the document's class and carries the hit's score; `huntable_type` is no longer an attribute, and `result_type` is the type's lower-cased short name |
| Hydration.ResultTypeIsShortName | src/Hunter.php:320 | `result_type` is the last namespace segment of the lower-cased class name |
| Hydration.LowerHasNoSlash | src/Hunter.php:320 | lower-casing introduces no `/` |
| Hydration.BuildFromTypeFacts | src/Hunter.php:320-323 | the model built for a type has that class and no score, drops `huntable_type` and sets `result_type` |
| Hydration.NewFromBuilderRecursive | src/Hunter.php:341-356 | computes the instance built from raw attributes: relations loaded, then the pivot |
| Hydration.BuildAttributes | src/Hunter.php:341-356 | a built model keeps every raw attribute except the relation attributes and `pivot`; it has a pivot exactly when a `pivot` attribute remains; it has its class and table and no score |
| Hydration.LoadRelationsAttributesRecursive | src/Hunter.php:470-496 | the loop over the attributes computes which attributes stay and which relations are loaded |
| Hydration.LoadRelationsKeeps | src/Hunter.php:470-496 | the attributes left after loading are exactly those not named after a relation, in order |
| Hydration.LookupKept | src/Hunter.php:490 | a relation attribute is unset; every other attribute is looked up as before |
| Hydration.KeptMembers | src/Hunter.php:490 | a kept attribute is one of the attributes and is not a relation |
| Hydration.KeptConcat | src/Hunter.php:474-495 | keeping the attributes of two runs is keeping them in each |
| Hydration.KeptDistinct | src/Hunter.php:490 | unsetting attributes keeps the keys distinct |
| Hydration.HydrateRelation | src/Hunter.php:483-487 | computes the related models of one relation attribute |
| Hydration.RelationItems | src/Hunter.php:483-485 | null and single-level arrays stand for one model, multi-level arrays for one model per element; any other value is an error |
| Hydration.RelationItemsCount | src/Hunter.php:483-485 | null gives one item; a multi-level array gives one item per element; a single-level array is wrapped as the one item |
| Hydration.IsMultiLevelArray | src/Hunter.php:525-534 | true exactly when every value of the array is itself an array |
| Hydration.ItemAttributes | src/Hunter.php:548 | a falsy item gives no attributes; an array gives its entries; any other truthy item is an error |
| Hydration.HydrateRecursive | src/Hunter.php:545-552 | the `array_map` computes one related model per item |
| Hydration.HydrateItemsStep | src/Hunter.php:547-549 | each item contributes its model, in order |
| Hydration.HydrateItemsLength | src/Hunter.php:545-552 | one related model per item, each of the relation's class and with no score |
| Hydration.LoadPivotAttribute | src/Hunter.php:504-514 | computes the attributes left and the pivot set: a `pivot` attribute moves into the parent relation's pivot, or is an error without a pivot relation |
| Hydration.HydrateResults | src/Hunter.php:256-263 | the `array_map` computes one entry per hit |
| Hydration.HitModelsStep | src/Hunter.php:258-260 | each hit contributes its entry, in order |
| Hydration.HitModelsLength | src/Hunter.php:256-263 | one entry per hit, in order, each the model that hit rebuilds |
| Hydration.HitsWellFormed | src/Hunter.php:260 | the hits of a well-formed response are well-formed |
| Hydration.HitAttributesWellFormed | src/Hunter.php:319-320 | the attributes of a well-formed document are well-formed |
| Builder.Builder.constructor | src/Builder.php:42-47 | the builder keeps the model, the query and the options, with no limit |
| Builder.Builder.Take | src/Builder.php:56-61 | sets the limit and returns the builder itself |
| Builder.Builder.Get | src/Builder.php:78-87 | one search with the builder's options, `size` the limit and `types` the model; the result is the hydrated hits |
| Builder.Builder.First | src/Builder.php:68-71 | the first result of `get`, or null when there is none |
| Builder.FirstSpec | src/Builder.php:68-71 | fails exactly when the search fails; otherwise the first result, or null for none |
| Builder.Builder.Paginate | src/Builder.php:96-106 | one paginated search over the model's type, with `perPage` defaulting to the model's |
| Builder.PerPage | src/Builder.php:98 | a non-zero `perPage` is used as it is; 0 falls back to the model's `getPerPage()` |
| Builder.GetOptionsOverride | src/Builder.php:81-84 | `get` asks for the limit and the builder's model type, whatever the caller's options say; every other string-keyed option is the caller's |
| Builder.PaginateOptionsOverride | src/Builder.php:101-103 | `paginate` searches the builder's model type; every other string-keyed option is the caller's |
| Builder.BuilderSearchesModel | src/Builder.php:78-106 | a builder always searches its model's index type; `get` asks for the limit when numeric, else 25 |
| Console.GetActionArgument | src/Console/AbstractCommand.php:34-43 | succeeds exactly when the lower-cased action is valid, returning it; otherwise raises "The [action] option does not exist." |
| Console.ActionCaseInsensitive | src/Console/AbstractCommand.php:36 | the action is matched whatever its case |
| Console.ToLowerIdempotent | src/Console/AbstractCommand.php:36 | lower-casing twice is lower-casing once |
| Console.GetModelArgument | src/Console/AbstractCommand.php:50-61 | one name per comma-separated piece of the argument with whitespace removed; each name is the piece with every namespace segment studly-cased |
| Console.ModelNames | src/Console/AbstractCommand.php:50-61 | no returned name holds a comma, whitespace, `-` or `_`; its namespace segments are the studly-cased segments of the piece |
| Console.ModelPlain | src/Console/AbstractCommand.php:52 | a comma-separated piece of the stripped argument holds no comma and no whitespace |
| Console.ModelArgumentIdempotent | src/Console/AbstractCommand.php:50-61 | normalising the normalised list of names again changes nothing |
| Console.StudlyPathSegments | src/Console/AbstractCommand.php:55-59 | the segments of a studly-cased class name are the studly-cased segments of the name |
| Console.StudlyPathIdempotent | src/Console/AbstractCommand.php:55-59 | studly-casing a class name twice is studly-casing it once |
| Console.StudlyEach | src/Console/AbstractCommand.php:55-57 | every segment is studly-cased, in order |
| Console.StudlyFrom | src/Console/AbstractCommand.php:56 | studly-casing removes every `-`, `_` and space and never lengthens the word |
| Console.StudlyKeeps | src/Console/AbstractCommand.php:56 | studly-casing keeps every character that is neither a letter nor a separator, and adds none |
| Console.StudlyNoWhitespace | src/Console/AbstractCommand.php:56 | studly-casing introduces no whitespace |
| Console.StudlyFromIdempotent | src/Console/AbstractCommand.php:56 | studly-casing an already studly-cased word changes nothing |
| Console.StudlyIdempotent | src/Console/AbstractCommand.php:56 | studly-casing twice is studly-casing once |
| Console.StudlyWord | src/Console/AbstractCommand.php:56 | a word without separators only has its first letter capitalised |
| Console.PlainTail | src/Console/AbstractCommand.php:56 | a word without separators is left alone after its first letter |
| Console.StudlyPlain | src/Console/AbstractCommand.php:56 | a segment without backslash, comma or whitespace stays so |
| Console.UpperChar | src/Console/AbstractCommand.php:56 | upper-casing keeps letters letters, and only changes lower-case letters |
| Console.Qualified | src/Console/AbstractCommand.php:72 | a name is qualified with a leading backslash |
| Console.ValidateInAppNamespace | src/Console/AbstractCommand.php:72 | a name without a leading backslash is looked up in the `App` namespace |
| Console.ValidateModel | src/Console/AbstractCommand.php:69-89 | an empty name is an error; otherwise the qualified name is accepted exactly when its class exists and is huntable, and the reported error names the qualified class |
| Console.ValidateAcceptedAgain | src/Console/AbstractCommand.php:69-89 | validating an accepted name again accepts it unchanged |
| PhpString.StripWhitespaceIdempotent | src/Console/AbstractCommand.php:52 | removing whitespace twice is removing it once |
| PhpString.ImplodeExplode | src/Console/AbstractCommand.php:52-59 | splitting at a character and joining again gives back the string |
| PhpString.ExplodeImplode | src/Console/AbstractCommand.php:52-59 | joining parts without the separator and splitting again gives back the parts |
| PhpString.AfterLastIsLastPiece | src/Hunter.php:320 | the text after the last separator is the last piece of splitting at that separator |

## Left out

- Client construction and the request transport are left out. This covers
  `ClientBuilder::fromConfig`, AWS request signing (src/Handlers/AwsSignature.php
  is not part of this model), and network faults. Sent requests are recorded
  and responses are parameters.
- The mapping operations of `Hunter` are left out: `typeExists`,
  `getMapping`, `putMapping` and `deleteMapping`. Each is one client call,
  outside the searching and indexing core.
- The console commands themselves (import, map, flush, install, uninstall) and
  the error output of `validateModel` are left out. `validateModel` returns
  the message it prints instead of printing it.
- `LengthAwarePaginator::resolveCurrentPage`, `Paginator::resolveCurrentPath`
  and the paginator's link rendering are left out. The page number is a
  parameter, and the page records its items, total, size, number and appends.
  Of the paginator's constructor only two steps are modelled. A page number
  below 1 is kept as page 1. The total is divided by the page size, so a zero
  page size is a division-by-zero fault, raised after the search request has
  been sent.
- Hunter.PaginatedPage: `hits.total` is taken to be a number, as the engine
  returns it. A non-numeric total, which would fail in the paginator's
  division, is not modelled as a fault.
- PHP default arguments are not modelled as such. Every modelled operation
  takes all its arguments, and a caller passes the defaults explicitly:
  `search` has perPage 15 and options `[]`; `quickSearch` has perPage 10 and
  group false; `Builder::paginate` has perPage 15; `performSearch`,
  `getBasicParams`, `getSearchParams` and the builder's constructor have
  options `[]`.
- Hunter.Hunter.Update: the bulk response returned by `update`, `remove`,
  `addToHunt` and `removeFromHunt` is not modelled. The client's
  responses are outside the model, and the sent request is recorded instead.
- Floating-point values do not occur in the model. `is_numeric` covers
  integers and numeric strings.
- Hydration.NewFromHitBuilder: `Relation::match` is not modelled. A relation
  gets every model hydrated for it, not only those whose keys match the
  parent. A `BelongsTo`-style relation is not reduced to a single model.
- Hydration.LoadRelationsAttributesRecursive: an attribute is a relation
  exactly when the class declares a relation method of that name. A
  non-relation method of the same name, a method inherited from `Model`, and
  PHP's case-insensitive method lookup are not modelled.
- Hydration.ClassName: class names are matched case-sensitively, whereas PHP
  matches them case-insensitively.
- Query.StripTypes: a model object used as a `preg_replace` subject (a model
  in an array of types) is modelled as an error. Its JSON conversion is not
  modelled.
- Query.SearchParams: a model given as `filter_musts` is an object, not an
  array. It is treated like any other non-array value, and its array access
  is not modelled.
- Console.GetActionArgument: `in_array` is loose in PHP. It is modelled as
  string equality, which agrees with PHP for non-numeric action names.
- Console.StudlyFrom: upper- and lower-casing are ASCII only. Word breaks
  follow `ucwords` with its default delimiters.
- Console.ValidateModel: `method_exists($model, 'getMappingProperties')` is
  the class's huntable flag.
- Hunter.Hunter.PerformSearch: a response is assumed to be the decoded JSON of
  the engine (`WellFormed`: no duplicate keys). A well-formed response is
  required, not checked.
- The `multilingual` and `model_namespace` settings are left out. The
  modelled code never reads them. The comment on `multilingual`
  (config/hunt.php:130-131) says it suffixes the type with the locale code,
  but `getBasicParams` has no such step, so the model has none either.
- `hydrateResults` keeps a null for a hit without `huntable_type`
  (src/Hunter.php:316), and `groupResults` then fails on `getTable()`
  (src/Hunter.php:277).

## Findings

| source | as written | input that shows it | evidently intended | confidence | as-written member | corrected member |
|---|---|---|---|---|---|---|
| src/Hunter.php:445 | `dd($params)` dumps the parameters and ends the request, so `getSearchParams` never returns and no search is ever sent | any search whose parameters can be built, e.g. no `types` and no `filter_musts`, with the locale ignored | return the parameters (line 446) | high; not executed | Query.AsWrittenNeverReturns | Hunter.Hunter.GetSearchParams |
