# Dynamic synteny adapter: a Dafny model

This project models the core of a JBrowse 2 plugin that fetches macro-synteny
alignments from a REST endpoint. The plugin turns them into paired features for
the dotplot and linear synteny views. The model covers three parts:

- **The record transformation** in `DynamicSyntenyAdapter.ts`:
  - dotted-path field lookup (`getNestedValue`);
  - JavaScript `parseInt` coercion of coordinates, and the `TypeError` raised when a value cannot be turned into text;
  - per-record validation;
  - strand normalisation;
  - the `uniqueId`;
  - the flip rule that chooses query or target as the primary feature, with the other side as its `mate`;
  - the batch loop that drops bad records and keeps each survivor's original index (`parseAlignments`).
- **The cache and in-flight coordinator** of the same adapter. This covers the cache key, the freshness test, the client-side overlap filter, the deduplication of concurrent fetches in `getFeatures`, `freeResources` and the auto-refresh tick. It is a sequential state machine driven by explicit events: request, fetch completed, timer tick, release. Requests and fetch completions carry the clock reading at which they happen; ticks and releases need none.
- **The settings widget state** in `model.ts`. This covers `DEFAULT_CONFIG`, the single-field setters, `addAssemblyName`, `removeAssemblyName` with JavaScript `splice` semantics, and `resetToDefaults`.

A response body is a JSON value (`JsonValue.Json`), and JavaScript's `undefined` is `Option.None`.

Modules, one file each:
- `Options`: `Option` and `Result`.
- `JsText`: decimal digits, `parseInt` on text, and `split`/`join`.
- `JsonValue`: JSON values and the JavaScript coercions.
- `FieldResolver`: `getNestedValue`.
- `Identifiers`: the `uniqueId` and cache-key strings and their decoders.
- `AlignmentParser`: validation, strand, flip and the batch loop.
- `CacheView`: key, freshness, overlap and filter.
- `CacheCoordinator`: the request / fetch / tick / free state machine.
- `WidgetSettings`: the widget state.

## Model

| member | source | states |
|---|---|---|
| JsText.DigitsRoundTrip | src/DynamicSyntenyAdapter/DynamicSyntenyAdapter.ts:362 | reading back the decimal rendering of a natural number gives the number |
| JsText.ParseIntOfDec | src/DynamicSyntenyAdapter/DynamicSyntenyAdapter.ts:319-327 | `parseInt` of an integer's decimal text, followed by anything not starting with a digit, is that integer |
| JsText.ParseIntRejectsLeadingText | src/DynamicSyntenyAdapter/DynamicSyntenyAdapter.ts:319-327 | text starting with anything other than whitespace, a sign or a digit parses to NaN |
| JsText.ParseIntSkipsSpace | src/DynamicSyntenyAdapter/DynamicSyntenyAdapter.ts:319-327 | leading JavaScript whitespace does not change what `parseInt` yields |
| JsText.DigitRunIsMaximal | src/DynamicSyntenyAdapter/DynamicSyntenyAdapter.ts:319-327 | `parseInt` reads the longest run of leading digits: all of the run is digits and the character after it is not |
| JsText.TrimStartRemovesSpace | src/DynamicSyntenyAdapter/DynamicSyntenyAdapter.ts:319-327 | trimming removes exactly a prefix of whitespace and leaves text that does not start with whitespace |
| JsText.SplitPiecesLackSeparator | src/DynamicSyntenyAdapter/DynamicSyntenyAdapter.ts:19 | no piece of `path.split('.')` contains a dot |
| JsText.JoinSplit | src/DynamicSyntenyAdapter/DynamicSyntenyAdapter.ts:19 | joining the pieces of a split with the separator gives back the original path, empty pieces included |
| JsText.SplitWithoutSeparator | src/DynamicSyntenyAdapter/DynamicSyntenyAdapter.ts:19 | a path without a dot splits into itself alone |
| JsText.SplitAppend | src/DynamicSyntenyAdapter/DynamicSyntenyAdapter.ts:19 | splitting `p.q` gives the pieces of `p` followed by the pieces of `q` |
| JsonValue.ParseIntOfNumber | src/DynamicSyntenyAdapter/DynamicSyntenyAdapter.ts:319-327 | an integer, its decimal string and a one-element array holding it all coerce to that integer |
| JsonValue.ParseIntOfNonNumbers | src/DynamicSyntenyAdapter/DynamicSyntenyAdapter.ts:319-327 | undefined, null, booleans, the empty array and every object without its own `toString` member coerce to NaN |
| JsonValue.ToStringMemberBlocksConversion | src/DynamicSyntenyAdapter/DynamicSyntenyAdapter.ts:319-327 | an object converts to text exactly when it has no own `toString` member, and an array holding such an object anywhere does not convert, so `parseInt` and the template literal throw on them |
| FieldResolver.ArrayIndex | src/DynamicSyntenyAdapter/DynamicSyntenyAdapter.ts:19 | a key indexes an array only if it is the canonical decimal form of the index |
| FieldResolver.ArrayIndexOfDigits | src/DynamicSyntenyAdapter/DynamicSyntenyAdapter.ts:19 | every index's canonical decimal form is accepted as that index |
| FieldResolver.WalkUndefined | src/DynamicSyntenyAdapter/DynamicSyntenyAdapter.ts:19 | once the walk reaches undefined it stays undefined, whatever keys follow, and it never fails |
| FieldResolver.WalkAppend | src/DynamicSyntenyAdapter/DynamicSyntenyAdapter.ts:19 | walking `a + b` is walking `a` and then `b` from where it stopped: keys are applied left to right |
| FieldResolver.UndefinedPrefixPropagates | src/DynamicSyntenyAdapter/DynamicSyntenyAdapter.ts:18-20 | if any prefix of the path resolves to undefined, the whole path does |
| FieldResolver.TopLevelPath | src/DynamicSyntenyAdapter/DynamicSyntenyAdapter.ts:18-20 | a path without a dot is a plain top-level member lookup |
| FieldResolver.NestedPath | src/DynamicSyntenyAdapter/DynamicSyntenyAdapter.ts:18-20 | resolving `p.q` is resolving `q`'s pieces from the value at `p` |
| FieldResolver.LastSegment | src/DynamicSyntenyAdapter/DynamicSyntenyAdapter.ts:18-20 | the last dot-free segment is one member lookup on the value at the prefix |
| FieldResolver.QueryNameExample | src/DynamicSyntenyAdapter/DynamicSyntenyAdapter.ts:15-17 | the documented example: `query.name` of `{query: {name: 'chr1'}}` is `'chr1'` |
| Identifiers.AlignmentIdRoundTrip | src/DynamicSyntenyAdapter/DynamicSyntenyAdapter.ts:362 | when names contain no ':', the `uniqueId` decodes back to both names and all four coordinates |
| Identifiers.AlignmentIdInjective | src/DynamicSyntenyAdapter/DynamicSyntenyAdapter.ts:362 | when names contain no ':', different records get different ids |
| Identifiers.AlignmentIdCollision | src/DynamicSyntenyAdapter/DynamicSyntenyAdapter.ts:362 | names containing ':' and '_' can give two different records the same id |
| Identifiers.GlobalKeyInjective | src/DynamicSyntenyAdapter/DynamicSyntenyAdapter.ts:77 | global keys of different assemblies differ |
| Identifiers.RegionKeyRoundTrip | src/DynamicSyntenyAdapter/DynamicSyntenyAdapter.ts:81 | when assembly and reference contain no ':', a region key decodes back to assembly, reference and range |
| Identifiers.RegionKeyInjective | src/DynamicSyntenyAdapter/DynamicSyntenyAdapter.ts:81 | when names contain no ':', different windows get different keys |
| Identifiers.RegionKeyCollision | src/DynamicSyntenyAdapter/DynamicSyntenyAdapter.ts:81 | an assembly or reference name containing ':' can make two windows share a key |
| AlignmentParser.Validate | src/DynamicSyntenyAdapter/DynamicSyntenyAdapter.ts:329-349 | a record passes exactly when both sides have a truthy name, integer ends and start < end; otherwise the first failed check, in source order, is the reason |
| AlignmentParser.ResolveStrand | src/DynamicSyntenyAdapter/DynamicSyntenyAdapter.ts:351-353 | the strand is ±1, and −1 exactly for `"-"`, `-1` or `"-1"`; missing or falsy values give +1 |
| AlignmentParser.IndexOf | src/DynamicSyntenyAdapter/DynamicSyntenyAdapter.ts:367 | `indexOf` gives the first position of the name, or −1 exactly when it is absent |
| AlignmentParser.FlipsIffFirst | src/DynamicSyntenyAdapter/DynamicSyntenyAdapter.ts:365-368 | the flip happens exactly when the requesting assembly is the first configured one |
| AlignmentParser.ParseResolved | src/DynamicSyntenyAdapter/DynamicSyntenyAdapter.ts:317-420 | a record throws exactly when one of its `parseInt` arguments cannot be turned into text, or when it is valid but a name or the identity cannot be. It is rejected exactly when the numbers convert but validation fails, with the failed check as reason, and accepted exactly when it is valid and every conversion returns. An accepted feature has start < end on both sides, a ±1 strand, its index as `syntenyId` and the region's assembly |
| AlignmentParser.ObjectNameThrows | src/DynamicSyntenyAdapter/DynamicSyntenyAdapter.ts:362 | a record that passes validation but whose query name is an object with its own `toString` member throws when its `uniqueId` is rendered |
| AlignmentParser.ParseAlignmentsKeepsAccepted | src/DynamicSyntenyAdapter/DynamicSyntenyAdapter.ts:259-282 | a record of the array contributes a feature, under its own index, exactly when `parseAlignment` accepts it on its own |
| AlignmentParser.ParseResolvedAsWritten | src/DynamicSyntenyAdapter/DynamicSyntenyAdapter.ts:317-420 | as written, a record also throws when it is valid and no identity path is declared; it is accepted exactly when it is valid, every conversion returns and the path is declared; a rejection is the same as in the corrected parser |
| AlignmentParser.AsWrittenAgreesWhenIdentityDeclared | src/DynamicSyntenyAdapter/DynamicSyntenyAdapter.ts:358 | with an identity path configured, the written and corrected parsers agree on every record |
| AlignmentParser.FlipRule | src/DynamicSyntenyAdapter/DynamicSyntenyAdapter.ts:364-411 | for a record that is accepted, requesting the first configured assembly makes the query primary and the target the mate on the second assembly. Any other request, including an unknown or missing one, makes the target primary and the query the mate on the first assembly |
| AlignmentParser.FlipSymmetry | src/DynamicSyntenyAdapter/DynamicSyntenyAdapter.ts:364-411 | viewing one accepted record from each assembly of a pair swaps primary and mate, and each mate names the other assembly |
| AlignmentParser.UniqueIdIndependentOfView | src/DynamicSyntenyAdapter/DynamicSyntenyAdapter.ts:362 | whether a record is kept, and its `uniqueId`, do not depend on region, configured assemblies or position |
| AlignmentParser.UniqueIdRecordsQueryThenTarget | src/DynamicSyntenyAdapter/DynamicSyntenyAdapter.ts:362 | an accepted feature's `uniqueId` holds the query name and range first and the target's second, whichever side is primary; for string names without ':' it decodes back to all six |
| AlignmentParser.KeepAcceptedSurvivors | src/DynamicSyntenyAdapter/DynamicSyntenyAdapter.ts:282 | the filter keeps exactly the accepted features, in order, each found at the index its `syntenyId` names |
| AlignmentParser.NothingAcceptedKeepsNothing | src/DynamicSyntenyAdapter/DynamicSyntenyAdapter.ts:282 | with no accepted outcome, the filter keeps nothing |
| AlignmentParser.Outcomes | src/DynamicSyntenyAdapter/DynamicSyntenyAdapter.ts:259-281 | each record gets its own outcome in order, tagged with its index. A record is accepted exactly when it is valid and every conversion returns, as a well formed feature, and rejected exactly when its numbers convert but it is invalid |
| AlignmentParser.OutcomesAsWritten | src/DynamicSyntenyAdapter/DynamicSyntenyAdapter.ts:259-281 | as written, a record is accepted exactly when it is valid, every conversion returns and an identity path is declared |
| AlignmentParser.ParseRecords | src/DynamicSyntenyAdapter/DynamicSyntenyAdapter.ts:259-282 | the batch is exactly the accepted records' features, in record order, each carrying its original array index. Every record that is valid and converts is present, and every kept feature is well formed |
| AlignmentParser.ParseRecordsAsWritten | src/DynamicSyntenyAdapter/DynamicSyntenyAdapter.ts:259-282 | as written, the batch is exactly the features of the records that neither failed validation nor threw, in record order |
| AlignmentParser.ParseAlignments | src/DynamicSyntenyAdapter/DynamicSyntenyAdapter.ts:252-282 | a non-array records value gives no features. Otherwise the result is exactly the features `parseAlignment` accepts, in array order, each carrying its array index, and all are well formed |
| AlignmentParser.ParseAlignmentsAsWritten | src/DynamicSyntenyAdapter/DynamicSyntenyAdapter.ts:252-282 | as written, a non-array records value gives no features. Otherwise the result is exactly the features the as-written `parseAlignment` accepts, in array order, each carrying its array index, so thrown and rejected records are both dropped |
| AlignmentParser.UndeclaredIdentityDropsEveryRecord | src/DynamicSyntenyAdapter/DynamicSyntenyAdapter.ts:274-280 | as written, a batch of records none of which has an identity path yields no features |
| AlignmentParser.AsWrittenUndeclaredIdentityEmitsNothing | src/DynamicSyntenyAdapter/DynamicSyntenyAdapter.ts:248-282 | as written, with no identity path configured, every response body yields no features |
| AlignmentParser.DefaultSchemaDropsEveryRecord | src/DynamicSyntenyAdapter/configSchema.ts:79-99 | the schema declares no identity path, so as written the default configuration emits nothing |
| AlignmentParser.NonArrayBodyYieldsNothing | src/DynamicSyntenyAdapter/DynamicSyntenyAdapter.ts:254-257 | an object where the records array should be gives no features and no error |
| CacheView.AssemblyOrDefault | src/DynamicSyntenyAdapter/DynamicSyntenyAdapter.ts:73 | the key's assembly part is never empty, and it is the given name whenever that name is non-empty |
| CacheView.GlobalKeySharedByAssembly | src/DynamicSyntenyAdapter/DynamicSyntenyAdapter.ts:71-78 | with client-side filtering, two regions share a key exactly when they name the same assembly |
| CacheView.MissingAssemblyIsDefault | src/DynamicSyntenyAdapter/DynamicSyntenyAdapter.ts:73 | a missing, an empty and a literal "default" assembly name all give the same key |
| CacheView.RegionKeyDistinguishesWindows | src/DynamicSyntenyAdapter/DynamicSyntenyAdapter.ts:80-81 | without client-side filtering, and with names free of ':', regions share a key exactly when assembly, reference and range agree |
| CacheView.RegionKeysCanCollide | src/DynamicSyntenyAdapter/DynamicSyntenyAdapter.ts:80-81 | names containing ':' let two different windows share a key |
| CacheView.FreshWindow | src/DynamicSyntenyAdapter/DynamicSyntenyAdapter.ts:87-92 | a zero timeout never serves. A positive one serves an entry stored at `t` exactly while `now < t + timeout` |
| CacheView.FilterMembers | src/DynamicSyntenyAdapter/DynamicSyntenyAdapter.ts:105-111 | a feature survives the filter exactly when its reference equals the region's name and its range overlaps the region's |
| CacheView.FilterAppend | src/DynamicSyntenyAdapter/DynamicSyntenyAdapter.ts:126-130 | the filter works piecewise over concatenation, so survivors keep their original order |
| CacheView.FilterIdempotent | src/DynamicSyntenyAdapter/DynamicSyntenyAdapter.ts:166-169 | filtering twice is filtering once |
| CacheView.ViewMembers | src/DynamicSyntenyAdapter/DynamicSyntenyAdapter.ts:126-130 | a caller receives the overlapping features under client-side filtering, and every feature otherwise |
| CacheView.ViewWellFormed | src/DynamicSyntenyAdapter/DynamicSyntenyAdapter.ts:166-173 | the view of a well formed list is well formed |
| CacheCoordinator.Init | src/DynamicSyntenyAdapter/DynamicSyntenyAdapter.ts:48-65 | a new adapter has empty tables, and its timer is armed exactly when the refresh interval is positive |
| CacheCoordinator.OnRequest | src/DynamicSyntenyAdapter/DynamicSyntenyAdapter.ts:117-147 | a fresh hit is served at once with nothing else changed. A miss either joins the fetch in flight for its key, starting nothing, or registers itself and starts exactly one fetch. The cache is never touched |
| CacheCoordinator.OnFetchDone | src/DynamicSyntenyAdapter/DynamicSyntenyAdapter.ts:148-173 | completion always clears the key's in-flight entry. On failure every waiter gets an error and the cache is unchanged. On success every waiter gets its own view of the list that the corrected `ParseAlignments` yields for the starter's region (`FetchedFeatures`), and the cache gets the list only for a positive timeout |
| CacheCoordinator.OnRefreshTick | src/DynamicSyntenyAdapter/DynamicSyntenyAdapter.ts:61-65 | a tick empties the cache only while the timer is armed, and never touches fetches in flight |
| CacheCoordinator.OnFree | src/DynamicSyntenyAdapter/DynamicSyntenyAdapter.ts:433-444 | releasing one region deletes only its key, and releasing everything empties the cache. Both disarm the timer and leave fetches in flight alone |
| CacheCoordinator.Deliver | src/DynamicSyntenyAdapter/DynamicSyntenyAdapter.ts:157-173 | every waiter is served once, in arrival order, under its own id. Its reply holds exactly the fetched features overlapping its own region under client-side filtering, and all of them otherwise |
| CacheCoordinator.StepStarts | src/DynamicSyntenyAdapter/DynamicSyntenyAdapter.ts:137-164 | only a key's own completion removes it from the in-flight table, and a fetch for it starts exactly when it enters the table |
| CacheCoordinator.RunStarts | src/DynamicSyntenyAdapter/DynamicSyntenyAdapter.ts:137-164 | over any run without that key's completion, the fetches started for the key number exactly how many times the key entered the in-flight table |
| CacheCoordinator.AtMostOneFetchPerKey | src/DynamicSyntenyAdapter/DynamicSyntenyAdapter.ts:137-164 | until its fetch completes, a key gets at most one fetch, and none if one was already in flight |
| CacheCoordinator.InitInv | src/DynamicSyntenyAdapter/DynamicSyntenyAdapter.ts:48-58 | a new adapter satisfies the state invariant |
| CacheCoordinator.StepKeepsInv | src/DynamicSyntenyAdapter/DynamicSyntenyAdapter.ts:117-178 | every event keeps the invariant: each in-flight entry has its starter first and only waiters of its key; cached lists are well formed; nothing is cached without a positive timeout; the timer is armed only for a positive interval |
| CacheCoordinator.StepRepliesWellFormed | src/DynamicSyntenyAdapter/DynamicSyntenyAdapter.ts:126-173 | under the invariant every emitted feature, cached or fresh, has start < end on both sides and a ±1 strand |
| CacheCoordinator.NoCacheWithoutTimeout | src/DynamicSyntenyAdapter/DynamicSyntenyAdapter.ts:88-89 | with a timeout of zero or less no request is ever served from the cache |
| CacheCoordinator.ExpiryRule | src/DynamicSyntenyAdapter/DynamicSyntenyAdapter.ts:87-92 | for any positive timeout, once a fetch completes at `t`, a request for its key at `now` is served the fetched features with no new fetch exactly while `now < t + timeout`; from then on it gets no reply and starts exactly one fetch |
| CacheCoordinator.ExpiryExample | src/DynamicSyntenyAdapter/DynamicSyntenyAdapter.ts:87-92 | with a 1000 ms timeout an entry is served 999 ms after it was stored and refetched at 1000 ms |
| CacheCoordinator.TickThenFetchStillCaches | src/DynamicSyntenyAdapter/DynamicSyntenyAdapter.ts:61-65 | a tick during a fetch does not stop that fetch from filling the cache |
| CacheCoordinator.FreeThenFetchStillCaches | src/DynamicSyntenyAdapter/DynamicSyntenyAdapter.ts:433-444 | releasing resources does not cancel a fetch: it still answers every waiter and fills the cache |
| WidgetSettings.FieldsDetermineWidget | src/DynamicSyntenyWidget/model.ts:59-76 | two widgets that agree on the ten settings and flags are the same widget state (the node `id` and `type` tag excepted) |
| WidgetSettings.SetSyntenyEndpoint | src/DynamicSyntenyWidget/model.ts:103-105 | only the endpoint changes |
| WidgetSettings.SetMaxResults | src/DynamicSyntenyWidget/model.ts:107-109 | only the result limit changes |
| WidgetSettings.SetEnableAutoRefresh | src/DynamicSyntenyWidget/model.ts:111-113 | only the auto-refresh switch changes |
| WidgetSettings.SetRefreshInterval | src/DynamicSyntenyWidget/model.ts:115-117 | only the refresh interval changes |
| WidgetSettings.SetColorScheme | src/DynamicSyntenyWidget/model.ts:119-121 | only the colour scheme changes |
| WidgetSettings.SetMinScore | src/DynamicSyntenyWidget/model.ts:123-125 | only the minimum score changes |
| WidgetSettings.SetError | src/DynamicSyntenyWidget/model.ts:147-149 | only the error message changes |
| WidgetSettings.SetLoading | src/DynamicSyntenyWidget/model.ts:151-153 | only the loading flag changes |
| WidgetSettings.SetIsSaved | src/DynamicSyntenyWidget/model.ts:155-157 | only the saved flag changes |
| WidgetSettings.AddAssemblyName | src/DynamicSyntenyWidget/model.ts:127-131 | an empty or already listed name changes nothing; any other name is appended and nothing else changes |
| WidgetSettings.AddAssemblyNameMembers | src/DynamicSyntenyWidget/model.ts:127-131 | after adding, a name is listed exactly when it was before or is the non-empty added name |
| WidgetSettings.AddAssemblyNameKeepsNamesOk | src/DynamicSyntenyWidget/model.ts:127-131 | adding keeps the list free of duplicates and empty names |
| WidgetSettings.AddAssemblyNameIdempotent | src/DynamicSyntenyWidget/model.ts:127-131 | adding an existing name leaves the list unchanged, so adding twice is adding once |
| WidgetSettings.RemoveAssemblyName | src/DynamicSyntenyWidget/model.ts:133-135 | removes the element at the splice start and changes nothing else, or changes nothing when the start is past the end |
| WidgetSettings.RemoveAssemblyNameAt | src/DynamicSyntenyWidget/model.ts:133-135 | for a valid index exactly that element goes; the elements before it stay in place and those after it shift down one, in order |
| WidgetSettings.RemoveAssemblyNameNegative | src/DynamicSyntenyWidget/model.ts:133-135 | a negative index removes the element that far from the end, or the first one when it reaches past the front |
| WidgetSettings.RemoveAssemblyNamePastEnd | src/DynamicSyntenyWidget/model.ts:133-135 | an index at or past the end removes nothing |
| WidgetSettings.RemoveAssemblyNameKeepsNamesOk | src/DynamicSyntenyWidget/model.ts:133-135 | removing keeps the list free of duplicates and empty names, and the removed name is gone |
| WidgetSettings.ResetToDefaults | src/DynamicSyntenyWidget/model.ts:137-145 | every persisted field takes its `DEFAULT_CONFIG` value, including an empty assembly list, and the volatile flags are kept |
| WidgetSettings.ResetToDefaultsIdempotent | src/DynamicSyntenyWidget/model.ts:137-145 | resetting twice is resetting once |
| WidgetSettings.ResetMatchesFreshWidget | src/DynamicSyntenyWidget/model.ts:17-25 | after a reset the settings equal those of a newly created widget, whose defaults are taken from the model declaration at model.ts:63-69 (the assembly list being a literal `[]`) |
| WidgetSettings.ApplyKeepsNamesOk | src/DynamicSyntenyWidget/model.ts:103-157 | no action introduces a duplicate or an empty assembly name |
| WidgetSettings.ApplyAllKeepsNamesOk | src/DynamicSyntenyWidget/model.ts:127-145 | from a duplicate-free list, no sequence of actions ever creates a duplicate or empty name |

## Left out

- `fetchFeatures` (URL building, `fetch`, HTTP status, JSON decoding, abort signals) is network I/O. It is modelled only through the outcome a fetch delivers: a decoded body, parsed for the starter's region, or a failure. So `appendRegionParams`, `url`, `method` and `requestHeaders` play no part.
- `ObservableCreate`, `async`/`await`, `setInterval` and `Date.now` are replaced by explicit events; requests and fetch completions carry the clock reading. Interleavings are any order of those events.
- Numbers in response bodies and the results of `parseInt` are exact integers. JavaScript rounds both to doubles, so two coordinates above 2^53 that differ by one compare equal there (a record with start `"9007199254740992"` and end `"9007199254740993"` is rejected in JavaScript and accepted here). Fractions, exponent notation, NaN, the infinities and the rendering of numbers of 1e21 and above are not represented.
- `Number(...) || 0` for `identity` is not modelled: identity is kept as the raw looked-up value, because it is floating-point coercion and is only passed through.
- Lookups see only a value's own members and array/string indices and `length`. Inherited prototype properties (`toString`, `constructor`, …) are not modelled.
- Strings are sequences of characters; UTF-16 code units and surrogate pairs are not modelled.
- The feature's `name` equals `uniqueId` and its `type` is always `match`, so neither is stored.
- `SimpleFeature`, `readConfObject` and `console.warn` are library calls and diagnostics. Configuration values are plain fields of `FieldMapping` and `CacheView.AdapterConfig`.
- `getRefNames` and `hasDataForRefName` return constants and carry no logic.
- The widget's `localStorage` load and save, the `onSnapshot` autosave, `afterCreate`, `isValidEndpoint` (browser `URL` parser) and the React forms are storage and UI.
- Plugin registration (`src/index.ts`, `src/DynamicSyntenyWidget/index.ts`) holds no logic.
- WidgetSettings.RemoveAssemblyName: the index is an integer; fractional and NaN indices (which `splice` truncates or reads as 0) are not modelled.
- WidgetSettings.SetMaxResults: widget numbers are exact reals; NaN and the infinities are not represented.
- CacheView.AdapterConfig: times are whole milliseconds, and a fractional timeout or interval is not represented.
- AlignmentParser.ParseRecords: in the corrected model the `try`/`catch` around each record fires only for values that cannot be turned into text; the as-written model also keeps the throw of the undeclared identity path.
- CacheCoordinator.OnFetchDone: fetched bodies are parsed with the corrected `AlignmentParser.ParseAlignments` (through `CacheCoordinator.FetchedFeatures`), so the coordinator delivers and caches the valid records; with the schema's defaults the adapter as written delivers and caches `[]` for every fetch (`AlignmentParser.DefaultSchemaDropsEveryRecord`). The coordinator is composed with the corrected parser so that its delivery and caching properties are about the features the adapter is meant to produce.
- WidgetSettings.FieldsDetermineWidget: the state tree node's `id` and its constant `type` tag (model.ts:60-61) are identity and bookkeeping of the state tree library, not settings, so the ten fields describe the widget state apart from those two.

## Findings

| source | as written | input that shows it | evidently intended | confidence | as-written member | corrected member |
|---|---|---|---|---|---|---|
| src/DynamicSyntenyAdapter/DynamicSyntenyAdapter.ts:248 with src/DynamicSyntenyAdapter/configSchema.ts:79-99 | `identityField` is read from the configuration, but the schema declares no such slot. The path is therefore undefined, and `getNestedValue(alignment, undefined)` throws at `path.split` once a record has passed validation. The catch at lines 277-280 then drops the record | any valid record under the default configuration, e.g. `{query:{name:"chr1",start:1,end:2}, target:{name:"chr5",start:3,end:4}}` | a missing identity path reads as undefined (identity 0), so every valid record becomes a feature | medium, not executed (it depends on the configuration library returning undefined for an undeclared slot) | AlignmentParser.DefaultSchemaDropsEveryRecord | AlignmentParser.ParseRecords |
