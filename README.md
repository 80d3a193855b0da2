# LOCI Integration API — a verified model of its data handling

The LOCI Integration API is a web service over a SPARQL triplestore of
Australian spatial data (locations, datasets, linksets). Each function modelled
here sends one SPARQL query and turns the JSON result rows into a value. This project
models the logic between the HTTP layer and the triplestore:

- **the resource normaliser** (`get_resource`). It folds result rows binding
  `p`, `o` and optionally `p1`, `o1`, `p2`, `o2` into a nested object at most
  three levels deep. A blank-node object opens a sub-object that later rows with
  the same predicate merge into. Any other object stores its value string, and
  the last write wins.
- **the five list extractors** (`get_linksets`, `get_datasets`,
  `get_locations`, `get_location_is_within`, `get_location_contains`). Each
  lists one variable's value per row along with a `{count, offset}` record.
- **query templating**, which replaces every `<URI>` in a query template with
  the bracketed target URI.
- **argument derivation in the handlers**: `str2bool`, the first-character
  `TRUTHS` flag rule, and the parameter records that `Overlaps.get` and
  `Datatypes.get` derive from the query string, including the crosswalk
  dispatch.

The triplestore is a parameter, `Store = Query -> Option<seq<Binding>>`:
- `None` is a JSON answer without a `results` key;
- `Some(rows)` holds `results.bindings`;
- a `Query` records the text and the `infer`, `sameAs`, `limit` and `offset`
  values that `query_graphdb_endpoint` posts.

Python's exceptions are modelled as `Err` values:
- a `KeyError` on an unbound variable becomes `Unbound(name)`;
- a `TypeError` from indexing a value string as a dict becomes `NotAMapping(key)`;
- `StopIteration`, `ValueError` and `IndexError` while reading arguments become `ArgError`s.

Layout:

| file | module | contents |
|---|---|---|
| wrappers.dfy | Wrappers | `Option`, `Result` |
| sparql.dfy | Sparql | terms, bindings, the query request, the store |
| template.dfy | Template | `ReplaceAll` (Python `str.replace`), `Split`/`Join`, `Substitute` |
| queries.dfy | Queries | the query texts of functions.py, verbatim |
| normalizer.dfy | Normalizer | `get_resource`: the imperative loop, its functional fold, and a declarative description of the result |
| listing.dfy | Listing | the list extractors |
| requestargs.dfy | RequestArgs | the api.py argument parsing |

The normaliser has two specifications:
- `Fold`, which follows the code step by step, in the same error order;
- `WellFormed` and `Expected`, which describe the result without any loop.
  `Expected` has one entry per predicate: the last plain row's value, or the
  merge of the blank rows.

`FoldCorrect` proves that the two agree. The loop of `NormalizeResponse` is
proved against `Fold` by its invariant.

## Model

| member | source | states |
|---|---|---|
| Normalizer.Normalize | functions.py:76-104 | `get_resource` after the query: no `results` gives the empty object, otherwise the rows are folded; `NormalizeResponse` is proved equal to it |
| Normalizer.Fold | functions.py:80-103 | the loop over the rows, ending at the first row that raises; characterised by `FoldCorrect` and `FoldStopsAtError` |
| Normalizer.Step | functions.py:81-103 | one iteration of the loop: KeyError for `p`, `o`, then the plain or blank-node branch; characterised by `StepExpected` and implemented by `AddRow` |
| Normalizer.Nest | functions.py:88-100 | the blank-node branch below `p`: KeyError for `p1`, `o1`, TypeError on a string at `p`, then the second level with KeyError for `p2`, `o2` and TypeError on a string at `p1`; characterised by `NestExpected` |
| Normalizer.GetResource | functions.py:74-79 | the query sent is the resource template with the URI substituted for `<URI>`, with the default limit 1000 and offset 0, and the answer is normalised |
| Normalizer.NormalizeResponse | functions.py:76-104 | an answer without `results` gives the empty object; otherwise the loop succeeds exactly when the rows are well-formed, and the object is then the declarative `Expected(rows)` |
| Normalizer.AddRow | functions.py:81-103 | one loop iteration, with its try/except lookup-or-insert and the exceptions in the code's order, computes the same result as `Step` |
| Normalizer.StepExpected | functions.py:81-103 | adding one row to a well-formed prefix's object succeeds exactly when the longer list is well-formed, and then yields that list's `Expected` |
| Normalizer.NestExpected | functions.py:88-100 | a blank-node row merged into its predicate's sub-object succeeds exactly when the row binds what it needs and no earlier row left a string at its `p1` that it must index, and then yields the longer list's sub-object |
| Normalizer.FoldCorrect | functions.py:76-104 | the fold succeeds if and only if every row binds what it needs and no later blank row indexes into a string that an earlier row stored; on success it equals `Expected` |
| Normalizer.FoldStopsAtError | functions.py:80-103 | once a row fails, the whole fold fails with that first row's error |
| Normalizer.ResultKeys | functions.py:80-103 | the top-level key set is exactly the set of `p` values of all rows |
| Normalizer.LastForIs | functions.py:80-103 | a row with no later row for the same predicate is the last one for it |
| Normalizer.LastFor1Is | functions.py:88-100 | a blank row with no later row for the same `p`, `p1` is the last one for that pair |
| Normalizer.LastPlainRowWins | functions.py:101-103 | a plain row that no later row with the same `p` follows leaves `p ↦ o.value` in the result |
| Normalizer.BlankRowsMerge | functions.py:83-103 | if no plain row for `p` comes later, blank rows for `p` share one sub-object whose keys are the `p1` of every blank row for `p` |
| Normalizer.InnerPlainWins | functions.py:88-100 | a plain `o1` stores `p1 ↦ o1.value` in the sub-object at `p`, unless a later row overrides it |
| Normalizer.InnerBlankMerge | functions.py:90-100 | blank `o1` rows for one `p`, `p1` accumulate into one innermost object keyed by all their `p2` values, each holding the `o2` string of the last row for that `p2` |
| Normalizer.LastO2Is | functions.py:95-97 | a doubly blank row that no later row for the same `p`, `p1`, `p2` follows gives the last `o2` for them |
| Normalizer.InnerLastRowWins | functions.py:95-97 | a doubly blank row stores `p2 ↦ o2.value` in the innermost object, unless a later row writes the same `p2` there |
| Normalizer.StepKeepsDepth | functions.py:81-103 | one row never creates nesting below `p2` |
| Normalizer.FoldDepth | functions.py:76-104 | the result never nests deeper than `p`/`p1`/`p2` |
| Template.ReplaceAll | functions.py:74 | Python `str.replace`: a left-to-right scan replacing non-overlapping occurrences; characterised by `ReplaceIsJoinOfSplit`, `ReplaceFree` and `ReplaceJoin` |
| Template.Substitute | functions.py:74 | the query text for a URI, `template.replace("<URI>", "<" + uri + ">")`; characterised by `SubstituteSpec` and `SubstituteJoin` |
| Template.ReplaceIsJoinOfSplit | functions.py:74 | `str.replace` equals splitting at the non-overlapping occurrences, scanned left to right, and joining with the replacement |
| Template.SplitJoin | functions.py:74 | splitting at a pattern and joining with it gives back the text |
| Template.SplitPartsFree | functions.py:74 | no piece of the split contains the pattern |
| Template.ReplaceFree | functions.py:74 | text without the pattern is left unchanged |
| Template.ReplaceJoin | functions.py:74 | for a pattern whose first character does not occur again, replacing in pattern-free pieces joined by the pattern gives exactly those pieces joined by the replacement |
| Template.SubstituteSpec | functions.py:74 | the query text is the template's `<URI>`-free pieces, in order, joined by `"<" + uri + ">"`, and those pieces joined by `<URI>` give back the template, so all other characters stay unchanged |
| Template.SubstituteJoin | functions.py:74 | any template built from `<URI>`-free pieces joined by `<URI>` becomes those pieces joined by the bracketed URI |
| Template.SubstituteWithoutPlaceholder | functions.py:74 | a template without `<URI>` is sent unchanged |
| Listing.Extracted | functions.py:130-141 | what an extractor returns: the bare empty list without `results`, KeyError on a row without the variable, else the `(meta, list)` pair; `ExtractColumn` is proved equal to it and states its properties |
| Listing.ExtractColumn | functions.py:131-141 | without `results`, the bare empty list; otherwise it succeeds exactly when every row binds the variable, and then returns one value per row in row order, with the same length and duplicates kept, `meta.count` equal to the list length and `meta.offset` echoing the input |
| Listing.GetLinksets | functions.py:107-141 | extracts `l` from the linksets query, sent with limit `count` and the given offset |
| Listing.GetDatasets | functions.py:143-177 | extracts `d` from the datasets query |
| Listing.GetLocations | functions.py:179-232 | extracts `l` from the locations query |
| Listing.GetLocationIsWithin | functions.py:235-272 | extracts `l` from the within query, with the target substituted for `<URI>` |
| Listing.GetLocationContains | functions.py:274-311 | extracts `l` from the contains query, with the target substituted for `<URI>` |
| Listing.Unpack | api.py:40 | the handlers' `meta, items = await ...`: a pair unpacks, a bare list raises ValueError; used by `MissingResultsBreaksHandler` and `CorrectedAlwaysUnpacks` |
| Listing.MissingResultsBreaksHandler | api.py:40 | an answer without `results` yields the bare list, which the handlers' `meta, items = ...` cannot unpack |
| Listing.ExtractedCorrected | functions.py:132-133 | the extractor as evidently intended: a missing `results` is the empty page `({count: 0, offset}, [])`, otherwise as written; characterised by `CorrectedAlwaysUnpacks` |
| Listing.CorrectedAlwaysUnpacks | functions.py:132-133 | the corrected extractor always yields a pair that unpacks, with count equal to the length and the offset echoed, and it agrees with the code whenever `results` is present |
| RequestArgs.Str2Bool | api.py:23-24 | `str(v).lower() in ("yes", "true", "t", "1")`; characterised by `Str2BoolIgnoresCase` |
| RequestArgs.LowerEquals | api.py:24 | the lowered text equals a lower-case word exactly when it spells that word with letters of either case |
| RequestArgs.Str2BoolIgnoresCase | api.py:23-24 | `str2bool(v)` is true exactly when `v` spells yes, true, t or 1 in any mix of cases |
| RequestArgs.Str2BoolExamples | api.py:23-24 | YES, True, T and 1 are true; False, y, 1x and the empty text are false |
| RequestArgs.FirstCharTruth | api.py:240-244 | an empty text is an error; otherwise the flag is true exactly when the first character is t, T or 1 |
| RequestArgs.FlagExamples | api.py:240-244 | "yes" gives false, "tomato" and "1x" give true (all the opposite of `str2bool`), "false" gives false, and "" is an error |
| RequestArgs.ParseInt | api.py:228 | Python `int` on an optional sign followed by decimal digits; characterised by `ParseIntText` |
| RequestArgs.FirstOr | api.py:235-239 | `next(iter(args.getlist(name, [default])))`: the default when absent, StopIteration on an empty list, else the first value; characterised by `FlagIs` and `IntArgIs` |
| RequestArgs.Required | api.py:230 | `next(iter(args.getlist('uri')))`: the first value, an error when absent or empty; characterised by `OverlapsDispatch` and `OverlapsMissingTarget` |
| RequestArgs.Optional | api.py:231-234 | `next(iter(args.getlist(name))) if name in args else None`; characterised by `OverlapsDispatch` and `DatasetTypesDerivation` |
| RequestArgs.IntArg | api.py:228-229 | `int(next(iter(args.getlist(name, [default]))))`; characterised by `IntArgIs` |
| RequestArgs.ParseIntText | api.py:38 | `int(str(n)) == n` for every integer |
| RequestArgs.IntArgIs | api.py:228-229 | an integer argument reads successfully exactly when it is absent or its first value parses, giving the default or the parsed number |
| RequestArgs.FlagIs | api.py:235-244 | a flag reads successfully exactly when it is absent or its first value is non-empty; an absent flag is false |
| RequestArgs.OverlapsRequest | api.py:228-251 | `Overlaps.get` up to the call: reads, then flag tests, then the crosswalk dispatch; characterised by `OverlapsDispatch`, `OverlapsMissingTarget`, `OverlapsMissingFlag` and `OverlapsEmptyFlag` |
| RequestArgs.OverlapsDispatch | api.py:228-251 | the request succeeds exactly on well-formed arguments. Target and output type pass through (`None` when absent); count and offset default to 1000 and 0; each flag is its first-character truth. Crosswalk is chosen exactly when its flag is set, and it forces `within` off while areas, proportion and contains pass unchanged; otherwise all flags pass unchanged with a `None` linkset |
| RequestArgs.OverlapsDefaults | api.py:228-251 | with only a target, the direct call gets no output type, all flags false, count 1000 and offset 0 |
| RequestArgs.OverlapsMissingTarget | api.py:228-230 | for all arguments whose count and offset read, an absent `uri`, or one with no value, is the error, whatever the flags are |
| RequestArgs.OverlapsMissingFlag | api.py:235-244 | for all arguments whose leading reads succeed, the first flag in reading order with an empty value list is the error, even when an earlier flag's text is empty, because every flag is read before any is indexed |
| RequestArgs.OverlapsEmptyFlag | api.py:240-244 | for all arguments that read fully, the first flag in testing order whose text is empty is the error |
| RequestArgs.DatasetTypesRequest | api.py:85-95 | `Datatypes.get` up to the call, reading datasetUri, type, basetype, count and offset in that order; characterised by `DatasetTypesDerivation` |
| RequestArgs.DatasetTypesDerivation | api.py:85-95 | the request succeeds exactly on well-formed arguments; absent filters are `None`, `basetype` is `str2bool` of its text and false when absent (the default `False` reads as "False"), and count and offset default to 1000 and 0 |

## Left out

- `query_graphdb_endpoint` (functions.py:8-26): the HTTP POST, JSON decoding
  and the lazily created session are I/O. The store is a parameter, and the
  model keeps only the request fields it posts.
- What the SPARQL queries mean (reification, transitive `sfWithin+`/`sfContains+`
  paths, subclass closure): the triplestore evaluates them, not this code.
- The overlap, crosswalk, dataset-type, find-at-location and label-search
  functions imported at api.py:9: functions.py does not define them, so only
  the arguments the handlers derive for them are modelled.
- The handlers' Sanic, restplus and swagger decorators, and building the JSON
  response.
- `find_at_location` (api.py:278-293): float parsing for a call into an
  external geometry service.
- app.py, config.py and test_basic.py: application wiring, environment
  configuration and HTTP smoke tests.
- The handlers of the resource, linksets, datasets, locations, within and
  contains routes: they read `count`/`offset`/`uri` exactly as `Overlaps.get`
  does, which `IntArg` and `Required` model, and then call the extractors.
- Normalizer.NormalizeResponse: nested Python dicts are updated in place; the model
  uses map values. This is faithful because each sub-dict has exactly one
  owner, so there is no aliasing to observe.
- Normalizer.NormalizeResponse: a JSON object's key order is not modelled (`map` is
  unordered).
- RequestArgs.ParseInt: Python `int` also accepts surrounding whitespace,
  underscores between digits and non-ASCII digits; the model accepts only an
  optional sign followed by ASCII digits and treats everything else as an error.
- RequestArgs.Lower: only ASCII letters are lowered. This does not change
  `str2bool`, because no other character lowers to a letter of yes, true, t or 1.
- Listing.Unpack: an unpacking that is not a pair is reported with the list's
  length. Only the empty bare list ever reaches it.
- The flag texts pass through `str(...)`. Query-string values are already
  strings, so this is the identity here.

## Findings

| source | as written | input that shows it | evidently intended | confidence | as-written member | corrected member |
|---|---|---|---|---|---|---|
| functions.py:132-133 (likewise 168-169, 223-224, 263-264, 302-303) | without `results` the extractors return a bare `[]`, but every handler unpacks `meta, items = await ...` (api.py:40, 61, 118, 170, 194), which raises ValueError | a store answer without a `results` key, e.g. an error object | an empty page `({count: 0, offset}, [])` | not executed | Listing.MissingResultsBreaksHandler | Listing.ExtractedCorrected, Listing.CorrectedAlwaysUnpacks |
