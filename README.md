# CSV item-of-type updater, modelled in Dafny

`csv_item_of_type_updater.py` reads a CSV file whose rows name a source item
and a destination item, resolves both to Jama API ids (unless the cells
already are API ids), and sends each destination item a JSON-patch "add" that
sets a configured field to the source id. This project models the script's
row-to-patch pipeline with the Jama REST client replaced by two oracles:

- a search oracle, `string -> seq<int>`: the ids of the items that
  `get_abstract_items(contains=query)` returns for a Lucene query;
- a patch oracle, `(nat, Patch) -> bool`: whether the call with that ordinal
  to `patch_item` returns (true) or raises `APIException` (false).

Modules, one per component of the script:

- `CsvContent` (`csv_content.dfy`): `process_csv_content` over an already
  parsed header and `csv.DictReader` rows, with the two column checks as
  error results instead of `exit(1)`.
- `ApiIdLookup` (`api_id_lookup.dfy`): `get_api_id` and the global
  `unique_item_id_map`, as the class `ItemIdResolver` whose `cache` field is
  the map and whose ghost `searches` field records every remote search. The
  pure function `ResolveId` specifies one call.
- `PatchPayloads` (`patch_payloads.dfy`): the payload dict, the row loop of
  `update_item_of_types` as the method `BuildPatchPayloads`, and its
  specification `BuildAll`, a fold of `ProcessRow` over the records.
- `PatchExecution` (`patch_execution.dfy`): the patch loop, fail-fast.
- `ItemOfTypeUpdater` (`item_of_type_updater.dfy`): the three phases chained.
- `ClientUrl` (`client_url.dfy`): the clean-up of `jama_connect_url` in
  `create_jama_client`.
- `PyText` (`py_text.dfy`): Python's `str.strip()` and `str()` of an integer,
  with `ParseInt`, the inverse of `IntToString` on the strings it produces.
  `ScriptConfig` and `Wrappers` hold the
  settings record and `Option`/`Result`.

Two behaviours of the code that the model reproduces as written:

- The memo is keyed by the field value alone, not by the pair (field name,
  field value). A destination value equal to an already resolved source
  value is answered with the source's result, even under a different field
  name (`SharedCacheAcrossFields`).
- One `try` surrounds the whole patch loop, so the first `APIException` ends
  the batch (`ExecutePatches`). There is no per-item isolation.

## Model

| member | source | states |
|---|---|---|
| `CsvContent.ProcessCsvContent` | csv_item_of_type_updater.py:102-134 | a missing source column is reported first, then a missing destination column, and no record is produced; otherwise there is exactly one record per data row, in file order, numbered 0..n-1, with both cells copied verbatim, and `csv_lines_read` equals the number of records |
| `ApiIdLookup.ParseLuceneQuery` | csv_item_of_type_updater.py:89-90 | for a field name without ':' the query `name:"value"` splits back into exactly that field name and that value; for a value without '"' or '\\' this is a search for that exact phrase in that field |
| `ApiIdLookup.LuceneQuery` | csv_item_of_type_updater.py:90 | the query is the field name, a ':', then the value between double quotes: it starts with the field name, has ':' right after it, ends with '"', and is three characters longer than name and value together |
| `ApiIdLookup.UniqueHit` | csv_item_of_type_updater.py:92-99 | an id is accepted iff the search returned exactly one item, and it is that item's id; zero or several items give `None` |
| `ApiIdLookup.ResolveId` | csv_item_of_type_updater.py:85-99 | on a cache hit the cached answer (possibly `None`) is returned and nothing is searched; on a miss exactly one search is issued, with the Lucene query of the two arguments, and the answer follows the exactly-one rule; either way the answer is stored under the field value alone and no earlier entry changes |
| `ApiIdLookup.ResolveAgainIsCacheHit` | csv_item_of_type_updater.py:85-88 | asking again for a value, under any field name, returns the first answer and searches nothing |
| `ApiIdLookup.ItemIdResolver.constructor` | csv_item_of_type_updater.py:13-14 | the map starts empty and no search has been made |
| `ApiIdLookup.ItemIdResolver.GetApiId` | csv_item_of_type_updater.py:85-99 | returns, stores and searches as `ResolveId` says, and keeps the invariant that every cached value was searched exactly once and holds the outcome of that search |
| `PatchPayloads.MakePatch` | csv_item_of_type_updater.py:64-72 | the patch for one row: op `add`, path `/fields/` followed by the configured field, addressed to the destination and carrying the source, each as the cell text itself or as `str()` of the resolved id |
| `PatchPayloads.MakePatchExample` | csv_item_of_type_updater.py:64-72 | field itemType, source 42, destination 99 give `{'id': '99', 'payload': {'op': 'add', 'path': '/fields/itemType', 'value': '42'}}`, whether the ids are cell text or resolved integers |
| `PatchPayloads.PatchRecoversIds` | csv_item_of_type_updater.py:64-72 | a patch built from two resolved ids is addressed to the destination id, its value reads back as the source id, and its path is `/fields/` followed by the configured field |
| `PatchPayloads.ProcessRow` | csv_item_of_type_updater.py:45-72 | one row appends at most one patch and never changes earlier patches, searches or cache entries; in lookup mode, when the source does not resolve, the row adds no patch and its only effect is the source lookup (the destination is not looked up) |
| `PatchPayloads.ApiIdModePatchesEveryRow` | csv_item_of_type_updater.py:45-49 | in API-id mode nothing is searched and the cache is untouched, and row i gives patch i, built from its own cells |
| `PatchPayloads.PayloadShape` | csv_item_of_type_updater.py:64-68 | every patch of a run, in either mode, has op `add` and path `/fields/<destination_item_of_type_field>` |
| `PatchPayloads.AtMostOneSearchPerValue` | csv_item_of_type_updater.py:50-62 | over a whole run no field value is searched twice nor searched when already cached, and the final cache holds exactly the starting values plus the searched ones |
| `PatchPayloads.LookupModePatches` | csv_item_of_type_updater.py:50-72 | in lookup mode the patches are exactly those of the final cache: a row gives a patch iff its source and then its destination resolved, with the resolved ids, in row order; the cache only grows |
| `PatchPayloads.SameFieldMemoIsTransparent` | csv_item_of_type_updater.py:85-99 | when both lookups use the same field name and the cache starts empty (or agrees with the search), the memo does not change the patches: they equal those of a run that searches every lookup afresh |
| `PatchPayloads.SharedCacheAcrossFields` | csv_item_of_type_updater.py:87-98 | because the cache is keyed by value only, a destination cell equal to a resolved source cell takes the source field's answer (item 1) although the destination field's search would find item 2 |
| `PatchPayloads.BuildAll` | csv_item_of_type_updater.py:44-72 | the state after the loop over some rows, row by row with `ProcessRow`: at most one patch per row and at most two searches per row |
| `PatchPayloads.AddRowPatch` | csv_item_of_type_updater.py:46-72 | the loop body for one row, calling `get_api_id` through the resolver, does what `ProcessRow` specifies and keeps the resolver's invariant |
| `PatchPayloads.BuildPatchPayloads` | csv_item_of_type_updater.py:44-72 | the row loop returns the patches of `BuildAll` and leaves the cache and the search log as `BuildAll` says, keeping the resolver's invariant |
| `PatchExecution.FirstRejected` | csv_item_of_type_updater.py:76-80 | the first position whose patch call raises, every earlier call returning |
| `PatchExecution.FailFastReport` | csv_item_of_type_updater.py:75-81 | what a fail-fast run sends: a prefix of the patches; no failure iff every call returns, and then all are sent; a failure at k means calls 0..k-1 returned, call k raised, and exactly k+1 were sent |
| `PatchExecution.ExecutePatches` | csv_item_of_type_updater.py:75-81 | patches are sent in list order; if the k-th call raises, exactly the first k+1 are sent and the rest are not; if none raises all are sent; an empty list sends nothing |
| `ItemOfTypeUpdater.UpdateItemOfTypes` | csv_item_of_type_updater.py:40-81 | a missing column ends the run before any search or patch; otherwise the patches are the row loop's over the extracted records and they are sent fail-fast |
| `ClientUrl.DropTrailingSlashes` | csv_item_of_type_updater.py:183-184 | only '/' characters are removed from the end, the result does not end with '/' unless it is a bare `http://` or `https://`, and removal stops at the first such point |
| `ClientUrl.NormalizedUrl` | csv_item_of_type_updater.py:181-187 | the URL starts with `http://` or `https://` and does not end with '/' unless it is exactly one of them |
| `ClientUrl.NormalizeConnectUrl` | csv_item_of_type_updater.py:181-187 | strips whitespace, trims trailing slashes with the loop, and prepends `https://` exactly when neither scheme is already present |
| `PyText.Strip` | csv_item_of_type_updater.py:181 | `str.strip()`: the result neither starts nor ends with whitespace and everything cut off on either side is whitespace |
| `PyText.IntToString` | csv_item_of_type_updater.py:67-70 | `str()` of an integer: a non-empty string that starts with '-' exactly for a negative number |
| `PyText.ParseIntToString` | csv_item_of_type_updater.py:67-70 | `str()` of an integer id reads back as that integer |
| `PyText.IntToStringInjective` | csv_item_of_type_updater.py:67-70 | distinct ids are written as distinct strings, so distinct destinations get distinct patch targets |

## Left out

- Reading `SCRIPT_SETTINGS` and `CLIENT_SETTINGS` with `configparser`, `parse_config`, `sys.argv`, and the `exit(1)` on a configuration error: the settings are the `ScriptSettings` record. The source and destination field names are read even in API-id mode, so a missing one exits there too; this is not modelled.
- Opening the file, the `utf-8-sig` decoding and `csv.DictReader`: their result is given as a header and a sequence of column-to-cell maps. A short row, whose missing cells `DictReader` fills with `None`, is not modelled; cells are always strings.
- Building the `JamaClient` (credentials, `oauth`), logging and `init_logging`: I/O with nothing to state.
- The remote service is two fixed oracles: the same query always returns the same ids within a run, and an item without an `'id'` key is not modelled.
- Exceptions other than `APIException` from `patch_item`, and any exception from `get_abstract_items`, would end the process; they are not modelled.
- Field values are put into the Lucene query without escaping '"' or '\\', so such a value changes the query's meaning; the search oracle takes the query string as given and this is not modelled further.
