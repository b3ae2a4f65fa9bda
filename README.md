# Org license report merge engine, in Dafny

This project models the core of `snyk-licenses-texts`: the engine that turns an
organisation's license-policy feed and dependency feed into a license report
keyed by atomic license id. It also models the copyright-attribution lookup
that the engine can run for every dependency.

* `wrappers.dfy` (`Wrappers`): `Option` for `undefined`, `Result` for thrown errors.
* `types.dfy` (`Types`): the shapes of `src/lib/types.ts`.
  * JSON values and plain objects. Object spread `{...a, ...b}` is the map union `a + b`.
  * Dependency stubs, license records, report entries, and the five severities.
* `strings.dfy` (`Strings`): `String.prototype.includes` and `split` on one character.
* `copyright.dfy` (`Copyright`), from `src/lib/get-copyright.ts`:
  * the `repoDefs` table;
  * the split of a package name into namespace and package name;
  * the ClearlyDefined request URL;
  * the shaping of the HTTP outcome into a duplicate-free, first-seen-ordered attribution list.
* `license_split.dfy` (`LicenseSplit`): compound license ids (`multipleLicenses`,
  `splitMultipleLicenses`, `separateMultiLicenses`).
* `enrichment.dfy` (`Enrichment`):
  * the `_.groupBy(results, 'id')` index;
  * `enrichDependencies`, which has an optional copyright step and then the join with the first metadata record.
* `license_report.dfy` (`LicenseReport`):
  * the two-tier license-text lookup;
  * the fold of `mergeLicenceAndDepData`, with a reference description of every report entry;
  * `generateLicenseData` with its guards.

The loops and the code that updates state in place are methods:
`SeparateMultiLicenses`, `AttachCopyrights`, `JoinAll`, `EnrichDependencies`,
`AddLicense`, `MergeLicenceAndDepData`, `CollectAttributions`, `PushNew`,
`GetCopyrightDataFromDependency` and `GenerateLicenseData`. Each method's
`ensures` ties its result to a function:

* `SeparateMultiLicenses` to `Normalize`;
* `EnrichDependencies` to `Enriched`;
* `AddLicense` to `Step`, and `MergeLicenceAndDepData` to `Fold`;
* `CollectAttributions` and `PushNew` to `Dedup`;
* `GetCopyrightDataFromDependency` to `ShapeResponse`.

`AttachCopyrights` states each stub's new `copyright` outright, and `JoinAll`
is tied element by element to `Join`. Lemmas prove what the code promises about those functions.

The network is a parameter. The copyright request is a function from URL to
`HttpOutcome`, which is a transport failure or a status with a body. The SPDX
and non-SPDX text fetchers are functions from id to `Option<LicenseText>`, where
`None` means the fetcher threw. The two feed requests are inputs of type
`Result`.

Some behaviour of the code is worth stating outright:

* When both text fetchers throw, `getLicenseTextAndUrl` returns `undefined`.
  The entry's `licenseText`/`licenseUrl` are then `None`.
* The empty-report branch at lines 59-62 of `generate-org-license-report.ts`
  is dead, because line 42 has already thrown for every falsy total.
  `GenerateLicenseData` has an `assert false` in that branch.
* The package name is the text between the first and second `:`. Anything
  after the second `:` is dropped.
* `options` is declared optional, but line 67 reads `options.includeCopyright`
  unguarded. An absent options object is therefore the failure
  `OptionsUndefined`. An absent `includeCopyright` defaults to `false`.

## Model

| member | source | states |
|---|---|---|
| `Strings.ContainsIff` | src/lib/generate-org-license-report.ts:176 | `includes` holds exactly when the string can be cut as `a + t + b` |
| `Strings.SplitOn` | src/lib/get-copyright.ts:24 | `split(":")` gives at least one part; no part holds the separator; there is more than one part iff the name holds a `:` |
| `Strings.JoinSplit` | src/lib/get-copyright.ts:24-26 | joining the parts of a split with the separator gives the string back |
| `Copyright.RepoDef` | src/lib/get-copyright.ts:8-15 | `maven`/`gradle` ↦ `maven/mavencentral`, `npm`/`yarn` ↦ `npm/npmjs`, `poetry`/`pip` ↦ `pypi/pypi`, both ways; every other manager has no entry |
| `Copyright.Namespace` | src/lib/get-copyright.ts:24-30 | no `:` in the namespace; `-` when the name has no `:`; otherwise the namespace followed by `:` starts the name, so it is the text before the first `:` |
| `Copyright.PackageName` | src/lib/get-copyright.ts:24-30 | no `:` in the package name; the whole name when it has no `:`; otherwise namespace + `:` + package name starts the name and is followed by the end or by another `:` |
| `Copyright.NamePartsSpec` | src/lib/get-copyright.ts:24-30 | without `:` the namespace is `-` and the package is the whole name; with `:` the name is namespace + `:` + package + a rest that is empty or starts with `:`, and neither part holds a `:` |
| `Copyright.CopyrightUrl` | src/lib/get-copyright.ts:32 | the URL starts with the definitions endpoint and the registry from the table followed by `/`, or with `undefined/` for a manager the table lacks, and ends with `/` + version |
| `Copyright.AllAttributions` | src/lib/get-copyright.ts:49-52 | a string is collected iff it is among the `attributions` of some file that has them |
| `Copyright.Dedup` | src/lib/get-copyright.ts:49-60 | the collected attributions have no duplicates and hold exactly the strings of the input |
| `Copyright.DedupFirstOccurrenceOrder` | src/lib/get-copyright.ts:53-57 | the collected attributions are ordered by the position of their first occurrence across files |
| `Copyright.ShapeResponse` | src/lib/get-copyright.ts:36-66 | a transport failure, any status other than 200, an unparsable body, or a document without `files` gives `[]`; otherwise the result is duplicate-free and holds exactly the attributions of all files |
| `Copyright.PushNew` | src/lib/get-copyright.ts:53-57 | the `forEach` with the `indexOf` check extends the kept list exactly as `Dedup` does on the longer input |
| `Copyright.CollectAttributions` | src/lib/get-copyright.ts:49-60 | the loop over `files` yields `Dedup` of all attributions in file order; files without `attributions` add nothing |
| `Copyright.GetCopyrightDataFromDependency` | src/lib/get-copyright.ts:17-67 | requests the URL built from the table, namespace, package name and version; never fails; `[]` on a transport failure or a status other than 200; duplicate-free; equal to the shaped response |
| `LicenseSplit.SplitIdsAtomic` | src/lib/generate-org-license-report.ts:171-173 | no fragment of `split(/ OR \| AND /)` holds ` OR ` or ` AND ` |
| `LicenseSplit.SplitIdsOfAtomic` | src/lib/generate-org-license-report.ts:171-173 | an id without separators splits into itself alone |
| `LicenseSplit.IsCompound` | src/lib/generate-org-license-report.ts:175-177 | an id is compound iff it can be cut around an `OR` or an `AND` anywhere, spaces or not |
| `LicenseSplit.SplitIds` | src/lib/generate-org-license-report.ts:171-173 | the split yields at least one fragment, and exactly one iff the id holds neither ` OR ` nor ` AND ` |
| `LicenseSplit.Separators` | src/lib/generate-org-license-report.ts:171-173 | the separators the split consumes are each ` OR ` or ` AND `, one fewer than the fragments |
| `LicenseSplit.InterleaveSeparators` | src/lib/generate-org-license-report.ts:171-173 | the fragments with the consumed separators between them give the id back |
| `LicenseSplit.SplitIdsRoundTrip` | src/lib/generate-org-license-report.ts:171-173 | the split loses nothing but separators: some list of ` OR `/` AND `, one fewer than the fragments, interleaves the fragments back into the id |
| `LicenseSplit.SplitAfterOr` | src/lib/generate-org-license-report.ts:171-173 | a space-free id before ` OR ` becomes the first fragment and the split continues after the separator |
| `LicenseSplit.SplitAfterAnd` | src/lib/generate-org-license-report.ts:171-173 | a space-free id before ` AND ` becomes the first fragment and the split continues after the separator |
| `LicenseSplit.SplitChoice` | src/lib/generate-org-license-report.ts:171-173 | `MIT OR Apache-2.0` splits into `MIT` and `Apache-2.0` |
| `LicenseSplit.SeparatorMakesCompound` | src/lib/generate-org-license-report.ts:175-177 | every id holding a separator is treated as compound |
| `LicenseSplit.ForkIsCompoundButUnsplit` | src/lib/generate-org-license-report.ts:171-177 | `FORK` counts as compound yet splits into `["FORK"]` |
| `LicenseSplit.Expand` | src/lib/generate-org-license-report.ts:182-194 | a compound record becomes one copy per fragment, in split order, each equal to the record but for `id`; any other record passes through unchanged; every resulting id is atomic |
| `LicenseSplit.NormalizeSpec` | src/lib/generate-org-license-report.ts:179-198 | the normalised list is at least as long as the input; every record has an atomic id and equals an input record except for `id` |
| `LicenseSplit.SeparateMultiLicenses` | src/lib/generate-org-license-report.ts:179-198 | the push loop yields the concatenation of the expansions in record order, and every id it yields is atomic |
| `Enrichment.GroupById` | src/lib/generate-org-license-report.ts:57 | every feed record's id is a key; every group is non-empty and holds only feed records carrying that id |
| `Enrichment.GroupByIdSpec` | src/lib/generate-org-license-report.ts:57 | the index has a key for each metadata id of the feed, holding all records with that id in feed order, and never an empty list |
| `Enrichment.Join` | src/lib/generate-org-license-report.ts:96-108 | with metadata for the id, the result's keys are the union, the first metadata record's values win, and the stub's other values stay; without metadata, the result is the stub's own properties |
| `Enrichment.JoinUsesFirstOnly` | src/lib/generate-org-license-report.ts:97-102 | metadata records after the first never affect the join |
| `Enrichment.EnrichedCopyright` | src/lib/generate-org-license-report.ts:85-108 | an enriched `copyright` comes from the metadata if it has one; otherwise from the fetched list when `includeCopyright` (unmatched stubs included); otherwise from the stub |
| `Enrichment.AttachCopyrights` | src/lib/generate-org-license-report.ts:85-94 | the stubs come back in order, each with `copyright` set to the attributions fetched for it and nothing else changed |
| `Enrichment.JoinAll` | src/lib/generate-org-license-report.ts:96-108 | the push loop yields one record per stub, in order, each the join of that stub with the index |
| `Enrichment.EnrichDependencies` | src/lib/generate-org-license-report.ts:78-111 | the two loops yield one record per input stub, in order: the stub (with its fetched `copyright` when `includeCopyright`) joined with its first metadata record |
| `LicenseReport.GetLicenseTextAndUrl` | src/lib/generate-org-license-report.ts:113-128 | the SPDX result when that fetcher succeeds, else the non-SPDX result; `undefined` exactly when both throw; never throws itself |
| `LicenseReport.FallbackOnlyAfterSpdxFailure` | src/lib/generate-org-license-report.ts:116-122 | when the SPDX fetcher succeeds, the non-SPDX fetcher does not influence the result |
| `LicenseReport.Step` | src/lib/generate-org-license-report.ts:139-166 | a record without dependencies leaves the report unchanged; otherwise the entry for its id exists afterwards and its severities gain the record's severity at the end; at most one entry is added |
| `LicenseReport.Fold` | src/lib/generate-org-license-report.ts:139-167 | the report has at most one entry per record looped over |
| `LicenseReport.StepOther` | src/lib/generate-org-license-report.ts:139-166 | one iteration touches no key other than its record's id, and touches nothing at all for a record without dependencies |
| `LicenseReport.StepSame` | src/lib/generate-org-license-report.ts:153-165 | one iteration on a record with dependencies appends its enriched dependencies and severity to the existing entry, or creates the entry |
| `LicenseReport.KeptSpec` | src/lib/generate-org-license-report.ts:140-143 | the records reaching an entry are records of the list with that id and dependencies; there is one whenever the list has such a record |
| `LicenseReport.FoldSpec` | src/lib/generate-org-license-report.ts:130-169 | a key is present iff some record with that id has dependencies. Its entry has the id, severity, other properties and license text of the first such record; `severities` lists all their severities in order; `dependencies` concatenates all their enriched lists without dedup |
| `LicenseReport.ReportOfLicenses` | src/lib/generate-org-license-report.ts:130-169 | the same for a whole license feed after normalisation, and every key is an atomic id |
| `LicenseReport.EntryCounts` | src/lib/generate-org-license-report.ts:153-158 | an entry has one severity per folded record and as many dependencies as those records list together |
| `LicenseReport.SkippedRecordIsInvisible` | src/lib/generate-org-license-report.ts:140-143 | a record without dependencies changes nothing, wherever it stands in the list |
| `LicenseReport.AddLicense` | src/lib/generate-org-license-report.ts:144-166 | enriching, looking up the text and extending or creating the entry is exactly one `Step` on a record with dependencies |
| `LicenseReport.MergeLicenceAndDepData` | src/lib/generate-org-license-report.ts:130-169 | normalising and then running the loop, which skips records without dependencies, yields exactly the fold of the normalised records |
| `LicenseReport.GenerateLicenseData` | src/lib/generate-org-license-report.ts:26-76 | a rejected feed request is rethrown. A falsy license total (0 or missing) throws the no-licenses error whatever the options. Absent options fail. Otherwise the result is the fold over the grouped index, with `includeCopyright` defaulting to `false`. The empty-report branch is dead |
| `LicenseReport.FoldOfThree` | src/lib/generate-org-license-report.ts:153-165 | two records sharing an id around a third give two entries; the shared one has both severities in order and both dependencies |
| `LicenseReport.FoldOfThreeKeys` | src/lib/generate-org-license-report.ts:153-165 | the report of those three records has exactly the two ids as keys |
| `LicenseReport.EntryOfKept` | src/lib/generate-org-license-report.ts:153-165 | the entry of a key has the severities of the records reaching it and as many dependencies as they list together |
| `LicenseReport.NormalizeChoiceExample` | src/lib/generate-org-license-report.ts:179-198 | `MIT OR Apache-2.0` then `MIT` normalise to `MIT`, `Apache-2.0`, `MIT` |
| `LicenseReport.ChoiceExpands` | src/lib/generate-org-license-report.ts:182-191 | a `MIT OR Apache-2.0` record becomes an `MIT` copy and an `Apache-2.0` copy |
| `LicenseReport.PlainPassesThrough` | src/lib/generate-org-license-report.ts:192-194 | an `MIT` record is not compound and passes through unchanged |
| `LicenseReport.EndToEndExample` | src/lib/generate-org-license-report.ts:130-198 | that feed gives exactly `MIT` with severities high, low and two dependencies, and `Apache-2.0` with high and one dependency |

## Left out

- HTTP I/O is out of scope. This covers `getLicenseDataForOrg`, `getDependenciesDataForOrg`, `fetch`, `res.json()` and the SPDX and non-SPDX text fetchers. They become input values or function parameters, as described above.
- `src/lib/license-text/spdx.ts` is not part of this model. Its fetchers are the text-lookup parameters.
- `Promise.all` concurrency is not modelled. The copyright requests run in a sequential loop, which gives the same result because each request writes only its own stub.
- `LicenseReport.GenerateLicenseData`: when both feed requests reject, the source rethrows whichever rejection comes first in time. The model always reports the license feed's error.
- In-place mutation and aliasing are modelled on values. `dependency.copyright` and `license.dependencies` are written into values, not shared objects. In the source, the copies made for one compound record share one stub list, so a later copy re-fetches onto stubs that already carry a `copyright`. The model does not capture that sharing. Because a request yields the same answer for the same URL, the report is the same.
- Debug logging is left out. It has no effect on results.
- The report is a `map`, so JavaScript key insertion order is not kept.
- Keys that name `Object.prototype` properties (`constructor`, `toString`, `__proto__`, ...) are not modelled. Such keys behave differently in plain-object lookups. This covers license and dependency ids, and the package manager looked up at get-copyright.ts line 20, where `repoDefs['toString']` would return an inherited function and print it into the URL. `Copyright.RepoDef` gives `None`, printed as `undefined`, for every manager outside the table. No real id or package manager is expected to be such a name.
- Numbers are integers, and `NaN` totals are not modelled.
- A body whose `files` or `attributions` is not an array counts as `Malformed` and gives `[]`, because walking it throws and the error is caught. Its exact shape is not modelled.
- `Enrichment.GroupById` requires every metadata record to carry a string `id`, as `DependencyData` declares. Grouping under the string form of a non-string id is not modelled.
- A license record whose `dependencies` is missing, which would throw at line 141, is not modelled. `dependencies` is always a list.
