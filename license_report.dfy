/** The report fold and its entry point (src/lib/generate-org-license-report.ts,
    `getLicenseTextAndUrl`, `mergeLicenceAndDepData`, `generateLicenseData`). */
module LicenseReport {
  import opened Wrappers
  import opened Types
  import opened Copyright
  import opened LicenseSplit
  import opened Enrichment
  import opened Strings

  /** The external lookups: the copyright request, and the SPDX and non-SPDX
      license-text fetchers (`None` when the fetcher throws). */
  datatype Services = Services(
    fetch: string -> HttpOutcome,
    spdx: string -> Option<LicenseText>,
    nonSpdx: string -> Option<LicenseText>)

  /** What every step of the fold sees: the metadata index, the copyright
      flag and the lookups. */
  datatype Context = Context(index: map<string, seq<Record>>, includeCopyright: bool, services: Services)

  /** `getLicenseTextAndUrl`: the SPDX text, or, when that fetcher throws,
      the non-SPDX text; `undefined` only when both throw. */
  function GetLicenseTextAndUrl(id: string, spdx: string -> Option<LicenseText>,
                                nonSpdx: string -> Option<LicenseText>): (r: Option<LicenseText>)
    ensures spdx(id).Some? ==> r == spdx(id)
    ensures spdx(id).None? ==> r == nonSpdx(id)
    ensures r.None? <==> spdx(id).None? && nonSpdx(id).None?
  {
    if spdx(id).Some? then spdx(id) else nonSpdx(id)
  }

  /** When the SPDX fetcher succeeds the non-SPDX one plays no part. */
  lemma FallbackOnlyAfterSpdxFailure(id: string, spdx: string -> Option<LicenseText>,
                                     nonSpdx1: string -> Option<LicenseText>, nonSpdx2: string -> Option<LicenseText>)
    requires spdx(id).Some?
    ensures GetLicenseTextAndUrl(id, spdx, nonSpdx1) == GetLicenseTextAndUrl(id, spdx, nonSpdx2)
  {
  }

  function TextOf(id: string, services: Services): Option<LicenseText> {
    GetLicenseTextAndUrl(id, services.spdx, services.nonSpdx)
  }

  function EnrichedOf(license: LicenseRecord, ctx: Context): seq<Record> {
    Enriched(license.dependencies, ctx.index, ctx.includeCopyright, ctx.services.fetch)
  }

  /** The entry the first record for an id creates. */
  function NewEntry(license: LicenseRecord, enriched: seq<Record>, text: Option<LicenseText>): ReportEntry {
    ReportEntry(license.id, license.severity, license.extra, enriched, [license.severity],
                if text.Some? then Some(text.value.licenseText) else None,
                if text.Some? then Some(text.value.licenseUrl) else None)
  }

  /** One iteration of the loop of `mergeLicenceAndDepData`. */
  function Step(report: Report, license: LicenseRecord, ctx: Context): (r: Report)
    ensures |license.dependencies| == 0 ==> r == report
    ensures |license.dependencies| > 0 ==>
      license.id in r &&
      r[license.id].severities ==
        (if license.id in report then report[license.id].severities else []) + [license.severity]
    ensures |r| <= |report| + 1
  {
    if |license.dependencies| == 0 then report
    else
      var enriched := EnrichedOf(license, ctx);
      if license.id in report then
        var e := report[license.id];
        report[license.id := e.(dependencies := e.dependencies + enriched,
                                severities := e.severities + [license.severity])]
      else
        report[license.id := NewEntry(license, enriched, TextOf(license.id, ctx.services))]
  }

  /** The report after the loop has run over `flat`. */
  function Fold(flat: seq<LicenseRecord>, ctx: Context): (r: Report)
    ensures |r| <= |flat|
  {
    if |flat| == 0 then map[]
    else
      var init := flat[..|flat| - 1];
      var last := flat[|flat| - 1];
      Step(Fold(init, ctx), last, ctx)
  }

  // ---- Reference description of the report, entry by entry ----

  /** The records of `flat` that reach the entry for `key`: those with that
      id and at least one dependency, in loop order. */
  function Kept(flat: seq<LicenseRecord>, key: string): seq<LicenseRecord> {
    if |flat| == 0 then []
    else
      var last := flat[|flat| - 1];
      Kept(flat[..|flat| - 1], key) + (if last.id == key && |last.dependencies| > 0 then [last] else [])
  }

  /** The kept records are records of `flat` with id `key` and dependencies,
      and there is one as soon as `flat` has such a record. */
  lemma {:induction false} KeptSpec(flat: seq<LicenseRecord>, key: string)
    ensures forall r :: r in Kept(flat, key) ==> r in flat && r.id == key && |r.dependencies| > 0
    ensures |Kept(flat, key)| > 0 <==> exists r :: r in flat && r.id == key && |r.dependencies| > 0
  {
    if |flat| > 0 {
      var init := flat[..|flat| - 1];
      var last := flat[|flat| - 1];
      KeptSpec(init, key);
      assert forall r :: r in flat <==> r in init || r == last;
    }
  }

  function SeveritiesOf(kept: seq<LicenseRecord>): (r: seq<Severity>)
    ensures |r| == |kept|
    ensures forall i :: 0 <= i < |kept| ==> r[i] == kept[i].severity
  {
    if |kept| == 0 then [] else SeveritiesOf(kept[..|kept| - 1]) + [kept[|kept| - 1].severity]
  }

  function DependenciesOf(kept: seq<LicenseRecord>, ctx: Context): seq<Record> {
    if |kept| == 0 then [] else DependenciesOf(kept[..|kept| - 1], ctx) + EnrichedOf(kept[|kept| - 1], ctx)
  }

  function DependencyCount(kept: seq<LicenseRecord>): nat {
    if |kept| == 0 then 0 else DependencyCount(kept[..|kept| - 1]) + |kept[|kept| - 1].dependencies|
  }

  /** The entry the records `kept` make: id, severity, other properties and
      license text of the first one; all severities and all enriched
      dependencies, in order, without removing duplicates. */
  function EntryFor(kept: seq<LicenseRecord>, ctx: Context): ReportEntry
    requires |kept| > 0
  {
    NewEntry(kept[0], DependenciesOf(kept, ctx), TextOf(kept[0].id, ctx.services))
      .(severities := SeveritiesOf(kept))
  }

  lemma KeptSnoc(kept: seq<LicenseRecord>, last: LicenseRecord, ctx: Context)
    requires |kept| > 0
    ensures EntryFor(kept + [last], ctx) ==
      var e := EntryFor(kept, ctx);
      e.(dependencies := e.dependencies + EnrichedOf(last, ctx), severities := e.severities + [last.severity])
  {
    assert (kept + [last])[..|kept|] == kept;
  }

  /** A step leaves every other key alone. */
  lemma StepOther(report: Report, license: LicenseRecord, ctx: Context, key: string)
    requires !(license.id == key && |license.dependencies| > 0)
    ensures key in Step(report, license, ctx) <==> key in report
    ensures key in report ==> Step(report, license, ctx)[key] == report[key]
  {
  }

  /** A step on a record with dependencies extends the entry for its id, or
      creates it. */
  lemma StepSame(report: Report, license: LicenseRecord, ctx: Context)
    requires |license.dependencies| > 0
    ensures license.id in Step(report, license, ctx)
    ensures license.id in report ==>
      var e := report[license.id];
      Step(report, license, ctx)[license.id] ==
        e.(dependencies := e.dependencies + EnrichedOf(license, ctx),
           severities := e.severities + [license.severity])
    ensures license.id !in report ==> Step(report, license, ctx)[license.id] == EntryFor([license], ctx)
  {
    assert [license][..0] == [];
    assert DependenciesOf([license], ctx) == EnrichedOf(license, ctx);
    assert SeveritiesOf([license]) == [license.severity];
  }

  /** The fold builds exactly the reference report: one entry per id of a
      record with dependencies, made by `EntryFor` from those records. */
  lemma {:induction false} FoldSpec(flat: seq<LicenseRecord>, ctx: Context, key: string)
    ensures key in Fold(flat, ctx) <==> |Kept(flat, key)| > 0
    ensures key in Fold(flat, ctx) ==> Fold(flat, ctx)[key] == EntryFor(Kept(flat, key), ctx)
  {
    if |flat| > 0 {
      var init := flat[..|flat| - 1];
      var last := flat[|flat| - 1];
      var m := Fold(init, ctx);
      assert Fold(flat, ctx) == Step(m, last, ctx);
      FoldSpec(init, ctx, key);
      if last.id == key && |last.dependencies| > 0 {
        assert Kept(flat, key) == Kept(init, key) + [last];
        StepSame(m, last, ctx);
        if |Kept(init, key)| > 0 {
          KeptSnoc(Kept(init, key), last, ctx);
        } else {
          assert Kept(flat, key) == [last];
        }
      } else {
        assert Kept(flat, key) == Kept(init, key) + [];
        assert Kept(flat, key) == Kept(init, key);
        StepOther(m, last, ctx, key);
      }
    }
  }

  /** The report of a license feed: its keys are exactly the (atomic) ids
      of normalised records with dependencies, and each entry is the one
      `EntryFor` describes from those records. */
  lemma ReportOfLicenses(licenses: seq<LicenseRecord>, ctx: Context)
    ensures forall key :: key in Fold(Normalize(licenses), ctx) ==> Atomic(key)
    ensures forall key :: key in Fold(Normalize(licenses), ctx) <==>
      exists r :: r in Normalize(licenses) && r.id == key && |r.dependencies| > 0
    ensures forall key :: key in Fold(Normalize(licenses), ctx) ==>
      |Kept(Normalize(licenses), key)| > 0 &&
      Fold(Normalize(licenses), ctx)[key] == EntryFor(Kept(Normalize(licenses), key), ctx)
  {
    var flat := Normalize(licenses);
    NormalizeSpec(licenses);
    forall key
      ensures (key in Fold(flat, ctx) <==> exists r :: r in flat && r.id == key && |r.dependencies| > 0)
      ensures key in Fold(flat, ctx) ==>
        |Kept(flat, key)| > 0 && Fold(flat, ctx)[key] == EntryFor(Kept(flat, key), ctx)
      ensures key in Fold(flat, ctx) ==> Atomic(key)
    {
      FoldSpec(flat, ctx, key);
      KeptSpec(flat, key);
      if key in Fold(flat, ctx) {
        assert Kept(flat, key)[0] in Kept(flat, key);
      }
    }
  }

  /** The entry's counts: one severity per kept record, and as many
      dependencies as the kept records list together. */
  lemma {:induction false} EntryCounts(kept: seq<LicenseRecord>, ctx: Context)
    requires |kept| > 0
    ensures |EntryFor(kept, ctx).severities| == |kept|
    ensures |EntryFor(kept, ctx).dependencies| == DependencyCount(kept)
  {
    DependenciesCount(kept, ctx);
  }

  lemma {:induction false} DependenciesCount(kept: seq<LicenseRecord>, ctx: Context)
    ensures |DependenciesOf(kept, ctx)| == DependencyCount(kept)
  {
    if |kept| > 0 {
      DependenciesCount(kept[..|kept| - 1], ctx);
    }
  }

  lemma {:induction false} KeptAppend(a: seq<LicenseRecord>, b: seq<LicenseRecord>, key: string)
    ensures Kept(a + b, key) == Kept(a, key) + Kept(b, key)
  {
    if |b| == 0 {
      assert a + b == a;
    } else {
      KeptAppend(a, b[..|b| - 1], key);
      assert (a + b)[..|a + b| - 1] == a + b[..|b| - 1];
    }
  }

  /** A record without dependencies changes nothing, wherever it stands. */
  lemma SkippedRecordIsInvisible(a: seq<LicenseRecord>, license: LicenseRecord, b: seq<LicenseRecord>, ctx: Context)
    requires |license.dependencies| == 0
    ensures Fold(a + [license] + b, ctx) == Fold(a + b, ctx)
  {
    var m1 := Fold(a + [license] + b, ctx);
    var m2 := Fold(a + b, ctx);
    forall key | true
      ensures (key in m1 <==> key in m2) && (key in m1 ==> m1[key] == m2[key])
    {
      KeptAppend(a + [license], b, key);
      KeptAppend(a, [license], key);
      KeptAppend(a, b, key);
      assert Kept([license], key) == [];
      assert Kept(a + [license] + b, key) == Kept(a + b, key);
      FoldSpec(a + [license] + b, ctx, key);
      FoldSpec(a + b, ctx, key);
    }
  }

  /** The loop body of `mergeLicenceAndDepData` for a record with
      dependencies: enrich them, look up the license text, then extend the
      entry for the id or create it. */
  method AddLicense(report: Report, license: LicenseRecord, dependenciesData: map<string, seq<Record>>,
                    includeCopyright: bool, services: Services)
    returns (next: Report)
    requires |license.dependencies| > 0
    ensures next == Step(report, license, Context(dependenciesData, includeCopyright, services))
  {
    ghost var ctx := Context(dependenciesData, includeCopyright, services);
    var dependenciesEnriched := EnrichDependencies(license.dependencies, dependenciesData, includeCopyright,
                                                   services.fetch);
    assert dependenciesEnriched == EnrichedOf(license, ctx);
    // The source guards the reassignment with `dependenciesEnriched.length`,
    // which holds here because enrichment keeps the list's length.
    assert |dependenciesEnriched| > 0;
    var licenseData := GetLicenseTextAndUrl(license.id, services.spdx, services.nonSpdx);
    if license.id in report {
      var entry := report[license.id];
      next := report[license.id := entry.(dependencies := entry.dependencies + dependenciesEnriched,
                                          severities := entry.severities + [license.severity])];
    } else {
      next := report[license.id := ReportEntry(
        license.id, license.severity, license.extra, dependenciesEnriched, [license.severity],
        if licenseData.Some? then Some(licenseData.value.licenseText) else None,
        if licenseData.Some? then Some(licenseData.value.licenseUrl) else None)];
      assert next == report[license.id := NewEntry(license, dependenciesEnriched, licenseData)];
    }
  }

  /** `mergeLicenceAndDepData`: normalise the records, then run the loop over
      them, skipping records without dependencies. */
  method MergeLicenceAndDepData(licenses: seq<LicenseRecord>, dependenciesData: map<string, seq<Record>>,
                                includeCopyright: bool, services: Services)
    returns (report: Report)
    ensures report == Fold(Normalize(licenses), Context(dependenciesData, includeCopyright, services))
  {
    ghost var ctx := Context(dependenciesData, includeCopyright, services);
    report := map[];
    var flatLicenses := SeparateMultiLicenses(licenses);
    for i := 0 to |flatLicenses|
      invariant report == Fold(flatLicenses[..i], ctx)
    {
      var license := flatLicenses[i];
      assert Fold(flatLicenses[..i + 1], ctx) == Step(report, license, ctx) by {
        assert flatLicenses[..i + 1][..i] == flatLicenses[..i];
      }
      var dependencies := license.dependencies;
      if |dependencies| == 0 {
        continue;
      }
      report := AddLicense(report, license, dependenciesData, includeCopyright, services);
    }
    assert flatLicenses[..|flatLicenses|] == flatLicenses;
  }

  // ---- Entry point ----

  /** The license feed: its reported `total` (absent when missing) and records. */
  datatype LicenseFeed = LicenseFeed(total: Option<int>, results: seq<LicenseRecord>)

  /** The dependency feed: its reported `total` and metadata records. */
  datatype DependencyFeed = DependencyFeed(total: Option<int>, results: seq<Record>)

  /** The caller's options object. */
  datatype GenerateOptions = GenerateOptions(includeCopyright: Option<bool>)

  /** Why report generation fails. */
  datatype ReportError =
    | Upstream(reason: string)               // a feed request rejected; its error is rethrown
    | ConfigurationError(message: string)    // the org has no licenses configured
    | OptionsUndefined                       // `options.includeCopyright` read on absent options

  const NoLicensesMessage: string :=
    "No licenses returned from /licenses Snyk API. Please make sure the org has licenses configured and try again."

  /** JavaScript truthiness of a `total`: missing and 0 are falsy. */
  predicate Truthy(total: Option<int>) {
    total.Some? && total.value != 0
  }

  /** `generateLicenseData`, given the outcomes of the two feed requests. */
  method GenerateLicenseData(licenseFeed: Result<LicenseFeed, string>, dependencyFeed: Result<DependencyFeed, string>,
                             options: Option<GenerateOptions>, services: Services)
    returns (r: Result<Report, ReportError>)
    requires dependencyFeed.Success? ==> WellKeyed(dependencyFeed.value.results)
    ensures licenseFeed.Failure? ==> r == Failure(Upstream(licenseFeed.error))
    ensures licenseFeed.Success? && dependencyFeed.Failure? ==> r == Failure(Upstream(dependencyFeed.error))
    ensures licenseFeed.Success? && dependencyFeed.Success? && !Truthy(licenseFeed.value.total) ==>
      r == Failure(ConfigurationError(NoLicensesMessage))
    ensures licenseFeed.Success? && dependencyFeed.Success? && Truthy(licenseFeed.value.total) && options.None? ==>
      r == Failure(OptionsUndefined)
    ensures r.Success? <==>
      licenseFeed.Success? && dependencyFeed.Success? && Truthy(licenseFeed.value.total) && options.Some?
    ensures r.Success? ==>
      r.value == Fold(Normalize(licenseFeed.value.results),
                      Context(GroupById(dependencyFeed.value.results),
                              options.value.includeCopyright.GetOr(false), services))
  {
    if licenseFeed.Failure? {
      return Failure(Upstream(licenseFeed.error));
    }
    if dependencyFeed.Failure? {
      return Failure(Upstream(dependencyFeed.error));
    }
    var licenseData := licenseFeed.value;
    var dependenciesDataRaw := dependencyFeed.value;
    if !Truthy(licenseData.total) {
      return Failure(ConfigurationError(NoLicensesMessage));
    }
    var dependenciesData := GroupById(dependenciesDataRaw.results);
    if !Truthy(licenseData.total) {
      // The source returns an empty report here; the guard above has already
      // thrown for every such feed, so this branch is dead.
      assert false;
    }
    if options.None? {
      return Failure(OptionsUndefined);
    }
    var report := MergeLicenceAndDepData(licenseData.results, dependenciesData,
                                         options.value.includeCopyright.GetOr(false), services);
    return Success(report);
  }

  lemma KeptOfThree(x: LicenseRecord, y: LicenseRecord, z: LicenseRecord, key: string)
    requires x.id == z.id && x.id != y.id
    requires |x.dependencies| == 1 && |y.dependencies| == 1 && |z.dependencies| == 1
    ensures Kept([x, y, z], key) ==
      if key == x.id then [x, z] else if key == y.id then [y] else []
  {
    assert [x, y, z][..2] == [x, y] && [x, y][..1] == [x] && [x][..0] == [];
    assert Kept([x], key) == (if key == x.id then [x] else []);
    assert Kept([x, y], key) == Kept([x], key) + (if key == y.id then [y] else []);
    assert Kept([x, y, z], key) == Kept([x, y], key) + (if key == z.id then [z] else []);
  }

  /** The entry of a key some record reaches, in terms of those records. */
  lemma EntryOfKept(flat: seq<LicenseRecord>, ctx: Context, key: string)
    requires |Kept(flat, key)| > 0
    ensures key in Fold(flat, ctx)
    ensures Fold(flat, ctx)[key].severities == SeveritiesOf(Kept(flat, key))
    ensures |Fold(flat, ctx)[key].dependencies| == DependencyCount(Kept(flat, key))
  {
    FoldSpec(flat, ctx, key);
    EntryCounts(Kept(flat, key), ctx);
  }

  /** The keys of the report of three records, the first and last sharing an id. */
  lemma FoldOfThreeKeys(x: LicenseRecord, y: LicenseRecord, z: LicenseRecord, ctx: Context)
    requires x.id == z.id && x.id != y.id
    requires |x.dependencies| == 1 && |y.dependencies| == 1 && |z.dependencies| == 1
    ensures Fold([x, y, z], ctx).Keys == {x.id, y.id}
  {
    forall key ensures key in Fold([x, y, z], ctx) <==> key == x.id || key == y.id {
      FoldSpec([x, y, z], ctx, key);
      KeptOfThree(x, y, z, key);
    }
  }

  /** Three records with one dependency each, the first and last sharing an
      id: two entries, the shared one collecting both severities in order. */
  lemma FoldOfThree(x: LicenseRecord, y: LicenseRecord, z: LicenseRecord, ctx: Context)
    requires x.id == z.id && x.id != y.id
    requires |x.dependencies| == 1 && |y.dependencies| == 1 && |z.dependencies| == 1
    ensures var report := Fold([x, y, z], ctx);
      report.Keys == {x.id, y.id} &&
      report[x.id].severities == [x.severity, z.severity] && |report[x.id].dependencies| == 2 &&
      report[y.id].severities == [y.severity] && |report[y.id].dependencies| == 1
  {
    var flat := [x, y, z];
    FoldOfThreeKeys(x, y, z, ctx);
    KeptOfThree(x, y, z, x.id);
    EntryOfKept(flat, ctx, x.id);
    KeptOfThree(x, y, z, y.id);
    EntryOfKept(flat, ctx, y.id);
    assert SeveritiesOf([x, z]) == [x.severity, z.severity];
    assert SeveritiesOf([y]) == [y.severity];
    assert DependencyCount([x, z]) == 2 by {
      assert [x, z][..1] == [x] && [x][..0] == [];
    }
    assert DependencyCount([y]) == 1 by {
      assert [y][..0] == [];
    }
  }

  /** `MIT OR Apache-2.0` is compound and becomes one copy per license. */
  lemma ChoiceExpands(mit: string, apache: string, r1: LicenseRecord)
    requires mit == "MIT" && apache == "Apache-2.0"
    requires r1.id == mit + " OR " + apache
    ensures Expand(r1) == [r1.(id := mit), r1.(id := apache)]
  {
    ContainsAt(mit + " ", "OR", " " + apache);
    assert (mit + " ") + "OR" + (" " + apache) == r1.id;
    assert IsCompound(r1.id);
    SplitChoice(mit, apache);
  }

  /** `MIT` is not compound and passes through. */
  lemma PlainPassesThrough(mit: string, r2: LicenseRecord)
    requires mit == "MIT" && r2.id == mit
    ensures Expand(r2) == [r2]
  {
    ContainsKeepsChar(mit, "OR", 'O');
    ContainsKeepsChar(mit, "AND", 'A');
    assert !IsCompound(mit);
  }

  /** `MIT OR Apache-2.0` followed by `MIT` normalises to three records. */
  lemma NormalizeChoiceExample(mit: string, apache: string, r1: LicenseRecord, r2: LicenseRecord)
    requires mit == "MIT" && apache == "Apache-2.0"
    requires r1.id == mit + " OR " + apache && r2.id == mit
    ensures Normalize([r1, r2]) == [r1.(id := mit), r1.(id := apache), r2]
  {
    ChoiceExpands(mit, apache, r1);
    PlainPassesThrough(mit, r2);
    assert [r1, r2][..1] == [r1];
    assert [r1][..0] == [];
    assert Normalize([r1]) == Expand(r1);
  }

  /** A license feed of `MIT OR Apache-2.0` (high) and `MIT` (low), one
      dependency each, gives two entries: `MIT` with both severities and both
      dependencies, `Apache-2.0` with the first record's alone. */
  lemma EndToEndExample(mit: string, apache: string, a: Dependency, b: Dependency, extra: Record, ctx: Context)
    requires mit == "MIT" && apache == "Apache-2.0"
    ensures var report := Fold(Normalize([LicenseRecord(mit + " OR " + apache, High, [a], extra),
                                          LicenseRecord(mit, Low, [b], extra)]), ctx);
      report.Keys == {mit, apache} &&
      report[mit].severities == [High, Low] && |report[mit].dependencies| == 2 &&
      report[apache].severities == [High] && |report[apache].dependencies| == 1
  {
    var r1 := LicenseRecord(mit + " OR " + apache, High, [a], extra);
    var r2 := LicenseRecord(mit, Low, [b], extra);
    NormalizeChoiceExample(mit, apache, r1, r2);
    assert mit != apache by { assert |mit| != |apache|; }
    FoldOfThree(r1.(id := mit), r1.(id := apache), r2, ctx);
  }
}
