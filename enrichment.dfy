/** The dependency join (src/lib/generate-org-license-report.ts,
    `enrichDependencies`, and the `_.groupBy(results, 'id')` index built in
    `generateLicenseData`). */
module Enrichment {
  import opened Wrappers
  import opened Types
  import opened Copyright

  /** Every metadata record carries a string `id` (DependencyData.id). */
  predicate WellKeyed(results: seq<Record>) {
    forall r: Record :: r in results ==> "id" in r && r["id"].Str?
  }

  /** The metadata records whose `id` is `key`, in feed order. */
  function WithId(results: seq<Record>, key: string): seq<Record>
    requires WellKeyed(results)
  {
    if |results| == 0 then []
    else
      var last := results[|results| - 1];
      WithId(results[..|results| - 1], key) + (if last["id"].s == key then [last] else [])
  }

  /** `_.groupBy(results, 'id')`: id to the records carrying it. */
  function GroupById(results: seq<Record>): (index: map<string, seq<Record>>)
    requires WellKeyed(results)
    ensures forall r: Record :: r in results ==> r["id"].s in index
    ensures forall key :: key in index ==>
      |index[key]| > 0 && forall r: Record :: r in index[key] ==> r in results && r["id"] == Str(key)
  {
    if |results| == 0 then map[]
    else
      var index := GroupById(results[..|results| - 1]);
      var last := results[|results| - 1];
      assert forall r: Record :: r in results <==> r in results[..|results| - 1] || r == last;
      var key := last["id"].s;
      index[key := (if key in index then index[key] else []) + [last]]
  }

  /** The index has a key for each id of the feed, holding exactly the
      records with that id in feed order. */
  lemma {:induction false} GroupByIdSpec(results: seq<Record>, key: string)
    requires WellKeyed(results)
    ensures key in GroupById(results) <==> exists r :: r in results && r["id"] == Str(key)
    ensures key in GroupById(results) ==> GroupById(results)[key] == WithId(results, key) && |WithId(results, key)| > 0
    ensures key !in GroupById(results) ==> WithId(results, key) == []
  {
    if |results| > 0 {
      var init := results[..|results| - 1];
      var last := results[|results| - 1];
      GroupByIdSpec(init, key);
      assert forall r :: r in results <==> r in init || r == last;
    }
  }

  /** The stub carries metadata in the index: `dep && dep[0]`. */
  predicate Matched(stub: Dependency, index: map<string, seq<Record>>) {
    stub.id in index && |index[stub.id]| > 0
  }

  /** One dependency of the result: `{...dependency, ...dep[0]}` when the
      index holds metadata for its id, `{...dependency}` otherwise. */
  function Join(stub: Dependency, index: map<string, seq<Record>>): (r: Record)
    ensures Matched(stub, index) ==>
      r.Keys == DependencyRecord(stub).Keys + index[stub.id][0].Keys &&
      forall k :: k in index[stub.id][0] ==> r[k] == index[stub.id][0][k]
    ensures forall k :: k in DependencyRecord(stub) && !(Matched(stub, index) && k in index[stub.id][0]) ==>
      k in r && r[k] == DependencyRecord(stub)[k]
    ensures !Matched(stub, index) ==> r == DependencyRecord(stub)
  {
    if Matched(stub, index) then DependencyRecord(stub) + index[stub.id][0]
    else DependencyRecord(stub)
  }

  /** The stub after the copyright step: with `includeCopyright`, its
      `copyright` is overwritten by the fetched attributions. */
  function Annotate(stub: Dependency, includeCopyright: bool, fetch: string -> HttpOutcome): Dependency {
    if includeCopyright then stub.(copyright := Some(CopyrightFor(stub, fetch))) else stub
  }

  /** The enriched list: element `i` is stub `i`, annotated, then joined. */
  function Enriched(deps: seq<Dependency>, index: map<string, seq<Record>>, includeCopyright: bool,
                    fetch: string -> HttpOutcome): seq<Record>
  {
    seq(|deps|, i requires 0 <= i < |deps| => Join(Annotate(deps[i], includeCopyright, fetch), index))
  }

  /** Where the `copyright` property of an enriched dependency comes from:
      the metadata when it has one; else, with `includeCopyright`, the fetched
      list (so unmatched stubs carry it too); else the stub's own, if any. */
  lemma EnrichedCopyright(stub: Dependency, index: map<string, seq<Record>>, includeCopyright: bool,
                          fetch: string -> HttpOutcome)
    ensures var r := Join(Annotate(stub, includeCopyright, fetch), index);
      if Matched(stub, index) && "copyright" in index[stub.id][0] then
        r["copyright"] == index[stub.id][0]["copyright"]
      else if includeCopyright then
        r["copyright"] == Arr(StrValues(CopyrightFor(stub, fetch)))
      else
        ("copyright" in r <==> stub.copyright.Some?) &&
        (stub.copyright.Some? ==> r["copyright"] == Arr(StrValues(stub.copyright.value)))
  {
  }

  /** Only the first metadata record for an id is ever used. */
  lemma {:induction false} JoinUsesFirstOnly(stub: Dependency, index: map<string, seq<Record>>, more: seq<Record>)
    requires Matched(stub, index)
    ensures Join(stub, index[stub.id := index[stub.id][..1] + more]) == Join(stub, index)
  {
    var index' := index[stub.id := index[stub.id][..1] + more];
    assert index'[stub.id][0] == index[stub.id][0];
  }

  /** The copyright step of `enrichDependencies`: each stub's `copyright`
      is overwritten with the attributions fetched for it. */
  method AttachCopyrights(dependencies: seq<Dependency>, fetch: string -> HttpOutcome)
    returns (stubs: seq<Dependency>)
    ensures |stubs| == |dependencies|
    ensures forall k :: 0 <= k < |stubs| ==>
      stubs[k] == dependencies[k].(copyright := Some(CopyrightFor(dependencies[k], fetch)))
  {
    stubs := dependencies;
    for i := 0 to |stubs|
      invariant |stubs| == |dependencies|
      invariant forall k :: 0 <= k < i ==>
        stubs[k] == dependencies[k].(copyright := Some(CopyrightFor(dependencies[k], fetch)))
      invariant forall k :: i <= k < |stubs| ==> stubs[k] == dependencies[k]
    {
      var depCopyrights := GetCopyrightDataFromDependency(stubs[i], fetch);
      stubs := stubs[i := stubs[i].(copyright := Some(depCopyrights))];
    }
  }

  /** The push loop of `enrichDependencies`: one record per stub, joined with
      its first metadata record if any. */
  method JoinAll(stubs: seq<Dependency>, dependenciesData: map<string, seq<Record>>)
    returns (enriched: seq<Record>)
    ensures |enriched| == |stubs|
    ensures forall k :: 0 <= k < |stubs| ==> enriched[k] == Join(stubs[k], dependenciesData)
  {
    enriched := [];
    for i := 0 to |stubs|
      invariant |enriched| == i
      invariant forall k :: 0 <= k < i ==> enriched[k] == Join(stubs[k], dependenciesData)
    {
      var dependency := stubs[i];
      if dependency.id in dependenciesData && |dependenciesData[dependency.id]| > 0 {
        var dep := dependenciesData[dependency.id];
        enriched := enriched + [DependencyRecord(dependency) + dep[0]];
      } else {
        enriched := enriched + [DependencyRecord(dependency)];
      }
    }
  }

  /** `enrichDependencies`: the optional copyright step, then the push loop. */
  method EnrichDependencies(dependencies: seq<Dependency>, dependenciesData: map<string, seq<Record>>,
                            includeCopyright: bool, fetch: string -> HttpOutcome)
    returns (enriched: seq<Record>)
    ensures enriched == Enriched(dependencies, dependenciesData, includeCopyright, fetch)
  {
    var stubs := dependencies;
    if includeCopyright {
      stubs := AttachCopyrights(dependencies, fetch);
    }
    assert forall k :: 0 <= k < |stubs| ==> stubs[k] == Annotate(dependencies[k], includeCopyright, fetch);
    enriched := JoinAll(stubs, dependenciesData);
  }
}
