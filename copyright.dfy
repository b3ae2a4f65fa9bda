/** Copyright attribution lookup of one dependency (src/lib/get-copyright.ts):
    registry table, name split, request URL, and the shaping of the
    ClearlyDefined response into a duplicate-free list of attributions.
    The HTTP request itself is a parameter: a function from URL to outcome. */
module Copyright {
  import opened Wrappers
  import opened Types
  import opened Strings

  /** One entry of the response's `files` array. */
  datatype FileEntry = FileEntry(attributions: Option<seq<string>>)

  /** The parsed JSON body: `Malformed` when `res.json()` throws or the
      document cannot be walked (a `files` or `attributions` that is not an
      array); otherwise a document with or without `files`. */
  datatype Body = Malformed | Document(files: Option<seq<FileEntry>>)

  /** What `fetch` produces: a transport failure, or a status and a body. */
  datatype HttpOutcome = TransportFailure | Response(status: int, body: Body)

  const DefinitionsBase: string := "https://api.clearlydefined.io/definitions/"

  /** The `repoDefs` table: package manager to ClearlyDefined type/provider. */
  function RepoDef(packageManager: string): (r: Option<string>)
    ensures r == Some("maven/mavencentral") <==> packageManager == "maven" || packageManager == "gradle"
    ensures r == Some("npm/npmjs") <==> packageManager == "npm" || packageManager == "yarn"
    ensures r == Some("pypi/pypi") <==> packageManager == "poetry" || packageManager == "pip"
    ensures r.None? <==> packageManager !in {"maven", "gradle", "npm", "yarn", "poetry", "pip"}
  {
    match packageManager
    case "maven" => Some("maven/mavencentral")
    case "gradle" => Some("maven/mavencentral")
    case "npm" => Some("npm/npmjs")
    case "yarn" => Some("npm/npmjs")
    case "poetry" => Some("pypi/pypi")
    case "pip" => Some("pypi/pypi")
    case _ => None
  }

  /** The table entry as it appears in the URL template: a missing entry
      prints as `undefined`. */
  function RepoSegment(packageManager: string): string {
    RepoDef(packageManager).GetOr("undefined")
  }

  /** The namespace part of a package name: the text before the first `:`,
      or `-` when the name has none. */
  function Namespace(name: string): (ns: string)
    ensures ':' !in ns
    ensures ':' !in name ==> ns == "-"
    ensures ':' in name ==> ns + ":" <= name
  {
    SplitOnFirstTwo(name, ':');
    var parts := SplitOn(name, ':');
    if |parts| > 1 then parts[0] else "-"
  }

  /** The package-name part of a package name: the text between the first
      and the second `:`, or the whole name when it has no `:`. */
  function PackageName(name: string): (pkg: string)
    ensures ':' !in pkg
    ensures ':' !in name ==> pkg == name
    ensures ':' in name ==> Namespace(name) + ":" + pkg <= name
    ensures ':' in name ==>
      |Namespace(name) + ":" + pkg| == |name| || name[|Namespace(name) + ":" + pkg|] == ':'
  {
    SplitOnFirstTwo(name, ':');
    var parts := SplitOn(name, ':');
    if |parts| > 1 then parts[1] else name
  }

  /** With a `:` in the name, the namespace is the text before the first `:`
      and the package name the text up to the next `:` (the rest is dropped);
      without one, the namespace is `-` and the package name is the name. */
  lemma {:induction false} NamePartsSpec(name: string)
    ensures ':' !in name ==> Namespace(name) == "-" && PackageName(name) == name
    ensures ':' in name ==>
      ':' !in Namespace(name) && ':' !in PackageName(name) &&
      exists rest :: name == Namespace(name) + ":" + PackageName(name) + rest &&
                     (rest == "" || rest[0] == ':')
  {
    var parts := SplitOn(name, ':');
    if ':' in name {
      JoinSplit(name, ':');
      JoinOnFirstTwo(parts, ':');
      assert parts[0] in parts && parts[1] in parts;
      var rest := if |parts| == 2 then "" else [':'] + JoinOn(parts[2..], ':');
      assert name == parts[0] + ":" + parts[1] + rest;
    }
  }

  /** A URL of the template `base + registry/namespace/package/version`
      starts with `base + registry/` and ends with `/version`. */
  lemma UrlShape(base: string, registry: string, namespace: string, packageName: string, version: string)
    ensures var url := base + registry + "/" + namespace + "/" + packageName + "/" + version;
      base + registry + "/" <= url && |version| < |url| && url[|url| - |version| - 1..] == "/" + version
  {
    var head := base + registry + "/";
    var url := base + registry + "/" + namespace + "/" + packageName + "/" + version;
    assert url == head + (namespace + "/" + packageName) + ("/" + version);
  }

  /** The request URL built for a dependency: the definitions endpoint, the
      registry of the package manager (`undefined` when the table has none),
      namespace, package name and version. */
  function CopyrightUrl(d: Dependency): (url: string)
    ensures RepoDef(d.packageManager).Some? ==> DefinitionsBase + RepoDef(d.packageManager).value + "/" <= url
    ensures RepoDef(d.packageManager).None? ==> DefinitionsBase + "undefined" + "/" <= url
    ensures |d.version| < |url| && url[|url| - |d.version| - 1..] == "/" + d.version
  {
    UrlShape(DefinitionsBase, RepoSegment(d.packageManager), Namespace(d.name), PackageName(d.name), d.version);
    DefinitionsBase + RepoSegment(d.packageManager) + "/" + Namespace(d.name) + "/"
      + PackageName(d.name) + "/" + d.version
  }

  /** The attributions of all files, in file order, duplicates kept;
      a file without `attributions` contributes nothing. */
  function AllAttributions(files: seq<FileEntry>): (r: seq<string>)
    ensures forall a :: a in r <==>
      exists i :: 0 <= i < |files| && files[i].attributions.Some? && a in files[i].attributions.value
  {
    if |files| == 0 then []
    else AllAttributions(files[..|files| - 1]) + files[|files| - 1].attributions.GetOr([])
  }

  /** No string occurs twice. */
  predicate NoDuplicates(xs: seq<string>) {
    forall i, j :: 0 <= i < j < |xs| ==> xs[i] != xs[j]
  }

  /** Keeping the first occurrence of each string (the `indexOf === -1` push). */
  function Dedup(xs: seq<string>): (r: seq<string>)
    ensures NoDuplicates(r)
    ensures forall a :: a in r <==> a in xs
  {
    if |xs| == 0 then []
    else
      var d := Dedup(xs[..|xs| - 1]);
      var x := xs[|xs| - 1];
      assert forall a :: a in xs <==> a in xs[..|xs| - 1] || a == x;
      if x in d then d else d + [x]
  }

  /** Position of the first occurrence of `x` in `xs`. */
  function FirstIndex(xs: seq<string>, x: string): (k: nat)
    requires x in xs
    ensures k < |xs| && xs[k] == x && x !in xs[..k]
  {
    if xs[0] == x then 0 else 1 + FirstIndex(xs[1..], x)
  }

  lemma {:induction false} FirstIndexPrefix(xs: seq<string>, y: string, n: nat)
    requires n <= |xs| && y in xs[..n]
    ensures FirstIndex(xs, y) == FirstIndex(xs[..n], y)
  {
    if xs[0] != y {
      assert xs[1..][..n - 1] == xs[..n][1..];
      FirstIndexPrefix(xs[1..], y, n - 1);
    }
  }

  /** `Dedup` lists the strings in the order of their first occurrence. */
  lemma {:induction false} DedupFirstOccurrenceOrder(xs: seq<string>)
    ensures forall i, j :: 0 <= i < j < |Dedup(xs)| ==>
      FirstIndex(xs, Dedup(xs)[i]) < FirstIndex(xs, Dedup(xs)[j])
  {
    if |xs| > 0 {
      var init := xs[..|xs| - 1];
      var x := xs[|xs| - 1];
      var d := Dedup(init);
      DedupFirstOccurrenceOrder(init);
      assert xs[..|init|] == init;
      forall y | y in init ensures FirstIndex(xs, y) == FirstIndex(init, y) {
        FirstIndexPrefix(xs, y, |init|);
      }
      if x !in d {
        assert x !in init;
        assert FirstIndex(xs, x) == |init|;
        assert Dedup(xs) == d + [x];
      }
    }
  }

  /** The response shaping: attributions of a successful, well-formed response
      without duplicates; every failure and every other status gives `[]`. */
  function ShapeResponse(res: HttpOutcome): (r: seq<string>)
    ensures !(res.Response? && res.status == 200) ==> r == []
    ensures res.Response? && res.body.Malformed? ==> r == []
    ensures res.Response? && res.body.Document? && res.body.files.None? ==> r == []
    ensures NoDuplicates(r)
    ensures res.Response? && res.status == 200 && res.body.Document? && res.body.files.Some? ==>
      forall a :: a in r <==> a in AllAttributions(res.body.files.value)
  {
    match res
    case TransportFailure => []
    case Response(status, body) =>
      if status != 200 then []
      else
        match body
        case Malformed => []
        case Document(files) => if files.Some? then Dedup(AllAttributions(files.value)) else []
  }

  /** The attributions the lookup yields for a dependency, given `fetch`. */
  function CopyrightFor(d: Dependency, fetch: string -> HttpOutcome): seq<string> {
    ShapeResponse(fetch(CopyrightUrl(d)))
  }

  /** One more string on the input of `Dedup` appends it unless already kept. */
  lemma DedupSnoc(xs: seq<string>, x: string)
    ensures Dedup(xs + [x]) == if x in Dedup(xs) then Dedup(xs) else Dedup(xs) + [x]
  {
    assert (xs + [x])[..|xs|] == xs;
  }

  /** One more file on the input of `AllAttributions` appends its attributions. */
  lemma AllAttributionsSnoc(files: seq<FileEntry>, i: nat)
    requires i < |files|
    ensures AllAttributions(files[..i + 1]) == AllAttributions(files[..i]) + files[i].attributions.GetOr([])
  {
    assert files[..i + 1][..i] == files[..i];
  }

  /** The `forEach` callback over one file's attributions: push each one not
      yet in `copyrights`. */
  method PushNew(copyrights: seq<string>, attributions: seq<string>, ghost seen: seq<string>)
    returns (result: seq<string>)
    requires copyrights == Dedup(seen)
    ensures result == Dedup(seen + attributions)
  {
    result := copyrights;
    assert seen + attributions[..0] == seen;
    for j := 0 to |attributions|
      invariant result == Dedup(seen + attributions[..j])
    {
      DedupSnoc(seen + attributions[..j], attributions[j]);
      assert seen + attributions[..j + 1] == seen + attributions[..j] + [attributions[j]];
      if attributions[j] !in result {
        result := result + [attributions[j]];
      }
    }
    assert attributions[..|attributions|] == attributions;
  }

  /** The loop over `files` that collects the attributions. */
  method CollectAttributions(files: seq<FileEntry>) returns (copyrights: seq<string>)
    ensures copyrights == Dedup(AllAttributions(files))
  {
    copyrights := [];
    for i := 0 to |files|
      invariant copyrights == Dedup(AllAttributions(files[..i]))
    {
      AllAttributionsSnoc(files, i);
      var file := files[i];
      if file.attributions.Some? {
        copyrights := PushNew(copyrights, file.attributions.value, AllAttributions(files[..i]));
      } else {
        assert AllAttributions(files[..i]) + [] == AllAttributions(files[..i]);
      }
    }
    assert files[..|files|] == files;
  }

  /** `getCopyrightDataFromDependency`: never fails; `[]` on a transport or
      parse failure and on every status other than 200. */
  method GetCopyrightDataFromDependency(dependency: Dependency, fetch: string -> HttpOutcome)
    returns (copyrights: seq<string>)
    ensures copyrights == CopyrightFor(dependency, fetch)
    ensures NoDuplicates(copyrights)
    ensures fetch(CopyrightUrl(dependency)).TransportFailure? ==> copyrights == []
    ensures fetch(CopyrightUrl(dependency)).Response? && fetch(CopyrightUrl(dependency)).status != 200 ==>
      copyrights == []
  {
    var repoDef := RepoSegment(dependency.packageManager);
    var namespace: string;
    var packageName: string;
    var parts := SplitOn(dependency.name, ':');
    if |parts| > 1 {
      namespace := parts[0];
      packageName := parts[1];
    } else {
      namespace := "-";
      packageName := dependency.name;
    }
    var url := DefinitionsBase + repoDef + "/" + namespace + "/" + packageName + "/" + dependency.version;
    assert namespace == Namespace(dependency.name) && packageName == PackageName(dependency.name);
    var res := fetch(url);
    match res {
      case TransportFailure =>
        copyrights := [];
      case Response(status, body) =>
        if status != 200 {
          copyrights := [];
        } else {
          match body {
            case Malformed =>
              copyrights := [];
            case Document(files) =>
              if files.Some? {
                copyrights := CollectAttributions(files.value);
              } else {
                copyrights := [];
              }
          }
        }
    }
  }
}
