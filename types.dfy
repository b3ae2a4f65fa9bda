/** The shapes of src/lib/types.ts: JSON values, plain objects, dependency
    stubs, license-policy records and report entries. */
module Types {
  import opened Wrappers

  /** A JSON value as the upstream APIs deliver it (numbers are integers here). */
  datatype Value =
    | Null
    | Bool(b: bool)
    | Num(n: int)
    | Str(s: string)
    | Arr(items: seq<Value>)
    | Obj(fields: map<string, Value>)

  /** A plain JavaScript object: property name to property value.
      Object spread `{...a, ...b}` is the right-biased union `a + b`. */
  type Record = map<string, Value>

  /** The five license severities of an org's license policy. */
  datatype Severity = NoSeverity | Low | Medium | High | Critical

  /** A dependency stub as the license feed lists it under a license. */
  datatype Dependency = Dependency(
    id: string,            // conventionally name@version
    name: string,
    version: string,
    packageManager: string,
    copyright: Option<seq<string>>)

  /** A license-policy record of the license feed. `extra` holds every other
      property of the record (instructions, projects, ...). */
  datatype LicenseRecord = LicenseRecord(
    id: string,
    severity: Severity,
    dependencies: seq<Dependency>,
    extra: Record)

  /** What a license-text lookup returns. */
  datatype LicenseText = LicenseText(licenseText: string, licenseUrl: string)

  /** One entry of the report, keyed by an atomic license id. */
  datatype ReportEntry = ReportEntry(
    id: string,
    severity: Severity,
    extra: Record,
    dependencies: seq<Record>,
    severities: seq<Severity>,
    licenseText: Option<string>,
    licenseUrl: Option<string>)

  /** The report: license id to entry. */
  type Report = map<string, ReportEntry>

  /** A list of strings as a JSON array. */
  function StrValues(xs: seq<string>): seq<Value> {
    seq(|xs|, i requires 0 <= i < |xs| => Str(xs[i]))
  }

  /** A dependency stub as a plain object: its four string properties, and
      `copyright` only when it has been set. */
  function DependencyRecord(d: Dependency): Record {
    var base := map["id" := Str(d.id), "name" := Str(d.name), "version" := Str(d.version),
                    "packageManager" := Str(d.packageManager)];
    if d.copyright.Some? then base["copyright" := Arr(StrValues(d.copyright.value))] else base
  }
}
