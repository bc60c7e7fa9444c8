/** The generic JSON search of src/util.ts, its two hand-specialised copies, and
    the pre-order reference they are proved against. */
module Util {
  import opened Json
  import opened JsString

  /** What one call of a condition does: returns true, returns false, or throws
      (a property probe on `null`, or `.endsWith` on a value that is not a
      string, raises a TypeError that escapes the search). */
  datatype Verdict = Match | NoMatch | Throws

  /** What a search does: returns a value, returns `undefined`, or lets an
      exception escape. */
  datatype Search<+T> = Found(value: T) | Missing | Thrown

  /** `Condition<T>`: a test of one `(key, value)` entry. */
  type Condition = (string, Json) -> Verdict

  /** `isObj`: `typeof value === "object"`, not `null`, not an array. */
  predicate IsObj(value: Json)
  {
    value.JObj?
  }

  /** `matchesPath(nameOrPath, resourcePath)`: a raw string-suffix test, with no
      regard for `/` boundaries. */
  function MatchesPath(nameOrPath: string, resourcePath: string): (r: bool)
    ensures r <==> exists pre :: pre + nameOrPath == resourcePath
  {
    EndsWithIffConcat(resourcePath, nameOrPath);
    EndsWith(resourcePath, nameOrPath)
  }

  // ---------------------------------------------------------------------------
  // tryFindByPredicate

  /** `tryFindByPredicate(json, condition)`: a non-object is never searched;
      otherwise the entries are visited in order, each first tested (when its
      value is an object) and then searched itself. A found value is always an
      object, so the `if (resource)` test is true exactly on Found. */
  function TryFindByPredicate(json: Json, condition: Condition): (r: Search<Json>)
    ensures !IsObj(json) ==> r == Missing
    ensures r.Found? ==> IsObj(r.value) && exists key :: condition(key, r.value) == Match
    decreases json, 1, 0
  {
    if !IsObj(json) then Missing else FindInEntries(json.entries, 0, condition)
  }

  /** The `for … of Object.entries(json)` loop of tryFindByPredicate, from entry `i` on. */
  function FindInEntries(es: seq<Entry>, i: nat, condition: Condition): (r: Search<Json>)
    requires i <= |es|
    ensures r.Found? ==> IsObj(r.value) && exists key :: condition(key, r.value) == Match
    decreases JObj(es), 0, |es| - i
  {
    if i == |es| then Missing
    else
      var value := es[i].value;
      match if IsObj(value) then condition(es[i].key, value) else NoMatch
      case Match => Found(value)
      case Throws => Thrown
      case NoMatch =>
        match TryFindByPredicate(value, condition)
        case Found(resource) => Found(resource)
        case Thrown => Thrown
        case Missing => FindInEntries(es, i + 1, condition)
  }

  // ---------------------------------------------------------------------------
  // tryFindTemplateJsonResource

  /** `value.Metadata["aws:cdk:path"]`, when both own properties exist. */
  function CdkPath(value: Json): Option<Json>
  {
    match Get(value, "Metadata")
    case None => None
    case Some(metadata) => Get(metadata, "aws:cdk:path")
  }

  /** The inline test of tryFindTemplateJsonResource on an object `value`:
      `Metadata` must be an own property, `Metadata` must own `aws:cdk:path`
      (probing a `null` Metadata throws), and that must be the string
      `resourcePath` exactly. */
  function TemplateVerdict(resourcePath: string, value: Json): (v: Verdict)
    ensures v == Match <==> CdkPath(value) == Some(JStr(resourcePath))
    ensures v == Throws <==> Get(value, "Metadata") == Some(JNull)
  {
    match Get(value, "Metadata")
    case None => NoMatch
    case Some(metadata) =>
      if metadata.JNull? then Throws
      else if Get(metadata, "aws:cdk:path") == Some(JStr(resourcePath)) then Match
      else NoMatch
  }

  function TemplateCondition(resourcePath: string): Condition
  {
    (key: string, value: Json) => TemplateVerdict(resourcePath, value)
  }

  /** `tryFindTemplateJsonResource(json, resourcePath)`: the same walk, returning
      `{key, value}` of the first entry whose value passes TemplateVerdict. */
  function TryFindTemplateJsonResource(json: Json, resourcePath: string): (r: Search<Entry>)
    ensures !IsObj(json) ==> r == Missing
    ensures r.Found? ==> IsObj(r.value.value) && CdkPath(r.value.value) == Some(JStr(resourcePath))
    decreases json, 1, 0
  {
    if !IsObj(json) then Missing else FindTemplateInEntries(json.entries, 0, resourcePath)
  }

  function FindTemplateInEntries(es: seq<Entry>, i: nat, resourcePath: string): (r: Search<Entry>)
    requires i <= |es|
    ensures r.Found? ==> IsObj(r.value.value) && CdkPath(r.value.value) == Some(JStr(resourcePath))
    decreases JObj(es), 0, |es| - i
  {
    if i == |es| then Missing
    else
      var value := es[i].value;
      match if IsObj(value) then TemplateVerdict(resourcePath, value) else NoMatch
      case Match => Found(es[i])
      case Throws => Thrown
      case NoMatch =>
        match TryFindTemplateJsonResource(value, resourcePath)
        case Found(resource) => Found(resource)
        case Thrown => Thrown
        case Missing => FindTemplateInEntries(es, i + 1, resourcePath)
  }

  // ---------------------------------------------------------------------------
  // tryFindTreeJsonResource

  /** The inline test of tryFindTreeJsonResource on an object `value`: it must
      own `path`, and `matchesPath(nameOrPath, value.path)` must hold; a `path`
      that is not a string has no `endsWith`, and the call throws. */
  function PathVerdict(nameOrPath: string, value: Json): (v: Verdict)
    ensures v == Match <==> exists path :: Get(value, "path") == Some(JStr(path)) && MatchesPath(nameOrPath, path)
    ensures v == Throws <==> Get(value, "path").Some? && !Get(value, "path").value.JStr?
  {
    match Get(value, "path")
    case None => NoMatch
    case Some(JStr(path)) => if MatchesPath(nameOrPath, path) then Match else NoMatch
    case Some(_) => Throws
  }

  /** `tryFindTreeJsonResource(json, nameOrPath)`. */
  function TryFindTreeJsonResource(json: Json, nameOrPath: string): (r: Search<Json>)
    ensures !IsObj(json) ==> r == Missing
    ensures r.Found? ==> IsObj(r.value) && PathVerdict(nameOrPath, r.value) == Match
    decreases json, 1, 0
  {
    if !IsObj(json) then Missing else FindTreeInEntries(json.entries, 0, nameOrPath)
  }

  function FindTreeInEntries(es: seq<Entry>, i: nat, nameOrPath: string): (r: Search<Json>)
    requires i <= |es|
    ensures r.Found? ==> IsObj(r.value) && PathVerdict(nameOrPath, r.value) == Match
    decreases JObj(es), 0, |es| - i
  {
    if i == |es| then Missing
    else
      var value := es[i].value;
      match if IsObj(value) then PathVerdict(nameOrPath, value) else NoMatch
      case Match => Found(value)
      case Throws => Thrown
      case NoMatch =>
        match TryFindTreeJsonResource(value, nameOrPath)
        case Found(resource) => Found(resource)
        case Thrown => Thrown
        case Missing => FindTreeInEntries(es, i + 1, nameOrPath)
  }
}
