/** The resolution pipeline of src/app.ts: from a construct name or path, through
    the construct tree and the CloudFormation template, to the deployed stack
    resource; and the command line that runCommand builds for it. */
module App {
  import opened Json
  import opened JsString
  import opened Util
  import opened Preorder

  // ---------------------------------------------------------------------------
  // Data

  /** One item of `describe-stack-resources` output. */
  datatype DescribeStackResourcesItem = DescribeStackResourcesItem(
    stackName: string,
    stackId: string,
    logicalResourceId: string,
    physicalResourceId: string,
    resourceType: string,
    timestamp: string,
    resourceStatus: string,
    driftInformation: Json)

  datatype DescribeStackResourcesOutput = DescribeStackResourcesOutput(stackResources: seq<DescribeStackResourcesItem>)

  /** The parsed tree.json and template documents. */
  datatype CloudAssembly = CloudAssembly(treeJson: Json, templateJson: Json)

  /** A resolved resource: the tree node, the template `{key, value}` and the
      deployed item. `TreeJsonResource` is only a type annotation in the
      source, so the node stays a JSON value. */
  datatype Resource = Resource(treeData: Json, cfnTemplateData: Entry, runtimeData: DescribeStackResourcesItem)

  /** The ways resolution and command building fail. TypeError stands for a
      JavaScript TypeError raised by a property probe or by calling `replace`
      on `undefined`; its message text is the engine's. */
  datatype AppError =
    | ConstructNotFound(nameOrPath: string)
    | TemplateEntryNotFound(resourcePath: string)
    | LogicalIdNotFound(logicalId: string)
    | StackNotFound
    | TypeError

  function Quote(s: string): string
  {
    "\"" + s + "\""
  }

  /** The text each thrown Error carries; None for an engine TypeError. The
      template-stage message names tree.json although the template was searched. */
  function Message(e: AppError): Option<string>
  {
    match e
    case ConstructNotFound(q) => Some("Could not find resource with name " + Quote(q) + " in tree.json.")
    case TemplateEntryNotFound(p) => Some("Could not find resource " + Quote(p) + " in tree.json.")
    case LogicalIdNotFound(id) => Some("Could not find logical id " + Quote(id) + " in describe-stack-resources metadata.")
    case StackNotFound => Some("Could not find a stack within in the CDK app.")
    case TypeError => None
  }

  /** Each not-found message quotes the input it could not locate. */
  lemma MessageQuotesItsInput(e: AppError)
    requires e.ConstructNotFound? || e.TemplateEntryNotFound? || e.LogicalIdNotFound?
    ensures Message(e).Some?
    ensures e.ConstructNotFound? ==> Contains(Message(e).value, Quote(e.nameOrPath))
    ensures e.TemplateEntryNotFound? ==> Contains(Message(e).value, Quote(e.resourcePath))
    ensures e.LogicalIdNotFound? ==> Contains(Message(e).value, Quote(e.logicalId))
  {
    match e
    case ConstructNotFound(q) =>
      QuotedIsContained("Could not find resource with name ", q, " in tree.json.");
    case TemplateEntryNotFound(p) =>
      QuotedIsContained("Could not find resource ", p, " in tree.json.");
    case LogicalIdNotFound(id) =>
      QuotedIsContained("Could not find logical id ", id, " in describe-stack-resources metadata.");
  }

  lemma QuotedIsContained(pre: string, x: string, post: string)
    ensures Contains(pre + Quote(x) + post, Quote(x))
  {
    var s := pre + Quote(x) + post;
    assert s[|pre|..|pre| + |Quote(x)|] == Quote(x);
    assert OccursAt(s, Quote(x), |pre|);
  }

  // ---------------------------------------------------------------------------
  // AWS_REGION

  const UsEast1: string := "us-east-1"

  /** JavaScript `left ?? right`, with None for `undefined`. */
  function NullishCoalesce<T>(left: Option<T>, right: Option<T>): Option<T>
  {
    if left.Some? then left else right
  }

  /** `const AWS_REGION = "us-east-1" ?? process.env.AWS_REGION`: the literal on
      the left is never nullish, so the environment is never consulted. */
  function AwsRegion(envRegion: Option<string>): (region: Option<string>)
    ensures region == Some(UsEast1)
  {
    NullishCoalesce(Some(UsEast1), envRegion)
  }

  // ---------------------------------------------------------------------------
  // Matchers

  /** `createTreeJsonResourceNameMatcher(resourcePath)`: the key is ignored; the
      value must own `path` and `path.endsWith(resourcePath)` must hold (a path
      that is not a string throws). It agrees everywhere with the inline test of
      tryFindTreeJsonResource. */
  function CreateTreeJsonResourceNameMatcher(resourcePath: string): (matcher: Condition)
    ensures forall key, value :: matcher(key, value) == PathVerdict(resourcePath, value)
  {
    (key: string, value: Json) =>
      match Get(value, "path")
      case None => NoMatch
      case Some(JStr(path)) => if EndsWith(path, resourcePath) then Match else NoMatch
      case Some(_) => Throws
  }

  /** `value.constructInfo.fqn` when both own properties exist. This is also
      `value.constructInfo?.fqn`, since `null?.fqn` and a missing property
      both give `undefined`. */
  function FqnOf(value: Json): Option<Json>
  {
    match Get(value, "constructInfo")
    case None => None
    case Some(info) => Get(info, "fqn")
  }

  /** `createTreeJsonResourceTypeMatcher(resourceType)`: the value must own
      `constructInfo`, that must own `fqn`, and `fqn === resourceType` exactly;
      probing a `null` constructInfo throws. */
  function CreateTreeJsonResourceTypeMatcher(resourceType: string): (matcher: Condition)
    ensures forall key, value :: matcher(key, value) == Match <==> FqnOf(value) == Some(JStr(resourceType))
    ensures forall key, value :: matcher(key, value) == Throws <==> Get(value, "constructInfo") == Some(JNull)
  {
    (key: string, value: Json) =>
      match Get(value, "constructInfo")
      case None => NoMatch
      case Some(info) =>
        if info.JNull? then Throws
        else if Get(info, "fqn") == Some(JStr(resourceType)) then Match
        else NoMatch
  }

  /** tryFindTreeJsonResource is the generic search with the name matcher. */
  lemma TreeSearchUsesNameMatcher(json: Json, nameOrPath: string)
    ensures TryFindTreeJsonResource(json, nameOrPath) ==
            TryFindByPredicate(json, CreateTreeJsonResourceNameMatcher(nameOrPath))
  {
    TreeSearchIsGenericSearch(json, nameOrPath, CreateTreeJsonResourceNameMatcher(nameOrPath));
  }

  // ---------------------------------------------------------------------------
  // getStackName

  const StackType: string := "aws-cdk-lib.Stack"

  /** `getStackName(treeJson)`: the `id` of the first node typed as a Stack
      (`undefined` when that node has no `id`), or the not-found Error. */
  function GetStackName(treeJson: Json): (r: Result<Option<Json>, AppError>)
    ensures var cs, matcher := Candidates(treeJson), CreateTreeJsonResourceTypeMatcher(StackType);
            r.Ok? ==> exists n: nat :: IsFirstDecisive(cs, matcher, n) &&
                                       FqnOf(cs[n].value) == Some(JStr(StackType)) &&
                                       r.value == Get(cs[n].value, "id")
    ensures r.Err? ==> r.error == StackNotFound || r.error == TypeError
  {
    var matcher := CreateTreeJsonResourceTypeMatcher(StackType);
    match TryFindByPredicate(treeJson, matcher)
    case Found(stackData) =>
      SearchFoundIffFirstMatch(treeJson, matcher, stackData);
      Ok(Get(stackData, "id"))
    case Missing => Err(StackNotFound)
    case Thrown => Err(TypeError)
  }

  /** getStackName fails with the not-found Error exactly when no candidate is
      a Stack and none has a `null` constructInfo. */
  lemma StackNotFoundIffNoStack(treeJson: Json)
    ensures var cs := Candidates(treeJson);
            GetStackName(treeJson) == Err(StackNotFound) <==>
              forall k :: 0 <= k < |cs| ==>
                FqnOf(cs[k].value) != Some(JStr(StackType)) && Get(cs[k].value, "constructInfo") != Some(JNull)
  {
    SearchMissingIffAllFalse(treeJson, CreateTreeJsonResourceTypeMatcher(StackType));
  }

  // ---------------------------------------------------------------------------
  // findResource

  /** `Array.prototype.find` over the stack resources, on `LogicalResourceId`. */
  function FindStackResource(items: seq<DescribeStackResourcesItem>, logicalId: string): (r: Option<DescribeStackResourcesItem>)
    ensures r.None? <==> forall k :: 0 <= k < |items| ==> items[k].logicalResourceId != logicalId
    ensures r.Some? ==> exists n :: 0 <= n < |items| && items[n] == r.value &&
                                    r.value.logicalResourceId == logicalId &&
                                    forall k :: 0 <= k < n ==> items[k].logicalResourceId != logicalId
  {
    if items == [] then None
    else if items[0].logicalResourceId == logicalId then Some(items[0])
    else
      var r := FindStackResource(items[1..], logicalId);
      assert forall k :: 1 <= k < |items| ==> items[k] == items[1..][k - 1];
      r
  }

  /** `treeData.path` of a node the name matcher accepted, which is always a
      string (see FindResource); "" stands for the case that cannot arise. */
  function NodePath(node: Json): string
  {
    match Get(node, "path")
    case Some(JStr(path)) => path
    case _ => ""
  }

  /** `findResource`: the tree node by path suffix, then the template entry at
      exactly `path + "/Resource"`, then the first stack resource whose logical
      id is the template key; each stage fails with its own Error. */
  function FindResource(nameOrPath: string, cloudAssembly: CloudAssembly,
                        stackResourceMetadata: DescribeStackResourcesOutput): (r: Result<Resource, AppError>)
    ensures r.Ok? ==> exists path :: Get(r.value.treeData, "path") == Some(JStr(path)) &&
                                     MatchesPath(nameOrPath, path) &&
                                     CdkPath(r.value.cfnTemplateData.value) == Some(JStr(path + "/Resource"))
    ensures r.Ok? ==> r.value.runtimeData.logicalResourceId == r.value.cfnTemplateData.key &&
                      r.value.runtimeData in stackResourceMetadata.stackResources
    ensures r.Err? && r.error.ConstructNotFound? ==> r.error.nameOrPath == nameOrPath
    ensures r.Err? ==> !r.error.StackNotFound?
  {
    match TryFindByPredicate(cloudAssembly.treeJson, CreateTreeJsonResourceNameMatcher(nameOrPath))
    case Missing => Err(ConstructNotFound(nameOrPath))
    case Thrown => Err(TypeError)
    case Found(treeData) =>
      var resourcePath := NodePath(treeData) + "/Resource";
      match TryFindTemplateJsonResource(cloudAssembly.templateJson, resourcePath)
      case Missing => Err(TemplateEntryNotFound(resourcePath))
      case Thrown => Err(TypeError)
      case Found(cfnTemplateData) =>
        match FindStackResource(stackResourceMetadata.stackResources, cfnTemplateData.key)
        case None => Err(LogicalIdNotFound(cfnTemplateData.key))
        case Some(runtimeData) => Ok(Resource(treeData, cfnTemplateData, runtimeData))
  }

  /** A successful resolution joins the first pre-order tree node whose path
      ends with the query, the first template entry at exactly that path plus
      "/Resource", and the first stack resource carrying that entry's key. */
  lemma FindResourceJoinsFirstMatches(nameOrPath: string, cloudAssembly: CloudAssembly,
                                       stackResourceMetadata: DescribeStackResourcesOutput)
    requires FindResource(nameOrPath, cloudAssembly, stackResourceMetadata).Ok?
    ensures var res := FindResource(nameOrPath, cloudAssembly, stackResourceMetadata).value;
            var tree := Candidates(cloudAssembly.treeJson);
            exists n: nat :: IsFirstDecisive(tree, CreateTreeJsonResourceNameMatcher(nameOrPath), n) &&
                             tree[n].value == res.treeData
    ensures var res := FindResource(nameOrPath, cloudAssembly, stackResourceMetadata).value;
            var template := Candidates(cloudAssembly.templateJson);
            exists m: nat :: IsFirstDecisive(template, TemplateCondition(NodePath(res.treeData) + "/Resource"), m) &&
                             template[m] == res.cfnTemplateData
    ensures var res := FindResource(nameOrPath, cloudAssembly, stackResourceMetadata).value;
            var items := stackResourceMetadata.stackResources;
            exists i :: 0 <= i < |items| && items[i] == res.runtimeData &&
                        forall k :: 0 <= k < i ==> items[k].logicalResourceId != res.cfnTemplateData.key
  {
    var res := FindResource(nameOrPath, cloudAssembly, stackResourceMetadata).value;
    FindResourceStages(nameOrPath, cloudAssembly, stackResourceMetadata);
    FoundIsFirstMatch(cloudAssembly.treeJson, CreateTreeJsonResourceNameMatcher(nameOrPath), res.treeData);
    TemplateFoundIsFirstMatch(cloudAssembly.templateJson, NodePath(res.treeData) + "/Resource", res.cfnTemplateData);
  }

  /** What each stage returned, for a successful resolution. */
  lemma FindResourceStages(nameOrPath: string, cloudAssembly: CloudAssembly,
                           stackResourceMetadata: DescribeStackResourcesOutput)
    requires FindResource(nameOrPath, cloudAssembly, stackResourceMetadata).Ok?
    ensures var res := FindResource(nameOrPath, cloudAssembly, stackResourceMetadata).value;
            TryFindByPredicate(cloudAssembly.treeJson, CreateTreeJsonResourceNameMatcher(nameOrPath)) == Found(res.treeData) &&
            TryFindTemplateJsonResource(cloudAssembly.templateJson, NodePath(res.treeData) + "/Resource") ==
              Found(res.cfnTemplateData) &&
            FindStackResource(stackResourceMetadata.stackResources, res.cfnTemplateData.key) == Some(res.runtimeData)
  {
    match TryFindByPredicate(cloudAssembly.treeJson, CreateTreeJsonResourceNameMatcher(nameOrPath))
    case Found(treeData) =>
      match TryFindTemplateJsonResource(cloudAssembly.templateJson, NodePath(treeData) + "/Resource")
      case Found(entry) =>
  }

  lemma FoundIsFirstMatch(json: Json, condition: Condition, v: Json)
    requires TryFindByPredicate(json, condition) == Found(v)
    ensures exists n: nat :: IsFirstDecisive(Candidates(json), condition, n) && Candidates(json)[n].value == v
  {
    SearchFoundIffFirstMatch(json, condition, v);
  }

  lemma TemplateFoundIsFirstMatch(json: Json, resourcePath: string, entry: Entry)
    requires TryFindTemplateJsonResource(json, resourcePath) == Found(entry)
    ensures exists m: nat :: IsFirstDecisive(Candidates(json), TemplateCondition(resourcePath), m) &&
                             Candidates(json)[m] == entry
  {
    TemplateSearchIsFirstDecided(json, resourcePath);
    var cs := Candidates(json);
    var m := FirstDecisive(cs, TemplateCondition(resourcePath));
    assert IsFirstDecisive(cs, TemplateCondition(resourcePath), m);
  }

  /** The first stage fails with the not-found Error, naming the query,
      exactly when no tree candidate's path ends with it. */
  lemma ConstructNotFoundIffNoPathMatches(nameOrPath: string, cloudAssembly: CloudAssembly,
                                          stackResourceMetadata: DescribeStackResourcesOutput)
    ensures var tree := Candidates(cloudAssembly.treeJson);
            var matcher := CreateTreeJsonResourceNameMatcher(nameOrPath);
            FindResource(nameOrPath, cloudAssembly, stackResourceMetadata) == Err(ConstructNotFound(nameOrPath)) <==>
              forall k :: 0 <= k < |tree| ==> matcher(tree[k].key, tree[k].value) == NoMatch
  {
    var matcher := CreateTreeJsonResourceNameMatcher(nameOrPath);
    SearchMissingIffAllFalse(cloudAssembly.treeJson, matcher);
    assert FindResource(nameOrPath, cloudAssembly, stackResourceMetadata) == Err(ConstructNotFound(nameOrPath)) <==>
           TryFindByPredicate(cloudAssembly.treeJson, matcher) == Missing;
  }

  /** The second stage fails naming the computed `<path>/Resource` of the node
      the first stage found, and no template candidate carries that path. */
  lemma TemplateEntryNotFoundMeansNoEntry(nameOrPath: string, cloudAssembly: CloudAssembly,
                                          stackResourceMetadata: DescribeStackResourcesOutput)
    requires FindResource(nameOrPath, cloudAssembly, stackResourceMetadata).Err?
    requires FindResource(nameOrPath, cloudAssembly, stackResourceMetadata).error.TemplateEntryNotFound?
    ensures var stage1 := TryFindByPredicate(cloudAssembly.treeJson, CreateTreeJsonResourceNameMatcher(nameOrPath));
            var resourcePath := FindResource(nameOrPath, cloudAssembly, stackResourceMetadata).error.resourcePath;
            stage1.Found? && resourcePath == NodePath(stage1.value) + "/Resource"
    ensures var resourcePath := FindResource(nameOrPath, cloudAssembly, stackResourceMetadata).error.resourcePath;
            var template := Candidates(cloudAssembly.templateJson);
            forall k :: 0 <= k < |template| ==> TemplateVerdict(resourcePath, template[k].value) == NoMatch
  {
    var matcher := CreateTreeJsonResourceNameMatcher(nameOrPath);
    var treeData := TryFindByPredicate(cloudAssembly.treeJson, matcher).value;
    var resourcePath := NodePath(treeData) + "/Resource";
    assert TryFindTemplateJsonResource(cloudAssembly.templateJson, resourcePath) == Missing;
    TemplateSearchIsFirstDecided(cloudAssembly.templateJson, resourcePath);
  }

  /** The third stage fails only after the first two succeeded, naming the key
      of the template entry the second stage found, and no stack resource has
      that logical id. */
  lemma LogicalIdNotFoundMeansNoStackResource(nameOrPath: string, cloudAssembly: CloudAssembly,
                                              stackResourceMetadata: DescribeStackResourcesOutput)
    requires FindResource(nameOrPath, cloudAssembly, stackResourceMetadata).Err?
    requires FindResource(nameOrPath, cloudAssembly, stackResourceMetadata).error.LogicalIdNotFound?
    ensures var logicalId := FindResource(nameOrPath, cloudAssembly, stackResourceMetadata).error.logicalId;
            var stage1 := TryFindByPredicate(cloudAssembly.treeJson, CreateTreeJsonResourceNameMatcher(nameOrPath));
            var stage2 := if stage1.Found? then TryFindTemplateJsonResource(cloudAssembly.templateJson, NodePath(stage1.value) + "/Resource")
                          else Missing;
            stage1.Found? && stage2.Found? && stage2.value.key == logicalId
    ensures var logicalId := FindResource(nameOrPath, cloudAssembly, stackResourceMetadata).error.logicalId;
            var items := stackResourceMetadata.stackResources;
            forall k :: 0 <= k < |items| ==> items[k].logicalResourceId != logicalId
  {
  }


  /** Once the first stage has found a node, the second stage fails with the
      not-found Error naming `<path>/Resource` exactly when no template
      candidate carries that path. */
  lemma TemplateEntryNotFoundIffNoEntry(nameOrPath: string, cloudAssembly: CloudAssembly,
                                        stackResourceMetadata: DescribeStackResourcesOutput)
    ensures var stage1 := TryFindByPredicate(cloudAssembly.treeJson, CreateTreeJsonResourceNameMatcher(nameOrPath));
            var template := Candidates(cloudAssembly.templateJson);
            stage1.Found? ==>
              (FindResource(nameOrPath, cloudAssembly, stackResourceMetadata) ==
                 Err(TemplateEntryNotFound(NodePath(stage1.value) + "/Resource")) <==>
               forall k :: 0 <= k < |template| ==>
                 TemplateVerdict(NodePath(stage1.value) + "/Resource", template[k].value) == NoMatch)
  {
    var stage1 := TryFindByPredicate(cloudAssembly.treeJson, CreateTreeJsonResourceNameMatcher(nameOrPath));
    if stage1.Found? {
      var path := NodePath(stage1.value) + "/Resource";
      TemplateMissingIffAllFalse(cloudAssembly.templateJson, path);
      assert FindResource(nameOrPath, cloudAssembly, stackResourceMetadata) == Err(TemplateEntryNotFound(path)) <==>
             TryFindTemplateJsonResource(cloudAssembly.templateJson, path) == Missing;
    }
  }

  /** Once the first two stages have succeeded, the last stage fails with the
      not-found Error naming the template key exactly when no stack resource
      has that logical id. */
  lemma LogicalIdNotFoundIffNoStackResource(nameOrPath: string, cloudAssembly: CloudAssembly,
                                            stackResourceMetadata: DescribeStackResourcesOutput)
    ensures var stage1 := TryFindByPredicate(cloudAssembly.treeJson, CreateTreeJsonResourceNameMatcher(nameOrPath));
            var stage2 := if stage1.Found? then TryFindTemplateJsonResource(cloudAssembly.templateJson, NodePath(stage1.value) + "/Resource")
                          else Missing;
            var items := stackResourceMetadata.stackResources;
            stage1.Found? && stage2.Found? ==>
              (FindResource(nameOrPath, cloudAssembly, stackResourceMetadata) == Err(LogicalIdNotFound(stage2.value.key)) <==>
               forall k :: 0 <= k < |items| ==> items[k].logicalResourceId != stage2.value.key)
  {
  }

  /** A TypeError surfaces from the resolution exactly when one of the two
      document searches throws. */
  lemma TypeErrorIffStageThrows(nameOrPath: string, cloudAssembly: CloudAssembly,
                                stackResourceMetadata: DescribeStackResourcesOutput)
    ensures var stage1 := TryFindByPredicate(cloudAssembly.treeJson, CreateTreeJsonResourceNameMatcher(nameOrPath));
            var stage2 := if stage1.Found? then TryFindTemplateJsonResource(cloudAssembly.templateJson, NodePath(stage1.value) + "/Resource")
                          else Missing;
            FindResource(nameOrPath, cloudAssembly, stackResourceMetadata) == Err(TypeError) <==>
              stage1.Thrown? || stage2.Thrown?
  {
  }
  /** No later stage is consulted once an earlier one has failed: the result
      then does not depend on the later documents. */
  lemma FailedStageHidesLaterInputs(nameOrPath: string, treeJson: Json, template1: Json, template2: Json,
                                    metadata1: DescribeStackResourcesOutput, metadata2: DescribeStackResourcesOutput)
    ensures var stage1 := TryFindByPredicate(treeJson, CreateTreeJsonResourceNameMatcher(nameOrPath));
            !stage1.Found? ==>
              FindResource(nameOrPath, CloudAssembly(treeJson, template1), metadata1) ==
              FindResource(nameOrPath, CloudAssembly(treeJson, template2), metadata2)
    ensures var stage1 := TryFindByPredicate(treeJson, CreateTreeJsonResourceNameMatcher(nameOrPath));
            stage1.Found? && !TryFindTemplateJsonResource(template1, NodePath(stage1.value) + "/Resource").Found? ==>
              FindResource(nameOrPath, CloudAssembly(treeJson, template1), metadata1) ==
              FindResource(nameOrPath, CloudAssembly(treeJson, template1), metadata2)
  {
  }

  // ---------------------------------------------------------------------------
  // runCommand: the command line

  const EncodedPlaceholder: string := "ENCODED_PHYSICAL_RESOURCE_ID"
  const PhysicalPlaceholder: string := "PHYSICAL_RESOURCE_ID"
  const RegionPlaceholder: string := "AWS_REGION"

  /** The command table `API_LIST`: resource type, then subcommand, to template. */
  type ApiList = map<string, map<string, string>>

  /** The property key under which `API_LIST` is indexed by
      `constructInfo?.fqn!`: the string itself, or "undefined" when it is
      missing (JavaScript converts `undefined` to that key); None for a value
      of another type, which the model does not convert. */
  function TableKey(fqn: Option<Json>): Option<string>
  {
    match fqn
    case None => Some("undefined")
    case Some(JStr(t)) => Some(t)
    case Some(_) => None
  }

  /** `API_LIST[resource.treeData.constructInfo?.fqn!][subcommand]`, or None
      where JavaScript reads `undefined` and then throws, on indexing
      `undefined` or on calling `.replace`. */
  function CommandTemplate(apiList: ApiList, treeData: Json, subcommand: string): Option<string>
  {
    var typeKey := TableKey(FqnOf(treeData));
    if typeKey.Some? && typeKey.value in apiList && subcommand in apiList[typeKey.value]
    then Some(apiList[typeKey.value][subcommand])
    else None
  }

  /** The three global replacements of runCommand, in their order: the encoded
      placeholder first, as the raw placeholder is a substring of it. */
  function Substitute(template: string, physicalId: string, encodedId: string, region: string): string
  {
    var encoded := ReplaceAll(template, EncodedPlaceholder, encodedId);
    var raw := ReplaceAll(encoded, PhysicalPlaceholder, physicalId);
    ReplaceAll(raw, RegionPlaceholder, region)
  }

  /** `!process.env.AWS_REGION`: unset or empty. */
  predicate EnvRegionUnset(envRegion: Option<string>)
  {
    envRegion.None? || envRegion == Some("")
  }

  function RegionPrefix(envRegion: Option<string>): string
  {
    if EnvRegionUnset(envRegion) then "AWS_REGION=" + UsEast1 + " " else ""
  }

  function ArgsSuffix(restArgs: seq<string>): string
  {
    if |restArgs| > 0 then " " + Join(restArgs, " ") else ""
  }

  /** The command line for a template: the region assignment when the
      environment sets no region, the template after the three replacements,
      and the extra arguments. */
  function CommandLine(template: string, physicalId: string, encodedId: string, envRegion: Option<string>,
                       restArgs: seq<string>): string
  {
    RegionPrefix(envRegion) + (Substitute(template, physicalId, encodedId, UsEast1) + ArgsSuffix(restArgs))
  }

  /** The command line runCommand logs and spawns for `resource`:
      `encodeURIComponent` is the parameter `encode`, `process.env.AWS_REGION`
      the parameter `envRegion`. */
  method RunCommand(resource: Resource, subcommand: string, restArgs: seq<string>, apiList: ApiList,
                    encode: string -> string, envRegion: Option<string>) returns (r: Result<string, AppError>)
    ensures r.Err? <==> CommandTemplate(apiList, resource.treeData, subcommand).None?
    ensures r.Err? ==> r.error == TypeError
    ensures r.Ok? ==>
              var id := resource.runtimeData.physicalResourceId;
              r.value == CommandLine(CommandTemplate(apiList, resource.treeData, subcommand).value,
                                     id, encode(id), envRegion, restArgs)
  {
    var resourceType := FqnOf(resource.treeData);
    var typeKey := TableKey(resourceType);
    if typeKey.None? || typeKey.value !in apiList || subcommand !in apiList[typeKey.value] {
      return Err(TypeError);
    }
    var region := AwsRegion(envRegion).value;
    var id := resource.runtimeData.physicalResourceId;
    var command := apiList[typeKey.value][subcommand];
    command := ReplaceAll(command, EncodedPlaceholder, encode(id));
    command := ReplaceAll(command, PhysicalPlaceholder, id);
    command := ReplaceAll(command, RegionPlaceholder, region);
    ghost var substituted := command;
    if |restArgs| > 0 {
      command := command + " " + Join(restArgs, " ");
      ConcatAssociates(substituted, " ", Join(restArgs, " "));
    }
    assert command == substituted + ArgsSuffix(restArgs);
    if EnvRegionUnset(envRegion) {
      command := "AWS_REGION=" + region + " " + command;
    }
    return Ok(command);
  }

  /** Without a region in the environment, the line starts by assigning the
      default region; with one, it starts with the substituted template. */
  lemma CommandLineStartsWithRegion(template: string, physicalId: string, encodedId: string,
                                    envRegion: Option<string>, restArgs: seq<string>)
    ensures var line := CommandLine(template, physicalId, encodedId, envRegion, restArgs);
            EnvRegionUnset(envRegion) ==> OccursAt(line, "AWS_REGION=us-east-1 ", 0)
    ensures var line := CommandLine(template, physicalId, encodedId, envRegion, restArgs);
            !EnvRegionUnset(envRegion) ==> line == Substitute(template, physicalId, encodedId, UsEast1) + ArgsSuffix(restArgs)
  {
    if EnvRegionUnset(envRegion) {
      PrefixOccursAtStart(RegionPrefix(envRegion), Substitute(template, physicalId, encodedId, UsEast1) + ArgsSuffix(restArgs));
      assert RegionPrefix(envRegion) == "AWS_REGION=us-east-1 ";
    }
  }

  /** The extra arguments follow the substituted template, one space before
      each: one more argument adds a space and that argument at the end. */
  lemma ArgsAreAppended(template: string, physicalId: string, encodedId: string,
                        envRegion: Option<string>, restArgs: seq<string>, arg: string)
    ensures CommandLine(template, physicalId, encodedId, envRegion, restArgs + [arg]) ==
            CommandLine(template, physicalId, encodedId, envRegion, restArgs) + " " + arg
  {
    var sub := Substitute(template, physicalId, encodedId, UsEast1);
    ArgsSuffixSnoc(restArgs, arg);
    var suffix := ArgsSuffix(restArgs);
    ConcatAssociates(sub, suffix, " " + arg);
    ConcatAssociates(sub + suffix, " ", arg);
    ConcatAssociates(RegionPrefix(envRegion), sub + suffix, " " + arg);
    ConcatAssociates(RegionPrefix(envRegion) + (sub + suffix), " ", arg);
  }

  lemma ArgsSuffixSnoc(restArgs: seq<string>, arg: string)
    ensures ArgsSuffix(restArgs + [arg]) == ArgsSuffix(restArgs) + (" " + arg)
  {
    if |restArgs| == 0 {
      assert restArgs + [arg] == [arg];
    } else {
      JoinSnoc(restArgs, arg, " ");
      var j := Join(restArgs, " ");
      ConcatAssociates(" ", j + " ", arg);
      ConcatAssociates(" ", j, " ");
      ConcatAssociates(" " + j, " ", arg);
    }
  }

  // ---------------------------------------------------------------------------
  // What the replacement order does

  lemma EncodedContainsPhysical()
    ensures EncodedPlaceholder == "ENCODED_" + PhysicalPlaceholder
  {
  }

  /** The encoded placeholder becomes the encoded id, whole, provided the
      encoded id holds no `$` and no later placeholder (encodeURIComponent
      turns `$` into `%24`). */
  lemma EncodedPlaceholderGetsEncodedId(physicalId: string, encodedId: string, region: string)
    requires NoDollar(encodedId)
    requires !Contains(encodedId, PhysicalPlaceholder) && !Contains(encodedId, RegionPlaceholder)
    ensures Substitute(EncodedPlaceholder, physicalId, encodedId, region) == encodedId
  {
    ReplaceAllWholeMatch(EncodedPlaceholder, encodedId);
    ReplaceAllWithoutOccurrence(encodedId, PhysicalPlaceholder, physicalId);
    ReplaceAllWithoutOccurrence(encodedId, RegionPlaceholder, region);
  }

  /** Inside the encoded placeholder, the raw one starts at index 8 and no earlier. */
  lemma PhysicalInsideEncoded()
    ensures OccursAt(EncodedPlaceholder, PhysicalPlaceholder, 8)
    ensures forall k: nat :: k < 8 ==> !OccursAt(EncodedPlaceholder, PhysicalPlaceholder, k)
  {
    var e, p := EncodedPlaceholder, PhysicalPlaceholder;
    assert e[8..8 + |p|] == p;
    forall k: nat | k < 8 ensures !OccursAt(e, p, k) {
      assert e[k] != 'P' && p[0] == 'P';
      assert e[k..k + |p|][0] == e[k];
    }
  }

  /** Replacing the raw placeholder first would leave `ENCODED_` in front of
      the raw id and the encoded id nowhere, for any raw id without `$` that
      does not itself hold the raw placeholder. */
  lemma ReversedOrderLeavesEncodedPrefix(physicalId: string, encodedId: string)
    requires NoDollar(physicalId) && !Contains(physicalId, PhysicalPlaceholder)
    ensures ReplaceAll(ReplaceAll(EncodedPlaceholder, PhysicalPlaceholder, physicalId), EncodedPlaceholder, encodedId) ==
            "ENCODED_" + physicalId
  {
    RawPassOnEncoded(physicalId);
    EncodedAbsentAfterPrefix(physicalId);
    ReplaceAllWithoutOccurrence("ENCODED_" + physicalId, EncodedPlaceholder, encodedId);
  }

  /** The raw pass turns the encoded placeholder into `ENCODED_` and the raw id. */
  lemma RawPassOnEncoded(physicalId: string)
    requires NoDollar(physicalId)
    ensures ReplaceAll(EncodedPlaceholder, PhysicalPlaceholder, physicalId) == "ENCODED_" + physicalId
  {
    var e, p, pre := EncodedPlaceholder, PhysicalPlaceholder, "ENCODED_";
    EncodedContainsPhysical();
    assert e[..|pre|] == pre && e[|pre| + |p|..] == [];
    PhysicalInsideEncoded();
    ReplaceFromLeftmost(e, 0, |pre|, p, physicalId);
    ExpandLiteral(physicalId, p, e[..|pre|], e[|pre| + |p|..]);
    assert ReplaceFrom(e, |e|, p, physicalId) == "";
  }

  /** An encoded placeholder in `ENCODED_` followed by a raw id would carry a
      raw placeholder inside that id, eight characters further on. */
  lemma EncodedAbsentAfterPrefix(physicalId: string)
    requires !Contains(physicalId, PhysicalPlaceholder)
    ensures !Contains("ENCODED_" + physicalId, EncodedPlaceholder)
  {
    var t, e, p := "ENCODED_" + physicalId, EncodedPlaceholder, PhysicalPlaceholder;
    assert e[8..] == p;
    forall i: nat | i <= |t| && OccursAt(t, e, i) ensures i <= |physicalId| && OccursAt(physicalId, p, i) {
      assert t[i + 8..i + |e|] == t[i..i + |e|][8..];
      assert physicalId[i..i + |p|] == t[i + 8..i + |e|];
    }
  }

  /** The raw placeholder becomes the raw id. */
  lemma PhysicalPlaceholderGetsRawId(physicalId: string, encodedId: string, region: string)
    requires NoDollar(physicalId) && !Contains(physicalId, RegionPlaceholder)
    ensures Substitute(PhysicalPlaceholder, physicalId, encodedId, region) == physicalId
  {
    ReplaceAllWithoutOccurrence(PhysicalPlaceholder, EncodedPlaceholder, encodedId);
    ReplaceAllWholeMatch(PhysicalPlaceholder, physicalId);
    ReplaceAllWithoutOccurrence(physicalId, RegionPlaceholder, region);
  }

  /** The region placeholder becomes the region. */
  lemma RegionPlaceholderGetsRegion(physicalId: string, encodedId: string, region: string)
    requires NoDollar(region)
    ensures Substitute(RegionPlaceholder, physicalId, encodedId, region) == region
  {
    ReplaceAllWithoutOccurrence(RegionPlaceholder, EncodedPlaceholder, encodedId);
    ReplaceAllWithoutOccurrence(RegionPlaceholder, PhysicalPlaceholder, physicalId);
    ReplaceAllWholeMatch(RegionPlaceholder, region);
  }

  /** A template with no raw and no region placeholder (and so no encoded one)
      is used as it stands. */
  lemma PlaceholderFreeTemplateIsKept(template: string, physicalId: string, encodedId: string, region: string)
    requires !Contains(template, PhysicalPlaceholder) && !Contains(template, RegionPlaceholder)
    ensures Substitute(template, physicalId, encodedId, region) == template
  {
    if Contains(template, EncodedPlaceholder) {
      var i: nat :| i <= |template| && OccursAt(template, EncodedPlaceholder, i);
      assert template[i + 8..i + 28] == template[i..i + 28][8..] == PhysicalPlaceholder;
      assert OccursAt(template, PhysicalPlaceholder, i + 8);
    }
    ReplaceAllWithoutOccurrence(template, EncodedPlaceholder, encodedId);
    ReplaceAllWithoutOccurrence(template, PhysicalPlaceholder, physicalId);
    ReplaceAllWithoutOccurrence(template, RegionPlaceholder, region);
  }

  /** A raw placeholder that ends a `P`-free text is replaced by the raw id. */
  lemma PlaceholderAfterText(text: string, physicalId: string)
    requires 'P' !in text && NoDollar(physicalId)
    ensures ReplaceAll(text + PhysicalPlaceholder, PhysicalPlaceholder, physicalId) == text + physicalId
  {
    var t, p := text + PhysicalPlaceholder, PhysicalPlaceholder;
    forall k: nat | k < |text| ensures !OccursAt(t, p, k) {
      assert t[k] == text[k];
    }
    assert t[|text|..] == p;
    ReplaceFromLeftmost(t, 0, |text|, p, physicalId);
    ExpandLiteral(physicalId, p, t[..|text|], t[|text| + |p|..]);
    assert ReplaceFrom(t, |text| + |p|, p, physicalId) == "";
    assert t[0..|text|] == text;
  }

  /** A template made of a text and the raw placeholder after it becomes the
      text followed by the raw id. Of the command table this covers the Bucket
      `ls` template (`aws s3 ls PHYSICAL_RESOURCE_ID`) and its five s3api
      templates, the two Lambda `get-function` templates and the DynamoDB
      `describe` template. The text must not hold `N`, so
      that the encoded placeholder cannot occur, nor `P` or `A`, so that no
      placeholder starts inside it. */
  lemma TextThenPhysicalPlaceholder(text: string, physicalId: string, encodedId: string, region: string)
    requires 'N' !in text && 'P' !in text && 'A' !in text
    requires NoDollar(physicalId) && !Contains(physicalId, RegionPlaceholder)
    ensures Substitute(text + PhysicalPlaceholder, physicalId, encodedId, region) == text + physicalId
  {
    var t := text + PhysicalPlaceholder;
    assert EncodedPlaceholder[1] == 'N' && 'N' !in PhysicalPlaceholder;
    assert 'N' !in t by {
      forall k | 0 <= k < |t| ensures t[k] != 'N' {
        if k >= |text| { assert t[k] == PhysicalPlaceholder[k - |text|]; }
        else { assert t[k] == text[k]; }
      }
    }
    AbsentCharacterRulesOut(t, EncodedPlaceholder, 1);
    ReplaceAllWithoutOccurrence(t, EncodedPlaceholder, encodedId);
    PlaceholderAfterText(text, physicalId);
    assert RegionPlaceholder[0] == 'A';
    NoOccurrenceAfterText(text, physicalId, RegionPlaceholder);
    ReplaceAllWithoutOccurrence(text + physicalId, RegionPlaceholder, region);
  }

  /** The raw pass on the bare raw placeholder, for a raw id holding `$&`. */
  lemma MatchPatternBringsPlaceholderBack(pre: string, post: string)
    requires NoDollar(pre) && NoDollar(post)
    ensures ReplaceAll(PhysicalPlaceholder, PhysicalPlaceholder, pre + "$&" + post) == pre + PhysicalPlaceholder + post
  {
    var p, raw := PhysicalPlaceholder, pre + "$&" + post;
    ReplaceFromReplaces(p, 0, p, raw);
    assert p[..0] == "" && p[|p|..] == "";
    assert ReplaceFrom(p, |p|, p, raw) == "";
    assert raw == pre + ("$&" + post);
    ExpandLiteralPrefix(pre, "$&" + post, p, "", "");
    ExpandMatch(post, p, "", "");
    ExpandLiteral(post, p, "", "");
    ConcatAssociates(pre, p, post);
  }

  /** Text without a `W` holds no region placeholder and survives the region pass. */
  lemma RegionPassKeepsText(line: string, region: string)
    requires 'W' !in line
    ensures ReplaceAll(line, RegionPlaceholder, region) == line
  {
    assert RegionPlaceholder[1] == 'W';
    AbsentCharacterRulesOut(line, RegionPlaceholder, 1);
    ReplaceAllWithoutOccurrence(line, RegionPlaceholder, region);
  }

  /** The first two passes on the bare raw placeholder, for a raw id holding `$&`. */
  lemma RawPassesWithMatchPattern(pre: string, post: string, encodedId: string, region: string)
    requires NoDollar(pre) && NoDollar(post)
    ensures Substitute(PhysicalPlaceholder, pre + "$&" + post, encodedId, region) ==
            ReplaceAll(pre + PhysicalPlaceholder + post, RegionPlaceholder, region)
  {
    ReplaceAllWithoutOccurrence(PhysicalPlaceholder, EncodedPlaceholder, encodedId);
    MatchPatternBringsPlaceholderBack(pre, post);
  }

  /** A raw id is inserted through the `$` patterns of `replace`: `$&` in the
      id brings the raw placeholder back, and only the later region pass can
      change the result. */
  lemma DollarInRawIdIsExpanded(pre: string, post: string, encodedId: string, region: string)
    requires NoDollar(pre) && NoDollar(post) && 'W' !in pre && 'W' !in post
    ensures Substitute(PhysicalPlaceholder, pre + "$&" + post, encodedId, region) == pre + PhysicalPlaceholder + post
  {
    RawPassesWithMatchPattern(pre, post, encodedId, region);
    RegionPassAroundPlaceholder(pre, post, region);
  }

  lemma RegionPassAroundPlaceholder(pre: string, post: string, region: string)
    requires 'W' !in pre && 'W' !in post
    ensures ReplaceAll(pre + PhysicalPlaceholder + post, RegionPlaceholder, region) == pre + PhysicalPlaceholder + post
  {
    assert 'W' !in PhysicalPlaceholder;
    RegionPassKeepsText(pre + PhysicalPlaceholder + post, region);
  }
}
