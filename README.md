# cdk-app-cli resource resolution, in Dafny

cdk-app-cli takes a construct name or path from a synthesized CDK app and
resolves it in three stages:

1. the construct-tree document (`tree.json`), searched for a node whose `path` ends with the query;
2. the CloudFormation template, searched for the entry whose `Metadata["aws:cdk:path"]` is that path plus `/Resource`;
3. the `describe-stack-resources` output, searched for the item whose logical id is that entry's key.

It then builds a shell command for the resolved resource. To do so it takes a
template from a command table and substitutes the resource's physical id (raw
and URI-encoded) and a region into it.

This project models that core and proves what it does:

- `json.dfy` (module `Json`): the JSON value space the code sees through `any`. An object keeps its entries in `Object.entries` order. Own-property lookup is `Get`.
- `jsstring.dfy` (module `JsString`): the string built-ins the core relies on:
  - `endsWith`;
  - `replace` with a global pattern of plain characters, including the `$` patterns of the replacement string;
  - `join`.
- `util.dfy` (module `Util`) holds the recursive searches of `src/util.ts`:
  - `isObj` and `matchesPath`;
  - the generic `tryFindByPredicate` and its two hand-specialised copies.

  A condition has three outcomes (`Match`, `NoMatch`, `Throws`), because a property probe on `null`, or `.endsWith` on a non-string, raises a TypeError that escapes the search. A search likewise returns `Found`, `Missing` (`undefined`) or `Thrown`.
- `preorder.dfy` (module `Preorder`) holds the independent reference for the searches: `Candidates`, every object-valued entry reachable through objects, in pre-order. The walks are proved to return the first candidate on which the condition does not answer false. From that follow:
  - when a search gives `undefined`, when it throws, and what it returns;
  - the specialised copies agree with the generic search;
  - the root is never tested and array contents are never searched.
- `app.dfy` (module `App`) covers `src/app.ts`:
  - the data interfaces, the two matcher builders, `getStackName`, `findResource` and its three error messages;
  - the `AWS_REGION` constant, which is always `us-east-1`, because the literal on the left of `??` is never nullish;
  - the command-line building of `runCommand`, as a method that reassigns `command` step by step.

  Lemmas cover why the placeholder order matters, because the raw placeholder is a substring of the encoded one, and what each placeholder becomes.
- `scenarios.dfy` (module `Scenarios`) holds small concrete documents, hand-built from what the unit test implies: a stack `DemoAppStack` holding a queue `MyQueue`, with the `id`, `path`, `Type` and `Metadata` the test uses. The `tree-0.1` wrapper, the App root node (`id` `App`, `path` empty), the queue's `Resource` child node with fqn `aws-cdk-lib.aws_sqs.CfnQueue`, the `CDKMetadata` entry, the `DeletionPolicy` entry, the logical id `MyQueueE6CA6235` and the fields of the stack-resource item are made up to complete them. It covers:
  - the `matchesPath` examples of the unit test;
  - the tree and template searches;
  - `getStackName`;
  - a full resolution, and a failure at each later stage;
  - two constructs sharing one id.

The unit test at `test/util.test.ts:26-40` compares the object returned by
`tryFindTemplateJsonResource` with the template resource definition. The code,
at `src/util.ts:83`, returns `{key, value}`. The model follows the code:
`Scenarios.TemplateFixtureFindsQueue` states the match about the returned
entry, whose `value` is the definition.

Inputs that the source reads from its surroundings are parameters:

- `encodeURIComponent` is the function `encode`;
- `process.env.AWS_REGION` is an `Option<string>`, where `None` means unset;
- the command table `API_LIST` of `src/commands.ts` is a `map` from type to subcommand to template.

## Model

| member | source | states |
|---|---|---|
| Json.Get | src/util.ts:79-81 | an own property is found exactly when the value is an object having that key, and the value returned is that entry's |
| Json.Lookup | src/util.ts:79-81 | the value returned belongs to the first entry with the key, and none is returned when no entry has it |
| Json.GetFirstEntry | src/util.ts:79-81 | reading a property gives the value of the first entry carrying that key |
| JsString.EndsWith | src/util.ts:40 | definition of `endsWith` (no contract of its own); characterised by `JsString.EndsWithIffConcat` |
| JsString.EndsWithIffConcat | src/util.ts:40 | `endsWith` holds exactly when the string is something followed by the suffix |
| JsString.PrefixOccursAtStart | src/app.ts:163-164 | a string occurs at the start of any string that begins with it |
| JsString.Expand | src/app.ts:149-157 | definition of the replacement-string expansion of `replace` (`$$`, `$&`, `` $` ``, `$'`, any other `$` literal); its properties are `JsString.ExpandLiteral` and `JsString.ExpandLiteralPrefix` |
| JsString.ReplaceFrom | src/app.ts:149-157 | definition of the leftmost, non-overlapping global scan of `replace` with `/g`; its properties are the `ReplaceFrom…` lemmas below |
| JsString.ReplaceAll | src/app.ts:149-157 | definition of `s.replace(/pat/g, rep)` for a pattern of plain characters, the scan from index 0 |
| JsString.ExpandLiteral | src/app.ts:153-156 | a replacement string without `$` is inserted as it stands |
| JsString.ExpandLiteralPrefix | src/app.ts:153-156 | a `$`-free head of a replacement string is inserted as it stands, ahead of the expansion of the rest |
| JsString.ReplaceFromWithoutOccurrence | src/app.ts:149-157 | where the pattern does not occur, a global replace keeps the rest of the string unchanged |
| JsString.ReplaceFromCopiesUpTo | src/app.ts:149-157 | up to the next occurrence, a global replace copies the text unchanged |
| JsString.ReplaceFromLeftmost | src/app.ts:149-157 | a global replace keeps the text before the leftmost occurrence, expands the replacement there, and resumes after the occurrence |
| JsString.ReplaceAllWithoutOccurrence | src/app.ts:149-157 | a string not containing the pattern is returned unchanged |
| JsString.AbsentCharacterRulesOut | src/app.ts:149-157 | a pattern holding a character the string lacks does not occur in it |
| JsString.NoOccurrenceAfterText | src/app.ts:149-157 | no occurrence starts inside a text lacking the pattern's first character |
| JsString.ReplaceAllWholeMatch | src/app.ts:149-157 | a string that is exactly the pattern becomes the `$`-free replacement |
| JsString.Join | src/app.ts:160 | definition of `xs.join(sep)`; its partner is `JsString.JoinSnoc` |
| JsString.JoinSnoc | src/app.ts:160 | joining one more string adds the separator and that string after the join of the others |
| Util.IsObj | src/util.ts:35-37 | definition of `isObj`: an object, which excludes `null` and arrays (no contract of its own; used by every search) |
| Util.MatchesPath | src/util.ts:39-41 | true exactly when the resource path is some string followed by the query, with no regard for `/` boundaries |
| Util.TryFindByPredicate | src/util.ts:45-65 | a non-object is never searched; a returned value is an object that the condition accepted under some key |
| Util.FindInEntries | src/util.ts:53-62 | the entry loop returns only objects that the condition accepted |
| Util.CdkPath | src/util.ts:79-81 | definition of `value.Metadata["aws:cdk:path"]` when both own properties exist |
| Util.TemplateVerdict | src/util.ts:77-82 | accepts exactly when `Metadata["aws:cdk:path"]` is the given path; throws exactly when `Metadata` is `null` |
| Util.TryFindTemplateJsonResource | src/util.ts:68-93 | a non-object gives `undefined`; a returned `{key, value}` has an object value carrying exactly the requested CDK path |
| Util.FindTemplateInEntries | src/util.ts:76-90 | the entry loop returns only entries whose value carries the requested CDK path |
| Util.PathVerdict | src/util.ts:102-106 | accepts exactly when `path` is a string ending with the query; throws exactly when `path` is present and not a string |
| Util.TryFindTreeJsonResource | src/util.ts:96-115 | a non-object gives `undefined`; a returned node is an object whose `path` ends with the query |
| Util.FindTreeInEntries | src/util.ts:101-114 | the entry loop returns only objects whose `path` ends with the query |
| Preorder.Candidates | src/util.ts:53-62 | every entry the walk can test has an object value strictly shallower than the root |
| Preorder.CandidatesFrom | src/util.ts:53-62 | every entry from position `i` on that the walk can test is an object no deeper than those entries |
| Preorder.FirstDecisive | src/util.ts:54-56 | the position of the first candidate on which the condition does not answer false, with all earlier candidates answering false |
| Preorder.FirstDecidedAppend | src/util.ts:53-62 | on a concatenation, the first part decides unless every candidate in it answers false |
| Preorder.FirstDecisiveAppend | src/util.ts:53-62 | the first decisive position of a concatenation is that of the first part, or the first part's length plus that of the second |
| Preorder.CandidatesStep | src/util.ts:53-62 | over the candidates of entries `i..`, entry `i` decides when it is an object on which the condition does not answer false; else the first decision below it; else the remaining entries |
| Preorder.SearchIsFirstDecided | src/util.ts:45-65 | tryFindByPredicate returns the value of the first pre-order candidate the condition accepts, throws if the first decisive candidate throws, and otherwise gives `undefined` |
| Preorder.EntriesSearchIsFirstDecided | src/util.ts:53-62 | the entry loop from position `i` picks the first decisive candidate among those entries and their subtrees |
| Preorder.TemplateSearchIsFirstDecided | src/util.ts:68-93 | tryFindTemplateJsonResource returns the first pre-order candidate whose template test is decisive |
| Preorder.TemplateEntriesIsFirstDecided | src/util.ts:76-90 | the template entry loop picks the first decisive candidate from position `i` on |
| Preorder.TemplateSearchIsGenericSearch | src/util.ts:67-93 | the hand-written template walk is tryFindByPredicate with its inline test, apart from also returning the key |
| Preorder.TreeSearchIsGenericSearch | src/util.ts:95-115 | the hand-written tree walk equals tryFindByPredicate with any condition that applies the path test |
| Preorder.TreeEntriesIsGenericSearch | src/util.ts:101-114 | the two entry loops agree from every position |
| Preorder.SearchMissingIffAllFalse | src/util.ts:64 | `undefined` exactly when the condition answers false on every candidate |
| Preorder.TemplateMissingIffAllFalse | src/util.ts:76-92 | the template walk gives `undefined` exactly when no candidate's value carries the requested CDK path without throwing on the way |
| Preorder.SearchFoundIffFirstMatch | src/util.ts:54-61 | a value is returned exactly when it belongs to the first decisive candidate and the condition accepts it there |
| Preorder.SearchThrownIffFirstThrows | src/util.ts:54 | an exception escapes exactly when the first decisive candidate throws |
| Preorder.FoundIsProperDescendant | src/util.ts:49-55 | a returned value is an object strictly below the root, so the root is never tested |
| Preorder.ArrayContentsAreNeverSearched | src/util.ts:35-37 | an array held as a value of the searched object may hold anything without changing what tryFindByPredicate returns |
| Preorder.CandidatesIgnoreArrays | src/util.ts:35-37 | the candidate list does not depend on the contents of an array |
| App.Message | src/app.ts:96-119 | definition of the text of each thrown Error, with the source's exact wording (also src/app.ts:184); none for an engine TypeError; its property is `App.MessageQuotesItsInput` |
| App.MessageQuotesItsInput | src/app.ts:96-119 | each not-found error message quotes the input it could not locate |
| App.QuotedIsContained | src/app.ts:98 | a message built around a quoted input contains that quoted input |
| App.NullishCoalesce | src/app.ts:20 | definition of `left ?? right`, with None for `undefined`; its consequence for the region is `App.AwsRegion` |
| App.AwsRegion | src/app.ts:20 | the region is `us-east-1` whatever the environment holds |
| App.CreateTreeJsonResourceNameMatcher | src/app.ts:198-203 | the matcher ignores the key and agrees everywhere with the path test of tryFindTreeJsonResource |
| App.CreateTreeJsonResourceTypeMatcher | src/app.ts:205-212 | accepts exactly when `constructInfo.fqn` is the given type; throws exactly when `constructInfo` is `null` |
| App.TreeSearchUsesNameMatcher | src/app.ts:93-94 | searching with the name matcher is tryFindTreeJsonResource |
| App.GetStackName | src/app.ts:180-187 | on success, the answer is the `id` of the first decisive pre-order candidate of the given tree, and that candidate is typed `aws-cdk-lib.Stack`; otherwise the stack-not-found error or a TypeError |
| App.StackNotFoundIffNoStack | src/app.ts:180-185 | the stack-not-found error occurs exactly when no candidate of the tree is a Stack and none has a `null` constructInfo |
| App.FindStackResource | src/app.ts:112-114 | no item is returned exactly when no item has the logical id; otherwise the first item having it is returned |
| App.NodePath | src/app.ts:104 | definition of `treeData.path` for a node the name matcher accepted (no contract of its own; used by every statement about the second stage) |
| App.FindResource | src/app.ts:86-122 | on success the node's path ends with the query, the template entry carries that path plus `/Resource`, and the item's logical id is the entry's key; the tree error names the query; the stack-not-found error never occurs |
| App.FindResourceJoinsFirstMatches | src/app.ts:93-121 | a resolution joins the first pre-order node matching the query, the first template candidate at the derived path, and the first stack resource with that key |
| App.FoundIsFirstMatch | src/app.ts:93-94 | a value found by tryFindByPredicate belongs to the first decisive pre-order candidate |
| App.TemplateFoundIsFirstMatch | src/app.ts:102-105 | an entry found by tryFindTemplateJsonResource is the first decisive pre-order candidate for that path |
| App.ConstructNotFoundIffNoPathMatches | src/app.ts:93-100 | the tree-stage error, naming the query, occurs exactly when no tree candidate's path ends with the query |
| App.TemplateEntryNotFoundMeansNoEntry | src/app.ts:102-110 | the template-stage error names the found node's path plus `/Resource`, and no template candidate carries it |
| App.TemplateEntryNotFoundIffNoEntry | src/app.ts:102-110 | once the tree stage has found a node, the template-stage error naming that node's path plus `/Resource` occurs exactly when no template candidate carries that path |
| App.LogicalIdNotFoundMeansNoStackResource | src/app.ts:93-119 | the last-stage error occurs only after the tree stage found a node and the template stage found an entry at its path plus `/Resource`; it names that entry's key, and no stack resource has that logical id |
| App.LogicalIdNotFoundIffNoStackResource | src/app.ts:112-119 | once the tree stage has found a node and the template stage an entry, the last-stage error naming that entry's key occurs exactly when no stack resource has that logical id |
| App.TypeErrorIffStageThrows | src/app.ts:93-110 | the resolution ends in a TypeError exactly when the tree search or the template search throws |
| App.FailedStageHidesLaterInputs | src/app.ts:96-110 | after the tree or template stage fails, the result does not depend on the later inputs |
| App.FqnOf | src/app.ts:146 | definition of `resource.treeData.constructInfo?.fqn` (no contract of its own) |
| App.TableKey | src/app.ts:146-148 | definition of the command-table key made from that `fqn`: the string itself, or `"undefined"` when it is missing |
| App.CommandTemplate | src/app.ts:146-148 | definition of `API_LIST[type][subcommand]`, None where JavaScript reads `undefined` and then throws |
| App.Substitute | src/app.ts:149-157 | definition of the three `replace` calls in their order: encoded placeholder, raw placeholder, region; its properties are the placeholder lemmas below |
| App.EnvRegionUnset | src/app.ts:163 | definition of `!process.env.AWS_REGION`: unset or empty |
| App.RegionPrefix | src/app.ts:163-165 | definition of the `AWS_REGION=us-east-1 ` prefix, present exactly when the environment leaves the region unset or empty |
| App.ArgsSuffix | src/app.ts:159-161 | definition of the space and joined extra arguments, empty when there are none |
| App.CommandLine | src/app.ts:146-165 | definition of the whole command line, the specification `App.RunCommand` is proved against; its properties are `App.CommandLineStartsWithRegion` and `App.ArgsAreAppended` |
| App.RunCommand | src/app.ts:141-165 | the result is `CommandLine`: the `AWS_REGION=us-east-1 ` prefix when the environment sets no region, then the template after the encoded, raw and region replacements in that order, then a space and the joined extra arguments when there are any; a type or subcommand missing from the table is a TypeError, and only then |
| App.CommandLineStartsWithRegion | src/app.ts:159-165 | without a region in the environment the line starts with `AWS_REGION=us-east-1 `; with one it is the substituted template followed by the arguments |
| App.ArgsAreAppended | src/app.ts:159-161 | one more extra argument appends a space and that argument to the command line, whatever the arguments before it |
| App.ArgsSuffixSnoc | src/app.ts:159-161 | one more extra argument appends a space and that argument to the argument suffix |
| App.EncodedPlaceholderGetsEncodedId | src/app.ts:149-157 | for an encoded id holding no `$`, no `PHYSICAL_RESOURCE_ID` and no `AWS_REGION`, the encoded placeholder becomes the whole encoded id |
| App.PhysicalInsideEncoded | src/app.ts:150-154 | inside the encoded placeholder, the raw one starts at index 8 and nowhere earlier |
| App.ReversedOrderLeavesEncodedPrefix | src/app.ts:149-156 | replacing the raw placeholder first would leave `ENCODED_` before the raw id and no encoded id, for every raw id without `$` that does not itself hold the raw placeholder |
| App.RawPassOnEncoded | src/app.ts:153-156 | the raw pass turns the encoded placeholder into `ENCODED_` followed by a `$`-free raw id |
| App.EncodedAbsentAfterPrefix | src/app.ts:149-152 | `ENCODED_` followed by a raw id holds no encoded placeholder unless the raw id holds the raw placeholder |
| App.PhysicalPlaceholderGetsRawId | src/app.ts:149-157 | for a raw id holding no `$` and no `AWS_REGION`, the raw placeholder becomes the raw id (`App.DollarInRawIdIsExpanded` shows what a `$&` does instead) |
| App.RegionPlaceholderGetsRegion | src/app.ts:149-157 | the region placeholder becomes the region |
| App.PlaceholderFreeTemplateIsKept | src/app.ts:149-157 | a template without placeholders is used unchanged |
| App.PlaceholderAfterText | src/app.ts:153-156 | for a raw id holding no `$`, the raw placeholder at the end of a text free of `P` becomes the raw id |
| App.TextThenPhysicalPlaceholder | src/app.ts:149-157 | a template made of a text free of `N`, `P` and `A` followed by the raw placeholder (the Bucket `ls` and s3api templates, the two Lambda `get-function` templates and the DynamoDB `describe` template of src/commands.ts) becomes the text and the raw id, for a raw id holding no `$` and no `AWS_REGION` |
| App.MatchPatternBringsPlaceholderBack | src/app.ts:153-156 | replacing the raw placeholder by an id holding `$&` puts the placeholder back in the id's place |
| App.RegionPassKeepsText | src/app.ts:157 | a text without `W` holds no region placeholder and is kept by the region pass |
| App.RawPassesWithMatchPattern | src/app.ts:149-156 | on the bare raw placeholder, the encoded and raw passes with an id `pre + "$&" + post` leave `pre`, the placeholder and `post` for the region pass |
| App.RegionPassAroundPlaceholder | src/app.ts:157 | the region pass keeps the raw placeholder between texts without `W` |
| App.DollarInRawIdIsExpanded | src/app.ts:149-157 | for `$`-free `pre` and `post` without `W`, a raw id `pre + "$&" + post` turns the template `PHYSICAL_RESOURCE_ID` into `pre`, the placeholder itself, and `post`, because `replace` expands `$` patterns |
| Scenarios.MatchesPathExamples | test/util.test.ts:9-15 | `MyQueue` matches `DemoAppStack/MyQueue`, but neither `DemoAppStack` nor `DemoAppStack/MyQueue/Resource` |
| Scenarios.MatchesPathIgnoresSegments | src/util.ts:39-41 | `Queue` matches `DemoAppStack/MyQueue` |
| Scenarios.QueueNodeIsNamedByItsId | src/util.ts:102-106 | the queue node passes the path test for `MyQueue` |
| Scenarios.StackNodeIsNotNamed | src/util.ts:102-106 | the stack node fails the path test for `MyQueue` |
| Scenarios.AppNodeIsNotNamed | src/util.ts:102-106 | the app root node, whose path is empty, fails the path test for `MyQueue` |
| Scenarios.ChildListsAreNotNamed | src/util.ts:102-106 | a `children` object, which has no `path`, fails the path test |
| Scenarios.StackChildrenHoldQueue | src/util.ts:101-107 | the search of the stack's children stops at the queue node |
| Scenarios.StackNodeLeadsToQueue | src/util.ts:96-115 | searching the stack node passes its two string entries and finds the queue in its children |
| Scenarios.AppChildrenHoldQueue | src/util.ts:101-112 | the search of the app's children descends into the stack node and finds the queue |
| Scenarios.AppNodeLeadsToQueue | src/util.ts:96-115 | searching the app root node passes its two string entries and finds the queue in its children |
| Scenarios.TreeFixtureFindsMyQueue | test/util.test.ts:17-24 | the tree search for `MyQueue` returns the node with id `MyQueue` and path `DemoAppStack/MyQueue` |
| Scenarios.StackMatcherOnNodes | src/app.ts:205-212 | the Stack matcher accepts the stack node and answers false on the nodes above it |
| Scenarios.TreeFixtureStackName | src/app.ts:180-187 | the stack name of the tree is `DemoAppStack` |
| Scenarios.CdkMetadataIsPassedOver | src/util.ts:68-93 | an entry with another CDK path, and its subtree, do not answer the search |
| Scenarios.QueueResourceMatches | src/util.ts:77-82 | the queue's definition passes the template test for `DemoAppStack/MyQueue/Resource` |
| Scenarios.TemplateFixtureFindsQueue | test/util.test.ts:26-40 | the template search for `DemoAppStack/MyQueue/Resource` returns the queue's logical id with its definition |
| Scenarios.QueueNodePath | src/app.ts:104 | the derived template path of the queue node is `DemoAppStack/MyQueue/Resource` |
| Scenarios.TreeStageFindsQueue | src/app.ts:93-94 | the first stage of resolving `MyQueue` finds the queue node |
| Scenarios.FindMyQueue | src/app.ts:86-122 | `MyQueue` resolves to its node, its template entry and its stack resource |
| Scenarios.MyQueueNotDeployed | src/app.ts:112-119 | without the stack resource, the logical-id error names `MyQueueE6CA6235` |
| Scenarios.MyQueueNotSynthesized | src/app.ts:102-110 | with an empty template, the error names `DemoAppStack/MyQueue/Resource` |
| Scenarios.FirstWidgetWins | src/util.ts:53-56 | among two constructs with id `Widget`, the first in pre-order is returned |
| Scenarios.LongerSuffixDisambiguates | src/util.ts:102-107 | a longer path suffix picks out the second construct |
| Scenarios.SearchPassesUpTo | src/util.ts:53-62 | entries that are not objects, or that neither match nor hold a match, are passed over by the generic loop |
| Scenarios.SearchStopAt | src/util.ts:53-56 | the generic search returns an object entry the condition accepts, at any position, once every entry before it is passed over |
| Scenarios.SearchDescendAt | src/util.ts:53-61 | the generic search returns what it finds below an entry the condition rejects, at any position, once every entry before it is passed over |
| Scenarios.TreePassesUpTo | src/util.ts:101-114 | entries that are not objects, or that neither match nor hold a match, are passed over by the tree loop |
| Scenarios.TreeStopAt | src/util.ts:101-107 | the tree search returns an object entry passing the path test, at any position, once every entry before it is passed over |
| Scenarios.TreeDescendAt | src/util.ts:101-112 | the tree search returns what it finds below an entry failing the path test, at any position, once every entry before it is passed over |
| Scenarios.TreeAllPass | src/util.ts:101-115 | when every entry of an object, however many, is passed over, the tree search gives `undefined` |
| Scenarios.TemplatePassesUpTo | src/util.ts:76-90 | entries that are not objects, or that neither match nor hold a match, are passed over by the template loop |
| Scenarios.TemplateStopAt | src/util.ts:76-84 | the template search returns `{key, value}` of an object entry passing the template test, at any position, once every entry before it is passed over |
| Scenarios.TemplateDescendAt | src/util.ts:76-88 | the template search returns what it finds below an entry failing the template test, at any position, once every entry before it is passed over |
| Scenarios.TemplateAllPass | src/util.ts:76-93 | when every entry of an object, however many, is passed over, the template search gives `undefined` |

## Left out

- `exec` and `execCapture` (`src/util.ts:8-31`) are left out, being child-process I/O. So are the logging, `cp.exec` and the output piping of `runCommand`: the model stops at the command string.
- `getCloudAssembly`, `getStackResourceMetadata` and `cdkApp` are left out, being filesystem reads, a call to the AWS CLI, and orchestration. The parsed documents and the stack resources are inputs.
- `displayAvailableCommands` is left out, being console output and `process.exit`.
- `src/cli.ts` is not part of this model, being argument parsing.
- `src/commands.ts` is not part of this model. `API_LIST` is a map parameter.
- The internals of `encodeURIComponent`, including its URIError on lone surrogates, are left out. It is the function parameter `encode`.
- JSON numbers are opaque literals; nothing in the core computes with them.
- The integer-keys-first ordering of `Object.entries` is not modelled. An object's entries are searched in the order given.
- Duplicate keys are not modelled. A property read gives the first entry with the key.
- Prototype properties are not modelled: neither objects that own a key named `hasOwnProperty` or `__proto__`, nor command-table keys such as `toString`.
- Strings are sequences of code points rather than UTF-16 code units.
- `App.TableKey`: an `fqn` that is present but not a string makes the model report a TypeError. JavaScript would instead use its string conversion as the table key.
- `App.NodePath`: the case where a matched node's `path` is not a string cannot arise, and yields "".
- `App.RunCommand`: the empty-environment test is an `Option<string>` parameter. `Some("")` and `None` both count as unset, as `!process.env.AWS_REGION` does.
- ArrayContentsAreNeverSearched: stated for an array held by the searched object itself. For an array deeper down no such equality holds in general: the condition is applied to the objects above it and may inspect the array through them. That the walk itself never steps into an array is `Preorder.CandidatesIgnoreArrays`, which holds for the entries of any object, since `Preorder.Candidates` recurses only through objects.
- Idempotence gets no lemma of its own. Every modelled operation is a function of its inputs, so the same inputs always give the same result.
