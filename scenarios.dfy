/** Small concrete CDK applications, hand-built from what the repository's unit
    test implies (a stack `DemoAppStack` holding a queue `MyQueue`), and what
    the model answers on them. The `tree-0.1` wrapper, the App root node, the
    queue's `Resource` child node (fqn `aws-cdk-lib.aws_sqs.CfnQueue`), the
    `CDKMetadata` and `DeletionPolicy` entries, the logical id `MyQueueE6CA6235`
    and the fields of the stack-resource item are made up to complete them. */
module Scenarios {
  import opened Json
  import opened JsString
  import opened Util
  import opened App

  // ---------------------------------------------------------------------------
  // matchesPath, as in the repository's unit test

  lemma MatchesPathExamples()
    ensures !MatchesPath("MyQueue", "DemoAppStack")
    ensures MatchesPath("MyQueue", "DemoAppStack/MyQueue")
    ensures !MatchesPath("MyQueue", "DemoAppStack/MyQueue/Resource")
  {
    assert "DemoAppStack/MyQueue"[|"DemoAppStack/MyQueue"| - 7..] == "MyQueue";
  }

  /** The suffix test ignores `/` boundaries: `Queue` names `MyQueue`. */
  lemma MatchesPathIgnoresSegments()
    ensures MatchesPath("Queue", "DemoAppStack/MyQueue")
  {
    assert "DemoAppStack/" + "My" + "Queue" == "DemoAppStack/MyQueue";
  }

  // ---------------------------------------------------------------------------
  // A tree.json

  const QueueResourceNode: Json :=
    JObj([Entry("id", JStr("Resource")), Entry("path", JStr("DemoAppStack/MyQueue/Resource")),
          Entry("constructInfo", JObj([Entry("fqn", JStr("aws-cdk-lib.aws_sqs.CfnQueue"))]))])

  const QueueNode: Json :=
    JObj([Entry("id", JStr("MyQueue")), Entry("path", JStr("DemoAppStack/MyQueue")),
          Entry("children", JObj([Entry("Resource", QueueResourceNode)])),
          Entry("constructInfo", JObj([Entry("fqn", JStr("aws-cdk-lib.aws_sqs.Queue"))]))])

  const StackNode: Json :=
    JObj([Entry("id", JStr("DemoAppStack")), Entry("path", JStr("DemoAppStack")),
          Entry("children", StackChildren),
          Entry("constructInfo", JObj([Entry("fqn", JStr("aws-cdk-lib.Stack"))]))])

  const TreeFixture: Json :=
    JObj([Entry("version", JStr("tree-0.1")),
          Entry("tree", AppNode)])

  const StackChildren: Json := JObj([Entry("MyQueue", QueueNode)])
  const AppNode: Json := JObj([Entry("id", JStr("App")), Entry("path", JStr("")),
                               Entry("children", AppChildren)])
  const AppChildren: Json := JObj([Entry("DemoAppStack", StackNode)])

  lemma QueueNodeIsNamedByItsId()
    ensures PathVerdict("MyQueue", QueueNode) == Match
  {
    GetFirstEntry(QueueNode, 1, "path");
    MatchesPathExamples();
  }

  lemma StackNodeIsNotNamed()
    ensures PathVerdict("MyQueue", StackNode) == NoMatch
  {
    GetFirstEntry(StackNode, 1, "path");
    MatchesPathExamples();
  }

  lemma AppNodeIsNotNamed()
    ensures PathVerdict("MyQueue", AppNode) == NoMatch
  {
    GetFirstEntry(AppNode, 1, "path");
    assert !MatchesPath("MyQueue", "");
  }

  lemma ChildListsAreNotNamed()
    ensures PathVerdict("MyQueue", StackChildren) == NoMatch
    ensures PathVerdict("MyQueue", AppChildren) == NoMatch
  {
    assert Get(StackChildren, "path") == None;
    assert Get(AppChildren, "path") == None;
  }

  lemma StackChildrenHoldQueue()
    ensures TryFindTreeJsonResource(StackChildren, "MyQueue") == Found(QueueNode)
  {
    QueueNodeIsNamedByItsId();
    TreeStopEarly(StackChildren, 0, "MyQueue");
  }

  lemma StackNodeLeadsToQueue()
    ensures TryFindTreeJsonResource(StackNode, "MyQueue") == Found(QueueNode)
  {
    StackChildrenHoldQueue();
    ChildListsAreNotNamed();
    TreeDescendEarly(StackNode, 2, "MyQueue", QueueNode);
  }

  lemma AppChildrenHoldQueue()
    ensures TryFindTreeJsonResource(AppChildren, "MyQueue") == Found(QueueNode)
  {
    StackNodeLeadsToQueue();
    StackNodeIsNotNamed();
    TreeDescendEarly(AppChildren, 0, "MyQueue", QueueNode);
  }

  lemma AppNodeLeadsToQueue()
    ensures TryFindTreeJsonResource(AppNode, "MyQueue") == Found(QueueNode)
  {
    AppChildrenHoldQueue();
    ChildListsAreNotNamed();
    TreeDescendEarly(AppNode, 2, "MyQueue", QueueNode);
  }

  /** The tree search of the repository's unit test finds the queue node. */
  lemma TreeFixtureFindsMyQueue()
    ensures TryFindTreeJsonResource(TreeFixture, "MyQueue") == Found(QueueNode)
  {
    AppNodeLeadsToQueue();
    AppNodeIsNotNamed();
    TreeDescendEarly(TreeFixture, 1, "MyQueue", QueueNode);
  }

  // ---------------------------------------------------------------------------
  // getStackName on the same tree

  lemma StackMatcherOnNodes()
    ensures var m := CreateTreeJsonResourceTypeMatcher(StackType);
            m("DemoAppStack", StackNode) == Match && m("tree", AppNode) == NoMatch &&
            m("children", AppChildren) == NoMatch
  {
    GetFirstEntry(StackNode, 3, "constructInfo");
    GetFirstEntry(StackNode.entries[3].value, 0, "fqn");
    assert Get(AppNode, "constructInfo") == None;
    assert Get(AppChildren, "constructInfo") == None;
  }

  /** The stack found is the first node typed `aws-cdk-lib.Stack`; its `id` is
      the stack name. */
  lemma TreeFixtureStackName()
    ensures GetStackName(TreeFixture) == Ok(Some(JStr("DemoAppStack")))
  {
    var m := CreateTreeJsonResourceTypeMatcher(StackType);
    StackMatcherOnNodes();
    SearchStopEarly(AppChildren, 0, m);
    SearchDescendEarly(AppNode, 2, m, StackNode);
    SearchDescendEarly(TreeFixture, 1, m, StackNode);
    GetFirstEntry(StackNode, 0, "id");
  }

  // ---------------------------------------------------------------------------
  // Object-level steps of each search: entries before `k` that neither match
  // nor hold a match are passed over.
  //
  // Each `…At` / `…AllPass` lemma holds for any position. Its `…Early` /
  // `…AllPassShort` companion is the same step for one of the first three
  // entries, with the passed-over entries named one by one (`k > 0 ==> …`,
  // `k > 1 ==> …`): on the concrete documents below, facts about two literal
  // entries are much cheaper for the verifier than a quantified requires.

  predicate SearchPasses(e: Entry, condition: Condition)
  {
    !IsObj(e.value) || (condition(e.key, e.value) == NoMatch && TryFindByPredicate(e.value, condition) == Missing)
  }

  lemma {:induction false} SearchPassesUpTo(es: seq<Entry>, i: nat, k: nat, condition: Condition)
    requires i <= k <= |es|
    requires forall j :: i <= j < k ==> SearchPasses(es[j], condition)
    ensures FindInEntries(es, i, condition) == FindInEntries(es, k, condition)
    decreases k - i
  {
    if i < k {
      SearchPassesUpTo(es, i + 1, k, condition);
    }
  }

  lemma SearchStopAt(node: Json, k: nat, condition: Condition)
    requires node.JObj? && k < |node.entries|
    requires forall j :: 0 <= j < k ==> SearchPasses(node.entries[j], condition)
    requires IsObj(node.entries[k].value) && condition(node.entries[k].key, node.entries[k].value) == Match
    ensures TryFindByPredicate(node, condition) == Found(node.entries[k].value)
  {
    SearchPassesUpTo(node.entries, 0, k, condition);
  }

  lemma SearchStopEarly(node: Json, k: nat, condition: Condition)
    requires node.JObj? && k < |node.entries| && k <= 2
    requires k > 0 ==> SearchPasses(node.entries[0], condition)
    requires k > 1 ==> SearchPasses(node.entries[1], condition)
    requires IsObj(node.entries[k].value) && condition(node.entries[k].key, node.entries[k].value) == Match
    ensures TryFindByPredicate(node, condition) == Found(node.entries[k].value)
  {
    SearchStopAt(node, k, condition);
  }

  lemma SearchDescendAt(node: Json, k: nat, condition: Condition, v: Json)
    requires node.JObj? && k < |node.entries|
    requires forall j :: 0 <= j < k ==> SearchPasses(node.entries[j], condition)
    requires IsObj(node.entries[k].value) && condition(node.entries[k].key, node.entries[k].value) == NoMatch
    requires TryFindByPredicate(node.entries[k].value, condition) == Found(v)
    ensures TryFindByPredicate(node, condition) == Found(v)
  {
    SearchPassesUpTo(node.entries, 0, k, condition);
  }

  lemma SearchDescendEarly(node: Json, k: nat, condition: Condition, v: Json)
    requires node.JObj? && k < |node.entries| && k <= 2
    requires k > 0 ==> SearchPasses(node.entries[0], condition)
    requires k > 1 ==> SearchPasses(node.entries[1], condition)
    requires IsObj(node.entries[k].value) && condition(node.entries[k].key, node.entries[k].value) == NoMatch
    requires TryFindByPredicate(node.entries[k].value, condition) == Found(v)
    ensures TryFindByPredicate(node, condition) == Found(v)
  {
    SearchDescendAt(node, k, condition, v);
  }

  predicate TreePasses(e: Entry, nameOrPath: string)
  {
    !IsObj(e.value) ||
    (PathVerdict(nameOrPath, e.value) == NoMatch && TryFindTreeJsonResource(e.value, nameOrPath) == Missing)
  }

  lemma {:induction false} TreePassesUpTo(es: seq<Entry>, i: nat, k: nat, nameOrPath: string)
    requires i <= k <= |es|
    requires forall j :: i <= j < k ==> TreePasses(es[j], nameOrPath)
    ensures FindTreeInEntries(es, i, nameOrPath) == FindTreeInEntries(es, k, nameOrPath)
    decreases k - i
  {
    if i < k {
      TreePassesUpTo(es, i + 1, k, nameOrPath);
    }
  }

  lemma TreeStopAt(node: Json, k: nat, nameOrPath: string)
    requires node.JObj? && k < |node.entries|
    requires forall j :: 0 <= j < k ==> TreePasses(node.entries[j], nameOrPath)
    requires IsObj(node.entries[k].value) && PathVerdict(nameOrPath, node.entries[k].value) == Match
    ensures TryFindTreeJsonResource(node, nameOrPath) == Found(node.entries[k].value)
  {
    TreePassesUpTo(node.entries, 0, k, nameOrPath);
  }

  lemma TreeStopEarly(node: Json, k: nat, nameOrPath: string)
    requires node.JObj? && k < |node.entries| && k <= 2
    requires k > 0 ==> TreePasses(node.entries[0], nameOrPath)
    requires k > 1 ==> TreePasses(node.entries[1], nameOrPath)
    requires IsObj(node.entries[k].value) && PathVerdict(nameOrPath, node.entries[k].value) == Match
    ensures TryFindTreeJsonResource(node, nameOrPath) == Found(node.entries[k].value)
  {
    TreeStopAt(node, k, nameOrPath);
  }

  lemma TreeDescendAt(node: Json, k: nat, nameOrPath: string, v: Json)
    requires node.JObj? && k < |node.entries|
    requires forall j :: 0 <= j < k ==> TreePasses(node.entries[j], nameOrPath)
    requires IsObj(node.entries[k].value) && PathVerdict(nameOrPath, node.entries[k].value) == NoMatch
    requires TryFindTreeJsonResource(node.entries[k].value, nameOrPath) == Found(v)
    ensures TryFindTreeJsonResource(node, nameOrPath) == Found(v)
  {
    TreePassesUpTo(node.entries, 0, k, nameOrPath);
  }

  lemma TreeDescendEarly(node: Json, k: nat, nameOrPath: string, v: Json)
    requires node.JObj? && k < |node.entries| && k <= 2
    requires k > 0 ==> TreePasses(node.entries[0], nameOrPath)
    requires k > 1 ==> TreePasses(node.entries[1], nameOrPath)
    requires IsObj(node.entries[k].value) && PathVerdict(nameOrPath, node.entries[k].value) == NoMatch
    requires TryFindTreeJsonResource(node.entries[k].value, nameOrPath) == Found(v)
    ensures TryFindTreeJsonResource(node, nameOrPath) == Found(v)
  {
    TreeDescendAt(node, k, nameOrPath, v);
  }

  lemma TreeAllPass(node: Json, nameOrPath: string)
    requires node.JObj?
    requires forall j :: 0 <= j < |node.entries| ==> TreePasses(node.entries[j], nameOrPath)
    ensures TryFindTreeJsonResource(node, nameOrPath) == Missing
  {
    TreePassesUpTo(node.entries, 0, |node.entries|, nameOrPath);
  }

  lemma TreeAllPassShort(node: Json, nameOrPath: string)
    requires node.JObj? && |node.entries| <= 2
    requires |node.entries| > 0 ==> TreePasses(node.entries[0], nameOrPath)
    requires |node.entries| > 1 ==> TreePasses(node.entries[1], nameOrPath)
    ensures TryFindTreeJsonResource(node, nameOrPath) == Missing
  {
    TreeAllPass(node, nameOrPath);
  }

  predicate TemplatePasses(e: Entry, resourcePath: string)
  {
    !IsObj(e.value) ||
    (TemplateVerdict(resourcePath, e.value) == NoMatch && TryFindTemplateJsonResource(e.value, resourcePath) == Missing)
  }

  lemma {:induction false} TemplatePassesUpTo(es: seq<Entry>, i: nat, k: nat, resourcePath: string)
    requires i <= k <= |es|
    requires forall j :: i <= j < k ==> TemplatePasses(es[j], resourcePath)
    ensures FindTemplateInEntries(es, i, resourcePath) == FindTemplateInEntries(es, k, resourcePath)
    decreases k - i
  {
    if i < k {
      TemplatePassesUpTo(es, i + 1, k, resourcePath);
    }
  }

  lemma TemplateStopAt(node: Json, k: nat, resourcePath: string)
    requires node.JObj? && k < |node.entries|
    requires forall j :: 0 <= j < k ==> TemplatePasses(node.entries[j], resourcePath)
    requires IsObj(node.entries[k].value) && TemplateVerdict(resourcePath, node.entries[k].value) == Match
    ensures TryFindTemplateJsonResource(node, resourcePath) == Found(node.entries[k])
  {
    TemplatePassesUpTo(node.entries, 0, k, resourcePath);
  }

  lemma TemplateStopEarly(node: Json, k: nat, resourcePath: string)
    requires node.JObj? && k < |node.entries| && k <= 2
    requires k > 0 ==> TemplatePasses(node.entries[0], resourcePath)
    requires k > 1 ==> TemplatePasses(node.entries[1], resourcePath)
    requires IsObj(node.entries[k].value) && TemplateVerdict(resourcePath, node.entries[k].value) == Match
    ensures TryFindTemplateJsonResource(node, resourcePath) == Found(node.entries[k])
  {
    TemplateStopAt(node, k, resourcePath);
  }

  lemma TemplateDescendAt(node: Json, k: nat, resourcePath: string, v: Entry)
    requires node.JObj? && k < |node.entries|
    requires forall j :: 0 <= j < k ==> TemplatePasses(node.entries[j], resourcePath)
    requires IsObj(node.entries[k].value) && TemplateVerdict(resourcePath, node.entries[k].value) == NoMatch
    requires TryFindTemplateJsonResource(node.entries[k].value, resourcePath) == Found(v)
    ensures TryFindTemplateJsonResource(node, resourcePath) == Found(v)
  {
    TemplatePassesUpTo(node.entries, 0, k, resourcePath);
  }

  lemma TemplateDescendEarly(node: Json, k: nat, resourcePath: string, v: Entry)
    requires node.JObj? && k < |node.entries| && k <= 2
    requires k > 0 ==> TemplatePasses(node.entries[0], resourcePath)
    requires k > 1 ==> TemplatePasses(node.entries[1], resourcePath)
    requires IsObj(node.entries[k].value) && TemplateVerdict(resourcePath, node.entries[k].value) == NoMatch
    requires TryFindTemplateJsonResource(node.entries[k].value, resourcePath) == Found(v)
    ensures TryFindTemplateJsonResource(node, resourcePath) == Found(v)
  {
    TemplateDescendAt(node, k, resourcePath, v);
  }

  lemma TemplateAllPass(node: Json, resourcePath: string)
    requires node.JObj?
    requires forall j :: 0 <= j < |node.entries| ==> TemplatePasses(node.entries[j], resourcePath)
    ensures TryFindTemplateJsonResource(node, resourcePath) == Missing
  {
    TemplatePassesUpTo(node.entries, 0, |node.entries|, resourcePath);
  }


  lemma TemplateAllPassShort(node: Json, resourcePath: string)
    requires node.JObj? && |node.entries| <= 2
    requires |node.entries| > 0 ==> TemplatePasses(node.entries[0], resourcePath)
    requires |node.entries| > 1 ==> TemplatePasses(node.entries[1], resourcePath)
    ensures TryFindTemplateJsonResource(node, resourcePath) == Missing
  {
    TemplateAllPass(node, resourcePath);
  }

  // ---------------------------------------------------------------------------
  // A synthesized template

  const CdkMetadataInfo: Json := JObj([Entry("aws:cdk:path", JStr("DemoAppStack/CDKMetadata/Default"))])
  const CdkMetadataResource: Json :=
    JObj([Entry("Type", JStr("AWS::CDK::Metadata")), Entry("Metadata", CdkMetadataInfo)])
  const QueueInfo: Json := JObj([Entry("aws:cdk:path", JStr("DemoAppStack/MyQueue/Resource"))])
  const QueueResource: Json :=
    JObj([Entry("Type", JStr("AWS::SQS::Queue")), Entry("DeletionPolicy", JStr("Delete")),
          Entry("Metadata", QueueInfo)])
  const Resources: Json :=
    JObj([Entry("CDKMetadata", CdkMetadataResource), Entry("MyQueueE6CA6235", QueueResource)])
  const TemplateFixture: Json := JObj([Entry("Resources", Resources)])

  const QueuePath: string := "DemoAppStack/MyQueue/Resource"

  lemma CdkMetadataIsPassedOver()
    ensures TemplateVerdict(QueuePath, CdkMetadataResource) == NoMatch
    ensures TryFindTemplateJsonResource(CdkMetadataResource, QueuePath) == Missing
  {
    GetFirstEntry(CdkMetadataResource, 1, "Metadata");
    GetFirstEntry(CdkMetadataInfo, 0, "aws:cdk:path");
    assert TemplateVerdict(QueuePath, CdkMetadataInfo) == NoMatch by {
      assert Get(CdkMetadataInfo, "Metadata") == None;
    }
    TemplateAllPassShort(CdkMetadataInfo, QueuePath);
    TemplateAllPassShort(CdkMetadataResource, QueuePath);
  }

  lemma QueueResourceMatches()
    ensures TemplateVerdict(QueuePath, QueueResource) == Match
  {
    GetFirstEntry(QueueResource, 2, "Metadata");
    GetFirstEntry(QueueInfo, 0, "aws:cdk:path");
  }

  /** The template search of the repository's unit test returns the queue's
      logical id with its definition: `Type` and `Metadata` are properties of
      the returned entry's value. */
  lemma TemplateFixtureFindsQueue()
    ensures TryFindTemplateJsonResource(TemplateFixture, QueuePath) == Found(Entry("MyQueueE6CA6235", QueueResource))
  {
    CdkMetadataIsPassedOver();
    QueueResourceMatches();
    TemplateStopEarly(Resources, 1, QueuePath);
    assert TemplateVerdict(QueuePath, Resources) == NoMatch by {
      assert Get(Resources, "Metadata") == None;
    }
    TemplateDescendEarly(TemplateFixture, 0, QueuePath, Entry("MyQueueE6CA6235", QueueResource));
  }

  // ---------------------------------------------------------------------------
  // findResource end to end

  const QueueItem: DescribeStackResourcesItem :=
    DescribeStackResourcesItem("DemoAppStack", "arn:aws:cloudformation:us-east-1:123456789012:stack/DemoAppStack/1",
                               "MyQueueE6CA6235", "https://sqs.us-east-1.amazonaws.com/123456789012/DemoAppStack-MyQueue",
                               "AWS::SQS::Queue", "2022-01-01T00:00:00.000Z", "CREATE_COMPLETE",
                               JObj([Entry("StackResourceDriftStatus", JStr("NOT_CHECKED"))]))

  const Assembly: CloudAssembly := CloudAssembly(TreeFixture, TemplateFixture)

  lemma QueueNodePath()
    ensures NodePath(QueueNode) + "/Resource" == QueuePath
  {
    GetFirstEntry(QueueNode, 1, "path");
  }

  lemma TreeStageFindsQueue()
    ensures TryFindByPredicate(TreeFixture, CreateTreeJsonResourceNameMatcher("MyQueue")) == Found(QueueNode)
    ensures NodePath(QueueNode) + "/Resource" == QueuePath
  {
    TreeFixtureFindsMyQueue();
    TreeSearchUsesNameMatcher(TreeFixture, "MyQueue");
    QueueNodePath();
  }

  /** `MyQueue` resolves to its tree node, its template entry and its stack resource. */
  lemma FindMyQueue()
    ensures FindResource("MyQueue", Assembly, DescribeStackResourcesOutput([QueueItem])) ==
            Ok(Resource(QueueNode, Entry("MyQueueE6CA6235", QueueResource), QueueItem))
  {
    TreeStageFindsQueue();
    TemplateFixtureFindsQueue();
  }

  /** A deployment that lacks the template's logical id fails on the last stage. */
  lemma MyQueueNotDeployed()
    ensures FindResource("MyQueue", Assembly, DescribeStackResourcesOutput([])) ==
            Err(LogicalIdNotFound("MyQueueE6CA6235"))
  {
    TreeStageFindsQueue();
    TemplateFixtureFindsQueue();
  }

  /** A template that lacks the node's resource fails on the middle stage,
      naming the computed path. */
  lemma MyQueueNotSynthesized()
    ensures FindResource("MyQueue", CloudAssembly(TreeFixture, JObj([])), DescribeStackResourcesOutput([QueueItem])) ==
            Err(TemplateEntryNotFound(QueuePath))
  {
    TreeStageFindsQueue();
  }

  // ---------------------------------------------------------------------------
  // Two constructs with the same id

  const WidgetA: Json := JObj([Entry("path", JStr("Stack/A/Widget"))])
  const WidgetB: Json := JObj([Entry("path", JStr("Stack/B/Widget"))])
  const TwoWidgets: Json := JObj([Entry("A", WidgetA), Entry("B", WidgetB)])

  /** A bare id answers the first construct in pre-order carrying it. */
  lemma FirstWidgetWins()
    ensures TryFindTreeJsonResource(TwoWidgets, "Widget") == Found(WidgetA)
  {
    assert "Stack/A/" + "Widget" == "Stack/A/Widget";
    GetFirstEntry(WidgetA, 0, "path");
    TreeStopEarly(TwoWidgets, 0, "Widget");
  }

  /** A longer path suffix picks the other one out. */
  lemma LongerSuffixDisambiguates()
    ensures TryFindTreeJsonResource(TwoWidgets, "B/Widget") == Found(WidgetB)
  {
    GetFirstEntry(WidgetA, 0, "path");
    GetFirstEntry(WidgetB, 0, "path");
    assert "Stack/" + "B/Widget" == "Stack/B/Widget";
    assert !EndsWith("Stack/A/Widget", "B/Widget") by {
      assert "Stack/A/Widget"[6] == 'A';
      assert "B/Widget"[0] == 'B';
    }
    TreeAllPassShort(WidgetA, "B/Widget");
    TreeStopEarly(TwoWidgets, 1, "B/Widget");
  }
}
