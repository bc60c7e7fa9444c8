/** The reference definition the searches of src/util.ts are proved against:
    the list of every entry the walk tests, in the order it tests them, and a
    pick of the first one on which the condition does not answer false. */
module Preorder {
  import opened Json
  import opened Util

  /** Object nesting depth: 0 for a non-object, otherwise one more than the
      deepest entry value. Arrays count 0, since the searches never enter them. */
  function Height(json: Json): nat
    decreases json, 1, 0
  {
    if !IsObj(json) then 0 else 1 + HeightFrom(json.entries, 0)
  }

  function HeightFrom(es: seq<Entry>, i: nat): (h: nat)
    requires i <= |es|
    ensures forall k :: i <= k < |es| ==> Height(es[k].value) <= h
    decreases JObj(es), 0, |es| - i
  {
    if i == |es| then 0
    else
      var a, b := Height(es[i].value), HeightFrom(es, i + 1);
      if a < b then b else a
  }

  /** Every entry reachable from the root through object values only whose
      value is an object, in pre-order: entry 1, entry 1's subtree, entry 2,
      and so on. The root itself is not an entry and is never listed. */
  function Candidates(json: Json): (cs: seq<Entry>)
    ensures forall c :: c in cs ==> IsObj(c.value) && Height(c.value) < Height(json)
    decreases json, 1, 0
  {
    if !IsObj(json) then [] else CandidatesFrom(json.entries, 0)
  }

  function CandidatesFrom(es: seq<Entry>, i: nat): (cs: seq<Entry>)
    requires i <= |es|
    ensures forall c :: c in cs ==> IsObj(c.value) && Height(c.value) <= HeightFrom(es, i)
    decreases JObj(es), 0, |es| - i
  {
    if i == |es| then []
    else (if IsObj(es[i].value) then [es[i]] else []) + Candidates(es[i].value) + CandidatesFrom(es, i + 1)
  }

  /** `n` is the first position of `cs` on which `condition` does not answer false. */
  ghost predicate IsFirstDecisive(cs: seq<Entry>, condition: Condition, n: nat)
  {
    n < |cs| && condition(cs[n].key, cs[n].value) != NoMatch &&
    forall k :: 0 <= k < n ==> condition(cs[k].key, cs[k].value) == NoMatch
  }

  /** The first position on which `condition` does not answer false, or |cs|. */
  function FirstDecisive(cs: seq<Entry>, condition: Condition): (n: nat)
    ensures n <= |cs|
    ensures forall k :: 0 <= k < n ==> condition(cs[k].key, cs[k].value) == NoMatch
    ensures n < |cs| ==> condition(cs[n].key, cs[n].value) != NoMatch
  {
    if cs == [] then 0
    else if condition(cs[0].key, cs[0].value) != NoMatch then 0
    else 1 + FirstDecisive(cs[1..], condition)
  }

  /** What a walk that stops at the first decisive entry returns. */
  function FirstDecided(cs: seq<Entry>, condition: Condition): Search<Entry>
  {
    var n := FirstDecisive(cs, condition);
    if n == |cs| then Missing
    else if condition(cs[n].key, cs[n].value) == Match then Found(cs[n])
    else Thrown
  }

  function ValueOf(s: Search<Entry>): Search<Json>
  {
    match s
    case Found(e) => Found(e.value)
    case Missing => Missing
    case Thrown => Thrown
  }

  /** Deciding on a concatenation: the first part decides unless it is all false. */
  lemma {:induction false} FirstDecidedAppend(a: seq<Entry>, b: seq<Entry>, condition: Condition)
    ensures FirstDecided(a + b, condition) ==
            if FirstDecided(a, condition).Missing? then FirstDecided(b, condition) else FirstDecided(a, condition)
  {
    FirstDecisiveAppend(a, b, condition);
    var n := FirstDecisive(a, condition);
    if n < |a| {
      assert (a + b)[n] == a[n];
    } else {
      assert (a + b)[|a| + FirstDecisive(b, condition)..] == b[FirstDecisive(b, condition)..];
    }
  }

  lemma {:induction false} FirstDecisiveAppend(a: seq<Entry>, b: seq<Entry>, condition: Condition)
    ensures FirstDecisive(a + b, condition) ==
            if FirstDecisive(a, condition) < |a| then FirstDecisive(a, condition)
            else |a| + FirstDecisive(b, condition)
  {
    if a != [] {
      assert (a + b)[0] == a[0];
      if condition(a[0].key, a[0].value) == NoMatch {
        assert (a + b)[1..] == a[1..] + b;
        FirstDecisiveAppend(a[1..], b, condition);
      }
    } else {
      assert a + b == b;
    }
  }

  // ---------------------------------------------------------------------------
  // Each walk picks the first decisive candidate

  /** tryFindByPredicate returns the value of the first candidate, in
      pre-order, on which the condition answers true or throws (and then
      throws), and `undefined` when it answers false on all of them. */
  lemma {:induction false} SearchIsFirstDecided(json: Json, condition: Condition)
    ensures TryFindByPredicate(json, condition) == ValueOf(FirstDecided(Candidates(json), condition))
    decreases json, 1, 0
  {
    if IsObj(json) {
      EntriesSearchIsFirstDecided(json.entries, 0, condition);
    }
  }

  /** The first decision over the candidates of entries `i..`: entry `i` itself
      when it is an object on which the condition is decisive, else the first
      decision below it, else the first decision over entries `i + 1..`. */
  lemma CandidatesStep(es: seq<Entry>, i: nat, condition: Condition)
    requires i < |es|
    ensures FirstDecided(CandidatesFrom(es, i), condition) ==
            if IsObj(es[i].value) && condition(es[i].key, es[i].value) != NoMatch then
              (if condition(es[i].key, es[i].value) == Match then Found(es[i]) else Thrown)
            else if FirstDecided(Candidates(es[i].value), condition) != Missing then
              FirstDecided(Candidates(es[i].value), condition)
            else FirstDecided(CandidatesFrom(es, i + 1), condition)
  {
    var value := es[i].value;
    var here := if IsObj(value) then [es[i]] else [];
    var below := Candidates(value);
    var rest := CandidatesFrom(es, i + 1);
    assert CandidatesFrom(es, i) == here + (below + rest);
    FirstDecidedAppend(here, below + rest, condition);
    if !(IsObj(value) && condition(es[i].key, value) != NoMatch) {
      assert FirstDecided(here, condition) == Missing;
      FirstDecidedAppend(below, rest, condition);
    }
  }

  lemma {:induction false} EntriesSearchIsFirstDecided(es: seq<Entry>, i: nat, condition: Condition)
    requires i <= |es|
    ensures FindInEntries(es, i, condition) == ValueOf(FirstDecided(CandidatesFrom(es, i), condition))
    decreases JObj(es), 0, |es| - i
  {
    if i < |es| {
      var value := es[i].value;
      CandidatesStep(es, i, condition);
      if !(IsObj(value) && condition(es[i].key, value) != NoMatch) {
        SearchIsFirstDecided(value, condition);
        if TryFindByPredicate(value, condition) == Missing {
          EntriesSearchIsFirstDecided(es, i + 1, condition);
        }
      }
    }
  }

  /** tryFindTemplateJsonResource returns `{key, value}` of the first template
      candidate, in pre-order, whose TemplateVerdict is not false. */
  lemma {:induction false} TemplateSearchIsFirstDecided(json: Json, resourcePath: string)
    ensures TryFindTemplateJsonResource(json, resourcePath) ==
            FirstDecided(Candidates(json), TemplateCondition(resourcePath))
    decreases json, 1, 0
  {
    if IsObj(json) {
      TemplateEntriesIsFirstDecided(json.entries, 0, resourcePath);
    }
  }

  lemma {:induction false} TemplateEntriesIsFirstDecided(es: seq<Entry>, i: nat, resourcePath: string)
    requires i <= |es|
    ensures FindTemplateInEntries(es, i, resourcePath) ==
            FirstDecided(CandidatesFrom(es, i), TemplateCondition(resourcePath))
    decreases JObj(es), 0, |es| - i
  {
    if i < |es| {
      var value := es[i].value;
      CandidatesStep(es, i, TemplateCondition(resourcePath));
      assert TemplateCondition(resourcePath)(es[i].key, value) == TemplateVerdict(resourcePath, value);
      if !(IsObj(value) && TemplateVerdict(resourcePath, value) != NoMatch) {
        TemplateSearchIsFirstDecided(value, resourcePath);
        if TryFindTemplateJsonResource(value, resourcePath) == Missing {
          TemplateEntriesIsFirstDecided(es, i + 1, resourcePath);
        }
      }
    }
  }

  /** The hand-specialised template walk is tryFindByPredicate with its inline
      test as the condition, apart from also returning the key. */
  lemma TemplateSearchIsGenericSearch(json: Json, resourcePath: string)
    ensures ValueOf(TryFindTemplateJsonResource(json, resourcePath)) ==
            TryFindByPredicate(json, TemplateCondition(resourcePath))
  {
    TemplateSearchIsFirstDecided(json, resourcePath);
    SearchIsFirstDecided(json, TemplateCondition(resourcePath));
  }

  /** The hand-specialised tree walk is tryFindByPredicate with any condition
      that, like createTreeJsonResourceNameMatcher, ignores the key and applies
      the path test. */
  lemma {:induction false} TreeSearchIsGenericSearch(json: Json, nameOrPath: string, condition: Condition)
    requires forall key, value :: condition(key, value) == PathVerdict(nameOrPath, value)
    ensures TryFindTreeJsonResource(json, nameOrPath) == TryFindByPredicate(json, condition)
    decreases json, 1, 0
  {
    if IsObj(json) {
      TreeEntriesIsGenericSearch(json.entries, 0, nameOrPath, condition);
    }
  }

  lemma {:induction false} TreeEntriesIsGenericSearch(es: seq<Entry>, i: nat, nameOrPath: string, condition: Condition)
    requires i <= |es|
    requires forall key, value :: condition(key, value) == PathVerdict(nameOrPath, value)
    ensures FindTreeInEntries(es, i, nameOrPath) == FindInEntries(es, i, condition)
    decreases JObj(es), 0, |es| - i
  {
    if i < |es| {
      TreeSearchIsGenericSearch(es[i].value, nameOrPath, condition);
      TreeEntriesIsGenericSearch(es, i + 1, nameOrPath, condition);
    }
  }

  // ---------------------------------------------------------------------------
  // Consequences for tryFindByPredicate

  /** `undefined` exactly when the condition answers false on every candidate. */
  lemma SearchMissingIffAllFalse(json: Json, condition: Condition)
    ensures TryFindByPredicate(json, condition) == Missing <==>
            forall k :: 0 <= k < |Candidates(json)| ==>
              condition(Candidates(json)[k].key, Candidates(json)[k].value) == NoMatch
  {
    SearchIsFirstDecided(json, condition);
  }

  /** The template walk gives `undefined` exactly when no candidate carries
      the requested CDK path (none answers the inline test with true or a
      throw). */
  lemma TemplateMissingIffAllFalse(json: Json, resourcePath: string)
    ensures TryFindTemplateJsonResource(json, resourcePath) == Missing <==>
            forall k :: 0 <= k < |Candidates(json)| ==>
              TemplateVerdict(resourcePath, Candidates(json)[k].value) == NoMatch
  {
    TemplateSearchIsGenericSearch(json, resourcePath);
    SearchMissingIffAllFalse(json, TemplateCondition(resourcePath));
    assert TryFindTemplateJsonResource(json, resourcePath) == Missing <==>
           TryFindByPredicate(json, TemplateCondition(resourcePath)) == Missing;
  }

  /** A value is returned exactly when it is the first candidate on which the
      condition is decisive, and the condition holds there. */
  lemma SearchFoundIffFirstMatch(json: Json, condition: Condition, v: Json)
    ensures TryFindByPredicate(json, condition) == Found(v) <==>
            exists n: nat :: IsFirstDecisive(Candidates(json), condition, n) &&
                        Candidates(json)[n].value == v &&
                        condition(Candidates(json)[n].key, v) == Match
  {
    SearchIsFirstDecided(json, condition);
    var cs := Candidates(json);
    var n := FirstDecisive(cs, condition);
    if exists m: nat :: IsFirstDecisive(cs, condition, m) && cs[m].value == v && condition(cs[m].key, v) == Match {
      var m: nat :| IsFirstDecisive(cs, condition, m) && cs[m].value == v && condition(cs[m].key, v) == Match;
      assert m == n;
    }
    if TryFindByPredicate(json, condition) == Found(v) {
      assert IsFirstDecisive(cs, condition, n);
    }
  }

  /** An exception escapes exactly when the first decisive candidate throws. */
  lemma SearchThrownIffFirstThrows(json: Json, condition: Condition)
    ensures TryFindByPredicate(json, condition) == Thrown <==>
            exists n: nat :: IsFirstDecisive(Candidates(json), condition, n) &&
                        condition(Candidates(json)[n].key, Candidates(json)[n].value) == Throws
  {
    SearchIsFirstDecided(json, condition);
    var cs := Candidates(json);
    var n := FirstDecisive(cs, condition);
    if exists m: nat :: IsFirstDecisive(cs, condition, m) && condition(cs[m].key, cs[m].value) == Throws {
      var m: nat :| IsFirstDecisive(cs, condition, m) && condition(cs[m].key, cs[m].value) == Throws;
      assert m == n;
    }
    if TryFindByPredicate(json, condition) == Thrown {
      assert IsFirstDecisive(cs, condition, n);
    }
  }

  /** The value found is an object strictly below the root: the root itself is
      never tested. */
  lemma FoundIsProperDescendant(json: Json, condition: Condition)
    requires TryFindByPredicate(json, condition).Found?
    ensures IsObj(TryFindByPredicate(json, condition).value)
    ensures Height(TryFindByPredicate(json, condition).value) < Height(json)
    ensures TryFindByPredicate(json, condition).value != json
  {
    SearchIsFirstDecided(json, condition);
    var cs := Candidates(json);
    assert cs[FirstDecisive(cs, condition)] in cs;
  }

  /** Nothing inside an array is ever searched: an entry whose value is an
      array may hold anything without changing what tryFindByPredicate returns. */
  lemma ArrayContentsAreNeverSearched(es: seq<Entry>, j: nat, items: seq<Json>, condition: Condition)
    requires j < |es| && es[j].value.JArr?
    ensures TryFindByPredicate(JObj(es[j := Entry(es[j].key, JArr(items))]), condition) ==
            TryFindByPredicate(JObj(es), condition)
  {
    var es' := es[j := Entry(es[j].key, JArr(items))];
    CandidatesIgnoreArrays(es, es', j, 0);
    SearchIsFirstDecided(JObj(es), condition);
    SearchIsFirstDecided(JObj(es'), condition);
  }

  lemma {:induction false} CandidatesIgnoreArrays(es: seq<Entry>, es': seq<Entry>, j: nat, i: nat)
    requires |es| == |es'| && j < |es| && i <= |es|
    requires es[j].value.JArr? && es'[j].value.JArr?
    requires forall k :: 0 <= k < |es| && k != j ==> es[k] == es'[k]
    ensures CandidatesFrom(es, i) == CandidatesFrom(es', i)
    decreases |es| - i
  {
    if i < |es| {
      CandidatesIgnoreArrays(es, es', j, i + 1);
    }
  }
}
