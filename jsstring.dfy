/** The JavaScript string built-ins the core relies on: `String.prototype.endsWith`,
    `String.prototype.replace` with a global regular expression made of plain
    characters and a string replacement, and `Array.prototype.join`. */
module JsString {

  /** `s.endsWith(suffix)`. */
  predicate EndsWith(s: string, suffix: string)
  {
    |suffix| <= |s| && s[|s| - |suffix|..] == suffix
  }

  /** `suffix` is a suffix exactly when `s` is something followed by it. */
  lemma {:induction false} EndsWithIffConcat(s: string, suffix: string)
    ensures EndsWith(s, suffix) <==> exists pre :: pre + suffix == s
  {
    if EndsWith(s, suffix) {
      assert s[..|s| - |suffix|] + suffix == s;
    }
    if exists pre :: pre + suffix == s {
      var pre :| pre + suffix == s;
      assert s[|s| - |suffix|..] == suffix;
    }
  }

  /** `pat` occurs in `s` starting at index `i`. */
  predicate OccursAt(s: string, pat: string, i: nat)
  {
    i + |pat| <= |s| && s[i..i + |pat|] == pat
  }

  /** A string occurs at the start of any string it begins. */
  lemma PrefixOccursAtStart(pre: string, rest: string)
    ensures OccursAt(pre + rest, pre, 0)
  {
    assert (pre + rest)[0..|pre|] == pre;
  }

  /** `pat` occurs somewhere in `s`. */
  predicate Contains(s: string, pat: string)
  {
    exists i: nat :: i <= |s| && OccursAt(s, pat, i)
  }

  predicate NoDollar(s: string)
  {
    forall i :: 0 <= i < |s| ==> s[i] != '$'
  }

  /** The replacement text for one match (GetSubstitution in the ECMAScript
      specification), for a pattern without capture groups: `$$` gives `$`,
      `$&` the match, `` $` `` the text before it, `$'` the text after it;
      every other `$` (a `$1` or `$<` included, as there are no groups) is
      literal. */
  function Expand(rep: string, matched: string, before: string, after: string): string
    decreases |rep|
  {
    if |rep| == 0 then ""
    else if rep[0] == '$' && |rep| >= 2 && rep[1] in "$&`'" then
      var piece := match rep[1]
        case '$' => "$"
        case '&' => matched
        case '`' => before
        case _ => after;
      piece + Expand(rep[2..], matched, before, after)
    else [rep[0]] + Expand(rep[1..], matched, before, after)
  }

  /** A replacement without `$` is inserted as it stands. */
  lemma {:induction false} ExpandLiteral(rep: string, matched: string, before: string, after: string)
    requires NoDollar(rep)
    ensures Expand(rep, matched, before, after) == rep
  {
    if |rep| > 0 {
      assert NoDollar(rep[1..]) by {
        forall i | 0 <= i < |rep[1..]| ensures rep[1..][i] != '$' { assert rep[1..][i] == rep[i + 1]; }
      }
      ExpandLiteral(rep[1..], matched, before, after);
      assert rep == [rep[0]] + rep[1..];
    }
  }

  /** A `$`-free prefix of the replacement is copied as it stands. */
  lemma {:induction false} ExpandLiteralPrefix(pre: string, rest: string, matched: string, before: string, after: string)
    requires NoDollar(pre)
    ensures Expand(pre + rest, matched, before, after) == pre + Expand(rest, matched, before, after)
  {
    if |pre| > 0 {
      var r := pre + rest;
      assert r[0] == pre[0] && r[1..] == pre[1..] + rest;
      assert NoDollar(pre[1..]) by {
        forall i | 0 <= i < |pre[1..]| ensures pre[1..][i] != '$' { assert pre[1..][i] == pre[i + 1]; }
      }
      ExpandLiteralPrefix(pre[1..], rest, matched, before, after);
      ConcatAssociates([pre[0]], pre[1..], Expand(rest, matched, before, after));
      assert [pre[0]] + pre[1..] == pre;
    } else {
      assert pre + rest == rest;
    }
  }

  /** `$&` in the replacement stands for the matched text. */
  lemma ExpandMatch(rest: string, matched: string, before: string, after: string)
    ensures Expand("$&" + rest, matched, before, after) == matched + Expand(rest, matched, before, after)
  {
    var r := "$&" + rest;
    assert r[0] == '$' && r[1] == '&' && r[2..] == rest;
  }

  /** The global replacement from index `i` of `s` on: the leftmost occurrence
      at or after `i` is replaced and the scan resumes right after it. */
  function ReplaceFrom(s: string, i: nat, pat: string, rep: string): string
    requires 0 < |pat| && i <= |s|
    decreases |s| - i
  {
    if i == |s| then ""
    else if OccursAt(s, pat, i) then
      Expand(rep, pat, s[..i], s[i + |pat|..]) + ReplaceFrom(s, i + |pat|, pat, rep)
    else [s[i]] + ReplaceFrom(s, i + 1, pat, rep)
  }

  /** `s.replace(/pat/g, rep)` where `pat` has no regular-expression
      metacharacters. The source only uses non-empty such patterns. */
  function ReplaceAll(s: string, pat: string, rep: string): string
    requires 0 < |pat|
  {
    ReplaceFrom(s, 0, pat, rep)
  }

  /** Where `pat` does not occur from `i` on, the rest of `s` is kept as it is. */
  lemma {:induction false} ReplaceFromWithoutOccurrence(s: string, i: nat, pat: string, rep: string)
    requires 0 < |pat| && i <= |s|
    requires forall k: nat :: i <= k < |s| ==> !OccursAt(s, pat, k)
    ensures ReplaceFrom(s, i, pat, rep) == s[i..]
    decreases |s| - i
  {
    if i < |s| {
      ReplaceFromWithoutOccurrence(s, i + 1, pat, rep);
      assert s[i..] == [s[i]] + s[i + 1..];
    }
  }

  /** A position where the pattern does not start is copied. */
  lemma ReplaceFromCopies(s: string, i: nat, pat: string, rep: string)
    requires 0 < |pat| && i < |s| && !OccursAt(s, pat, i)
    ensures ReplaceFrom(s, i, pat, rep) == [s[i]] + ReplaceFrom(s, i + 1, pat, rep)
  {
  }

  /** A position where the pattern starts is replaced. */
  lemma ReplaceFromReplaces(s: string, i: nat, pat: string, rep: string)
    requires 0 < |pat| && OccursAt(s, pat, i)
    ensures ReplaceFrom(s, i, pat, rep) == Expand(rep, pat, s[..i], s[i + |pat|..]) + ReplaceFrom(s, i + |pat|, pat, rep)
  {
  }

  /** Up to the next occurrence, the scan copies. */
  lemma {:induction false} ReplaceFromCopiesUpTo(s: string, i: nat, m: nat, pat: string, rep: string)
    requires 0 < |pat| && i <= m <= |s|
    requires forall k: nat :: i <= k < m ==> !OccursAt(s, pat, k)
    ensures ReplaceFrom(s, i, pat, rep) == s[i..m] + ReplaceFrom(s, m, pat, rep)
    decreases m - i
  {
    if i == m {
      assert s[i..m] == [];
    } else {
      ReplaceFromCopies(s, i, pat, rep);
      ReplaceFromCopiesUpTo(s, i + 1, m, pat, rep);
      assert s[i..m] == [s[i]] + s[i + 1..m];
      ConcatAssociates([s[i]], s[i + 1..m], ReplaceFrom(s, m, pat, rep));
    }
  }

  lemma ConcatAssociates(a: string, b: string, c: string)
    ensures a + (b + c) == (a + b) + c
  {
  }

  /** The leftmost occurrence at or after `i` is the next one replaced: the text
      before it is kept, the occurrence becomes the expanded replacement, and
      the scan goes on after it. With ReplaceFromWithoutOccurrence this fixes
      the result of ReplaceAll on every input. */
  lemma ReplaceFromLeftmost(s: string, i: nat, m: nat, pat: string, rep: string)
    requires 0 < |pat| && i <= m
    requires OccursAt(s, pat, m)
    requires forall k: nat :: i <= k < m ==> !OccursAt(s, pat, k)
    ensures ReplaceFrom(s, i, pat, rep) ==
            s[i..m] + (Expand(rep, pat, s[..m], s[m + |pat|..]) + ReplaceFrom(s, m + |pat|, pat, rep))
  {
    ReplaceFromCopiesUpTo(s, i, m, pat, rep);
    ReplaceFromReplaces(s, m, pat, rep);
  }

  lemma ReplaceAllWithoutOccurrence(s: string, pat: string, rep: string)
    requires 0 < |pat| && !Contains(s, pat)
    ensures ReplaceAll(s, pat, rep) == s
  {
    ReplaceFromWithoutOccurrence(s, 0, pat, rep);
  }

  /** A pattern holding a character that `s` lacks does not occur in `s`. */
  lemma AbsentCharacterRulesOut(s: string, pat: string, j: nat)
    requires j < |pat| && pat[j] !in s
    ensures !Contains(s, pat)
  {
    forall i: nat | i <= |s| ensures !OccursAt(s, pat, i) {
      if i + |pat| <= |s| {
        assert s[i..i + |pat|][j] == s[i + j];
      }
    }
  }

  /** No occurrence can start inside a text that lacks the pattern's first
      character, so one in `text + s` lies wholly in `s`. */
  lemma NoOccurrenceAfterText(text: string, s: string, pat: string)
    requires 0 < |pat| && pat[0] !in text && !Contains(s, pat)
    ensures !Contains(text + s, pat)
  {
    var t := text + s;
    forall i: nat | i <= |t| ensures !OccursAt(t, pat, i) {
      if i + |pat| <= |t| {
        assert t[i..i + |pat|][0] == t[i];
        if i >= |text| {
          assert t[i..i + |pat|] == s[i - |text|..i - |text| + |pat|];
          assert !OccursAt(s, pat, i - |text|);
        } else {
          assert t[i] == text[i];
        }
      }
    }
  }

  /** A string that is exactly the pattern becomes the replacement. */
  lemma ReplaceAllWholeMatch(pat: string, rep: string)
    requires 0 < |pat| && NoDollar(rep)
    ensures ReplaceAll(pat, pat, rep) == rep
  {
    ReplaceFromLeftmost(pat, 0, 0, pat, rep);
    assert pat[..0] == "" && pat[|pat|..] == "";
    ExpandLiteral(rep, pat, "", "");
  }

  /** `xs.join(sep)`. */
  function Join(xs: seq<string>, sep: string): string
  {
    if xs == [] then ""
    else if |xs| == 1 then xs[0]
    else xs[0] + sep + Join(xs[1..], sep)
  }

  /** Joining one more string adds the separator and that string. */
  lemma {:induction false} JoinSnoc(xs: seq<string>, x: string, sep: string)
    requires |xs| > 0
    ensures Join(xs + [x], sep) == Join(xs, sep) + sep + x
    decreases |xs|
  {
    var ys := xs + [x];
    if |xs| == 1 {
      assert ys[0] == xs[0] && ys[1..] == [x];
    } else {
      assert ys[0] == xs[0] && ys[1..] == xs[1..] + [x];
      JoinSnoc(xs[1..], x, sep);
      var j := Join(xs[1..], sep);
      ConcatAssociates(xs[0] + sep, j + sep, x);
      ConcatAssociates(xs[0] + sep, j, sep);
    }
  }
}
