/**
 * What the visitor guarantees, stated against definitions that do not
 * follow its control flow: which rules are accepted, which error is thrown,
 * how many declarations come out and in which order.
 */
module Properties {
  import opened Wrappers
  import opened Js
  import opened Lodash
  import opened Errors
  import opened Validators
  import opened Visitor

  /** The rule's `test` is a RegExp that matches the source. */
  predicate RuleMatches(source: string, rule: Value) {
    IsRegExp(Get(rule, TestLabel)) && Get(rule, TestLabel).re.matches(source)
  }

  /** A replacer field the plugin accepts: non-empty, and a string or function in every position. */
  predicate ValidReplacerField(v: Value) {
    !IsEmpty(v) && forall k :: 0 <= k < |ReplacerList(v)| ==> IsReplacer(ReplacerList(v)[k])
  }

  /** A rule the plugin accepts for this source; the replacer only matters when the rule matches. */
  predicate ValidRule(source: string, rule: Value) {
    && IsObject(rule)
    && IsRegExp(Get(rule, TestLabel))
    && (RuleMatches(source, rule) ==> ValidReplacerField(Get(rule, ReplacerLabel)))
  }

  /** How many declarations a rule contributes: one per replacer if it matches, none otherwise. */
  function MatchedCount(source: string, rule: Value): nat {
    if RuleMatches(source, rule) then |ReplacerList(Get(rule, ReplacerLabel))| else 0
  }

  function OutputCount(source: string, rules: seq<Value>): nat {
    if rules == [] then 0 else MatchedCount(source, rules[0]) + OutputCount(source, rules[1..])
  }

  /** A single rule throws nothing exactly when it is valid, and then yields MatchedCount declarations. */
  lemma RuleOutputsSucceedsIffValid(node: ImportDeclaration, rule: Value)
    ensures RuleOutputs(node, rule).Success? <==> ValidRule(node.source, rule)
    ensures RuleOutputs(node, rule).Success? ==> |RuleOutputs(node, rule).value| == MatchedCount(node.source, rule)
  {
  }

  /** The visitor's rule loop throws nothing exactly when every rule is valid. */
  lemma {:induction false} TransformsSucceedsIffValid(node: ImportDeclaration, rules: seq<Value>)
    ensures Transforms(node, rules).Success? <==> forall k :: 0 <= k < |rules| ==> ValidRule(node.source, rules[k])
  {
    if rules != [] {
      RuleOutputsSucceedsIffValid(node, rules[0]);
      TransformsSucceedsIffValid(node, rules[1..]);
      assert forall k :: 1 <= k < |rules| ==> rules[k] == rules[1..][k - 1];
    }
  }

  /** The error thrown is that of the first rule that is not valid: rules are run in list order. */
  lemma {:induction false} FirstInvalidRuleThrows(node: ImportDeclaration, rules: seq<Value>, e: PluginError)
    ensures Transforms(node, rules) == Failure(e) <==>
      exists i :: 0 <= i < |rules| && RuleOutputs(node, rules[i]) == Failure(e)
        && forall k :: 0 <= k < i ==> ValidRule(node.source, rules[k])
  {
    if rules != [] {
      RuleOutputsSucceedsIffValid(node, rules[0]);
      FirstInvalidRuleThrows(node, rules[1..], e);
      if Transforms(node, rules) == Failure(e) {
        if RuleOutputs(node, rules[0]).Failure? {
          assert RuleOutputs(node, rules[0]) == Failure(e);
        } else {
          var i' :| 0 <= i' < |rules[1..]| && RuleOutputs(node, rules[1..][i']) == Failure(e)
            && forall k :: 0 <= k < i' ==> ValidRule(node.source, rules[1..][k]);
          assert RuleOutputs(node, rules[i' + 1]) == Failure(e);
          assert forall k :: 0 <= k < i' + 1 ==> ValidRule(node.source, rules[k]) by {
            forall k | 0 <= k < i' + 1 ensures ValidRule(node.source, rules[k]) {
              if k > 0 { assert rules[k] == rules[1..][k - 1]; }
            }
          }
        }
      }
      if exists i :: 0 <= i < |rules| && RuleOutputs(node, rules[i]) == Failure(e)
           && forall k :: 0 <= k < i ==> ValidRule(node.source, rules[k]) {
        var i :| 0 <= i < |rules| && RuleOutputs(node, rules[i]) == Failure(e)
          && forall k :: 0 <= k < i ==> ValidRule(node.source, rules[k]);
        if i > 0 {
          assert ValidRule(node.source, rules[0]);
          assert RuleOutputs(node, rules[1..][i - 1]) == Failure(e);
          assert forall k :: 0 <= k < i - 1 ==> ValidRule(node.source, rules[1..][k]);
        }
      }
    }
  }

  /** On success the number of declarations is the sum, over matching rules, of their replacer counts. */
  lemma {:induction false} TransformsCount(node: ImportDeclaration, rules: seq<Value>)
    requires Transforms(node, rules).Success?
    ensures |Transforms(node, rules).value| == OutputCount(node.source, rules)
  {
    if rules != [] {
      RuleOutputsSucceedsIffValid(node, rules[0]);
      TransformsCount(node, rules[1..]);
    }
  }

  /**
   * Declarations are ordered by rule, then by replacer: replacer j of
   * matching rule i sits after all declarations of the rules before it, and
   * carries the original specifiers with the source rewritten by that rule's
   * RegExp and that replacer.
   */
  lemma {:induction false} TransformsOrder(node: ImportDeclaration, rules: seq<Value>, i: nat, j: nat)
    requires Transforms(node, rules).Success?
    requires i < |rules| && j < MatchedCount(node.source, rules[i])
    ensures OutputCount(node.source, rules[..i]) + j < |Transforms(node, rules).value|
    ensures var list := ReplacerList(Get(rules[i], ReplacerLabel));
      && IsReplacer(list[j])
      && Transforms(node, rules).value[OutputCount(node.source, rules[..i]) + j]
         == ImportDeclaration(node.specifiers, Get(rules[i], TestLabel).re.replace(node.source, AsReplacement(list[j])))
  {
    var first := RuleOutputs(node, rules[0]).value;
    var rest := Transforms(node, rules[1..]).value;
    assert Transforms(node, rules).value == first + rest;
    RuleOutputsSucceedsIffValid(node, rules[0]);
    if i == 0 {
      assert rules[..0] == [];
    } else {
      TransformsOrder(node, rules[1..], i - 1, j);
      PrefixCount(node.source, rules, i);
      assert rules[1..][i - 1] == rules[i];
    }
  }

  lemma PrefixCount(source: string, rules: seq<Value>, i: nat)
    requires 0 < i <= |rules|
    ensures OutputCount(source, rules[..i]) == MatchedCount(source, rules[0]) + OutputCount(source, rules[1..][..i - 1])
  {
    assert rules[..i][0] == rules[0];
    assert rules[..i][1..] == rules[1..][..i - 1];
  }

  /** A valid rule list yields no declaration exactly when no rule matches. */
  lemma {:induction false} NoOutputIffNoMatch(source: string, rules: seq<Value>)
    requires forall k :: 0 <= k < |rules| ==> ValidRule(source, rules[k])
    ensures OutputCount(source, rules) == 0 <==> forall k :: 0 <= k < |rules| ==> !RuleMatches(source, rules[k])
  {
    if rules != [] {
      assert ValidRule(source, rules[0]);
      NoOutputIffNoMatch(source, rules[1..]);
      assert forall k :: 1 <= k < |rules| ==> rules[k] == rules[1..][k - 1];
    }
  }

  /**
   * A statement the visitor handles without error is replaced exactly when
   * some rule matches its source; otherwise Babel is asked for nothing.
   */
  lemma KeepNodeIffNothingMatches(node: ImportDeclaration, opts: Value)
    requires Visit(node, opts).Success?
    ensures var rules := NormalizedRules(opts).value;
      Visit(node, opts).value == KeepNode <==> forall k :: 0 <= k < |rules| ==> !RuleMatches(node.source, rules[k])
  {
    var rules := NormalizedRules(opts).value;
    TransformsSucceedsIffValid(node, rules);
    TransformsCount(node, rules);
    NoOutputIffNoMatch(node.source, rules);
  }

  /**
   * Replacers are validated lazily: a rule whose RegExp does not match the
   * source contributes nothing and throws nothing, whatever its `replacer`.
   */
  lemma UnmatchedRuleIgnoresReplacer(node: ImportDeclaration, fields: map<string, Value>, replacer: Value)
    requires TestLabel in fields && IsRegExp(fields[TestLabel]) && !fields[TestLabel].re.matches(node.source)
    ensures RuleOutputs(node, Obj(fields)) == Success([])
    ensures RuleOutputs(node, Obj(fields[ReplacerLabel := replacer])) == Success([])
  {
  }

  /** Inserting such a non-matching rule anywhere in the list changes neither the outputs nor the error. */
  lemma UnmatchedRuleChangesNothing(node: ImportDeclaration, rules: seq<Value>, k: nat, rule: Value)
    requires k <= |rules|
    requires IsObject(rule) && IsRegExp(Get(rule, TestLabel)) && !RuleMatches(node.source, rule)
    ensures Transforms(node, rules[..k] + [rule] + rules[k..]) == Transforms(node, rules)
  {
    TransformsConcat(node, rules[..k] + [rule], rules[k..]);
    TransformsConcat(node, rules[..k], [rule]);
    TransformsSingleton(node, rule);
    TransformsConcat(node, rules[..k], rules[k..]);
    assert rules[..k] + rules[k..] == rules;
    var a := Transforms(node, rules[..k]);
    if a.Success? {
      assert a.value + [] == a.value;
    }
  }
}
