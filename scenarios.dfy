/**
 * The option shapes exercised by the repository's tests, evaluated by the
 * visitor as src/index.js is written. Where the source disagrees with the
 * tests' expectations, the lemma states what the source does.
 */
module Scenarios {
  import opened Wrappers
  import opened Js
  import opened Lodash
  import opened Errors
  import opened Validators
  import opened Visitor

  function Rule(test: Value, replacer: Value): Value {
    Obj(map[TestLabel := test, ReplacerLabel := replacer])
  }

  /** A one-rule list: the visitor's outcome is that rule's. */
  lemma VisitOneRule(node: ImportDeclaration, rule: Value)
    ensures var out := RuleOutputs(node, rule);
      Visit(node, Arr([rule])) == if out.Failure? then Failure(out.error)
        else Success(if |out.value| > 0 then ReplaceWithMultiple(out.value) else KeepNode)
  {
    assert NormalizedRules(Arr([rule])) == Success([rule]);
    TransformsSingleton(node, rule);
  }

  lemma RuleFields(test: Value, replacer: Value)
    ensures Get(Rule(test, replacer), TestLabel) == test
    ensures Get(Rule(test, replacer), ReplacerLabel) == replacer
  {
  }

  /** A rule whose RegExp matches: the outcome is decided by its replacer field alone. */
  lemma MatchedRule(node: ImportDeclaration, p: Pattern, replacer: Value)
    requires p.matches(node.source)
    ensures Visit(node, Arr([Rule(RegExp(p), replacer)])) ==
      if IsEmpty(replacer) then Failure(PluginError(OptionRequired, Some(ReplacerLabel)))
      else
        var out := Fanout(node, p, ReplacerList(replacer));
        if out.Failure? then Failure(out.error) else Success(ReplaceWithMultiple(out.value))
  {
    RuleFields(RegExp(p), replacer);
    VisitOneRule(node, Rule(RegExp(p), replacer));
  }

  /** A rule whose `test` is not a RegExp fails on it, with code 1 if it is empty and 2 otherwise. */
  lemma TestFieldFails(node: ImportDeclaration, test: Value)
    requires !IsRegExp(test)
    ensures Visit(node, Arr([Obj(map[TestLabel := test])]))
      == Failure(PluginError(if IsEmpty(test) then OptionRequired else NotRegExp, Some(TestLabel)))
  {
    VisitOneRule(node, Obj(map[TestLabel := test]));
  }

  /** A matching rule with an empty replacer field fails with code 1 «replacer». */
  lemma EmptyReplacerFails(node: ImportDeclaration, p: Pattern, replacer: Value)
    requires p.matches(node.source) && IsEmpty(replacer)
    ensures Visit(node, Arr([Rule(RegExp(p), replacer)])) == Failure(PluginError(OptionRequired, Some(ReplacerLabel)))
  {
    MatchedRule(node, p, replacer);
  }

  /** Options that lodash calls empty are refused before any rule is read. */
  lemma OptionsRequiredCases(node: ImportDeclaration, p: Pattern)
    ensures Visit(node, Undefined) == Failure(PluginError(OptionsRequired, None))
    ensures Visit(node, Bool(true)) == Failure(PluginError(OptionsRequired, None))
    ensures Visit(node, RegExp(p)) == Failure(PluginError(OptionsRequired, None))
    ensures Visit(node, Num(123.0)) == Failure(PluginError(OptionsRequired, None))
    ensures Visit(node, Str("")) == Failure(PluginError(OptionsRequired, None))
    ensures Visit(node, Obj(map[])) == Failure(PluginError(OptionsRequired, None))
  {
  }

  /**
   * Rules that are not objects are refused with code 4. A RegExp or an
   * array is an object under lodash, so such a rule passes that check and
   * fails on its missing `test` instead.
   */
  lemma RuleShapeCases(node: ImportDeclaration, p: Pattern)
    ensures Visit(node, Arr([Bool(true)])) == Failure(PluginError(ItemNotObject, None))
    ensures Visit(node, Arr([Str("test")])) == Failure(PluginError(ItemNotObject, None))
    ensures Visit(node, Arr([Num(123.0)])) == Failure(PluginError(ItemNotObject, None))
    ensures Visit(node, Arr([RegExp(p)])) == Failure(PluginError(OptionRequired, Some(TestLabel)))
    ensures Visit(node, Arr([Arr([])])) == Failure(PluginError(OptionRequired, Some(TestLabel)))
  {
  }

  /** A missing or empty `test` is required (code 1). */
  lemma TestFieldRequiredCases(node: ImportDeclaration)
    ensures Visit(node, Arr([Obj(map[])])) == Failure(PluginError(OptionRequired, Some(TestLabel)))
    ensures Visit(node, Arr([Obj(map[TestLabel := Arr([])])])) == Failure(PluginError(OptionRequired, Some(TestLabel)))
    ensures Visit(node, Arr([Obj(map[TestLabel := Obj(map[])])])) == Failure(PluginError(OptionRequired, Some(TestLabel)))
    ensures Visit(node, Arr([Obj(map[TestLabel := Bool(true)])])) == Failure(PluginError(OptionRequired, Some(TestLabel)))
    ensures Visit(node, Arr([Obj(map[TestLabel := Num(123.0)])])) == Failure(PluginError(OptionRequired, Some(TestLabel)))
  {
    VisitOneRule(node, Obj(map[]));
    TestFieldFails(node, Arr([]));
    TestFieldFails(node, Obj(map[]));
    TestFieldFails(node, Bool(true));
    TestFieldFails(node, Num(123.0));
  }

  /** A non-empty `test` that is not a RegExp has the wrong type (code 2). */
  lemma TestFieldTypeCases(node: ImportDeclaration)
    ensures Visit(node, Arr([Obj(map[TestLabel := Str("test")])])) == Failure(PluginError(NotRegExp, Some(TestLabel)))
    ensures Visit(node, Arr([Obj(map[TestLabel := Obj(map["one" := Num(1.0)])])])) == Failure(PluginError(NotRegExp, Some(TestLabel)))
  {
    TestFieldFails(node, Str("test"));
    assert |map["one" := Num(1.0)]| == 1;
    TestFieldFails(node, Obj(map["one" := Num(1.0)]));
  }

  /**
   * With a matching RegExp, a missing or empty replacer field is required
   * (code 1); booleans, numbers, regexes and the empty string all count as
   * empty.
   */
  lemma ReplacerFieldCases(node: ImportDeclaration, p: Pattern)
    requires p.matches(node.source)
    ensures Visit(node, Arr([Obj(map[TestLabel := RegExp(p)])])) == Failure(PluginError(OptionRequired, Some(ReplacerLabel)))
    ensures Visit(node, Arr([Rule(RegExp(p), Arr([]))])) == Failure(PluginError(OptionRequired, Some(ReplacerLabel)))
    ensures Visit(node, Arr([Rule(RegExp(p), Obj(map[]))])) == Failure(PluginError(OptionRequired, Some(ReplacerLabel)))
    ensures Visit(node, Arr([Rule(RegExp(p), RegExp(p))])) == Failure(PluginError(OptionRequired, Some(ReplacerLabel)))
    ensures Visit(node, Arr([Rule(RegExp(p), Bool(true))])) == Failure(PluginError(OptionRequired, Some(ReplacerLabel)))
    ensures Visit(node, Arr([Rule(RegExp(p), Num(123.0))])) == Failure(PluginError(OptionRequired, Some(ReplacerLabel)))
    ensures Visit(node, Arr([Rule(RegExp(p), Str(""))])) == Failure(PluginError(OptionRequired, Some(ReplacerLabel)))
  {
    VisitOneRule(node, Obj(map[TestLabel := RegExp(p)]));
    EmptyReplacerFails(node, p, Arr([]));
    EmptyReplacerFails(node, p, Obj(map[]));
    EmptyReplacerFails(node, p, RegExp(p));
    EmptyReplacerFails(node, p, Bool(true));
    EmptyReplacerFails(node, p, Num(123.0));
    EmptyReplacerFails(node, p, Str(""));
  }

  /**
   * A replacer object with a property is neither string nor function (code
   * 3). A bare function without own properties is empty under lodash, so it
   * is refused as missing (code 1), while the same function inside an array
   * is accepted and rewrites the source.
   */
  lemma ReplacerTypeCases(node: ImportDeclaration, p: Pattern, f: string -> string)
    requires p.matches(node.source)
    ensures Visit(node, Arr([Rule(RegExp(p), Obj(map["one" := Num(1.0)]))])) == Failure(PluginError(NotStringOrFunction, Some(ReplacerLabel)))
    ensures Visit(node, Arr([Rule(RegExp(p), Func(f, map[]))])) == Failure(PluginError(OptionRequired, Some(ReplacerLabel)))
    ensures Visit(node, Arr([Rule(RegExp(p), Arr([Func(f, map[])]))]))
      == Success(ReplaceWithMultiple([ImportDeclaration(node.specifiers, p.replace(node.source, Callback(f)))]))
  {
    assert |map["one" := Num(1.0)]| == 1;
    MatchedRule(node, p, Obj(map["one" := Num(1.0)]));
    MatchedRule(node, p, Func(f, map[]));
    MatchedRule(node, p, Arr([Func(f, map[])]));
    FanoutSingleton(node, p, Func(f, map[]));
  }

  /** Every matching rule contributes, in list order: there is no first-match-wins. */
  lemma EveryMatchingRuleApplies(node: ImportDeclaration, p1: Pattern, p2: Pattern, r1: string, r2: string)
    requires p1.matches(node.source) && p2.matches(node.source)
    requires r1 != "" && r2 != ""
    ensures Visit(node, Arr([Rule(RegExp(p1), Str(r1)), Rule(RegExp(p2), Str(r2))]))
      == Success(ReplaceWithMultiple([
           ImportDeclaration(node.specifiers, p1.replace(node.source, Literal(r1))),
           ImportDeclaration(node.specifiers, p2.replace(node.source, Literal(r2)))]))
  {
    var rule1, rule2 := Rule(RegExp(p1), Str(r1)), Rule(RegExp(p2), Str(r2));
    assert NormalizedRules(Arr([rule1, rule2])) == Success([rule1, rule2]);
    assert [rule1, rule2] == [rule1] + [rule2];
    TransformsConcat(node, [rule1], [rule2]);
    TransformsSingleton(node, rule1);
    TransformsSingleton(node, rule2);
    RuleFields(RegExp(p1), Str(r1));
    RuleFields(RegExp(p2), Str(r2));
    FanoutSingleton(node, p1, Str(r1));
    FanoutSingleton(node, p2, Str(r2));
    var d1 := ImportDeclaration(node.specifiers, p1.replace(node.source, Literal(r1)));
    var d2 := ImportDeclaration(node.specifiers, p2.replace(node.source, Literal(r2)));
    assert ReplacerList(Str(r1)) == [Str(r1)] && Rewrite(node, p1, Str(r1)) == d1;
    assert RuleOutputs(node, rule1) == Success([d1]);
    assert ReplacerList(Str(r2)) == [Str(r2)] && Rewrite(node, p2, Str(r2)) == d2;
    assert RuleOutputs(node, rule2) == Success([d2]);
    assert [d1] + [d2] == [d1, d2];
  }
}
