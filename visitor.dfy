/**
 * The `ImportDeclaration` visitor: for one import statement, check the
 * plugin options, run every rule in order and collect one new import
 * declaration per replacer of every rule whose pattern matches the source.
 */
module Visitor {
  import opened Wrappers
  import opened Js
  import opened Lodash
  import opened Errors
  import opened Validators

  datatype Specifier =
    | ImportDefaultSpecifier(local: string)
    | ImportNamespaceSpecifier(local: string)
    | ImportSpecifier(imported: string, local: string)

  /** An import statement: its binding specifiers and the value of its source string literal. */
  datatype ImportDeclaration = ImportDeclaration(specifiers: seq<Specifier>, source: string)

  /** What the visitor asks of Babel: nothing, or `path.replaceWithMultiple(nodes)`. */
  datatype HostAction = KeepNode | ReplaceWithMultiple(nodes: seq<ImportDeclaration>)

  type Outputs = Result<seq<ImportDeclaration>, PluginError>

  /** The declaration built for one accepted replacer: same specifiers, rewritten source. */
  function Rewrite(node: ImportDeclaration, p: Pattern, repl: Value): ImportDeclaration
    requires IsReplacer(repl)
  {
    ImportDeclaration(node.specifiers, p.replace(node.source, AsReplacement(repl)))
  }

  /** Running two parts in sequence: the first error wins, otherwise the outputs are concatenated. */
  function Join(first: Outputs, rest: Outputs): Outputs {
    if first.Failure? then first
    else if rest.Failure? then rest
    else Success(first.value + rest.value)
  }

  lemma JoinAssociative(x: Outputs, y: Outputs, z: Outputs)
    ensures Join(Join(x, y), z) == Join(x, Join(y, z))
  {
    if x.Success? && y.Success? && z.Success? {
      assert (x.value + y.value) + z.value == x.value + (y.value + z.value);
    }
  }

  /** The inner `replacerList.forEach` of a matched rule: validate each replacer, then rewrite with it. */
  function Fanout(node: ImportDeclaration, p: Pattern, replacers: seq<Value>): (r: Outputs)
    ensures r.Success? <==> forall k :: 0 <= k < |replacers| ==> IsReplacer(replacers[k])
    ensures r.Success? ==> |r.value| == |replacers|
    ensures r.Success? ==> forall k :: 0 <= k < |replacers| ==>
      IsReplacer(replacers[k]) && r.value[k] == Rewrite(node, p, replacers[k])
    ensures r.Failure? ==> r.error == PluginError(NotStringOrFunction, Some(ReplacerLabel))
  {
    if replacers == [] then Success([])
    else
      var repl :- GetReplacerOption(replacers[0]);
      var rest :- Fanout(node, p, replacers[1..]);
      Success([Rewrite(node, p, repl)] + rest)
  }

  /**
   * One iteration of the outer `options.forEach`: the rule must be an object
   * with a RegExp `test`; its `replacer` is read only when that RegExp
   * matches the import's source.
   */
  function RuleOutputs(node: ImportDeclaration, rule: Value): (r: Outputs)
    ensures !IsObject(rule) ==> r == Failure(PluginError(ItemNotObject, None))
    ensures IsObject(rule) && !IsRegExp(Get(rule, TestLabel)) ==>
      r == Failure(PluginError(if IsEmpty(Get(rule, TestLabel)) then OptionRequired else NotRegExp, Some(TestLabel)))
    ensures IsObject(rule) && IsRegExp(Get(rule, TestLabel)) && !Get(rule, TestLabel).re.matches(node.source) ==>
      r == Success([])
    ensures IsObject(rule) && IsRegExp(Get(rule, TestLabel)) && Get(rule, TestLabel).re.matches(node.source) ==>
      r == (if IsEmpty(Get(rule, ReplacerLabel)) then Failure(PluginError(OptionRequired, Some(ReplacerLabel)))
            else Fanout(node, Get(rule, TestLabel).re, ReplacerList(Get(rule, ReplacerLabel))))
    ensures r.Failure? ==> OptionRequired <= r.error.code <= ItemNotObject
  {
    var opt :- GetOption(rule);
    var regex :- GetTestOption(Get(opt, TestLabel));
    if regex.re.matches(node.source) then
      var replacerList :- GetReplacerListOption(Get(opt, ReplacerLabel));
      Fanout(node, regex.re, replacerList)
    else
      Success([])
  }

  /** The outer `options.forEach`, in list order; the first thrown error aborts the statement. */
  function Transforms(node: ImportDeclaration, rules: seq<Value>): (r: Outputs)
    ensures r.Failure? ==> OptionRequired <= r.error.code <= ItemNotObject
  {
    if rules == [] then Success([])
    else
      var first :- RuleOutputs(node, rules[0]);
      var rest :- Transforms(node, rules[1..]);
      Success(first + rest)
  }

  /** The options check and `let options`: empty options are refused, a single rule becomes a list. */
  function NormalizedRules(opts: Value): (r: Result<seq<Value>, PluginError>)
    ensures r.Failure? <==> IsEmpty(opts)
    ensures r.Failure? ==> r.error == PluginError(OptionsRequired, None)
    ensures r.Success? ==> |r.value| > 0
    ensures r.Success? ==> r.value == if IsArray(opts) then opts.items else [opts]
  {
    if IsEmpty(opts) then Failure(PluginError(OptionsRequired, None))
    else if IsArray(opts) then Success(opts.items)
    else Success([opts])
  }

  /**
   * The visitor as a function: either the error it throws, or what it asks
   * of the host. A thrown error carries no host action, so no partial
   * replacement is ever made; a replacement is never by an empty list.
   */
  function Visit(node: ImportDeclaration, opts: Value): (r: Result<HostAction, PluginError>)
    ensures (r.Failure? && r.error.code == OptionsRequired) <==> IsEmpty(opts)
    ensures r.Success? && r.value.ReplaceWithMultiple? ==> |r.value.nodes| > 0
  {
    var rules :- NormalizedRules(opts);
    var transforms :- Transforms(node, rules);
    Success(if |transforms| > 0 then ReplaceWithMultiple(transforms) else KeepNode)
  }

  lemma JoinUnit(x: Outputs)
    ensures Join(Success([]), x) == x
  {
    if x.Success? {
      assert [] + x.value == x.value;
    }
  }

  lemma FanoutUnfold(node: ImportDeclaration, p: Pattern, replacers: seq<Value>)
    requires replacers != []
    ensures Fanout(node, p, replacers) == Join(Fanout(node, p, [replacers[0]]), Fanout(node, p, replacers[1..]))
  {
    assert [replacers[0]][1..] == [];
    if IsReplacer(replacers[0]) {
      assert [Rewrite(node, p, replacers[0])] + [] == [Rewrite(node, p, replacers[0])];
    }
  }

  lemma FanoutSingleton(node: ImportDeclaration, p: Pattern, repl: Value)
    ensures IsReplacer(repl) ==> Fanout(node, p, [repl]) == Success([Rewrite(node, p, repl)])
  {
    assert [repl][1..] == [];
    if IsReplacer(repl) {
      assert [Rewrite(node, p, repl)] + [] == [Rewrite(node, p, repl)];
    }
  }

  lemma {:induction false} TransformsConcat(node: ImportDeclaration, a: seq<Value>, b: seq<Value>)
    ensures Transforms(node, a + b) == Join(Transforms(node, a), Transforms(node, b))
  {
    if a == [] {
      assert a + b == b;
      JoinUnit(Transforms(node, b));
    } else {
      assert (a + b)[0] == a[0];
      assert (a + b)[1..] == a[1..] + b;
      TransformsConcat(node, a[1..], b);
      JoinAssociative(RuleOutputs(node, a[0]), Transforms(node, a[1..]), Transforms(node, b));
    }
  }

  lemma {:induction false} FanoutConcat(node: ImportDeclaration, p: Pattern, a: seq<Value>, b: seq<Value>)
    ensures Fanout(node, p, a + b) == Join(Fanout(node, p, a), Fanout(node, p, b))
  {
    if a == [] {
      assert a + b == b;
      JoinUnit(Fanout(node, p, b));
    } else {
      assert (a + b)[0] == a[0];
      assert (a + b)[1..] == a[1..] + b;
      FanoutConcat(node, p, a[1..], b);
      FanoutUnfold(node, p, a);
      FanoutUnfold(node, p, a + b);
      JoinAssociative(Fanout(node, p, [a[0]]), Fanout(node, p, a[1..]), Fanout(node, p, b));
    }
  }

  /** Rule i extends the result for the rules before it; a failure there is the result of the whole list. */
  lemma TransformsStep(node: ImportDeclaration, rules: seq<Value>, i: nat)
    requires i < |rules|
    ensures Transforms(node, rules[..i + 1]) == Join(Transforms(node, rules[..i]), RuleOutputs(node, rules[i]))
    ensures Transforms(node, rules[..i]).Success? && RuleOutputs(node, rules[i]).Failure? ==>
      Transforms(node, rules) == RuleOutputs(node, rules[i])
  {
    assert rules[..i + 1] == rules[..i] + [rules[i]];
    TransformsConcat(node, rules[..i], [rules[i]]);
    TransformsSingleton(node, rules[i]);
    assert rules == rules[..i + 1] + rules[i + 1..];
    TransformsConcat(node, rules[..i + 1], rules[i + 1..]);
  }

  lemma TransformsSingleton(node: ImportDeclaration, rule: Value)
    ensures Transforms(node, [rule]) == RuleOutputs(node, rule)
  {
    assert [rule][1..] == [];
    var first := RuleOutputs(node, rule);
    if first.Success? {
      assert first.value + [] == first.value;
    }
  }

  /** Replacer j extends the outputs for the replacers before it; a failure there is the result of the whole list. */
  lemma FanoutStep(node: ImportDeclaration, p: Pattern, replacers: seq<Value>, j: nat)
    requires j < |replacers|
    ensures Fanout(node, p, replacers[..j + 1]) == Join(Fanout(node, p, replacers[..j]), Fanout(node, p, [replacers[j]]))
    ensures Fanout(node, p, replacers[..j]).Success? && !IsReplacer(replacers[j]) ==>
      Fanout(node, p, replacers) == Failure(PluginError(NotStringOrFunction, Some(ReplacerLabel)))
  {
    assert replacers[..j + 1] == replacers[..j] + [replacers[j]];
    FanoutConcat(node, p, replacers[..j], [replacers[j]]);
    assert replacers == replacers[..j + 1] + replacers[j + 1..];
    FanoutConcat(node, p, replacers[..j + 1], replacers[j + 1..]);
  }

  /**
   * The inner `replacerList.forEach` callback run over the list: validate
   * each replacer and push its declaration onto `transforms`.
   */
  method PushReplacements(node: ImportDeclaration, p: Pattern, replacerList: seq<Value>, transforms: seq<ImportDeclaration>)
    returns (r: Outputs)
    ensures r == Join(Success(transforms), Fanout(node, p, replacerList))
  {
    var pushed := transforms;
    ghost var fanned: seq<ImportDeclaration> := [];
    var j := 0;
    while j < |replacerList|
      invariant 0 <= j <= |replacerList|
      invariant Fanout(node, p, replacerList[..j]) == Success(fanned)
      invariant pushed == transforms + fanned
    {
      FanoutStep(node, p, replacerList, j);
      FanoutSingleton(node, p, replacerList[j]);
      var repl :- GetReplacerOption(replacerList[j]);
      var declaration := Rewrite(node, p, repl);
      pushed := pushed + [declaration];
      fanned := fanned + [declaration];
      j := j + 1;
    }
    assert replacerList[..j] == replacerList;
    return Success(pushed);
  }

  /**
   * The outer `options.forEach` callback for one rule: check the rule and
   * its `test`, and only when the RegExp matches, its replacers.
   */
  method ApplyRule(node: ImportDeclaration, option: Value, transforms: seq<ImportDeclaration>) returns (r: Outputs)
    ensures r == Join(Success(transforms), RuleOutputs(node, option))
  {
    var opt :- GetOption(option);
    var regex :- GetTestOption(Get(opt, TestLabel));
    if regex.re.matches(node.source) {
      var replacerList :- GetReplacerListOption(Get(opt, ReplacerLabel));
      r := PushReplacements(node, regex.re, replacerList, transforms);
    } else {
      assert transforms + [] == transforms;
      r := Success(transforms);
    }
  }

  /**
   * The visitor body as the plugin runs it: reassigns `options`, runs the
   * rule callback over the list with a shared `transforms` accumulator and
   * ends with the host action. It computes exactly `Visit`.
   */
  method ImportDeclarationVisitor(node: ImportDeclaration, opts: Value) returns (r: Result<HostAction, PluginError>)
    ensures r == Visit(node, opts)
  {
    if IsEmpty(opts) {
      return Failure(PluginError(OptionsRequired, None));
    }
    var transforms: seq<ImportDeclaration> := [];
    var options := opts;
    if !IsArray(options) {
      options := Arr([opts]);
    }
    var rules := options.items;
    assert NormalizedRules(opts) == Success(rules);
    var i := 0;
    while i < |rules|
      invariant 0 <= i <= |rules|
      invariant Transforms(node, rules[..i]) == Success(transforms)
    {
      TransformsStep(node, rules, i);
      transforms :- ApplyRule(node, rules[i], transforms);
      i := i + 1;
    }
    assert rules[..i] == rules;
    if |transforms| > 0 {
      r := Success(ReplaceWithMultiple(transforms));
    } else {
      r := Success(KeepNode);
    }
  }
}
