# babel-plugin-replace-imports, modelled in Dafny

`babel-plugin-replace-imports` is a Babel plugin that rewrites the source
path of `import` statements. Its options are one rule or a list of rules
`{ test: RegExp, replacer: String | Function | Array<String | Function> }`.
For every import declaration Babel visits, the plugin does the following:

- it refuses empty options;
- it turns a single rule into a one-element list;
- for each rule in list order, it checks that the rule is an object and that its `test` is a RegExp;
- when that RegExp matches the import's source, it checks the rule's `replacer` field and each of its elements;
- it emits one new import declaration per replacer. Each has the original specifiers and the source `source.replace(regex, repl)`.

If at least one declaration was produced, Babel is asked to replace the
statement with all of them. Every failure throws an `Error` whose message is
built from a numeric code and an optional field label.

The model is split into modules that follow that structure:

- `wrappers.dfy` (`Wrappers`): `Option` and a failure-compatible `Result`. A thrown error is a `Failure`.
- `js.dfy` (`Js`): the JavaScript values an option can hold.
  - Records and functions carry their own enumerable properties.
  - A RegExp is reduced to the two pure operations the plugin uses: `matches` for `regex.test` and `replace` for `String.prototype.replace`.
  - `Get` is the property read `opt.test` / `opt.replacer`.
- `lodash.dfy` (`Lodash`): explicit definitions of the lodash predicates the plugin imports. These are `isObject`, `isArray`, `isRegExp`, `isString`, `isFunction` and `isEmpty`.
- `errors.dfy` (`Errors`): the error codes, the labels, `errorMessages`, and the message `throwError` builds, including JavaScript's `trim`.
- `validators.dfy` (`Validators`): `getOption`, `getTestOption`, `getReplacerListOption` and `getReplacerOption`. Each is a function that returns its argument (the replacer field wrapped in a list when needed) or the error it throws.
- `visitor.dfy` (`Visitor`): the `ImportDeclaration` visitor.
  - The pure specification is `Visit`, built from `NormalizedRules`, `Transforms` (the outer `forEach` over rules), `RuleOutputs` (one rule) and `Fanout` (the inner `forEach` over replacers).
  - The imperative visitor is `ImportDeclarationVisitor`. It reassigns `options` and loops over the rules with a shared `transforms` accumulator. Each `forEach` callback is a method of its own: `ApplyRule` for a rule and `PushReplacements` for the loop over its replacers. The visitor is proved to compute exactly `Visit`.
- `properties.dfy` (`Properties`): statements about the visitor against definitions that do not follow its control flow (`ValidRule`, `MatchedCount`, `OutputCount`). They cover which rule lists are accepted, which error is thrown, how many declarations come out, their order, lazy replacer validation, and when the statement is left alone.
- `scenarios.dfy` (`Scenarios`): the option shapes used in `test/test.js`, evaluated as `src/index.js` is written.

### Where the source and its tests disagree

The model follows `src/index.js`. In three places the tests in `test/test.js`
expect something else:

- A RegExp or an array used as a rule passes `isObject` (`src/index.js:25`). The plugin therefore fails on the rule's missing `test` with code 1 «test», not with code 4 as `test/test.js:52-70` expects. A RegExp's `test` property is `RegExp.prototype.test`, a function with no own enumerable properties, so it is empty. See `Scenarios.RuleShapeCases`.
- A bare function replacer is empty under lodash's `isEmpty`, so `src/index.js:36` rejects it with code 1 «replacer». `test/test.js:142-145` accepts it. The same function inside an array is accepted. See `Scenarios.ReplacerTypeCases`.
- Every matching rule contributes declarations (`src/index.js:56-72`). There is no first-match-wins as in `test/test.js:157-166`. See `Scenarios.EveryMatchingRuleApplies` and `Properties.TransformsOrder`.

The source has no "already processed" marker on the declarations it creates,
so the model has none.

## Model

| member | source | states |
|---|---|---|
| `Errors.ErrorTextFormat` | src/index.js:9-22 | The thrown message is "\n" + plugin name + ": " + ("«label» " when a label is given) + `errorMessages[code]`. Trimming only removes the blank that stands in for a missing label. |
| `Validators.GetOption` | src/index.js:24-27 | A rule fails with code 4 and no label exactly when it is not an object in lodash's sense (arrays, regexes and functions are objects). Otherwise it is returned unchanged. |
| `Validators.GetTestOption` | src/index.js:29-33 | It succeeds exactly on a RegExp and returns it unchanged. A non-RegExp fails with label "test": code 1 when it is empty, code 2 when it is not. |
| `Validators.GetReplacerListOption` | src/index.js:35-38 | It fails with code 1 «replacer» exactly when the field is empty. Otherwise it returns the array itself or a one-element list, which is never empty. |
| `Validators.GetReplacerOption` | src/index.js:40-43 | It succeeds exactly on a string or a function and returns it unchanged. Anything else fails with code 3 «replacer». |
| `Visitor.Fanout` | src/index.js:61-70 | For a matched rule's replacer list: it succeeds exactly when every element is a string or function, and then yields one declaration per replacer, in order. Each has the original specifiers and the source rewritten with that replacer. Otherwise it fails with code 3. |
| `Visitor.RuleOutputs` | src/index.js:57-71 | Which error one rule throws: code 4 for a non-object, code 1 or 2 «test» for a non-RegExp `test`, code 1 «replacer» for an empty replacer of a matching rule. A non-matching rule yields nothing whatever its replacer. A matching rule yields the fan-out of its replacer list. Every error code is between 1 and 4. |
| `Visitor.Transforms` | src/index.js:56-72 | The rule loop never throws code 0: every error it can raise has a code from 1 to 4. |
| `Visitor.NormalizedRules` | src/index.js:48-54 | The options fail with code 0 exactly when they are empty. Otherwise an array is used as the rule list and any other value becomes a one-element list, so the list is never empty. |
| `Visitor.Visit` | src/index.js:47-75 | The visitor fails with code 0 exactly when the options are empty. A replacement is never requested with an empty list. An error carries no host action, so nothing is partly replaced. |
| `Visitor.PushReplacements` | src/index.js:63-70 | The inner loop returns what `Fanout` specifies, appended to the declarations already pushed, or `Fanout`'s error. |
| `Visitor.ApplyRule` | src/index.js:56-72 | One call of the rule callback returns what `RuleOutputs` specifies, appended to the declarations already pushed, or that rule's error. |
| `Visitor.ImportDeclarationVisitor` | src/index.js:47-75 | The imperative visitor returns exactly `Visit`: the same error, or the same host action. It reassigns `options`, runs the rule callback over the list with a shared `transforms` accumulator, and ends with the host action. |
| `Visitor.TransformsConcat` | src/index.js:56-72 | Running the rules of `a + b` is running `a`, then `b`. The first error wins; otherwise the outputs are concatenated. |
| `Visitor.FanoutConcat` | src/index.js:63-70 | Running the replacers of `a + b` is running `a`, then `b`. The first error wins; otherwise the outputs are concatenated. |
| `Properties.RuleOutputsSucceedsIffValid` | src/index.js:57-64 | A rule throws nothing exactly when it is a valid rule for this source. It then contributes as many declarations as it has replacers if it matches, and none if it does not. |
| `Properties.TransformsSucceedsIffValid` | src/index.js:56-72 | The rule loop throws nothing exactly when every rule in the list is valid for the source. |
| `Properties.FirstInvalidRuleThrows` | src/index.js:56-72 | The loop throws error `e` exactly when some rule throws `e` and every rule before it is valid: rules are checked in list order and the first invalid one decides the error. |
| `Properties.TransformsCount` | src/index.js:51-72 | On success, the number of declarations is the sum, over the matching rules, of the lengths of their replacer lists. |
| `Properties.TransformsOrder` | src/index.js:56-72 | Declarations are ordered by rule, then by replacer. Replacer j of matching rule i sits at index (outputs of the rules before i) + j. It has the original specifiers and the source rewritten by rule i's RegExp with that replacer. |
| `Properties.NoOutputIffNoMatch` | src/index.js:60-71 | For a valid rule list, no declaration is produced exactly when no rule matches, because a matching rule's replacer list is never empty. |
| `Properties.KeepNodeIffNothingMatches` | src/index.js:74 | When the visitor does not throw, it leaves the statement alone exactly when no rule matches its source. Otherwise it asks for a replacement. |
| `Properties.UnmatchedRuleIgnoresReplacer` | src/index.js:60-61 | Replacer validation is lazy. A rule whose RegExp does not match contributes nothing and throws nothing, with any replacer or none. |
| `Properties.UnmatchedRuleChangesNothing` | src/index.js:56-72 | Inserting a non-matching rule with any replacer anywhere in the rule list changes neither the declarations nor the error. |
| `Scenarios.OptionsRequiredCases` | src/index.js:48 | `undefined`, `true`, a RegExp, `123`, `''` and `{}` as options all fail with code 0. |
| `Scenarios.RuleShapeCases` | src/index.js:24-33 | Rules `true`, `'test'` and `123` fail with code 4. Rules that are a RegExp or `[]` fail with code 1 «test». |
| `Scenarios.TestFieldRequiredCases` | src/index.js:29-30 | A `test` that is missing, `[]`, `{}`, `true` or `123` fails with code 1 «test». |
| `Scenarios.TestFieldTypeCases` | src/index.js:29-31 | A `test` that is `'test'` or `{one: 1}` fails with code 2 «test». |
| `Scenarios.ReplacerFieldCases` | src/index.js:35-38 | For a matching rule, a replacer that is missing, `[]`, `{}`, a RegExp, `true`, `123` or `''` fails with code 1 «replacer». |
| `Scenarios.ReplacerTypeCases` | src/index.js:35-43 | For a matching rule, a `{one: 1}` replacer fails with code 3. A bare function fails with code 1. The same function inside an array produces one declaration, rewritten by that function. |
| `Scenarios.EveryMatchingRuleApplies` | src/index.js:56-74 | Two matching rules with non-empty string replacers produce two declarations, first rule first. |

## Left out

- Babel's side is host interface, not modelled. This covers building nodes with `types.importDeclaration` / `types.stringLiteral`, reading `path.node`, and splicing with `path.replaceWithMultiple`. The visitor returns a `HostAction` (keep the node, or replace it with a list) and a thrown error aborts the compilation. Specifiers are carried through unchanged as values: in the plugin every emitted declaration shares the one `path.node.specifiers` array by reference, and that aliasing is not modelled.
- The RegExp engine is foreign code. `regex.test` and `String.prototype.replace` are the pure fields `matches` and `replace` of `Pattern`. The replacement syntax (`$&`, `$1`, ...) is inside `replace`. A replacer function is modelled as a total, pure map from the matched text to a string. The model does not capture:
  - the capture groups, offset and whole string that JavaScript also passes to it;
  - a replacer function that throws, whose error is not a plugin error and has no code (so "every error has a code from 1 to 4" holds only for replacers that do not throw);
  - a replacer function that returns a non-string, which `replace` coerces to a string;
  - a replacer function with side effects.
- RegExp `lastIndex` state is not modelled. For a global RegExp, `replace` resets `lastIndex` after a successful `test`, so when the visitor finishes without error no match position carries over. On the error path it does: if a global RegExp's `test` succeeds and then the replacer field or its first element is refused, `lastIndex` stays advanced on the shared options object, and a later `test` against another file can start from there. The model treats every `test` as starting from position 0. A sticky (`y`) RegExp, whose `replace` does use and advance `lastIndex`, is outside the model.
- lodash corner cases are not modelled:
  - `Map`, `Set`, `arguments`, typed arrays, buffers, boxed strings, prototype objects, inherited enumerable properties and getters are not values of the model;
  - arrays and RegExps have no extra named properties;
  - arrays have no holes. In JavaScript `forEach` skips holes while `isEmpty` counts `length`. A sparse `replacer` such as `[, 'x']` yields one declaration there, but a failure with code 3 here. A `replacer` of `[,]` yields nothing and no error there. The statements that a matching rule's replacer list is never empty (`Properties.NoOutputIffNoMatch`, `Properties.TransformsCount`) hold only for arrays without holes, and so does the treatment of a sparse rule list such as `[, rule]`.
- The calls `throwError(code=N, ...)` also assign an implicit global `code`. The model treats each call as passing N, which is what happens outside strict mode. The `Error` object's stack and identity are not modelled, only its message (`ErrorText`).
- An identity round-trip (a replacer that returns the matched text unchanged) depends on the RegExp engine's `replace`, which is abstract here. It is not stated.
