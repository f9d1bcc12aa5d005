/**
 * The JavaScript values a Babel plugin option can hold, and the property
 * lookup the plugin does on a rule (`opt.test`, `opt.replacer`).
 *
 * Regular expressions and replacer functions are foreign code: a RegExp is
 * represented by the two pure operations the plugin uses on it, `test` and
 * `String.prototype.replace`, and a function by what it does as a replacer
 * (the matched text to its replacement).
 */
module Js {

  /** The second argument of `source.replace(regex, repl)`. */
  datatype Replacement =
    | Literal(text: string)             // may use `$&`, `$1`, ... placeholders
    | Callback(fn: string -> string)    // receives the matched substring

  /**
   * A RegExp as the plugin sees it. `replace` is `String.prototype.replace`
   * with this pattern; for a global pattern `replace` starts from and leaves
   * `lastIndex` at 0, so after a matched rule has been rewritten no match
   * position survives, and both operations are pure here.
   */
  datatype Pattern = Pattern(matches: string -> bool, replace: (string, Replacement) -> string)

  datatype Value =
    | Undefined
    | Null
    | Bool(b: bool)
    | Num(n: real)
    | Str(s: string)
    | Arr(items: seq<Value>)
    | Obj(fields: map<string, Value>)             // own enumerable properties
    | RegExp(re: Pattern)
    | Func(body: string -> string, props: map<string, Value>)

  /**
   * `RegExp.prototype.test`, found by `regex.test` when a RegExp is used as a
   * rule: a function with no own enumerable properties. Its body is never
   * applied by the plugin.
   */
  const RegExpPrototypeTest: Value := Func(s => s, map[])

  /**
   * `v[key]` for the keys the plugin reads. Records and functions yield their
   * own property; a RegExp inherits `test` from its prototype; arrays and
   * primitives have neither `test` nor `replacer`.
   */
  function Get(v: Value, key: string): Value {
    match v
    case Obj(fields) => if key in fields then fields[key] else Undefined
    case Func(_, props) => if key in props then props[key] else Undefined
    case RegExp(_) => if key == "test" then RegExpPrototypeTest else Undefined
    case _ => Undefined
  }
}
