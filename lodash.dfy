/** The lodash type predicates the plugin imports, for the values of module Js. */
module Lodash {
  import opened Js

  /** `_.isObject`: any non-null object, arrays, regexes and functions included. */
  predicate IsObject(v: Value) {
    v.Arr? || v.Obj? || v.RegExp? || v.Func?
  }

  predicate IsArray(v: Value) {
    v.Arr?
  }

  predicate IsRegExp(v: Value) {
    v.RegExp?
  }

  predicate IsString(v: Value) {
    v.Str?
  }

  predicate IsFunction(v: Value) {
    v.Func?
  }

  /**
   * `_.isEmpty`: `null`/`undefined` are empty; strings and arrays are empty
   * when their length is 0; anything else is empty when it has no own
   * enumerable key, which makes every boolean, number and regex empty, and a
   * function empty unless properties were assigned to it.
   */
  predicate IsEmpty(v: Value) {
    match v
    case Undefined => true
    case Null => true
    case Bool(_) => true
    case Num(_) => true
    case Str(s) => |s| == 0
    case Arr(items) => |items| == 0
    case Obj(fields) => |fields| == 0
    case RegExp(_) => true
    case Func(_, props) => |props| == 0
  }
}
