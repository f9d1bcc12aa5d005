/**
 * The four option validators of the plugin. Each returns its argument (the
 * replacer field possibly wrapped in a list) or the error it throws.
 */
module Validators {
  import opened Wrappers
  import opened Js
  import opened Lodash
  import opened Errors

  /** A replacer the plugin accepts: a string or a function. */
  predicate IsReplacer(v: Value) {
    IsString(v) || IsFunction(v)
  }

  /** What `source.replace(regex, repl)` receives for an accepted replacer. */
  function AsReplacement(v: Value): Replacement
    requires IsReplacer(v)
  {
    if v.Str? then Literal(v.s) else Callback(v.body)
  }

  /** An array replacer field is its own list; any other value is a one-element list. */
  function ReplacerList(v: Value): seq<Value> {
    if IsArray(v) then v.items else [v]
  }

  /** `getOption`: a rule must be an object (arrays, regexes and functions pass). */
  function GetOption(option: Value): (r: Result<Value, PluginError>)
    ensures r.Failure? <==> !IsObject(option)
    ensures r.Failure? ==> r.error == PluginError(ItemNotObject, None)
    ensures r.Success? ==> r.value == option
  {
    if !IsObject(option) then Failure(PluginError(ItemNotObject, None)) else Success(option)
  }

  /**
   * `getTestOption`: the `test` field must be a RegExp; a missing or empty
   * one is reported as required, any other non-RegExp as of the wrong type.
   */
  function GetTestOption(option: Value): (r: Result<Value, PluginError>)
    ensures r.Success? <==> IsRegExp(option)
    ensures r.Success? ==> r.value == option
    ensures r.Failure? ==> r.error.fieldLabel == Some(TestLabel)
    ensures r.Failure? ==> (r.error.code == OptionRequired <==> IsEmpty(option))
    ensures r.Failure? ==> (r.error.code == NotRegExp <==> !IsEmpty(option))
  {
    if !IsRegExp(option) && IsEmpty(option) then Failure(PluginError(OptionRequired, Some(TestLabel)))
    else if !IsRegExp(option) then Failure(PluginError(NotRegExp, Some(TestLabel)))
    else Success(option)
  }

  /**
   * `getReplacerListOption`: an empty replacer field is reported as required
   * (under lodash this includes a bare function without own properties);
   * otherwise the field becomes a list, which is never empty.
   */
  function GetReplacerListOption(option: Value): (r: Result<seq<Value>, PluginError>)
    ensures r.Failure? <==> IsEmpty(option)
    ensures r.Failure? ==> r.error == PluginError(OptionRequired, Some(ReplacerLabel))
    ensures r.Success? ==> r.value == ReplacerList(option) && |r.value| > 0
  {
    if IsEmpty(option) then Failure(PluginError(OptionRequired, Some(ReplacerLabel)))
    else if IsArray(option) then Success(option.items)
    else Success([option])
  }

  /** `getReplacerOption`: a replacer list element must be a string or a function. */
  function GetReplacerOption(option: Value): (r: Result<Value, PluginError>)
    ensures r.Success? <==> IsString(option) || IsFunction(option)
    ensures r.Success? ==> r.value == option
    ensures r.Failure? ==> r.error == PluginError(NotStringOrFunction, Some(ReplacerLabel))
  {
    if !(IsString(option) || IsFunction(option)) then Failure(PluginError(NotStringOrFunction, Some(ReplacerLabel)))
    else Success(option)
  }
}
