/** The plugin's error codes, labels and the text of the errors it throws. */
module Errors {
  import opened Wrappers

  const PluginName: string := "babel-plugin-replace-imports"

  const TestLabel: string := "test"
  const ReplacerLabel: string := "replacer"

  const OptionsRequired: nat := 0
  const OptionRequired: nat := 1
  const NotRegExp: nat := 2
  const NotStringOrFunction: nat := 3
  const ItemNotObject: nat := 4

  /** A thrown error: the numeric code that selects the message and the optional field label. */
  datatype PluginError = PluginError(code: nat, fieldLabel: Option<string>)

  /** `errorMessages[code]` interpolated into a template string; a missing code reads "undefined". */
  function ErrorMessage(code: nat): string {
    if code == OptionsRequired then "options are required."
    else if code == OptionRequired then "option is required."
    else if code == NotRegExp then "option must be a RegExp."
    else if code == NotStringOrFunction then "option must be a String or a Function"
    else if code == ItemNotObject then "options item must be an Object."
    else "undefined"
  }

  /** The characters `String.prototype.trim` removes (white space and line terminators). */
  predicate IsJsWhitespace(c: char) {
    || c in {' ', '\t', '\n', '\r', '\U{000B}', '\U{000C}', '\U{00A0}', '\U{1680}'}
    || c in {'\U{2028}', '\U{2029}', '\U{202F}', '\U{205F}', '\U{3000}', '\U{FEFF}'}
    || ('\U{2000}' <= c <= '\U{200A}')
  }

  function TrimStart(s: string): string {
    if s != [] && IsJsWhitespace(s[0]) then TrimStart(s[1..]) else s
  }

  function TrimEnd(s: string): string {
    if s != [] && IsJsWhitespace(s[|s| - 1]) then TrimEnd(s[..|s| - 1]) else s
  }

  function Trim(s: string): string {
    TrimEnd(TrimStart(s))
  }

  /** JavaScript truthiness of the optional label. */
  predicate Labelled(e: PluginError) {
    e.fieldLabel.Some? && e.fieldLabel.value != ""
  }

  /** The message of the Error that `throwError(code, text)` throws. */
  function ErrorText(e: PluginError): string {
    var labelPart := if Labelled(e) then "«" + e.fieldLabel.value + "»" else "";
    "\n" + PluginName + ": " + Trim(labelPart + " " + ErrorMessage(e.code))
  }

  /** Letters and the full stop are not white space. */
  lemma NotWhitespace(c: char)
    requires 'a' <= c <= 'z' || c == '.'
    ensures !IsJsWhitespace(c)
  {
  }

  lemma ErrorMessageIsTrimmed(code: nat)
    ensures var m := ErrorMessage(code);
      |m| > 0 && !IsJsWhitespace(m[0]) && !IsJsWhitespace(m[|m| - 1])
  {
    var m := ErrorMessage(code);
    if code == NotStringOrFunction {
      assert m[0] == 'o' && m[|m| - 1] == 'n';
    } else if code > ItemNotObject {
      assert m[0] == 'u' && m[|m| - 1] == 'd';
    } else {
      assert m[0] == 'o' && m[|m| - 1] == '.';
    }
    NotWhitespace(m[0]);
    NotWhitespace(m[|m| - 1]);
  }

  /** Trimming a string that neither starts nor ends with white space leaves it as it is. */
  lemma TrimKeeps(s: string)
    requires |s| > 0 && !IsJsWhitespace(s[0]) && !IsJsWhitespace(s[|s| - 1])
    ensures Trim(s) == s
  {
    assert TrimStart(s) == s;
  }

  /** Trimming removes exactly the blank put in front of such a string. */
  lemma TrimDropsBlank(m: string)
    requires |m| > 0 && !IsJsWhitespace(m[0]) && !IsJsWhitespace(m[|m| - 1])
    ensures Trim(" " + m) == m
  {
    var s := " " + m;
    assert s[1..] == m;
    assert TrimStart(s) == TrimStart(m) == m;
    TrimKeeps(m);
  }

  /** A labelled message starts with the guillemet and ends with the message, so trimming keeps it. */
  lemma TrimKeepsLabelled(l: string, m: string)
    requires |m| > 0 && !IsJsWhitespace(m[0]) && !IsJsWhitespace(m[|m| - 1])
    ensures Trim("«" + l + "»" + " " + m) == "«" + l + "» " + m
  {
    var s := "«" + l + "»" + " " + m;
    assert s == "«" + l + "» " + m;
    assert s[0] == '«';
    assert s[|s| - 1] == m[|m| - 1];
    TrimKeeps(s);
  }

  /**
   * The message is "\n<plugin>: «<label>» <message>" with a label and
   * "\n<plugin>: <message>" without one: trimming only removes the blank
   * that stands in for a missing label.
   */
  lemma ErrorTextFormat(e: PluginError)
    ensures ErrorText(e) == "\n" + PluginName + ": "
      + (if Labelled(e) then "«" + e.fieldLabel.value + "» " else "")
      + ErrorMessage(e.code)
  {
    var m := ErrorMessage(e.code);
    ErrorMessageIsTrimmed(e.code);
    if Labelled(e) {
      TrimKeepsLabelled(e.fieldLabel.value, m);
    } else {
      assert "" + " " + m == " " + m;
      TrimDropsBlank(m);
    }
  }
}
