/**
 * One labelled input of the edit form (src/components/forms/FormField.tsx):
 * a number input forwards only text that is empty, a lone minus sign or
 * starts with a non-negative number; a text input forwards everything.
 */
module FormField {
  import opened Wrappers
  import opened Js

  datatype InputType = TextInput | NumberInput

  /**
   * `handleChange`: the string passed to `onChange`, or None when `onChange`
   * is not called. `parseFloat` is the runtime's parser (None for NaN).
   */
  function HandleChange(inputType: InputType, input: string, parseFloat: string -> Option<real>): (r: Option<string>)
    ensures r.Some? ==> r.value == input
    ensures inputType == TextInput ==> r == Some(input)
    ensures inputType == NumberInput && (input == "" || input == "-") ==> r == Some(input)
    ensures inputType == NumberInput && input != "" && input != "-" ==>
      (r.Some? <==> parseFloat(input).Some? && parseFloat(input).value >= 0.0)
  {
    if inputType == NumberInput then
      if input == "" || input == "-" then Some(input)
      else
        var numValue := parseFloat(input);
        if numValue.Some? && numValue.value >= 0.0 then Some(input) else None
    else Some(input)
  }

  /** A number input never forwards text that starts with a negative number. */
  lemma NegativeIgnored(input: string, parseFloat: string -> Option<real>)
    requires input != "" && input != "-"
    requires parseFloat(input).Some? && parseFloat(input).value < 0.0
    ensures HandleChange(NumberInput, input, parseFloat) == None
  {
  }

  /**
   * Whatever a number input forwards is text the same filter accepts again,
   * so forwarding is stable: the value the field then holds passes through.
   */
  lemma ForwardedStable(inputType: InputType, input: string, parseFloat: string -> Option<real>)
    requires HandleChange(inputType, input, parseFloat).Some?
    ensures HandleChange(inputType, HandleChange(inputType, input, parseFloat).value, parseFloat).Some?
  {
  }

  /** `value ?? ''`: what the input shows. */
  function ShownValue(value: Value): (r: Value)
    ensures Nullish(value) ==> r == Str("")
    ensures !Nullish(value) ==> r == value
  {
    Coalesce(value, Str(""))
  }

  /** `label.replace(/\*$/, '')`: the label without one trailing asterisk. */
  function LabelText(caption: string): (r: string)
    ensures |caption| > 0 && caption[|caption| - 1] == '*' ==> r + "*" == caption
    ensures !(|caption| > 0 && caption[|caption| - 1] == '*') ==> r == caption
  {
    if |caption| > 0 && caption[|caption| - 1] == '*' then caption[..|caption| - 1] else caption
  }

  /** Only one asterisk goes: a label ending in two keeps one. */
  lemma LabelDropsOneStar(caption: string)
    ensures LabelText(caption + "**") == caption + "*"
  {
    assert (caption + "**")[..|caption| + 1] == caption + "*";
  }
}
