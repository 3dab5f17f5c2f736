/**
 * The "extracted data" section of the edit form
 * (src/components/forms/ExtraDataSection.tsx): the ingredient list is edited
 * as comma-separated text and shown joined by ", "; the parsed nutrition
 * object is edited as JSON text and kept only when the text parses.
 */
module ExtraDataSection {
  import opened Wrappers
  import opened Js
  import Text

  /** `value.split(',').map(item => item.trim()).filter(item => item !== '')` */
  function ParseIngredients(text: string): (entries: seq<string>)
    ensures forall i :: 0 <= i < |entries| ==> Text.IsCleanPart(entries[i]) && ',' !in entries[i]
  {
    var parts := Text.Split(text, ',');
    Text.TrimNonEmptyKeepsAbsent(parts, ',');
    Text.TrimNonEmpty(parts)
  }

  /** The text of the list field: the entries joined by ", ", or '' when the field is not an array. */
  function IngredientsText(v: Value): (t: string)
    requires StringItems(v)
    ensures !v.Arr? ==> t == ""
    ensures v.Arr? ==> t == Text.Join(StringsOf(v.items), ", ")
  {
    if v.Arr? then Text.Join(StringsOf(v.items), ", ") else ""
  }

  /** Entries keep the order of the text: parsing distributes over a comma. */
  lemma ParseConcat(a: string, b: string)
    ensures ParseIngredients(a + "," + b) == ParseIngredients(a) + ParseIngredients(b)
  {
    Text.SplitConcat(a, b, ',');
    Text.TrimNonEmptyConcat(Text.Split(a, ','), Text.Split(b, ','));
  }

  /** A list the editor could have produced: trimmed, non-empty, comma-free entries. */
  predicate EditableList(xs: seq<string>) {
    forall i :: 0 <= i < |xs| ==> Text.IsCleanPart(xs[i]) && ',' !in xs[i]
  }

  /** Showing such a list and parsing the text back gives the same list. */
  lemma {:induction false} ParseShowRoundTrip(xs: seq<string>)
    requires EditableList(xs)
    ensures ParseIngredients(Text.Join(xs, ", ")) == xs
    decreases |xs|
  {
    if |xs| == 0 {
      ParseEmpty();
    } else if |xs| == 1 {
      ParseSingle(xs[0]);
      assert xs == [xs[0]];
    } else {
      EditableTail(xs);
      ParseShowRoundTrip(xs[1..]);
      ParseShowStep(xs[0], xs[1..]);
      assert xs == [xs[0]] + xs[1..];
    }
  }

  /** Empty text gives no entries. */
  lemma ParseEmpty()
    ensures ParseIngredients("") == []
  {
    assert Text.Split("", ',') == [""];
    assert Text.Trim("") == "";
  }

  lemma EditableTail(xs: seq<string>)
    requires |xs| > 0 && EditableList(xs)
    ensures Text.IsCleanPart(xs[0]) && ',' !in xs[0] && EditableList(xs[1..])
  {
    forall i | 0 <= i < |xs| - 1 ensures Text.IsCleanPart(xs[1..][i]) && ',' !in xs[1..][i] {
      assert xs[1..][i] == xs[i + 1];
    }
  }

  /** One entry in front of a non-empty list: "a, rest" parses as a followed by the entries of rest. */
  lemma ParseShowStep(a: string, rest: seq<string>)
    requires |rest| >= 1
    requires Text.IsCleanPart(a) && ',' !in a
    ensures ParseIngredients(Text.Join([a] + rest, ", ")) == [a] + ParseIngredients(Text.Join(rest, ", "))
  {
    var j := Text.Join(rest, ", ");
    JoinCons(a, rest);
    ParseConcat(a, " " + j);
    ParseSingle(a);
    LeadingSpaceIgnored(j);
  }

  lemma JoinCons(a: string, rest: seq<string>)
    requires |rest| >= 1
    ensures Text.Join([a] + rest, ", ") == a + "," + (" " + Text.Join(rest, ", "))
  {
    var xs := [a] + rest;
    assert |xs| > 1 && xs[0] == a && xs[1..] == rest;
    assert Text.Join(xs, ", ") == a + ", " + Text.Join(rest, ", ");
    CommaSpace(a, Text.Join(rest, ", "));
  }

  /** A comma-free part parses as its trim, or as nothing when it trims to "". */
  lemma ParseOne(p: string)
    requires ',' !in p
    ensures ParseIngredients(p) == (if Text.Trim(p) == "" then [] else [Text.Trim(p)])
  {
    Text.SplitNoSep(p, ',');
    assert Text.TrimNonEmpty([p]) == Text.Kept(p) + Text.TrimNonEmpty([]);
  }

  /** Typed text with stray spaces and a trailing comma parses to the three entries. */
  /** A trailing comma adds nothing: the empty part after it is dropped. */
  lemma TrailingComma(c: string)
    ensures ParseIngredients(c + ",") == ParseIngredients(c)
  {
    ParseConcat(c, "");
    ParseEmpty();
    assert c + "," + "" == c + ",";
  }

  /** A part that is not blank, then a comma: its trim comes first, then the entries of the rest. */
  lemma ParseCons(a: string, rest: string, ta: string, entries: seq<string>, all: seq<string>)
    requires ',' !in a && Text.Trim(a) == ta != ""
    requires ParseIngredients(rest) == entries && all == [ta] + entries
    ensures ParseIngredients(a + "," + rest) == all
  {
    ParseConcat(a, rest);
    ParseOne(a);
  }

  /**
   * Three comma-free parts, each followed by a comma, parse to the three
   * trims, in order, when none of them is blank.
   */
  lemma ParseThree(a: string, b: string, c: string, ta: string, tb: string, tc: string)
    requires ',' !in a && ',' !in b && ',' !in c
    requires Text.Trim(a) == ta != "" && Text.Trim(b) == tb != "" && Text.Trim(c) == tc != ""
    ensures ParseIngredients(a + "," + (b + "," + (c + ","))) == [ta, tb, tc]
  {
    ParseLast(c, tc);
    ConsOne(tb, tc);
    ParseCons(b, c + ",", tb, [tc], [tb, tc]);
    ConsTwo(ta, tb, tc);
    ParseCons(a, b + "," + (c + ","), ta, [tb, tc], [ta, tb, tc]);
  }

  lemma ConsOne(x: string, y: string)
    ensures [x] + [y] == [x, y]
  {
  }

  lemma ConsTwo(x: string, y: string, z: string)
    ensures [x] + [y, z] == [x, y, z]
  {
  }

  /** A last part that is not blank, with a trailing comma, parses to its trim alone. */
  lemma ParseLast(c: string, tc: string)
    requires ',' !in c && Text.Trim(c) == tc != ""
    ensures ParseIngredients(c + ",") == [tc]
  {
    TrailingComma(c);
    ParseOne(c);
  }

  /** ParseThree, for a text already known to have that shape. */
  lemma ParseThreeText(text: string, a: string, b: string, c: string, ta: string, tb: string, tc: string)
    requires text == a + "," + (b + "," + (c + ","))
    requires ',' !in a && ',' !in b && ',' !in c
    requires Text.Trim(a) == ta != "" && Text.Trim(b) == tb != "" && Text.Trim(c) == tc != ""
    ensures ParseIngredients(text) == [ta, tb, tc]
  {
    ParseThree(a, b, c, ta, tb, tc);
  }

  lemma WaterTrim()
    ensures Text.Trim("Water") == "Water"
  {
    Text.TrimAround("", "Water", "");
    assert "" + "Water" + "" == "Water";
  }

  lemma SugarTrim()
    ensures Text.Trim(" Sugar") == "Sugar"
  {
    Text.TrimAround(" ", "Sugar", "");
    assert " " + "Sugar" + "" == " Sugar";
  }

  lemma SaltTrim()
    ensures Text.Trim("  Salt ") == "Salt"
  {
    Text.TrimAround("  ", "Salt", " ");
    assert "  " + "Salt" + " " == "  Salt ";
  }

  /** The untidy text below, cut at its commas. */
  lemma UntidyParts()
    ensures "Water, Sugar,  Salt ," == "Water" + "," + (" Sugar" + "," + ("  Salt " + ","))
    ensures ',' !in "Water" && ',' !in " Sugar" && ',' !in "  Salt "
  {
  }

  /** Typed text with stray spaces and a trailing comma parses to the three entries. */
  lemma UntidyText()
    ensures ParseIngredients("Water, Sugar,  Salt ,") == ["Water", "Sugar", "Salt"]
  {
    UntidyParts();
    WaterTrim();
    SugarTrim();
    SaltTrim();
    ParseThreeText("Water, Sugar,  Salt ,", "Water", " Sugar", "  Salt ", "Water", "Sugar", "Salt");
  }

  /** A clean comma-free entry parses as itself. */
  lemma ParseSingle(a: string)
    requires Text.IsCleanPart(a) && ',' !in a
    ensures ParseIngredients(a) == [a]
  {
    Text.SplitNoSep(a, ',');
    Text.TrimNonEmptyKeeps([a]);
  }

  lemma CommaSpace(a: string, j: string)
    ensures a + ", " + j == a + "," + (" " + j)
  {
    var l := a + ", " + j;
    var r := a + "," + (" " + j);
    assert |l| == |r|;
    forall i | 0 <= i < |l| ensures l[i] == r[i] {
      if i < |a| {
      } else if i == |a| {
      } else if i == |a| + 1 {
      } else {
        assert l[i] == j[i - |a| - 2];
      }
    }
  }

  /** A space after the comma does not change the entries. */
  lemma LeadingSpaceIgnored(j: string)
    ensures ParseIngredients(" " + j) == ParseIngredients(j)
  {
    var s := Text.Split(j, ',');
    var t := " " + j;
    assert t[0] == ' ' && t[1..] == j;
    var x := Text.Split(t, ',');
    assert x == [[' '] + s[0]] + s[1..];
    assert x[0] == [' '] + s[0] && x[1..] == s[1..];
    Text.TrimLeadingWhite(' ', s[0]);
    assert Text.TrimNonEmpty(x) == Text.Kept(x[0]) + Text.TrimNonEmpty(x[1..]);
    assert Text.TrimNonEmpty(s) == Text.Kept(s[0]) + Text.TrimNonEmpty(s[1..]);
  }

  /** The list field after an edit of its text: the entries parsed from that text. */
  lemma ShowAfterEdit(text: string)
    ensures ParseIngredients(IngredientsText(StrArray(ParseIngredients(text)))) == ParseIngredients(text)
  {
    ParseShowRoundTrip(ParseIngredients(text));
  }

  /**
   * An edit of the JSON text of `nutrition_parsed`: '' sets null, text that
   * parses sets the parsed value, and text that does not parse calls nothing
   * (None).
   */
  function NutritionParsedEdit(text: string, jsonParse: string -> Option<Value>): (r: Option<Value>)
    ensures text == "" ==> r == Some(Null)
    ensures text != "" ==> r == jsonParse(text)
  {
    if text == "" then Some(Null)
    else match jsonParse(text)
      case Some(v) => Some(v)
      case None => None
  }

  /** The draft after `onChange` ran, or the draft as it was when it did not. */
  function ApplyEdit(draft: Record, key: string, edit: Option<Value>): (r: Record)
    ensures edit.None? ==> r == draft
    ensures edit.Some? ==> key in r && r[key] == edit.value
    ensures forall k :: k in draft && k != key ==> k in r && r[k] == draft[k]
  {
    match edit
    case Some(v) => draft[key := v]
    case None => draft
  }

  /** Text that does not parse leaves the whole draft as it was; empty text clears the field to null. */
  lemma NutritionParsedEditEffect(draft: Record, text: string, jsonParse: string -> Option<Value>)
    ensures text != "" && jsonParse(text).None? ==>
      ApplyEdit(draft, "nutrition_parsed", NutritionParsedEdit(text, jsonParse)) == draft
    ensures text == "" ==>
      ApplyEdit(draft, "nutrition_parsed", NutritionParsedEdit(text, jsonParse))["nutrition_parsed"] == Null
  {
  }
}
