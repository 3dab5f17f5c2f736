/**
 * The helpers behind the food edit form: cleaning a record loaded from the
 * database into a form draft, validating the draft, coercing its numeric
 * fields, telling whether it differs from the loaded record, and printing the
 * HFS score (src/utils/form-helpers.ts).
 */
module FormHelpers {
  import opened Wrappers
  import opened Js
  import Text

  /** Fields that stay undefined when the database holds null. */
  const OptionalNumericFields: set<string> := {"price", "abv_percentage", "density"}

  /** The value cleanFoodData stores for one key. */
  function CleanValue(key: string, v: Value): (r: Value)
    ensures r != Null
    ensures key == "ingredients_list" ==> Truthy(r)
    ensures key == "hfs_version" ==> Truthy(r)
  {
    if key == "ingredients_list" then Or(v, Arr([]))
    else if key in OptionalNumericFields then Coalesce(v, Undefined)
    else if key == "hfs_version" then Or(v, Str("v2"))
    else if v == Null then Str("")
    else v
  }

  /** The draft cleanFoodData builds: same keys, each value cleaned. */
  function Cleaned(data: Record): (r: Record)
    ensures r.Keys == data.Keys
  {
    map k | k in data :: CleanValue(k, data[k])
  }

  /** `cleanFoodData`: a reduce that assigns one cleaned key at a time. */
  method CleanFoodData(data: Record) returns (acc: Record)
    ensures acc == Cleaned(data)
  {
    acc := map[];
    var keys := data.Keys;
    while keys != {}
      invariant keys <= data.Keys
      invariant acc.Keys == data.Keys - keys
      invariant forall k :: k in acc ==> acc[k] == CleanValue(k, data[k])
      decreases keys
    {
      var key :| key in keys;
      var value := data[key];
      if key == "ingredients_list" {
        acc := acc[key := if Truthy(value) then value else Arr([])];
      } else if key in OptionalNumericFields {
        acc := acc[key := if Nullish(value) then Undefined else value];
      } else if key == "hfs_version" {
        acc := acc[key := if Truthy(value) then value else Str("v2")];
      } else {
        acc := acc[key := if value == Null then Str("") else value];
      }
      keys := keys - {key};
    }
  }

  /** A null from the database becomes the field's default. */
  lemma CleanedNull(data: Record, k: string)
    requires k in data && data[k] == Null
    ensures Cleaned(data)[k] ==
      if k == "ingredients_list" then Arr([])
      else if k in OptionalNumericFields then Undefined
      else if k == "hfs_version" then Str("v2")
      else Str("")
  {
  }

  /**
   * Every other value passes through, except a falsy ingredients_list (which
   * becomes []), a falsy hfs_version (which becomes 'v2') and an undefined
   * value that the last branch keeps as undefined.
   */
  lemma CleanedKeeps(data: Record, k: string)
    requires k in data && data[k] != Null
    ensures Cleaned(data)[k] == data[k] <==>
      !((k == "ingredients_list" || k == "hfs_version") && !Truthy(data[k]))
  {
  }

  /** Cleaning a cleaned draft changes nothing; no null survives cleaning. */
  lemma CleanedIdempotent(data: Record)
    ensures Cleaned(Cleaned(data)) == Cleaned(data)
    ensures forall k :: k in Cleaned(data) ==> Cleaned(data)[k] != Null
  {
  }

  /** `extractImageUrls`: the four image slots of a food, '' where the URL is missing. */
  function ExtractImageUrls(data: Record): (r: Record)
    ensures r.Keys == {"front", "nutrition", "ingredients", "back"}
    ensures forall k :: k in r ==> Truthy(r[k]) || r[k] == Str("")
  {
    map[
      "front" := Or(Get(data, "front_photo_url"), Str("")),
      "nutrition" := Or(Get(data, "nutrition_label_url"), Str("")),
      "ingredients" := Or(Get(data, "ingredients_photo_url"), Str("")),
      "back" := Or(Get(data, "back_photo_url"), Str(""))
    ]
  }

  /** With string-or-null URL fields every slot holds a string, the URL itself when one is set. */
  lemma ImageUrlsAreStrings(data: Record, slot: string, field: string)
    requires (slot, field) in {("front", "front_photo_url"), ("nutrition", "nutrition_label_url"),
                               ("ingredients", "ingredients_photo_url"), ("back", "back_photo_url")}
    requires StringLike(Get(data, field))
    ensures ExtractImageUrls(data)[slot].Str?
    ensures Get(data, field).Str? && Get(data, field).s != "" ==> ExtractImageUrls(data)[slot] == Get(data, field)
    ensures !Truthy(Get(data, field)) ==> ExtractImageUrls(data)[slot] == Str("")
  {
  }

  datatype Validation = Validation(valid: bool, error: Option<string>)

  /** `name` is read by validateFormData; `trim` is called on it only when it is truthy. */
  predicate NameReadable(data: Record) {
    Get(data, "name").Str? || !Truthy(Get(data, "name"))
  }

  /** `validateFormData`: the draft needs a name that is not all whitespace. */
  function ValidateFormData(data: Record): (r: Validation)
    requires NameReadable(data)
    ensures r.valid <==> Get(data, "name").Str? && Text.Trim(Get(data, "name").s) != ""
    ensures r.valid ==> r.error == None
    ensures !r.valid ==> r.error == Some("Name is required.")
  {
    var name := Get(data, "name");
    if !Truthy(name) || Text.Trim(name.s) == "" then Validation(false, Some("Name is required."))
    else Validation(true, None)
  }

  /** Only the name is consulted: changing any other field, the brand included, does not change the verdict. */
  lemma ValidateOnlyName(data: Record, k: string, v: Value)
    requires NameReadable(data) && k != "name"
    ensures NameReadable(data[k := v])
    ensures ValidateFormData(data[k := v]) == ValidateFormData(data)
  {
    assert Get(data[k := v], "name") == Get(data, "name");
  }

  /** A name of whitespace alone is rejected, as is a missing one. */
  lemma ValidateRejectsBlank(data: Record)
    requires NameReadable(data)
    requires !Get(data, "name").Str? || Text.AllWhite(Get(data, "name").s)
    ensures !ValidateFormData(data).valid
  {
    if Get(data, "name").Str? {
      Text.TrimEmptyIffAllWhite(Get(data, "name").s);
    }
  }

  /** What sanitizeNumericFields stores for a listed field: 0 for "", null or undefined, else `Number(value)`. */
  function Coerce(v: Value, parse: string -> Option<real>): (r: Value)
    ensures r.Num? || r.NaN?
    ensures v.Num? ==> r == v
    ensures Nullish(v) || v == Str("") ==> r == Num(0.0)
  {
    if v == Str("") || Nullish(v) then Num(0.0) else ToNumber(v, parse)
  }

  lemma CoerceIdempotent(v: Value, parse: string -> Option<real>)
    ensures Coerce(Coerce(v, parse), parse) == Coerce(v, parse)
  {
  }

  /** The spread copy of `data` after the forEach has coerced `fields` one after another. */
  function Sanitized(data: Record, fields: seq<string>, parse: string -> Option<real>): Record
  {
    if |fields| == 0 then data
    else
      var s := Sanitized(data, fields[..|fields| - 1], parse);
      var field := fields[|fields| - 1];
      s[field := Coerce(Get(s, field), parse)]
  }

  /** `sanitizeNumericFields`: copies the draft, then overwrites each listed field in turn. */
  method SanitizeNumericFields(data: Record, fields: seq<string>, parse: string -> Option<real>)
    returns (sanitized: Record)
    ensures sanitized == Sanitized(data, fields, parse)
  {
    sanitized := data;
    for i := 0 to |fields|
      invariant sanitized == Sanitized(data, fields[..i], parse)
    {
      var field := fields[i];
      var value := Get(sanitized, field);
      sanitized := sanitized[field := if value == Str("") || Nullish(value) then Num(0.0) else ToNumber(value, parse)];
      assert fields[..i + 1][..i] == fields[..i];
    }
    assert fields[..|fields|] == fields;
  }

  /**
   * The result holds the draft's keys and the listed ones; a listed field
   * holds its coerced value, every other field is the draft's own.
   */
  lemma {:induction false} SanitizedFields(data: Record, fields: seq<string>, parse: string -> Option<real>)
    ensures Sanitized(data, fields, parse).Keys == data.Keys + set f | f in fields
    ensures forall k :: k in fields ==> Sanitized(data, fields, parse)[k] == Coerce(Get(data, k), parse)
    ensures forall k :: k in data && k !in fields ==> Sanitized(data, fields, parse)[k] == data[k]
    decreases |fields|
  {
    if |fields| > 0 {
      var init := fields[..|fields| - 1];
      var field := fields[|fields| - 1];
      SanitizedFields(data, init, parse);
      assert fields == init + [field];
      if field in init {
        CoerceIdempotent(Get(data, field), parse);
      }
    }
  }

  /** Sanitizing a second time with the same fields changes nothing. */
  lemma SanitizedIdempotent(data: Record, fields: seq<string>, parse: string -> Option<real>)
    ensures Sanitized(Sanitized(data, fields, parse), fields, parse) == Sanitized(data, fields, parse)
  {
    var once := Sanitized(data, fields, parse);
    var twice := Sanitized(once, fields, parse);
    SanitizedFields(data, fields, parse);
    SanitizedFields(once, fields, parse);
    forall k | k in fields
      ensures twice[k] == once[k]
    {
      CoerceIdempotent(Get(data, k), parse);
    }
  }

  /** The keys isFormDirty skips by default. */
  const DefaultIgnored: seq<string> := ["last_update", "created_at", "id"]

  /** `isFormDirty`: some key of the current draft, not ignored, stringifies differently in the original. */
  predicate IsFormDirty(current: Record, original: Record, ignored: seq<string>) {
    exists k :: k in current && k !in ignored && !SameJson(current[k], Get(original, k))
  }

  /** A draft compared with itself is never dirty. */
  lemma NotDirtyWithItself(x: Record, ignored: seq<string>)
    ensures !IsFormDirty(x, x, ignored)
  {
  }

  /** Differences confined to ignored keys never make the draft dirty. */
  lemma IgnoredDifferencesClean(current: Record, original: Record, ignored: seq<string>)
    requires forall k :: k in current && k !in ignored ==> k in original && original[k] == current[k]
    ensures !IsFormDirty(current, original, ignored)
  {
  }

  /** Only the current draft's keys are examined: what the original holds elsewhere does not matter. */
  lemma OnlyCurrentKeys(current: Record, original: Record, ignored: seq<string>, k: string, v: Value)
    requires k !in current
    ensures IsFormDirty(current, original[k := v], ignored) == IsFormDirty(current, original, ignored)
  {
    assert forall j :: j in current ==> Get(original[k := v], j) == Get(original, j);
  }

  /** Arrays are compared element by element in order: two string entries that differ make the draft dirty. */
  lemma ArrayOrderMatters(current: Record, original: Record, ignored: seq<string>, k: string, i: nat)
    requires k in current && k !in ignored
    requires current[k].Arr? && Get(original, k).Arr?
    requires i < |current[k].items| && i < |Get(original, k).items|
    requires current[k].items[i].Str? && Get(original, k).items[i].Str?
    requires current[k].items[i] != Get(original, k).items[i]
    ensures IsFormDirty(current, original, ignored)
  {
    var xs, ys := current[k].items, Get(original, k).items;
    if SameJson(Arr(xs), Arr(ys)) {
      SameJsonArrays(xs, ys);
      assert false;
    }
  }

  /** `formatHFSScore`: '—' for a dirty draft or a missing, NaN or negative score, else one decimal. */
  function FormatHfsScore(hfs: Value, isDirty: bool): (r: string)
    requires NumberLike(hfs)
    ensures r == "—" <==> isDirty || !(hfs.Num? && hfs.n >= 0.0)
    ensures r != "—" ==> hfs.Num? && hfs.n >= 0.0 && r == Text.ToFixed(hfs.n, 1)
  {
    if isDirty then "—"
    else if Nullish(hfs) || Below(hfs, 0.0) then "—"
    else if hfs.NaN? then "—"
    else Text.ToFixed(hfs.n, 1)
  }

  /** A shown score reads back as the score rounded to one decimal. */
  lemma FormatHfsScoreReadsBack(hfs: real)
    requires hfs >= 0.0
    ensures var t := FormatHfsScore(Num(hfs), false);
      && t[|t| - 2] == '.'
      && Text.AllDigits(t[..|t| - 2]) && Text.IsDigit(t[|t| - 1])
      && Text.DigitsValue(t[..|t| - 2]) * 10 + Text.DigitValue(t[|t| - 1]) == Text.Round(hfs * 10.0)
  {
    var w, f := Text.FixedReadsBack(hfs, 1);
    var t := Text.ToFixed(hfs, 1);
    assert t[..|t| - 2] == w && t[|t| - 2] == '.' && t[|t| - 1] == f[0];
    assert Text.DigitsValue(f) == Text.DigitValue(f[0]) by {
      assert f[..0] == [];
    }
    assert Text.Scale(hfs, 1) == hfs * 10.0;
  }
}
