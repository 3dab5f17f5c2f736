/**
 * The save pipeline of the food editor (src/hooks/useSaveFood.ts): validate
 * the draft, clean its ingredient list, ask for a score when the draft is
 * eligible, coerce the numeric fields, override hfs, ingredients_list and
 * last_update, and send the result as a PATCH. The `isSaving` flag of the hook
 * is a field of `SaveFoodHook`; the server's answer, the clock and the
 * calculator are inputs.
 */
module SaveFood {
  import opened Wrappers
  import opened Js
  import Text
  import FormHelpers
  import Hfs

  /** The fields coerced to numbers before saving. */
  const NumericFields: seq<string> := [
    "energy_kcal", "protein_g", "carbs_total_g", "fat_total_g", "sodium_mg",
    "fiber_g", "saturated_fat_g", "trans_fat_g", "portion_size_value"
  ]

  /** The localized texts the hook may use; a missing or empty one falls back to English. */
  datatype Messages = Messages(
    requiredFieldsError: Option<string>,
    hfsCalculationError: Option<string>,
    saveError: Option<string>,
    saveSuccess: Option<string>)

  /** What awaiting the calculator gives: a response, or an exception. */
  datatype CalcOutcome = Returned(response: Hfs.HfsResponse) | Threw

  /** The calculator the hook calls today: the stub, which never throws. */
  function CurrentCalculator(formData: Record): CalcOutcome {
    Returned(Hfs.CalculateHfs(formData))
  }

  /** The cleaned ingredient list: each entry trimmed, empty ones dropped, order kept; [] for a non-array. */
  function CleanIngredients(v: Value): (r: Value)
    requires StringItems(v)
    ensures r.Arr? && AllStr(r.items)
    ensures !v.Arr? ==> r == Arr([])
    ensures forall i :: 0 <= i < |r.items| ==> Text.IsCleanPart(r.items[i].s)
  {
    if v.Arr? then StrArray(Text.TrimNonEmpty(StringsOf(v.items))) else Arr([])
  }

  /** A list already cleaned is saved as it is, so saving twice saves the same list. */
  lemma CleanIngredientsIdempotent(v: Value)
    requires StringItems(v)
    ensures CleanIngredients(CleanIngredients(v)) == CleanIngredients(v)
  {
    var once := CleanIngredients(v);
    var ss := StringsOf(once.items);
    Text.TrimNonEmptyKeeps(ss);
    assert StrArray(ss) == once;
  }

  /** One draft entry is saved as its trim, or dropped when it trims to "". */
  lemma CleanIngredientsOne(s: string)
    ensures StringsOf(CleanIngredients(StrArray([s])).items) == (if Text.Trim(s) == "" then [] else [Text.Trim(s)])
  {
    assert Text.TrimNonEmpty([s]) == Text.Kept(s) + Text.TrimNonEmpty([]);
  }

  /**
   * Cleaning works entry by entry, in order: with CleanIngredientsOne, the
   * saved list is the trims of the draft's entries, the blank ones dropped.
   */
  lemma CleanIngredientsSplit(a: seq<string>, b: seq<string>)
    ensures StringsOf(CleanIngredients(StrArray(a + b)).items) ==
      StringsOf(CleanIngredients(StrArray(a)).items) + StringsOf(CleanIngredients(StrArray(b)).items)
  {
    Text.TrimNonEmptyConcat(a, b);
  }

  /** The score saved with a draft; None when the calculator threw. */
  function ScoreFor(formData: Record, calculator: Record -> CalcOutcome): (r: Option<real>)
    requires Hfs.InputReadable(formData)
    ensures !Hfs.CheckHfsInput(formData) ==> r == Some(-1.0)
    ensures Hfs.CheckHfsInput(formData) ==> (r.None? <==> calculator(formData).Threw?)
    ensures Hfs.CheckHfsInput(formData) && calculator(formData).Returned? ==>
      r == Some(calculator(formData).response.hfsScore)
  {
    if !Hfs.CheckHfsInput(formData) then Some(-1.0)
    else match calculator(formData)
      case Returned(resp) => Some(resp.hfsScore)
      case Threw => None
  }

  /** With the current calculator every saved score is -1, eligible or not. */
  lemma CurrentScoreIsMinusOne(formData: Record)
    requires Hfs.InputReadable(formData)
    ensures ScoreFor(formData, CurrentCalculator) == Some(-1.0)
  {
  }

  /** The PATCH body: the sanitized draft, with hfs, ingredients_list and last_update set last. */
  function Payload(formData: Record, score: real, now: string, parse: string -> Option<real>): Record
    requires StringItems(Get(formData, "ingredients_list"))
  {
    FormHelpers.Sanitized(formData, NumericFields, parse)
      ["hfs" := Num(score)]
      ["ingredients_list" := CleanIngredients(Get(formData, "ingredients_list"))]
      ["last_update" := Str(now)]
  }

  /**
   * The payload holds the draft's keys, the nine numeric fields and the three
   * overrides, and the overrides win over whatever the draft held.
   */
  lemma PayloadOverrides(formData: Record, score: real, now: string, parse: string -> Option<real>)
    requires StringItems(Get(formData, "ingredients_list"))
    ensures var p := Payload(formData, score, now, parse);
      && p.Keys == formData.Keys + (set f | f in NumericFields) + {"hfs", "ingredients_list", "last_update"}
      && p["hfs"] == Num(score)
      && p["ingredients_list"] == CleanIngredients(Get(formData, "ingredients_list"))
      && p["last_update"] == Str(now)
  {
    FormHelpers.SanitizedFields(formData, NumericFields, parse);
  }

  /**
   * Each numeric field is coerced; every other field apart from the three
   * overrides is sent as the draft holds it.
   */
  lemma PayloadFieldValues(formData: Record, score: real, now: string, parse: string -> Option<real>)
    requires StringItems(Get(formData, "ingredients_list"))
    ensures var p := Payload(formData, score, now, parse);
      && (forall k :: k in NumericFields ==> k in p && p[k] == FormHelpers.Coerce(Get(formData, k), parse))
      && (forall k :: k in formData && k !in NumericFields && k != "hfs" && k != "ingredients_list" && k != "last_update" ==>
            k in p && p[k] == formData[k])
  {
    FormHelpers.SanitizedFields(formData, NumericFields, parse);
    NumericFieldsNotOverridden();
  }

  /** No numeric field is one of the three keys the payload overrides. */
  lemma NumericFieldsNotOverridden()
    ensures forall k :: k in NumericFields ==> k != "hfs" && k != "ingredients_list" && k != "last_update"
  {
    forall k | k in NumericFields ensures k != "hfs" && k != "ingredients_list" && k != "last_update" {
      assert k[0] != 'h' && k[0] != 'i' && k[0] != 'l';
    }
  }

  /** Price, alcohol content and density are never coerced. */
  lemma OptionalNumbersPassThrough(formData: Record, score: real, now: string, parse: string -> Option<real>, k: string)
    requires StringItems(Get(formData, "ingredients_list"))
    requires k in FormHelpers.OptionalNumericFields && k in formData
    ensures k in Payload(formData, score, now, parse) && Payload(formData, score, now, parse)[k] == formData[k]
  {
    assert k == "price" || k == "abv_percentage" || k == "density";
    assert k !in NumericFields && k != "hfs" && k != "ingredients_list" && k != "last_update";
    PayloadFieldValues(formData, score, now, parse);
  }

  datatype PatchRequest = PatchRequest(path: string, httpMethod: string, contentType: string, body: Record)

  /** How starting a save ends: refused by validation, failed in the calculator, or sent. */
  datatype SaveStart = Rejected(message: string) | CalcFailed(message: string) | Sent(request: PatchRequest)

  /**
   * What the awaited `fetch` gives: a response with its `ok` flag, or a
   * rejection (the network is down, say) carrying its error message.
   */
  datatype FetchOutcome = Answered(ok: bool) | FetchThrew(message: string)

  /** How a sent save ends; `onSuccess` is called exactly for Saved. */
  datatype SaveEnd = Saved(score: real, message: string) | Failed(message: string)

  function UpdatePath(foodId: string): string {
    "/api/foods/" + foodId + "/update"
  }

  /** The toast text after a save; the score is appended only when it is not negative. */
  function SuccessMessage(messages: Messages, score: real, numberText: real -> string): (r: string)
    ensures score < 0.0 ==> r == Pick(messages.saveSuccess, "Updated successfully!")
    ensures score >= 0.0 ==> r == Pick(messages.saveSuccess, "Updated successfully!") + " (Score: " + numberText(score) + ")"
  {
    Pick(messages.saveSuccess, "Updated successfully!") + (if score >= 0.0 then " (Score: " + numberText(score) + ")" else "")
  }

  /** The draft fields saveFood reads before it sends anything. */
  predicate Saveable(formData: Record) {
    FormHelpers.NameReadable(formData)
    && StringLike(Get(formData, "brand"))
    && StringItems(Get(formData, "ingredients_list"))
  }

  lemma SaveableReadable(formData: Record)
    requires Saveable(formData) && FormHelpers.ValidateFormData(formData).valid
    ensures Hfs.InputReadable(formData)
  {
  }

  /** The state of one `useSaveFood` hook. */
  class SaveFoodHook {
    const foodId: string
    var isSaving: bool
    /**
     * The scores of the saves whose responses are awaited. Nothing stops a
     * second save while one is awaited, and each save's closure keeps its
     * own score, so several can be pending at once.
     */
    var pending: multiset<real>

    constructor (foodId: string)
      ensures this.foodId == foodId && !isSaving && pending == multiset{}
    {
      this.foodId := foodId;
      isSaving := false;
      pending := multiset{};
    }

    /**
     * `saveFood` up to the PATCH: an invalid draft is refused with nothing
     * computed and the flag untouched; otherwise the flag is raised, and
     * either the calculator throws (the error handler lowers the flag) or the
     * payload is sent with the flag still raised and its score pending.
     */
    method SaveFood(formData: Record, messages: Messages, calculator: Record -> CalcOutcome,
                    now: string, parse: string -> Option<real>) returns (r: SaveStart)
      requires Saveable(formData)
      modifies this
      ensures !FormHelpers.ValidateFormData(formData).valid ==>
        r == Rejected(Pick(messages.requiredFieldsError, "Name and Brand are required."))
        && isSaving == old(isSaving) && pending == old(pending)
      ensures FormHelpers.ValidateFormData(formData).valid ==> Hfs.InputReadable(formData)
      ensures FormHelpers.ValidateFormData(formData).valid && ScoreFor(formData, calculator).None? ==>
        r == CalcFailed(Pick(messages.hfsCalculationError,
                             "Error calculating Nutritional Score. Please check the entered values."))
        && !isSaving && pending == old(pending)
      ensures FormHelpers.ValidateFormData(formData).valid && ScoreFor(formData, calculator).Some? ==>
        var score := ScoreFor(formData, calculator).value;
        r == Sent(PatchRequest(UpdatePath(foodId), "PATCH", "application/json", Payload(formData, score, now, parse)))
        && isSaving && pending == old(pending) + multiset{score}
    {
      var validation := FormHelpers.ValidateFormData(formData);
      if !validation.valid {
        return Rejected(Pick(messages.requiredFieldsError, "Name and Brand are required."));
      }
      SaveableReadable(formData);
      isSaving := true;
      var cleanIngredientsList := CleanIngredients(Get(formData, "ingredients_list"));
      var score := -1.0;
      if Hfs.CheckHfsInput(formData) {
        match calculator(formData)
        case Threw =>
          isSaving := false;
          return CalcFailed(Pick(messages.hfsCalculationError,
                                 "Error calculating Nutritional Score. Please check the entered values."));
        case Returned(response) =>
          score := response.hfsScore;
      }
      var sanitizedPayload := FormHelpers.SanitizeNumericFields(formData, NumericFields, parse);
      var payload := sanitizedPayload["hfs" := Num(score)]
                                     ["ingredients_list" := cleanIngredientsList]
                                     ["last_update" := Str(now)];
      pending := pending + multiset{score};
      r := Sent(PatchRequest(UpdatePath(foodId), "PATCH", "application/json", payload));
    }

    /**
     * The outcome of one pending PATCH, the save that computed `score`: that
     * save stops being pending and the one shared flag is lowered, whatever
     * other saves are still awaited. On an ok response onSuccess runs and
     * that save's own score is reported; a response that is not ok throws
     * saveError, and a rejected fetch throws its own error, and the error
     * handler reports the message thrown.
     */
    method Complete(score: real, outcome: FetchOutcome, messages: Messages, numberText: real -> string)
      returns (r: SaveEnd)
      requires score in pending
      modifies this
      ensures !isSaving && pending == old(pending) - multiset{score}
      ensures outcome == Answered(true) ==> r == Saved(score, SuccessMessage(messages, score, numberText))
      ensures outcome == Answered(false) ==> r == Failed(Pick(messages.saveError, "Error communicating with server"))
      ensures outcome.FetchThrew? ==> r == Failed(outcome.message)
    {
      isSaving := false;
      pending := pending - multiset{score};
      match outcome
      case FetchThrew(message) =>
        return Failed(message);
      case Answered(ok) =>
        if !ok {
          return Failed(Pick(messages.saveError, "Error communicating with server"));
        }
        r := Saved(score, SuccessMessage(messages, score, numberText));
    }
  }

  /** With the current calculator a successful save never mentions a score. */
  lemma CurrentSuccessMessage(formData: Record, messages: Messages, numberText: real -> string)
    requires Hfs.InputReadable(formData)
    ensures SuccessMessage(messages, ScoreFor(formData, CurrentCalculator).value, numberText)
      == Pick(messages.saveSuccess, "Updated successfully!")
  {
    CurrentScoreIsMinusOne(formData);
  }
}
