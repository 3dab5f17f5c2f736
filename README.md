# health-food-score — a Dafny model of the food editor's logic

health-food-score is a Next.js application for cataloguing packaged foods. Each food is
a record (`src/types/food.ts`) holding its name, brand, photos, ingredient list,
flat nutrient fields, a structured `nutrition_parsed` object and a health-food
score (HFS). This project models the deterministic logic around that record:

- the edit form's draft handling: null-to-default cleaning, name validation,
  numeric coercion, dirty tracking and score formatting (`src/utils/form-helpers.ts`);
- the score gate and the stub calculator (`src/utils/hfs.ts`);
- the save pipeline and its `isSaving` flag (`src/hooks/useSaveFood.ts`);
- the nutrition facts label: value precedence, serving size, ratio, daily-value
  percentages, row visibility and the multiplier buttons (`src/components/NutritionLabel.tsx`);
- the food profile modal's portion arithmetic, HFS band, bar, ingredients and
  price display (`src/components/FoodProfileModal.tsx`);
- the score classifiers of the HFS badge, the scores modal, the food table and
  the food card, which use three different scales;
- the locked-field set, the row selection and the table sort (hooks in `src/hooks/`);
- the ingredients text box, the numeric input filter, the language switch and the
  image gallery's file naming, tab lookup and rescan merge.

The record is `map<string, Js.Value>`, where `Js.Value` is a JSON-like value
(undefined, null, boolean, number, NaN, string, array, object). `js.dfy` defines
the JavaScript operators the code relies on (`??`, `||`, `== null`, comparison of a
possibly-null number, `Number(...)`, the equality of `JSON.stringify` results).
`text.dfy` defines `trim`, `split`, `join`, `Math.round` (as floor(x + 0.5)) and
`toFixed` over reals, with read-back lemmas. Hooks whose state the source updates
(`useLockedFields`, `useTableSelection`, `useTableSort`, `useSaveFood`, the
gallery's state) are classes whose methods update fields; the rest are functions.
`cleanFoodData` and `sanitizeNumericFields` build their result key by key, so they
are methods with loops, proved equal to the functions `Cleaned` and `Sanitized`.

Runtime primitives are parameters: `parseFloat`/`Number` on strings
(`string -> Option<real>`), `JSON.parse`, `localeCompare`, the number-to-text
conversion of a template string, `Date.now()` and `toISOString()`.

## Model

| member | source | states |
|---|---|---|
| FormHelpers.CleanValue | src/utils/form-helpers.ts:11-21 | a cleaned value is never null; ingredients_list and hfs_version always end up truthy |
| FormHelpers.Cleaned | src/utils/form-helpers.ts:10-23 | the cleaned record has exactly the input's keys |
| FormHelpers.CleanFoodData | src/utils/form-helpers.ts:6-24 | the key-by-key reduce builds the same record as `Cleaned` |
| FormHelpers.CleanedNull | src/utils/form-helpers.ts:8-23 | a null becomes `[]` for ingredients_list, undefined for price/abv_percentage/density, 'v2' for hfs_version and `""` otherwise |
| FormHelpers.CleanedKeeps | src/utils/form-helpers.ts:10-23 | a non-null value is kept exactly unless it is a falsy ingredients_list or hfs_version |
| FormHelpers.CleanedIdempotent | src/utils/form-helpers.ts:6-24 | cleaning a cleaned record changes nothing, and no cleaned value is null |
| FormHelpers.ExtractImageUrls | src/utils/form-helpers.ts:29-36 | the result has exactly the keys front, nutrition, ingredients and back, each truthy or `''` |
| FormHelpers.ImageUrlsAreStrings | src/utils/form-helpers.ts:31-34 | each slot is the record's URL when that is a non-empty string, else `''` |
| FormHelpers.ValidateFormData | src/utils/form-helpers.ts:41-46 | valid iff name is a string that is not all whitespace; the error is 'Name is required.' exactly when invalid |
| FormHelpers.ValidateOnlyName | src/utils/form-helpers.ts:42 | changing any field other than name never changes the verdict (brand is not consulted) |
| FormHelpers.ValidateRejectsBlank | src/utils/form-helpers.ts:42-43 | a missing or whitespace-only name is rejected |
| FormHelpers.Coerce | src/utils/form-helpers.ts:61-62 | a coerced field is a number or NaN; `""`, null and undefined become 0; a number is kept |
| FormHelpers.CoerceIdempotent | src/utils/form-helpers.ts:62 | coercing twice equals coercing once |
| FormHelpers.SanitizeNumericFields | src/utils/form-helpers.ts:52-66 | the forEach over the copied record computes `Sanitized` |
| FormHelpers.SanitizedFields | src/utils/form-helpers.ts:57-63 | the keys are the input's plus the listed fields; listed fields are coerced; every other field is unchanged |
| FormHelpers.SanitizedIdempotent | src/utils/form-helpers.ts:60-63 | sanitising a sanitised record changes nothing |
| FormHelpers.IsFormDirty | src/utils/form-helpers.ts:71-84 | the draft is dirty iff some key of the current draft outside the ignored list stringifies differently from the original's value; its lemmas below pin down self-comparison, ignored keys, the keys examined and array order |
| FormHelpers.NotDirtyWithItself | src/utils/form-helpers.ts:71-84 | a draft compared with itself is never dirty |
| FormHelpers.IgnoredDifferencesClean | src/utils/form-helpers.ts:74-77 | differences only in ignored fields never make a draft dirty |
| FormHelpers.OnlyCurrentKeys | src/utils/form-helpers.ts:76 | a key missing from the current draft never affects the verdict |
| FormHelpers.ArrayOrderMatters | src/utils/form-helpers.ts:79-82 | two arrays differing in one string item make the draft dirty (order-sensitive comparison) |
| FormHelpers.FormatHfsScore | src/utils/form-helpers.ts:89-95 | '—' iff dirty or the score is missing, NaN or negative; otherwise the score to one decimal |
| FormHelpers.FormatHfsScoreReadsBack | src/utils/form-helpers.ts:94 | the text has digits, a '.' and one digit whose value is round(hfs × 10) |
| Hfs.CheckHfsInput | src/utils/hfs.ts:3-7 | true iff both name and brand are non-blank strings |
| Hfs.CheckHfsInputOnlyNameAndBrand | src/utils/hfs.ts:3-7 | no field other than name and brand affects the gate |
| Hfs.CheckHfsInputNeedsBrand | src/utils/hfs.ts:4 | a missing or whitespace-only brand (read as `''`) closes the gate |
| Hfs.CheckHfsInputImpliesValid | src/utils/hfs.ts:4 | a draft passing the gate also passes the form's validation |
| Hfs.CalculateHfs | src/utils/hfs.ts:17-24 | every call succeeds with score -1 and confidence 1, with no reasoning and no error |
| Hfs.CalculateHfsIgnoresInput | src/utils/hfs.ts:20-24 | the result does not depend on the draft |
| Js.Pick | src/hooks/useSaveFood.ts:29 | a dictionary text is used when present and non-empty, else the built-in text |
| SaveFood.CleanIngredients | src/hooks/useSaveFood.ts:37-39 | the saved list is an array of trimmed, non-empty strings, and `[]` for a non-array |
| SaveFood.CleanIngredientsIdempotent | src/hooks/useSaveFood.ts:37-39 | cleaning a cleaned list changes nothing |
| SaveFood.CleanIngredientsOne | src/hooks/useSaveFood.ts:37-39 | a single draft entry is saved as its trim, or dropped when it trims to "" |
| SaveFood.CleanIngredientsSplit | src/hooks/useSaveFood.ts:38 | cleaning works entry by entry, keeping the order of the entries; with CleanIngredientsOne, the saved list is the trims of the entries, the blank ones dropped |
| SaveFood.ScoreFor | src/hooks/useSaveFood.ts:42-53 | -1 when the gate is closed; otherwise the calculator's score, or no score when it throws |
| SaveFood.CurrentScoreIsMinusOne | src/hooks/useSaveFood.ts:42-53 | with the current calculator the score is always -1 |
| SaveFood.Payload | src/hooks/useSaveFood.ts:56-62 | the sanitized draft spread, then hfs, the cleaned ingredients_list and last_update written over it; what it holds is stated by the two lemmas below |
| SaveFood.PayloadOverrides | src/hooks/useSaveFood.ts:56-62 | the payload's keys are the draft's, the numeric fields and the three overrides; hfs, ingredients_list and last_update override the draft |
| SaveFood.PayloadFieldValues | src/hooks/useSaveFood.ts:9-19 | the nine numeric fields are coerced and every other draft field passes through |
| SaveFood.OptionalNumbersPassThrough | src/hooks/useSaveFood.ts:9-19 | price, abv_percentage and density are sent as they are |
| SaveFood.SuccessMessage | src/hooks/useSaveFood.ts:82-85 | the success text carries ' (Score: …)' exactly when the score is not negative |
| SaveFood.SaveableReadable | src/hooks/useSaveFood.ts:27-43 | a valid saveable draft can be given to the gate |
| SaveFood.SaveFoodHook.SaveFood | src/hooks/useSaveFood.ts:26-69 | an invalid draft is refused with nothing computed, the flag and the pending saves unchanged; a throwing calculator gives the localized error, sends nothing, leaves the pending saves alone and lowers the flag; otherwise the PATCH to /api/foods/{id}/update carries the payload, the flag stays raised and this save's score joins the pending saves |
| SaveFood.SaveFoodHook.Complete | src/hooks/useSaveFood.ts:65-89 | the outcome of one pending save removes that save alone from the pending ones; a non-ok response reports saveError and a rejected fetch reports its own message, neither with success; an ok one reports that save's own score, even while other saves are pending; in every case the one shared flag ends lowered |
| SaveFood.CurrentSuccessMessage | src/hooks/useSaveFood.ts:82-84 | with the current calculator the success text never mentions a score |
| NutritionLabel.DailyValue | src/components/NutritionLabel.tsx:142-339 | every row with a percentage has a fixed, positive daily value |
| NutritionLabel.Amount | src/components/NutritionLabel.tsx:56-89 | a main nutrient takes the parsed sub-field if not null, else the flat field if not null, else 0; other nutrients take the parsed sub-field |
| NutritionLabel.ParsedZeroKept | src/components/NutritionLabel.tsx:57-72 | a parsed 0 is kept and the flat field is not consulted |
| NutritionLabel.ServingSize | src/components/NutritionLabel.tsx:34 | metadata.serving_size, then serving_size_value, then 100, with a 0 falling through; never 0 |
| NutritionLabel.ServingUnit | src/components/NutritionLabel.tsx:35 | the metadata unit wins when present and non-empty, then the record's own unit, else 'g'; never empty |
| NutritionLabel.TotalRatio | src/components/NutritionLabel.tsx:36-37 | servingSize/100 × multiplier per portion, else the multiplier |
| NutritionLabel.FormatValue | src/components/NutritionLabel.tsx:40-43 | "0" for a missing or zero amount, "NaN" for a NaN amount, else the scaled amount to one decimal |
| NutritionLabel.FormatCalories | src/components/NutritionLabel.tsx:45-48 | 0 for a missing amount, else round(amount × ratio) |
| NutritionLabel.Percentage | src/components/NutritionLabel.tsx:50-53 | 0 for a missing amount, else round(amount × ratio / DV × 100) |
| NutritionLabel.Shown | src/components/NutritionLabel.tsx:140-341 | whether a row is drawn: total fat and energy always; a flat nutrient when positive; a mineral or vitamin when its section exists and its amount is positive |
| NutritionLabel.ShownIffPositive | src/components/NutritionLabel.tsx:140-341 | total fat and energy are always shown; every other row appears iff its amount is a number above 0 |
| NutritionLabel.AmountText | src/components/NutritionLabel.tsx:140-341 | a row's amount: the scaled value rounded to a whole number for the mg/mcg rows drawn whole (0 for null, 'NaN' when not a number), the one-decimal `formatValue` text otherwise |
| NutritionLabel.RowFor | src/components/NutritionLabel.tsx:140-341 | a row carries its nutrient's unit and its amount text at the given ratio; a percentage of the daily value, computed from the same amount and ratio, exactly when the nutrient has one |
| NutritionLabel.Visible | src/components/NutritionLabel.tsx:140-341 | exactly the shown nutrients are kept, in label order |
| NutritionLabel.Rows | src/components/NutritionLabel.tsx:140-341 | one row per visible nutrient, in label order, each the full row of that nutrient at the label's total ratio (serving size, portion toggle and multiplier) |
| NutritionLabel.TotalFatFirst | src/components/NutritionLabel.tsx:140-143 | the label always starts with total fat |
| NutritionLabel.Increase | src/components/NutritionLabel.tsx:108-111 | the increase button adds half a serving, with no upper bound; Decrease undoes it (StepsUndo) |
| NutritionLabel.Decrease | src/components/NutritionLabel.tsx:118 | the decrease button steps down by 0.5 and never below 0.5 |
| NutritionLabel.StepsUndo | src/components/NutritionLabel.tsx:108-118 | one step up then down (or down then up, from 1 or more) gives the multiplier back |
| NutritionLabel.ServingText | src/components/NutritionLabel.tsx:99-102 | '100g' when not per portion, else round(servingSize × multiplier) and the unit |
| NutritionLabel.RatioMonotone | src/components/NutritionLabel.tsx:36-37 | the ratio does not decrease as the multiplier grows |
| NutritionLabel.MonotoneInMultiplier | src/components/NutritionLabel.tsx:37-52 | for a non-negative amount, the shown whole amount, one-decimal amount and percentage do not decrease as the multiplier grows |
| ExtraDataSection.ParseIngredients | src/components/forms/ExtraDataSection.tsx:20-26 | every entry is trimmed, non-empty and free of commas |
| ExtraDataSection.ParseConcat | src/components/forms/ExtraDataSection.tsx:21-24 | parsing text joined by a comma gives the two parts' entries in order |
| ExtraDataSection.ParseOne | src/components/forms/ExtraDataSection.tsx:21-24 | a part with no comma parses as its trim, or as nothing when it trims to "" |
| ExtraDataSection.TrailingComma | src/components/forms/ExtraDataSection.tsx:21-24 | a trailing comma adds no entry |
| ExtraDataSection.ParseCons | src/components/forms/ExtraDataSection.tsx:21-24 | a comma-free part that is not blank, then a comma, contributes its trim ahead of the entries of the rest |
| ExtraDataSection.ParseThree | src/components/forms/ExtraDataSection.tsx:21-24 | three comma-terminated parts that are not blank parse to their three trims, in order |
| ExtraDataSection.UntidyText | src/components/forms/ExtraDataSection.tsx:21-24 | `"Water, Sugar,  Salt ,"` parses to `["Water", "Sugar", "Salt"]` |
| Text.TrimAround | src/components/forms/ExtraDataSection.tsx:23 | trimming removes exactly the whitespace around a core that starts and ends with a non-space character |
| ExtraDataSection.IngredientsText | src/components/forms/ExtraDataSection.tsx:47 | the display text is the list's entries joined by ', ' when it is an array, and `''` otherwise |
| ExtraDataSection.ParseShowRoundTrip | src/components/forms/ExtraDataSection.tsx:20-47 | a list of trimmed, non-empty, comma-free entries survives display and re-parsing unchanged |
| ExtraDataSection.LeadingSpaceIgnored | src/components/forms/ExtraDataSection.tsx:23 | the space the display puts after each comma does not change the parse |
| ExtraDataSection.ShowAfterEdit | src/components/forms/ExtraDataSection.tsx:20-47 | re-editing the shown text of a parsed list gives the same list |
| ExtraDataSection.NutritionParsedEdit | src/components/forms/ExtraDataSection.tsx:71-78 | empty text gives null; any other text gives what JSON.parse gives, or nothing when it throws |
| ExtraDataSection.ApplyEdit | src/components/forms/ExtraDataSection.tsx:74 | an edit sets its field and leaves every other field; no edit leaves the draft |
| ExtraDataSection.NutritionParsedEditEffect | src/components/forms/ExtraDataSection.tsx:71-78 | text that does not parse leaves the draft unchanged; empty text sets nutrition_parsed to null |
| LockedFields.Toggled | src/hooks/useLockedFields.ts:15-19 | the toggled field flips membership and every other field keeps it |
| LockedFields.ToggleTwice | src/hooks/useLockedFields.ts:12-22 | toggling twice restores the set |
| LockedFields.ToggleCommutes | src/hooks/useLockedFields.ts:12-22 | toggles of two fields commute |
| LockedFields.LockedFieldsHook.constructor | src/hooks/useLockedFields.ts:10 | the set starts empty, so no field is locked |
| LockedFields.LockedFieldsHook.IsLocked | src/hooks/useLockedFields.ts:24-26 | the field is in the locked set |
| LockedFields.LockedFieldsHook.ToggleLock | src/hooks/useLockedFields.ts:12-22 | the new set is the toggled copy of the old one, and `isLocked` of the field flips |
| TableSelection.IdSet | src/hooks/useTableSelection.ts:12 | the set holds exactly the listed ids |
| TableSelection.WithItem | src/hooks/useTableSelection.ts:20-30 | the id is in the new set iff checked; every other id keeps its membership |
| TableSelection.WithItemIdempotent | src/hooks/useTableSelection.ts:20-30 | selecting or deselecting the same id twice equals doing it once |
| TableSelection.IdSetSize | src/hooks/useTableSelection.ts:32 | the set has at most as many ids as the list, and as many iff the ids are distinct |
| TableSelection.TableSelectionHook.constructor | src/hooks/useTableSelection.ts:7 | the selection starts empty |
| TableSelection.TableSelectionHook.HandleSelectAll | src/hooks/useTableSelection.ts:9-18 | checked selects exactly the items' ids; unchecked empties the selection |
| TableSelection.TableSelectionHook.HandleSelectItem | src/hooks/useTableSelection.ts:20-30 | the new selection is `WithItem` of the old one |
| TableSelection.TableSelectionHook.HasSelection | src/hooks/useTableSelection.ts:33 | some id is selected |
| TableSelection.TableSelectionHook.IsAllSelected | src/hooks/useTableSelection.ts:32 | some id is selected and as many ids are selected as the table has rows |
| TableSelection.TableSelectionHook.ClearSelection | src/hooks/useTableSelection.ts:35-37 | the selection becomes empty and `hasSelection` false |
| TableSelection.AllSelectedAfterSelectAll | src/hooks/useTableSelection.ts:9-32 | after select-all, `isAllSelected` holds iff there are items and their ids are distinct |
| TableSort.NextConfig | src/hooks/useTableSort.ts:29-34 | the clicked column becomes the key; the order is desc iff it was asc on that same column |
| TableSort.ClickTwice | src/hooks/useTableSort.ts:29-34 | two clicks on the current column give the configuration back |
| TableSort.Compare | src/hooks/useTableSort.ts:37-55 | a missing a goes after, else a missing b goes before; strings by locale order and numbers by difference, both reversed in desc; other pairs are equal |
| TableSort.MissingLast | src/hooks/useTableSort.ts:41-42 | a missing value goes after a present one, whatever the order and from either side |
| TableSort.DescReversesNumbers | src/hooks/useTableSort.ts:50-52 | for numbers, desc negates asc, and swapping the arguments negates the result |
| TableSort.SortedMeaning | src/hooks/useTableSort.ts:36-56 | in sorted rows the numbers ascend (descend in desc) and no number follows a missing value |
| TableSort.CompareAgreesWithOrder | src/hooks/useTableSort.ts:41-52 | on numbers and missing values the comparator's sign agrees with the sorted order |
| TableSort.TableSortHook.constructor | src/hooks/useTableSort.ts:19-27 | the configuration starts at the default key and order |
| TableSort.TableSortHook.HandleSort | src/hooks/useTableSort.ts:29-34 | the new configuration is `NextConfig` of the old one |
| TableSort.TableSortHook.SortedData | src/hooks/useTableSort.ts:36-56 | the result is a permutation of the rows; when each key value is a number or missing, it is sorted with missing values last |
| TableSort.Insert | src/hooks/useTableSort.ts:37-55 | one insertion pass keeps the rows' multiset and extends the sorted prefix by one |
| FormField.HandleChange | src/components/forms/FormField.tsx:30-49 | text inputs forward everything; number inputs forward '' and '-', and any other string iff parseFloat gives a value ≥ 0; a forwarded value is the raw string |
| FormField.NegativeIgnored | src/components/forms/FormField.tsx:39-44 | a negative number is not forwarded |
| FormField.ForwardedStable | src/components/forms/FormField.tsx:30-49 | a forwarded value would be forwarded again |
| FormField.ShownValue | src/components/forms/FormField.tsx:96 | the input shows the value, or `''` when it is null or undefined |
| FormField.LabelText | src/components/forms/FormField.tsx:54 | one trailing '*' is dropped and nothing else changes |
| FormField.LabelDropsOneStar | src/components/forms/FormField.tsx:54 | of two trailing stars only one is dropped |
| FoodProfile.BaseRatio | src/components/FoodProfileModal.tsx:26 | portion_size_value/100, or 1 when it is falsy |
| FoodProfile.TotalRatio | src/components/FoodProfileModal.tsx:27 | the base ratio times the serving multiplier |
| FoodProfile.DefaultPortionRatio | src/components/FoodProfileModal.tsx:26-27 | without a portion size the ratio is the multiplier |
| FoodProfile.PortionTotal | src/components/FoodProfileModal.tsx:29-32 | 0 for a missing value, else value × ratio |
| FoodProfile.PortionTotalLinear | src/components/FoodProfileModal.tsx:27-32 | doubling the multiplier doubles a portion total |
| FoodProfile.Calories | src/components/FoodProfileModal.tsx:33 | 0 for any falsy value, 0 included, else round(value × ratio) |
| FoodProfile.BandOf | src/components/FoodProfileModal.tsx:99 | Excellent ≥ 7, Good ≥ 4, Needs Improvement ≥ 0, else Not Calculated |
| FoodProfile.ScoreTone | src/components/FoodProfileModal.tsx:85 | the score's text colour: green ≥ 7, orange ≥ 4, red ≥ 0, else grey |
| FoodProfile.BarTone | src/components/FoodProfileModal.tsx:93 | the bar's colour, on the same thresholds |
| FoodProfile.TonesFollowBand | src/components/FoodProfileModal.tsx:85-99 | the score colour and the bar colour follow the same band as the caption |
| FoodProfile.BarWidth | src/components/FoodProfileModal.tsx:95 | the bar width is never negative |
| FoodProfile.BarWidthBounds | src/components/FoodProfileModal.tsx:95 | on the 0–10 scale the bar stays within 100%, exceeds it above 10, and is empty only at 0 |
| FoodProfile.TrimEach | src/components/FoodProfileModal.tsx:135 | every bullet is its entry trimmed, in order |
| FoodProfile.Ingredients | src/components/FoodProfileModal.tsx:122-143 | bullets iff there is a non-empty array; otherwise raw text iff it is truthy; otherwise the section is hidden |
| FoodProfile.PriceView | src/components/FoodProfileModal.tsx:148-160 | the price block is drawn iff the price is truthy, a string price as it is; a price of 0 or NaN is rendered as the bare text '0' or 'NaN'; an empty string, null or undefined shows nothing |
| FoodProfile.PriceReadsBack | src/components/FoodProfileModal.tsx:157-158 | a positive numeric price shows as 'R$ ' + whole digits + ',' + two digits, reading back as round(price × 100) cents |
| HfsLabel.BandOf | src/components/HFSLabel.tsx:21-27 | no band below 0; Excellent ≥ 75, Good ≥ 50, Moderate ≥ 30, else Poor |
| HfsLabel.BandMonotone | src/components/HFSLabel.tsx:21-27 | a higher score never gets a lower band |
| HfsLabel.Designation | src/components/HFSLabel.tsx:21-27 | '' below 0; otherwise the band's localized text, defaulting to the Portuguese designations |
| HfsLabel.Clamp | src/components/HFSLabel.tsx:40 | the clamped score lies in [0, 100] and equals the score there |
| HfsLabel.Color | src/components/HFSLabel.tsx:36-79 | every channel lies in 0..255; a negative score is grey (128, 128, 128) |
| HfsLabel.ColorEnds | src/components/HFSLabel.tsx:40-77 | 0 is red (255, 0, 0) and every score ≥ 100 is cyan (0, 255, 255) |
| HfsLabel.ColorJoints | src/components/HFSLabel.tsx:43-66 | the code gives green at 30, cyan at 50 and blue at 75 |
| HfsLabel.ColorMonotone | src/components/HFSLabel.tsx:43-77 | within each segment the varying channel moves one way: green rises on [0, 30), red on [30, 50), blue falls on [50, 75), green rises from 75 |
| HfsLabel.ColorJumps | src/components/HFSLabel.tsx:43-78 | a tenth of a point below 30, 50 and 75 the code's colour is far from the colour at the joint |
| HfsLabel.GradientColor | src/components/HFSLabel.tsx:30-42 | the corrected colour: channels in 0..255, grey below 0 |
| HfsLabel.GradientStops | src/components/HFSLabel.tsx:30-42 | the corrected gradient is red at 0, yellow at 30, green at 50, cyan at 75 and blue (0, 100, 255) from 100 on |
| HfsLabel.GradientSmooth | src/components/HFSLabel.tsx:30-31 | scores d apart get corrected colours whose channels are less than 12.75·d + 1 apart |
| HfsLabel.Background | src/components/HFSLabel.tsx:86-89 | `getHFSBackgroundColor`: the colour of `getHFSColor` as written, at alpha 0.15; its text is stated by the lemmas below |
| HfsLabel.CorrectedBackground | src/components/HFSLabel.tsx:86-89 | the same background built from the smooth gradient instead |
| HfsLabel.BackgroundReadsBack | src/components/HFSLabel.tsx:86-89 | the background is 'rgba(' + the three channels of the as-written colour in decimal + ', 0.15)', each channel text reading back as the channel |
| HfsLabel.CorrectedBackgroundReadsBack | src/components/HFSLabel.tsx:86-89 | the corrected background is the same text built from the smooth gradient's channels |
| HfsLabel.BackgroundGrey | src/components/HFSLabel.tsx:86-89 | a negative score gets 'rgba(128, 128, 128, 0.15)' from the helper |
| HfsLabel.BackgroundRed | src/components/HFSLabel.tsx:86-89 | both colourings give 'rgba(255, 0, 0, 0.15)' at 0 |
| HfsLabel.BackgroundsPartAt50 | src/components/HFSLabel.tsx:86-89 | at 50 the code's background is cyan 'rgba(0, 255, 255, 0.15)' where the gradient gives green 'rgba(0, 255, 0, 0.15)' |
| HfsLabel.BadgeBackground | src/components/HFSLabel.tsx:113-115 | the badge is light grey 'rgba(240, 240, 240, 0.15)' for a negative score, in place of the helper's mid grey, and the helper's background otherwise |
| HfsLabel.DisplayScore | src/components/HFSLabel.tsx:103 | one decimal when ≥ 0, else '—'; the profile dialog's score (src/components/FoodProfileModal.tsx:87) follows the same rule and is this function |
| HfsScoresModal.FormatScore | src/components/HFSScoresModal.tsx:48-51 | '—' for a missing score, else one decimal |
| HfsScoresModal.ScoreColor | src/components/HFSScoresModal.tsx:53-58 | muted iff missing, green ≥ 4, yellow ≥ 2.5, else red |
| HfsScoresModal.Rows | src/components/HFSScoresModal.tsx:37-134 | always eight rows, S1 to S8 in order, each with its caption, text and colour |
| HfsScoresModal.EmptyScoresRows | src/components/HFSScoresModal.tsx:37-58 | with no scores all eight rows show '—' in the muted colour |
| HfsScoresModal.Render | src/components/HFSScoresModal.tsx:33-134 | nothing iff closed; the total iff it is present; the portion block iff a size, a truthy unit or a density is given; the density iff present and non-zero, with two decimals |
| HfsScoresModal.NullServingSize | src/components/HFSScoresModal.tsx:89-95 | a null serving size opens the portion block but shows no size |
| FoodTable.HfsColor | src/components/FoodTable.tsx:21-26 | green ≥ 4, yellow ≥ 2.5, muted < 0, otherwise red |
| FoodTable.HfsCell | src/components/FoodTable.tsx:76 | one decimal iff the score is a number above 0, so 0 shows '—' |
| FoodTable.BrandCell | src/components/FoodTable.tsx:80 | the brand, or '—' when it is missing or empty |
| FoodTable.InlineSortIcon | src/components/FoodTable.tsx:13-18 | neutral iff the column is not the sort key; up iff it is and the order is asc |
| FoodCard.HfsStyles | src/components/FoodCard.tsx:13-18 | green ≥ 4, yellow ≥ 2.5, gray < 0, else red |
| FoodCard.BadgeTone | src/components/FoodCard.tsx:41 | a missing score is styled as 0, that is red |
| FoodCard.Badge | src/components/FoodCard.tsx:42 | one decimal when the score is a number ≥ 0, 0 included, else '—' |
| FoodCard.NameText | src/components/FoodCard.tsx:39 | the name, or 'Unknown Food' when it is falsy |
| FoodCard.EnergyShown | src/components/FoodCard.tsx:47 | the energy, or 0 when it is falsy |
| SortIcon.Icon | src/components/SortIcon.tsx:17-24 | neutral for another column whatever the order; up for asc and down for desc on the sort column |
| SortIcon.AgreesWithTable | src/components/SortIcon.tsx:17-24 | the component agrees with the table's inline helper on every input |
| ScoreDisplays.ZeroShownDifferently | src/components/FoodTable.tsx:76 | a score of 0 shows as '—' in the table but as '0.0' on the card |
| ScoreDisplays.TableAndCardAgreeOffZero | src/components/FoodCard.tsx:42 | for every other score the table cell and the card badge show the same text |
| ScoreDisplays.TableAndCardTonesAgree | src/components/FoodCard.tsx:13-18 | the table and the card pick the same colour for every score, a missing or NaN one included (red in both) |
| ScoreDisplays.NumberTextsAgree | src/components/HFSLabel.tsx:103 | the badge, the form and the card format a score identically |
| ScoreDisplays.ScalesDisagree | src/components/FoodProfileModal.tsx:85 | a score of 8 is Excellent on the profile's 0–10 scale but Poor on the badge's 0–100 scale |
| LanguageSwitcher.CurrentLang | src/components/LanguageSwitcher.tsx:8 | the current language is never empty |
| LanguageSwitcher.DefaultLang | src/components/LanguageSwitcher.tsx:8 | a missing or empty second segment gives 'pt' |
| LanguageSwitcher.WithLang | src/components/LanguageSwitcher.tsx:11-12 | segment 1 becomes the language; there are max(n, 2) segments and all others are unchanged |
| LanguageSwitcher.HandleLanguageChange | src/components/LanguageSwitcher.tsx:10-15 | the split, assign and join give `RewritePath` |
| LanguageSwitcher.RewritePath | src/components/LanguageSwitcher.tsx:11-13 | split at '/', set segment 1 to the new language, join with '/'; its lemmas below state what the new path holds |
| LanguageSwitcher.RewriteSegments | src/components/LanguageSwitcher.tsx:11-13 | the new path splits into the old segments with only segment 1 replaced |
| LanguageSwitcher.SwitchedLangIsCurrent | src/components/LanguageSwitcher.tsx:8-13 | after switching to a non-empty language without '/', it is the current language |
| LanguageSwitcher.RewriteIdempotent | src/components/LanguageSwitcher.tsx:11-13 | switching twice to the same language equals switching once |
| ImageGallery.SanitizeFileName | src/components/forms/ImageGallery.tsx:48 | same length; ASCII letters and digits kept, every other character replaced by '_' |
| ImageGallery.SanitizeIdempotent | src/components/forms/ImageGallery.tsx:48 | a sanitised name holds only letters, digits and '_' and is its own sanitisation |
| ImageGallery.UploadFileName | src/components/forms/ImageGallery.tsx:48 | the stored name: timestamp, '-', the tab, '-', the sanitized file name; UploadFileNameReadsBack splits it back |
| ImageGallery.UploadFileNameReadsBack | src/components/forms/ImageGallery.tsx:48 | for a tab without '-', the name splits at '-' into timestamp, tab and sanitised file name |
| ImageGallery.DbKeyIn | src/components/forms/ImageGallery.tsx:59 | the lookup finds the tab's column when the table lists the tab, and nothing otherwise |
| ImageGallery.TabDbKey | src/components/forms/ImageGallery.tsx:59 | the column of the active tab in the tab table, or none; TabDbKeys gives the table |
| ImageGallery.TabDbKeys | src/components/forms/ImageGallery.tsx:20-63 | the four tabs map to four distinct columns and any other tab to none |
| ImageGallery.RescanMerge | src/components/forms/ImageGallery.tsx:84-89 | the three text fields take the new value when truthy, else the draft's; every other returned field passes through |
| ImageGallery.RescanOverwrites | src/components/forms/ImageGallery.tsx:84-89 | a truthy returned value always wins over the draft |
| ImageGallery.ImageGalleryState.constructor | src/components/forms/ImageGallery.tsx:37-39 | the front tab is active and neither flag is raised |
| ImageGallery.ImageGalleryState.SelectTab | src/components/forms/ImageGallery.tsx:115 | the clicked tab becomes active and neither flag changes |
| ImageGallery.ImageGalleryState.HandleImageUpload | src/components/forms/ImageGallery.tsx:42-72 | without a file or dictionary nothing happens; otherwise the file name is built, the tab's column is updated when the tab is known, and the flag ends lowered on success and failure |
| ImageGallery.ImageGalleryState.HandleRescan | src/components/forms/ImageGallery.tsx:74-97 | without a photo on the active tab the notice is given and nothing is processed; otherwise the merged update or the error, and the flag ends lowered |
| Text.TrimEmptyIffAllWhite | src/utils/form-helpers.ts:42 | `trim()` gives '' iff the string is all whitespace |
| Text.SplitJoin | src/components/LanguageSwitcher.tsx:11-13 | splitting a join of separator-free parts gives the parts back |
| Text.Round | src/components/NutritionLabel.tsx:47 | `Math.round` gives the integer within half a unit (halves rounded up) |
| Text.FixedReadsBack | src/utils/form-helpers.ts:94 | `toFixed(d)` of a non-negative number reads back as round(x × 10^d) with d digits after '.' |

## Left out

- Network and storage I/O are not modelled. This covers the Supabase client, the PATCH `fetch` in src/hooks/useSaveFood.ts:65-69, and the storage upload and row update in src/components/forms/ImageGallery.tsx:49-63. Their results are inputs: the fetch outcome (a response with its `ok` flag, or a rejection with its message), `stored`, `processed`.
- The commented-out AI call in src/utils/hfs.ts:26-65 is dead code. Only the live stub is modelled.
- The HFSLabel component body is not modelled, because it depends on `extractHFSScore`, which is not part of this model. Its three helpers, `displayScore` and the badge's background choice are modelled.
- React mechanics are not modelled: `useState` setters, `useMemo`, `useCallback`, re-render timing, `toast.promise`, `onSuccess`, `onChange` and `router.push`. Hook state is class fields; a callback's effect is the returned value.
- SaveFood.SaveFoodHook.SaveFood and ImageGallery.ImageGalleryState.HandleRescan do not expose intermediate states, because each handler is one method call. While a save is pending the flag is observably raised (between `SaveFood` and `Complete`), and several saves may be pending at once. The gallery's `uploading`/`isRescanning` = true states, which last only across an await, are not visible.
- Dictionary texts are optional inputs. Only the built-in fallbacks are fixed, and texts without a fallback, such as `dict.edit.uploadSuccess`, are not returned.
- `toFixed` and `Math.round` are over reals, not IEEE-754 doubles. Binary rounding of halves and values beyond 10^21 are out of scope.
- CSS classes are represented by tones (green, yellow, red, muted, gray), not by their class strings.
- NutritionLabel.Amount requires every nutrient field to hold a number, null or undefined (`LabelReadable`). `LabelReadable` also requires `metadata.serving_size` and `serving_size_value` to hold a number, null or undefined, and both `serving_size_unit` fields to hold a string, null or undefined. Other values in those fields are not modelled. This also limits NutritionLabel.ServingSize, NutritionLabel.ServingUnit, NutritionLabel.TotalRatio and NutritionLabel.Rows.
- The `JSON.stringify` text shown in the nutrition_parsed box (src/components/forms/ExtraDataSection.tsx:70) is not modelled. Only the edit rule is.
- TableSort.TableSortHook.SortedData sorts with insertion sort, not the engine's `Array.prototype.sort`. Its ordering is proved only when every key value is a number or missing. String order depends on `localeCompare`, which is a parameter with no assumed properties, so it is not proved.
- ImageGallery.SanitizeFileName works on Unicode characters. JavaScript's regular expression works on UTF-16 code units, so it writes two '_' for a character outside the Basic Multilingual Plane.
- The success toast's score text uses `numberText`, a parameter standing for JavaScript's number-to-string conversion.
- In FoodProfileModal, the `useState` call after an early return and the i18n texts of the modal are not modelled.
- Pure UI files are not part of this model: ConfirmModal, Spinner, FormTextarea, BasicInfoSection, ThemeSwitcher, Navbar and NutritionFactsSection. So is the dictionary loader.
- No S1–S8 sub-score computation, NOVA or energy eligibility check, warnings list or lock-aware merging exists in the code, so none is modelled.

## Findings

| source | as written | input that shows it | evidently intended | confidence | as-written member | corrected member |
|---|---|---|---|---|---|---|
| src/components/HFSLabel.tsx:43-78 | the segments above 30 run backwards: green at 30 rising to yellow at 50, cyan at 50 falling to green at 75, blue at 75 rising to cyan at 100, so the colour jumps at 30, 50 and 75 | score 29.9 gives (255, 254, 0) but 30 gives (0, 255, 0); 74.9 gives (0, 255, 1) but 75 gives (0, 100, 255) | the smooth gradient of lines 30-31 and 42, red (0) → yellow → green → cyan → blue (100) | medium, not executed | HfsLabel.ColorJumps | HfsLabel.GradientSmooth |

The badge background (`HfsLabel.Background`) is built, as written, from `HfsLabel.Color`, so the jumps show on the badge. `HfsLabel.CorrectedBackground` is the same text built from the corrected `GradientColor`; `HfsLabel.BackgroundsPartAt50` shows the two apart at 50.
