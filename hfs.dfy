/**
 * The HFS (Health Food Score) gate and calculator (src/utils/hfs.ts): the gate
 * asks only for a non-blank name and brand; the calculator is a stub that
 * answers -1 with full confidence for every draft.
 */
module Hfs {
  import opened Wrappers
  import opened Js
  import Text
  import FormHelpers

  /** `formData.name?.trim()` and `(formData.brand ?? '').trim()` can be evaluated. */
  predicate InputReadable(formData: Record) {
    StringLike(Get(formData, "name")) && StringLike(Get(formData, "brand"))
  }

  /** A string field holding text other than whitespace. */
  predicate NonBlank(v: Value) {
    v.Str? && Text.Trim(v.s) != ""
  }

  /** `checkHFSInput`: a score is requested only for a draft with a non-blank name and brand. */
  function CheckHfsInput(formData: Record): (ok: bool)
    requires InputReadable(formData)
    ensures ok <==> NonBlank(Get(formData, "name")) && NonBlank(Get(formData, "brand"))
  {
    var name := Get(formData, "name");
    var brand := Coalesce(Get(formData, "brand"), Str(""));
    if Nullish(name) || Text.Trim(name.s) == "" || Text.Trim(brand.s) == "" then false
    else true
  }

  /** No other field is inspected: changing anything but the name and brand keeps the verdict. */
  lemma CheckHfsInputOnlyNameAndBrand(formData: Record, k: string, v: Value)
    requires InputReadable(formData) && k != "name" && k != "brand"
    ensures InputReadable(formData[k := v])
    ensures CheckHfsInput(formData[k := v]) == CheckHfsInput(formData)
  {
    assert Get(formData[k := v], "name") == Get(formData, "name");
    assert Get(formData[k := v], "brand") == Get(formData, "brand");
  }

  /** A missing brand counts as '' and so fails the gate, as does a whitespace-only one. */
  lemma CheckHfsInputNeedsBrand(formData: Record)
    requires InputReadable(formData)
    requires Nullish(Get(formData, "brand")) || Text.AllWhite(Get(formData, "brand").s)
    ensures !CheckHfsInput(formData)
  {
    if Get(formData, "brand").Str? {
      Text.TrimEmptyIffAllWhite(Get(formData, "brand").s);
    }
  }

  /** The gate is stricter than form validation: a draft that may be scored is a valid draft. */
  lemma CheckHfsInputImpliesValid(formData: Record)
    requires InputReadable(formData) && CheckHfsInput(formData)
    ensures FormHelpers.NameReadable(formData)
    ensures FormHelpers.ValidateFormData(formData).valid
  {
  }

  datatype HfsResponse = HfsResponse(
    success: bool,
    hfsScore: real,
    confidence: real,
    reasoning: Option<string>,
    error: Option<string>)

  /** `calculateHFS`: whatever the draft, the answer is a successful -1 with confidence 1. */
  function CalculateHfs(formData: Record): (r: HfsResponse)
    ensures r.success && r.hfsScore == -1.0 && r.confidence == 1.0
    ensures r.reasoning == None && r.error == None
  {
    HfsResponse(true, -1.0, 1.0, None, None)
  }

  /** The stub does not depend on the draft at all. */
  lemma CalculateHfsIgnoresInput(a: Record, b: Record)
    ensures CalculateHfs(a) == CalculateHfs(b)
  {
  }
}
