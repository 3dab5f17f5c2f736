/**
 * The nutrition facts label (src/components/NutritionLabel.tsx): which amount
 * each nutrient shows, scaled by the serving size and the multiplier, its
 * percentage of a fixed daily value, and which rows appear.
 *
 * Every amount is read from the `nutrition_parsed` object first, then (for the
 * main nutrients) from the flat field of the record, then 0. Amounts are the
 * values of `number | null | undefined` fields; `LabelReadable` states that.
 */
module NutritionLabel {
  import opened Wrappers
  import opened Js
  import Text

  datatype Nutrient =
    | Energy | TotalFat | SaturatedFat | TransFat | MonoFat | PolyFat | Cholesterol
    | Sodium | TotalCarbs | Fiber | SolubleFiber | InsolubleFiber | SugarsTotal
    | SugarsAdded | Polyols | Starch | Protein
    | Calcium | Iron | Potassium | Magnesium | Zinc
    | VitaminA | VitaminC | VitaminD | VitaminE | VitaminK | VitaminB12 | VitaminB6 | VitaminB9

  /** The sub-object of `nutrition_parsed` holding the nutrient ("" for the top level). */
  function Section(n: Nutrient): string {
    match n
    case Energy => ""
    case TotalFat | SaturatedFat | TransFat | MonoFat | PolyFat | Cholesterol => "fats"
    case TotalCarbs | SugarsTotal | SugarsAdded | Polyols | Starch => "carbohydrates"
    case Fiber | SolubleFiber | InsolubleFiber => "fiber"
    case Protein => "proteins"
    case Sodium | Calcium | Iron | Potassium | Magnesium | Zinc => "minerals_mg"
    case _ => "vitamins"
  }

  /** The key of the nutrient inside its sub-object. */
  function ParsedKey(n: Nutrient): string {
    match n
    case Energy => "energy_kcal"
    case TotalFat => "total_fats_g"
    case SaturatedFat => "saturated_fats_g"
    case TransFat => "trans_fats_g"
    case MonoFat => "monounsaturated_fats_g"
    case PolyFat => "polyunsaturated_fats_g"
    case Cholesterol => "cholesterol_mg"
    case Sodium => "sodium_mg"
    case TotalCarbs => "total_carbs_g"
    case Fiber => "total_fiber_g"
    case SolubleFiber => "soluble_fiber_g"
    case InsolubleFiber => "insoluble_fiber_g"
    case SugarsTotal => "sugars_total_g"
    case SugarsAdded => "sugars_added_g"
    case Polyols => "polyols_g"
    case Starch => "starch_g"
    case Protein => "total_proteins_g"
    case Calcium => "calcium_mg"
    case Iron => "iron_mg"
    case Potassium => "potassium_mg"
    case Magnesium => "magnesium_mg"
    case Zinc => "zinc_mg"
    case VitaminA => "vitamin_a_mcg"
    case VitaminC => "vitamin_c_mg"
    case VitaminD => "vitamin_d_mcg"
    case VitaminE => "vitamin_e_mg"
    case VitaminK => "vitamin_k_mcg"
    case VitaminB12 => "vitamin_b12_mcg"
    case VitaminB6 => "vitamin_b6_mg"
    case VitaminB9 => "vitamin_b9_mcg"
  }

  /** The flat record field a main nutrient falls back to; the others have none. */
  function FlatKey(n: Nutrient): Option<string> {
    match n
    case Energy => Some("energy_kcal")
    case TotalFat => Some("fat_total_g")
    case SaturatedFat => Some("saturated_fat_g")
    case TransFat => Some("trans_fat_g")
    case Sodium => Some("sodium_mg")
    case TotalCarbs => Some("carbs_total_g")
    case Fiber => Some("fiber_g")
    case Protein => Some("protein_g")
    case _ => None
  }

  /** The daily value a row's percentage is taken of; rows without one show no percentage. */
  function DailyValue(n: Nutrient): (dv: Option<real>)
    ensures dv.Some? ==> dv.value > 0.0
  {
    match n
    case TotalFat => Some(78.0)
    case SaturatedFat => Some(20.0)
    case Cholesterol => Some(300.0)
    case Sodium => Some(2300.0)
    case TotalCarbs => Some(275.0)
    case Fiber => Some(28.0)
    case SugarsAdded => Some(50.0)
    case Calcium => Some(1300.0)
    case Iron => Some(18.0)
    case Potassium => Some(4700.0)
    case Magnesium => Some(420.0)
    case Zinc => Some(11.0)
    case VitaminA => Some(900.0)
    case VitaminC => Some(90.0)
    case VitaminD => Some(20.0)
    case VitaminE => Some(15.0)
    case VitaminK => Some(120.0)
    case VitaminB12 => Some(2.4)
    case VitaminB6 => Some(1.7)
    case VitaminB9 => Some(400.0)
    case _ => None
  }

  /** Rows whose amount is shown as a whole number (`Math.round`) rather than with one decimal. */
  predicate WholeAmount(n: Nutrient) {
    n in {Cholesterol, Sodium, Calcium, Potassium, VitaminA, VitaminD, VitaminK, VitaminB12, VitaminB9}
  }

  function UnitOf(n: Nutrient): string {
    if n in {Cholesterol, Sodium, Calcium, Iron, Potassium, Magnesium, Zinc,
             VitaminC, VitaminE, VitaminB6} then "mg"
    else if n in {VitaminA, VitaminD, VitaminK, VitaminB12, VitaminB9} then "mcg"
    else "g"
  }

  predicate IsMineral(n: Nutrient) {
    n in {Calcium, Iron, Potassium, Magnesium, Zinc}
  }

  predicate IsVitamin(n: Nutrient) {
    n in {VitaminA, VitaminC, VitaminD, VitaminE, VitaminK, VitaminB12, VitaminB6, VitaminB9}
  }

  /** `data.nutrition_parsed || {}` */
  function Parsed(data: Record): Value {
    Or(Get(data, "nutrition_parsed"), Obj([]))
  }

  /** `nutritionParsed.<section> || {}` */
  function SectionOf(data: Record, section: string): Value {
    Or(Prop(Parsed(data), section), Obj([]))
  }

  /** The nutrient as `nutrition_parsed` holds it. */
  function ParsedValue(data: Record, n: Nutrient): Value {
    if Section(n) == "" then Prop(Parsed(data), ParsedKey(n))
    else Prop(SectionOf(data, Section(n)), ParsedKey(n))
  }

  /** The amounts the label reads are numbers, null or undefined, and so are the serving fields. */
  predicate LabelReadable(data: Record) {
    && (forall n :: NumberLike(ParsedValue(data, n)))
    && (forall n :: FlatKey(n).Some? ==> NumberLike(Get(data, FlatKey(n).value)))
    && NumberLike(Prop(SectionOf(data, "metadata"), "serving_size"))
    && NumberLike(Get(data, "serving_size_value"))
    && StringLike(Prop(SectionOf(data, "metadata"), "serving_size_unit"))
    && StringLike(Get(data, "serving_size_unit"))
  }

  /**
   * The amount a nutrient shows: for a main nutrient `parsed ?? flat ?? 0`,
   * for the others the parsed value alone.
   */
  function Amount(data: Record, n: Nutrient): (v: Value)
    requires LabelReadable(data)
    ensures NumberLike(v)
    ensures FlatKey(n).Some? ==> !Nullish(v)
    ensures FlatKey(n).Some? && !Nullish(ParsedValue(data, n)) ==> v == ParsedValue(data, n)
    ensures FlatKey(n).Some? && Nullish(ParsedValue(data, n)) && !Nullish(Get(data, FlatKey(n).value)) ==>
      v == Get(data, FlatKey(n).value)
    ensures FlatKey(n).Some? && Nullish(ParsedValue(data, n)) && Nullish(Get(data, FlatKey(n).value)) ==>
      v == Num(0.0)
    ensures FlatKey(n).None? ==> v == ParsedValue(data, n)
  {
    match FlatKey(n)
    case Some(flat) => Coalesce(Coalesce(ParsedValue(data, n), Get(data, flat)), Num(0.0))
    case None => ParsedValue(data, n)
  }

  /** A parsed 0 is kept: it is not null, so the flat field is not consulted. */
  lemma ParsedZeroKept(data: Record, n: Nutrient)
    requires LabelReadable(data) && FlatKey(n).Some?
    requires ParsedValue(data, n) == Num(0.0)
    ensures Amount(data, n) == Num(0.0)
  {
  }

  /** `metadata.serving_size || data.serving_size_value || 100`: 0 and NaN fall through. */
  function ServingSize(data: Record): (s: real)
    requires LabelReadable(data)
    ensures s != 0.0
    ensures Truthy(Prop(SectionOf(data, "metadata"), "serving_size")) ==>
      s == Prop(SectionOf(data, "metadata"), "serving_size").n
    ensures !Truthy(Prop(SectionOf(data, "metadata"), "serving_size")) && Truthy(Get(data, "serving_size_value")) ==>
      s == Get(data, "serving_size_value").n
    ensures !Truthy(Prop(SectionOf(data, "metadata"), "serving_size")) && !Truthy(Get(data, "serving_size_value")) ==>
      s == 100.0
  {
    Or(Or(Prop(SectionOf(data, "metadata"), "serving_size"), Get(data, "serving_size_value")), Num(100.0)).n
  }

  /** `metadata.serving_size_unit || data.serving_size_unit || 'g'` */
  function ServingUnit(data: Record): (u: string)
    requires LabelReadable(data)
    ensures u != ""
    ensures Truthy(Prop(SectionOf(data, "metadata"), "serving_size_unit")) ==>
      u == Prop(SectionOf(data, "metadata"), "serving_size_unit").s
    ensures !Truthy(Prop(SectionOf(data, "metadata"), "serving_size_unit")) && Truthy(Get(data, "serving_size_unit")) ==>
      u == Get(data, "serving_size_unit").s
    ensures !Truthy(Prop(SectionOf(data, "metadata"), "serving_size_unit")) && !Truthy(Get(data, "serving_size_unit")) ==>
      u == "g"
  {
    Or(Or(Prop(SectionOf(data, "metadata"), "serving_size_unit"), Get(data, "serving_size_unit")), Str("g")).s
  }

  /** `(usePortion ? servingSize / 100 : 1) * multiplier` */
  function TotalRatio(servingSize: real, usePortion: bool, multiplier: real): (r: real)
    ensures usePortion ==> r == servingSize / 100.0 * multiplier
    ensures !usePortion ==> r == multiplier
  {
    (if usePortion then servingSize / 100.0 else 1.0) * multiplier
  }

  /** `formatValue`: "0" for null or 0, "NaN" for NaN, else the scaled amount with one decimal. */
  function FormatValue(v: Value, ratio: real): (t: string)
    requires NumberLike(v)
    ensures Nullish(v) || v == Num(0.0) ==> t == "0"
    ensures v.NaN? ==> t == "NaN"
    ensures v.Num? && v.n != 0.0 ==> t == Text.ToFixed(v.n * ratio, 1)
  {
    if Nullish(v) || v == Num(0.0) then "0"
    else if v.NaN? then "NaN"
    else Text.ToFixed(v.n * ratio, 1)
  }

  /** `Math.round(v * totalRatio)`; None stands for NaN. */
  function ScaledWhole(v: Value, ratio: real): (r: Option<int>)
    requires NumberLike(v)
    ensures v.Num? ==> r == Some(Text.Round(v.n * ratio))
    ensures v.NaN? || v.Undefined? ==> r == None
  {
    if v.Num? then Some(Text.Round(v.n * ratio))
    else if v.Null? then Some(0)
    else None
  }

  /** `formatCalories`: 0 for null or undefined, else the scaled amount rounded; None stands for NaN. */
  function FormatCalories(v: Value, ratio: real): (r: Option<int>)
    requires NumberLike(v)
    ensures Nullish(v) ==> r == Some(0)
    ensures v.NaN? ==> r == None
    ensures v.Num? ==> r == Some(Text.Round(v.n * ratio))
  {
    if Nullish(v) then Some(0) else ScaledWhole(v, ratio)
  }

  /** `calculatePercentage`: 0 for null or undefined, else the scaled amount as a rounded percentage of dv. */
  function Percentage(v: Value, dv: real, ratio: real): (r: Option<int>)
    requires NumberLike(v) && dv > 0.0
    ensures Nullish(v) ==> r == Some(0)
    ensures v.NaN? ==> r == None
    ensures v.Num? ==> r == Some(Text.Round(v.n * ratio / dv * 100.0))
  {
    if Nullish(v) then Some(0)
    else if v.NaN? then None
    else Some(Text.Round(v.n * ratio / dv * 100.0))
  }

  /** `v > 0` for a number, null or undefined value. */
  predicate Positive(v: Value)
    requires NumberLike(v)
  {
    Numeric(v).Some? && Numeric(v).value > 0.0
  }

  /** `calcium != null || iron != null || ...`: the condition around the minerals block. */
  predicate MineralsPresent(data: Record) {
    exists n :: IsMineral(n) && !Nullish(ParsedValue(data, n))
  }

  /** The condition around the vitamins block. */
  predicate VitaminsPresent(data: Record) {
    exists n :: IsVitamin(n) && !Nullish(ParsedValue(data, n))
  }

  /** Whether the label renders the nutrient's row, condition by condition as written. */
  predicate Shown(data: Record, n: Nutrient)
    requires LabelReadable(data)
  {
    var v := Amount(data, n);
    if n == TotalFat then true
    else if n == Energy then true
    else if FlatKey(n).Some? then Positive(v)
    else if IsMineral(n) then MineralsPresent(data) && !Nullish(v) && Positive(v)
    else if IsVitamin(n) then VitaminsPresent(data) && !Nullish(v) && Positive(v)
    else !Nullish(v) && Positive(v)
  }

  /**
   * Visibility reduces to one rule: total fat and the calorie line always
   * show, every other row exactly when its amount is above 0; the block
   * conditions around minerals and vitamins never hide a row on their own.
   */
  lemma ShownIffPositive(data: Record, n: Nutrient)
    requires LabelReadable(data)
    ensures n == TotalFat || n == Energy ==> Shown(data, n)
    ensures n != TotalFat && n != Energy ==> (Shown(data, n) <==> Positive(Amount(data, n)))
  {
    if n != TotalFat && n != Energy && FlatKey(n).None? {
      var v := Amount(data, n);
      assert v == ParsedValue(data, n);
      if Positive(v) {
        assert !Nullish(v);
        if IsMineral(n) {
          assert MineralsPresent(data);
        } else if IsVitamin(n) {
          assert VitaminsPresent(data);
        }
      }
    }
  }

  /** The rows of the label, in the order they are drawn. */
  const RowOrder: seq<Nutrient> := [
    TotalFat, SaturatedFat, TransFat, MonoFat, PolyFat, Cholesterol, Sodium,
    TotalCarbs, Fiber, SolubleFiber, InsolubleFiber, SugarsTotal, SugarsAdded, Polyols, Starch,
    Protein, Calcium, Iron, Potassium, Magnesium, Zinc,
    VitaminA, VitaminC, VitaminD, VitaminE, VitaminK, VitaminB12, VitaminB6, VitaminB9
  ]

  datatype Row = Row(nutrient: Nutrient, amount: string, unit: string, percent: Option<Option<int>>)

  /**
   * The amount text of a row: the scaled value rounded to a whole number for
   * the rows drawn whole (0 for null, "NaN" for a value that is not a
   * number), `formatValue` for the others.
   */
  function AmountText(n: Nutrient, v: Value, ratio: real): (t: string)
    requires NumberLike(v)
    ensures WholeAmount(n) && v.Num? ==> t == Text.IntText(Text.Round(v.n * ratio))
    ensures WholeAmount(n) && v.Null? ==> t == Text.IntText(0)
    ensures WholeAmount(n) && (v.NaN? || v.Undefined?) ==> t == "NaN"
    ensures !WholeAmount(n) ==> t == FormatValue(v, ratio)
  {
    if WholeAmount(n) then
      (match ScaledWhole(v, ratio) case Some(k) => Text.IntText(k) case None => "NaN")
    else FormatValue(v, ratio)
  }

  /** One row: its amount text, its unit and, where the row has a daily value, its percentage. */
  function RowFor(data: Record, n: Nutrient, ratio: real): (r: Row)
    requires LabelReadable(data)
    ensures r.nutrient == n && r.unit == UnitOf(n)
    ensures r.amount == AmountText(n, Amount(data, n), ratio)
    ensures r.percent.Some? <==> DailyValue(n).Some?
    ensures DailyValue(n).Some? ==> r.percent == Some(Percentage(Amount(data, n), DailyValue(n).value, ratio))
  {
    var v := Amount(data, n);
    var percent := if DailyValue(n).Some? then Some(Percentage(v, DailyValue(n).value, ratio)) else None;
    Row(n, AmountText(n, v, ratio), UnitOf(n), percent)
  }

  /** The nutrients of `ns` whose rows are drawn, in the order of `ns`. */
  function Visible(data: Record, ns: seq<Nutrient>): (vs: seq<Nutrient>)
    requires LabelReadable(data)
    ensures |vs| <= |ns|
    ensures forall n :: n in vs <==> n in ns && Shown(data, n)
  {
    if |ns| == 0 then []
    else (if Shown(data, ns[0]) then [ns[0]] else []) + Visible(data, ns[1..])
  }

  /** The label's rows below the calorie line, one per visible nutrient, in drawing order. */
  function Rows(data: Record, usePortion: bool, multiplier: real): (rows: seq<Row>)
    requires LabelReadable(data)
    ensures |rows| == |Visible(data, RowOrder)|
    ensures forall i :: 0 <= i < |rows| ==> rows[i].nutrient == Visible(data, RowOrder)[i]
    ensures forall i :: 0 <= i < |rows| ==>
      rows[i] == RowFor(data, Visible(data, RowOrder)[i], TotalRatio(ServingSize(data), usePortion, multiplier))
  {
    RowsOf(data, RowOrder, TotalRatio(ServingSize(data), usePortion, multiplier))
  }

  /** One row per nutrient of `ns` that is drawn, in the order of `ns`. */
  function RowsOf(data: Record, ns: seq<Nutrient>, ratio: real): (rows: seq<Row>)
    requires LabelReadable(data)
    ensures |rows| == |Visible(data, ns)|
    ensures forall i :: 0 <= i < |rows| ==> rows[i].nutrient == Visible(data, ns)[i]
    ensures forall i :: 0 <= i < |rows| ==> rows[i] == RowFor(data, Visible(data, ns)[i], ratio)
  {
    var vs := Visible(data, ns);
    seq(|vs|, i requires 0 <= i < |vs| => RowFor(data, vs[i], ratio))
  }

  /** The first row is always total fat, whatever the record holds. */
  lemma TotalFatFirst(data: Record, usePortion: bool, multiplier: real)
    requires LabelReadable(data)
    ensures |Rows(data, usePortion, multiplier)| >= 1
    ensures Rows(data, usePortion, multiplier)[0].nutrient == TotalFat
  {
    ShownIffPositive(data, TotalFat);
    assert Visible(data, RowOrder) == [TotalFat] + Visible(data, RowOrder[1..]);
  }

  /** The ▲ button: one more half serving. */
  function Increase(multiplier: real): (m: real)
    ensures m == multiplier + 0.5
  {
    multiplier + 0.5
  }

  /** The ▼ button: one half serving less, never below one half. */
  function Decrease(multiplier: real): (m: real)
    ensures m >= 0.5
    ensures multiplier >= 1.0 ==> m == multiplier - 0.5
    ensures multiplier < 1.0 ==> m == 0.5
  {
    if multiplier - 0.5 > 0.5 then multiplier - 0.5 else 0.5
  }

  /** Down undoes up for every reachable multiplier, and up undoes down above one serving. */
  lemma StepsUndo(m: real)
    ensures m >= 0.5 ==> Decrease(Increase(m)) == m
    ensures m >= 1.0 ==> Increase(Decrease(m)) == m
  {
  }

  /** The serving text: the scaled serving rounded, with its unit, or '100g' when not per portion. */
  function ServingText(servingSize: real, unit: string, usePortion: bool, multiplier: real): (t: string)
    ensures !usePortion ==> t == "100g"
    ensures usePortion && servingSize * multiplier >= 0.0 ==>
      t == Text.NatText(Text.Round(servingSize * multiplier)) + unit
  {
    if usePortion then Text.IntText(Text.Round(servingSize * multiplier)) + unit else "100g"
  }

  lemma MulMonotone(x: real, a: real, b: real)
    requires x >= 0.0 && a <= b
    ensures x * a <= x * b
  {
    assert x * b - x * a == x * (b - a);
  }

  lemma DivMonotone(a: real, b: real, d: real)
    requires a <= b && d > 0.0
    ensures a / d <= b / d
  {
    assert b / d - a / d == (b - a) / d;
  }

  /** A larger multiplier never gives a smaller ratio, for a non-negative serving. */
  lemma RatioMonotone(servingSize: real, usePortion: bool, m1: real, m2: real)
    requires servingSize >= 0.0 && m1 <= m2
    ensures TotalRatio(servingSize, usePortion, m1) <= TotalRatio(servingSize, usePortion, m2)
  {
    var base := if usePortion then servingSize / 100.0 else 1.0;
    MulMonotone(base, m1, m2);
  }

  /**
   * For a non-negative amount and serving, a larger multiplier never shows a
   * smaller whole amount, amount in tenths or percentage.
   */
  lemma MonotoneInMultiplier(v: real, servingSize: real, usePortion: bool, m1: real, m2: real, dv: real)
    requires v >= 0.0 && servingSize >= 0.0 && m1 <= m2 && dv > 0.0
    ensures ScaledAmounts(v, TotalRatio(servingSize, usePortion, m1), dv).LessEq(
              ScaledAmounts(v, TotalRatio(servingSize, usePortion, m2), dv))
  {
    RatioMonotone(servingSize, usePortion, m1, m2);
    ScaledMonotone(v, TotalRatio(servingSize, usePortion, m1), TotalRatio(servingSize, usePortion, m2), dv);
  }

  /** The whole amount, the amount in tenths and the percentage an amount shows at a ratio. */
  datatype Shown3 = Shown3(whole: int, tenths: int, percent: int) {
    predicate LessEq(other: Shown3) {
      whole <= other.whole && tenths <= other.tenths && percent <= other.percent
    }
  }

  function ScaledAmounts(v: real, ratio: real, dv: real): Shown3
    requires dv > 0.0
  {
    Shown3(Text.Round(v * ratio), Text.Round(Text.Scale(v * ratio, 1)), Text.Round(v * ratio / dv * 100.0))
  }

  lemma ScaledMonotone(v: real, r1: real, r2: real, dv: real)
    requires v >= 0.0 && r1 <= r2 && dv > 0.0
    ensures ScaledAmounts(v, r1, dv).LessEq(ScaledAmounts(v, r2, dv))
  {
    MulMonotone(v, r1, r2);
    var a, b := v * r1, v * r2;
    Text.RoundMonotone(a, b);
    assert Text.Scale(a, 1) <= Text.Scale(b, 1);
    Text.RoundMonotone(Text.Scale(a, 1), Text.Scale(b, 1));
    DivMonotone(a, b, dv);
    Text.RoundMonotone(a / dv * 100.0, b / dv * 100.0);
  }
}
