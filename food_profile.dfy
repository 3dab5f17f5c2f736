/**
 * The food profile dialog (src/components/FoodProfileModal.tsx): the
 * portion ratio and the totals shown for the current portion, the HFS
 * band on the 0–10 scale with its colours, text and bar width, and the
 * choice of how ingredients and price are shown.
 */
module FoodProfile {
  import opened Js
  import Text

  /** `(food.portion_size_value || 100) / 100` */
  function BaseRatio(portionSize: Value): (r: real)
    requires NumberLike(portionSize)
    ensures Truthy(portionSize) ==> r == portionSize.n / 100.0
    ensures !Truthy(portionSize) ==> r == 1.0
  {
    if Truthy(portionSize) then portionSize.n / 100.0 else 1.0
  }

  /** `baseRatio * multiplier` */
  function TotalRatio(portionSize: Value, multiplier: real): real
    requires NumberLike(portionSize)
  {
    BaseRatio(portionSize) * multiplier
  }

  /** A missing, zero or NaN portion counts as 100 g, so the ratio is the multiplier itself. */
  lemma DefaultPortionRatio(portionSize: Value, multiplier: real)
    requires NumberLike(portionSize) && !Truthy(portionSize)
    ensures TotalRatio(portionSize, multiplier) == multiplier
  {
  }

  /** `getPortionTotal`: 0 for null or undefined, else the value scaled by the ratio (NaN stays NaN). */
  function PortionTotal(value100g: Value, ratio: real): (r: Value)
    requires NumberLike(value100g)
    ensures Nullish(value100g) ==> r == Num(0.0)
    ensures value100g.Num? ==> r == Num(value100g.n * ratio)
    ensures value100g.NaN? ==> r == NaN
  {
    if Nullish(value100g) then Num(0.0)
    else if value100g.NaN? then NaN
    else Num(value100g.n * ratio)
  }

  /** `calculateCalories`: 0 for every falsy value, including 0 and NaN, else the rounded scaled value. */
  function Calories(num: Value, ratio: real): (r: int)
    requires NumberLike(num)
    ensures !Truthy(num) ==> r == 0
    ensures Truthy(num) ==> r == Text.Round(num.n * ratio)
  {
    if Truthy(num) then Text.Round(num.n * ratio) else 0
  }

  /** The totals scale with the portion: twice the multiplier, twice the protein. */
  lemma PortionTotalLinear(value100g: real, portionSize: Value, multiplier: real)
    requires NumberLike(portionSize)
    ensures PortionTotal(Num(value100g), TotalRatio(portionSize, 2.0 * multiplier)).n
      == 2.0 * PortionTotal(Num(value100g), TotalRatio(portionSize, multiplier)).n
  {
    var b := BaseRatio(portionSize);
    assert b * (2.0 * multiplier) == 2.0 * (b * multiplier);
    assert value100g * (2.0 * (b * multiplier)) == 2.0 * (value100g * (b * multiplier));
  }

  /** The band of the score on the 0–10 scale. */
  datatype Band = Excellent | Good | NeedsImprovement | NotCalculated

  datatype Tone = Green | Orange | Red | Gray

  /** The colour of the score text (line 85). */
  function ScoreTone(hfs: real): Tone {
    if hfs >= 7.0 then Green else if hfs >= 4.0 then Orange else if hfs >= 0.0 then Red else Gray
  }

  /** The colour of the bar (line 93). */
  function BarTone(hfs: real): Tone {
    if hfs >= 7.0 then Green else if hfs >= 4.0 then Orange else if hfs >= 0.0 then Red else Gray
  }

  /** The caption under the bar (line 99). */
  function BandOf(hfs: real): (b: Band)
    ensures b == Excellent <==> hfs >= 7.0
    ensures b == Good <==> 4.0 <= hfs < 7.0
    ensures b == NeedsImprovement <==> 0.0 <= hfs < 4.0
    ensures b == NotCalculated <==> hfs < 0.0
  {
    if hfs >= 7.0 then Excellent else if hfs >= 4.0 then Good else if hfs >= 0.0 then NeedsImprovement else NotCalculated
  }

  function BandText(b: Band): string {
    match b
    case Excellent => "Excellent"
    case Good => "Good"
    case NeedsImprovement => "Needs Improvement"
    case NotCalculated => "Not Calculated"
  }

  /** The colour a band is drawn in. */
  function ToneOf(b: Band): Tone {
    match b
    case Excellent => Green
    case Good => Orange
    case NeedsImprovement => Red
    case NotCalculated => Gray
  }

  /** The text colour, the bar colour and the caption always tell the same band. */
  lemma TonesFollowBand(hfs: real)
    ensures ScoreTone(hfs) == ToneOf(BandOf(hfs))
    ensures BarTone(hfs) == ToneOf(BandOf(hfs))
  {
  }

  /** The bar width in percent: ten times the score, or 0 for a negative score. */
  function BarWidth(hfs: real): (w: real)
    ensures w >= 0.0
  {
    if hfs >= 0.0 then hfs * 10.0 else 0.0
  }

  /** The bar fills its track for a score in [0, 10] and overflows it above 10, since the width is not clamped. */
  lemma BarWidthBounds(hfs: real)
    ensures 0.0 <= hfs <= 10.0 ==> BarWidth(hfs) <= 100.0
    ensures hfs > 10.0 ==> BarWidth(hfs) > 100.0
    ensures hfs >= 0.0 ==> (BarWidth(hfs) == 0.0 <==> hfs == 0.0)
  {
  }

  /** How the ingredients section shows. */
  datatype IngredientsView = Bullets(entries: seq<string>) | RawText(text: string) | NoSection

  /** The entries trimmed one by one; empty ones are kept as empty bullets. */
  function TrimEach(ss: seq<string>): (r: seq<string>)
    ensures |r| == |ss|
    ensures forall i :: 0 <= i < |ss| ==> r[i] == Text.Trim(ss[i])
  {
    seq(|ss|, i requires 0 <= i < |ss| => Text.Trim(ss[i]))
  }

  /** A non-empty list wins over the raw text; with neither the section is hidden. */
  function Ingredients(list: Value, raw: Value): (v: IngredientsView)
    requires StringItems(list) && StringLike(raw)
    ensures v.Bullets? <==> list.Arr? && |list.items| > 0
    ensures v.Bullets? ==> v.entries == TrimEach(StringsOf(list.items))
    ensures v.RawText? <==> !(list.Arr? && |list.items| > 0) && Truthy(raw)
    ensures v.RawText? ==> v.text == raw.s
  {
    if list.Arr? && |list.items| > 0 then Bullets(TrimEach(StringsOf(list.items)))
    else if Truthy(raw) then RawText(raw.s)
    else NoSection
  }

  /**
   * What `{price && (<div>…</div>)}` puts on the page. A truthy price draws
   * the block; a falsy number is itself rendered by React as bare text ("0"
   * or "NaN"); an empty string, null and undefined render nothing.
   */
  datatype PriceShown = NoPrice | BareText(text: string) | PriceBlock(text: string)

  /** The price block: a number in reais with a decimal comma, a string as it is. */
  function PriceView(price: Value): (p: PriceShown)
    requires NumberLike(price) || price.Str?
    ensures p.PriceBlock? <==> Truthy(price)
    ensures p.NoPrice? <==> Nullish(price) || price == Str("")
    ensures price == Num(0.0) ==> p == BareText("0")
    ensures price.NaN? ==> p == BareText("NaN")
    ensures price.Str? && price.s != "" ==> p == PriceBlock(price.s)
  {
    if Truthy(price) then
      if price.Num? then PriceBlock("R$ " + Text.ReplaceFirst(Text.ToFixed(price.n, 2), '.', ','))
      else PriceBlock(price.s)
    else if price.Num? then BareText("0")
    else if price.NaN? then BareText("NaN")
    else NoPrice
  }

  /**
   * A positive price shows as "R$ ", whole digits, a comma and exactly two
   * digits of cents, which read back as the price in cents, rounded.
   */
  lemma PriceReadsBack(n: real) returns (whole: string, cents: string)
    requires n > 0.0
    ensures PriceView(Num(n)) == PriceBlock("R$ " + whole + "," + cents)
    ensures |cents| == 2 && Text.AllDigits(whole) && Text.AllDigits(cents)
    ensures Text.DigitsValue(whole) * 100 + Text.DigitsValue(cents) == Text.Round(n * 100.0)
  {
    whole, cents := CentsText(n);
    CommaForPoint(whole, cents);
    PositivePriceText(n);
    Regroup("R$ ", whole, ",", cents);
  }

  lemma PositivePriceText(n: real)
    requires n > 0.0
    ensures PriceView(Num(n)) == PriceBlock("R$ " + Text.ReplaceFirst(Text.ToFixed(n, 2), '.', ','))
  {
  }

  lemma Regroup(a: string, b: string, c: string, d: string)
    ensures a + (b + c + d) == a + b + c + d
  {
  }

  /** `x.toFixed(2)` for x >= 0: whole digits w, a point and two digits c, reading back as x * 100 rounded. */
  lemma CentsText(x: real) returns (w: string, c: string)
    requires x >= 0.0
    ensures Text.ToFixed(x, 2) == w + "." + c
    ensures |c| == 2 && Text.AllDigits(w) && Text.AllDigits(c)
    ensures Text.DigitsValue(w) * 100 + Text.DigitsValue(c) == Text.Round(x * 100.0)
  {
    w, c := Text.FixedReadsBack(x, 2);
    assert Text.Scale(x, 2) == x * 100.0 by {
      Text.ScaleByPow10(x, 2);
      assert Text.Pow10(2) as real == 100.0;
    }
    assert Text.Pow10(2) == 100;
  }

  /** In whole digits, a point and the cents, the first '.' is that point, and `replace` turns it into ','. */
  lemma CommaForPoint(w: string, c: string)
    requires Text.AllDigits(w)
    ensures Text.ReplaceFirst(w + "." + c, '.', ',') == w + "," + c
  {
    var f := w + "." + c;
    assert '.' !in w by {
      forall i | 0 <= i < |w| ensures w[i] != '.' {
        assert Text.IsDigit(w[i]);
      }
    }
    assert f[..|w|] == w && f[|w| + 1..] == c;
    Text.ReplaceFirstAt(f, |w|, '.', ',');
  }
}
