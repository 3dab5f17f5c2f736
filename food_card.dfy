/**
 * The food card of the grid view (src/components/FoodCard.tsx): badge colour
 * by thresholds 4 and 2.5, the badge text, and the fallbacks for a missing
 * name or energy.
 */
module FoodCard {
  import opened Js
  import Text

  datatype Tone = Green | Yellow | Gray | Red

  /** `getHFSStyles`, applied to `food.hfs ?? 0`. */
  function HfsStyles(score: real): (t: Tone)
    ensures t == Green <==> score >= 4.0
    ensures t == Yellow <==> 2.5 <= score < 4.0
    ensures t == Gray <==> score < 0.0
    ensures t == Red <==> 0.0 <= score < 2.5
  {
    if score >= 4.0 then Green
    else if score >= 2.5 then Yellow
    else if score < 0.0 then Gray
    else Red
  }

  /** The tone of the badge: a missing score is styled as 0, a NaN one falls to red. */
  function BadgeTone(hfs: Value): (t: Tone)
    requires NumberLike(hfs)
    ensures Nullish(hfs) ==> t == Red
    ensures hfs.NaN? ==> t == Red
    ensures hfs.Num? ==> t == HfsStyles(hfs.n)
  {
    var v := Coalesce(hfs, Num(0.0));
    if v.NaN? then Red else HfsStyles(v.n)
  }

  /** The badge text: one decimal for a non-null, non-negative score (so 0 shows "0.0"), else '—'. */
  function Badge(hfs: Value): (t: string)
    requires NumberLike(hfs)
    ensures hfs.Num? && hfs.n >= 0.0 ==> t == Text.ToFixed(hfs.n, 1)
    ensures !(hfs.Num? && hfs.n >= 0.0) ==> t == "—"
  {
    if !Nullish(hfs) && AtLeast(hfs, 0.0) then Text.ToFixed(hfs.n, 1) else "—"
  }

  /** `food.name || 'Unknown Food'` */
  function NameText(name: Value): (t: string)
    requires StringLike(name)
    ensures name.Str? && name.s != "" ==> t == name.s
    ensures !(name.Str? && name.s != "") ==> t == "Unknown Food"
  {
    Or(name, Str("Unknown Food")).s
  }

  /** `food.energy_kcal || 0`: the energy, or 0 for any falsy one (NaN included). */
  function EnergyShown(energy: Value): (v: real)
    requires NumberLike(energy)
    ensures Truthy(energy) ==> v == energy.n
    ensures !Truthy(energy) ==> v == 0.0
  {
    Or(energy, Num(0.0)).n
  }
}
