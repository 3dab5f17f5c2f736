/**
 * The food table (src/components/FoodTable.tsx): the colour of the HFS badge
 * by thresholds 4 and 2.5 on the 0–10 scale, the text of the HFS cell, the
 * brand cell and the sort arrow of each header.
 */
module FoodTable {
  import opened Js
  import Text
  import TableSort

  datatype Tone = Green | Yellow | Muted | Red

  /** `getHFSColor`: green from 4, yellow from 2.5, muted below 0, red otherwise (null, NaN and undefined included). */
  function HfsColor(score: Value): (t: Tone)
    requires NumberLike(score)
    ensures t == Green <==> AtLeast(score, 4.0)
    ensures t == Yellow <==> AtLeast(score, 2.5) && !AtLeast(score, 4.0)
    ensures t == Muted <==> Below(score, 0.0)
    ensures t == Red <==> !AtLeast(score, 2.5) && !Below(score, 0.0)
  {
    if AtLeast(score, 4.0) then Green
    else if AtLeast(score, 2.5) then Yellow
    else if Below(score, 0.0) then Muted
    else Red
  }

  /** The HFS cell: one decimal only for a truthy, non-negative score; so 0 shows '—'. */
  function HfsCell(hfs: Value): (t: string)
    requires NumberLike(hfs)
    ensures t != "—" <==> hfs.Num? && hfs.n > 0.0
    ensures hfs.Num? && hfs.n > 0.0 ==> t == Text.ToFixed(hfs.n, 1)
  {
    if Truthy(hfs) && AtLeast(hfs, 0.0) then Text.ToFixed(hfs.n, 1) else "—"
  }

  /** `food.brand || '—'` */
  function BrandCell(brand: Value): (t: string)
    requires StringLike(brand)
    ensures brand.Str? && brand.s != "" ==> t == brand.s
    ensures !(brand.Str? && brand.s != "") ==> t == "—"
  {
    Or(brand, Str("—")).s
  }

  datatype Glyph = Neutral | Up | Down

  /** The inline `SortIcon` of the table header. */
  function InlineSortIcon(sortKey: string, order: TableSort.Order, column: string): (g: Glyph)
    ensures g == Neutral <==> sortKey != column
    ensures g == Up <==> sortKey == column && order == TableSort.Asc
  {
    if sortKey != column then Neutral
    else if order == TableSort.Asc then Up
    else Down
  }
}
