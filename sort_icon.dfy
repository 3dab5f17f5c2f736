/** The sort arrow of a table header (src/components/SortIcon.tsx). */
module SortIcon {
  import TableSort
  import FoodTable

  /** Neutral off the sort column, ▲ on it when ascending, ▼ when descending. */
  function Icon(column: string, currentColumn: string, order: TableSort.Order): (g: FoodTable.Glyph)
    ensures column != currentColumn ==> g == FoodTable.Neutral
    ensures column == currentColumn && order == TableSort.Asc ==> g == FoodTable.Up
    ensures column == currentColumn && order == TableSort.Desc ==> g == FoodTable.Down
  {
    if currentColumn != column then FoodTable.Neutral
    else if order == TableSort.Asc then FoodTable.Up
    else FoodTable.Down
  }

  /** The component and the table's inline helper choose the same arrow for every input. */
  lemma AgreesWithTable(column: string, currentColumn: string, order: TableSort.Order)
    ensures Icon(column, currentColumn, order) == FoodTable.InlineSortIcon(currentColumn, order, column)
  {
  }
}
