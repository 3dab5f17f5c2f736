/**
 * How the components that show an HFS score compare: the table, the card,
 * the profile dialog, the badge helpers and the editor all format the score
 * with one decimal, but they disagree on a score of 0 and on the scale.
 */
module ScoreDisplays {
  import opened Js
  import Text
  import FormHelpers
  import FoodTable
  import FoodCard
  import FoodProfile
  import HfsLabel

  lemma ZeroText()
    ensures Text.ToFixed(0.0, 1) == "0.0"
  {
    assert Text.Scale(0.0, 1) == 0.0;
    assert Text.Round(0.0) == 0;
    assert Text.Shift(0, 1) == 0 && Text.Low(0, 1) == 0;
    assert Text.NatText(0) == "0";
    assert Text.PadLeft("0", 1) == "0";
  }

  /** A score of 0 shows as '—' in the table but as "0.0" on the card. */
  lemma ZeroShownDifferently()
    ensures FoodTable.HfsCell(Num(0.0)) == "—"
    ensures FoodCard.Badge(Num(0.0)) == "0.0"
  {
    ZeroText();
  }

  /** Apart from a score of exactly 0, the table cell and the card badge show the same text. */
  lemma TableAndCardAgreeOffZero(hfs: Value)
    requires NumberLike(hfs) && hfs != Num(0.0)
    ensures FoodTable.HfsCell(hfs) == FoodCard.Badge(hfs)
  {
  }

  /** The table and the card colour every score alike (muted in the table is grey on the card). */
  lemma TableAndCardTonesAgree(hfs: Value)
    requires NumberLike(hfs)
    ensures FoodTable.HfsColor(hfs) == match FoodCard.BadgeTone(hfs)
      case Green => FoodTable.Green
      case Yellow => FoodTable.Yellow
      case Gray => FoodTable.Muted
      case Red => FoodTable.Red
  {
  }

  /**
   * For a number, the editor (clean draft), the badge and the card all show
   * the same text. The profile dialog's score text is `HfsLabel.DisplayScore`
   * itself: its rule at line 87 of FoodProfileModal.tsx is the badge's.
   */
  lemma NumberTextsAgree(hfs: real)
    ensures HfsLabel.DisplayScore(hfs) == FormHelpers.FormatHfsScore(Num(hfs), false)
    ensures HfsLabel.DisplayScore(hfs) == FoodCard.Badge(Num(hfs))
  {
  }

  /**
   * The badge helpers read the 0–100 scale while the profile dialog reads
   * 0–10: a score of 8 is excellent in the dialog and poor for the badge.
   */
  lemma ScalesDisagree()
    ensures FoodProfile.BandOf(8.0) == FoodProfile.Excellent
    ensures HfsLabel.BandOf(8.0) == HfsLabel.Poor
  {
  }
}
