/**
 * The HFS sub-score dialog (src/components/HFSScoresModal.tsx): a total block,
 * a portion block, and a fixed list of eight sub-score rows S1..S8, each with
 * its score to one decimal and a colour by thresholds 4 and 2.5.
 */
module HfsScoresModal {
  import opened Wrappers
  import opened Js
  import Text

  /** `x.toFixed(d)` for a number, which prints "NaN" for NaN. */
  function NumberText(v: Value, d: nat): string
    requires v.Num? || v.NaN?
  {
    if v.NaN? then "NaN" else Text.ToFixed(v.n, d)
  }

  /** `formatScore`: '—' for a missing score, else one decimal. */
  function FormatScore(score: Value): (t: string)
    requires NumberLike(score)
    ensures Nullish(score) ==> t == "—"
    ensures score.Num? ==> t == Text.ToFixed(score.n, 1)
    ensures score.NaN? ==> t == "NaN"
  {
    if Nullish(score) then "—" else NumberText(score, 1)
  }

  datatype Tone = Muted | Green | Yellow | Red

  /** `getScoreColor`: muted for a missing score, green from 4, yellow from 2.5, red below (and for NaN). */
  function ScoreColor(score: Value): (t: Tone)
    requires NumberLike(score)
    ensures t == Muted <==> Nullish(score)
    ensures t == Green <==> score.Num? && score.n >= 4.0
    ensures t == Yellow <==> score.Num? && 2.5 <= score.n < 4.0
    ensures t == Red <==> score.NaN? || (score.Num? && score.n < 2.5)
  {
    if Nullish(score) then Muted
    else if AtLeast(score, 4.0) then Green
    else if AtLeast(score, 2.5) then Yellow
    else Red
  }

  /** The keys of the sub-scores, in the order the dialog lists them. */
  const ScoreKeys: seq<string> := ["S1", "S2", "S3", "S4", "S5", "S6", "S7", "S8"]

  /** The Portuguese captions used when the dictionary has none. */
  const DefaultLabels: seq<string> := [
    "Açúcares (S1)", "Fibras (S2)", "Perfil de gorduras (S3)", "Densidade calórica (S4)",
    "Proteína (S5)", "Sódio (S6)", "Grau de processamento (S7)", "Aditivos (S8)"
  ]

  datatype ScoreRow = ScoreRow(key: string, caption: string, text: string, tone: Tone)

  /** `t.Sn || default` */
  function Caption(texts: map<string, string>, i: nat): string
    requires i < 8
  {
    if ScoreKeys[i] in texts && texts[ScoreKeys[i]] != "" then texts[ScoreKeys[i]] else DefaultLabels[i]
  }

  /** The values a scores object can hold under its keys. */
  predicate ScoresReadable(scores: Record) {
    forall k :: k in scores ==> NumberLike(scores[k])
  }

  /** The eight rows, whichever scores are present: row i is S(i+1) with that score's text and colour. */
  function Rows(scores: Record, texts: map<string, string>): (rows: seq<ScoreRow>)
    requires ScoresReadable(scores)
    ensures |rows| == 8
    ensures forall i :: 0 <= i < 8 ==>
      && rows[i].key == ScoreKeys[i]
      && rows[i].caption == Caption(texts, i)
      && rows[i].text == FormatScore(Get(scores, ScoreKeys[i]))
      && rows[i].tone == ScoreColor(Get(scores, ScoreKeys[i]))
  {
    seq(8, i requires 0 <= i < 8 =>
      ScoreRow(ScoreKeys[i], Caption(texts, i),
               FormatScore(Get(scores, ScoreKeys[i])), ScoreColor(Get(scores, ScoreKeys[i]))))
  }

  /** With no scores at all every row is still there, showing '—' in the muted colour. */
  lemma EmptyScoresRows(texts: map<string, string>)
    ensures forall i :: 0 <= i < 8 ==>
      Rows(map[], texts)[i].text == "—" && Rows(map[], texts)[i].tone == Muted
  {
  }

  /** What the open dialog shows besides the rows. */
  datatype View = View(
    total: Option<(string, Tone)>,
    portionBlock: bool,
    servingSize: Option<Value>,
    servingUnit: Option<string>,
    density: Option<string>,
    rows: seq<ScoreRow>)

  /**
   * The dialog, or None when closed. The total block shows iff the total is
   * neither undefined nor null; the portion block iff a serving size or a
   * density is defined or a unit is non-empty; inside it the density shows
   * only when defined, non-null and non-zero, with two decimals.
   */
  function Render(isOpen: bool, scores: Record, totalScore: Value, servingSize: Value,
                  servingUnit: Value, density: Value, texts: map<string, string>): (v: Option<View>)
    requires ScoresReadable(scores) && NumberLike(totalScore) && NumberLike(servingSize)
    requires StringLike(servingUnit) && NumberLike(density)
    ensures v.None? <==> !isOpen
    ensures v.Some? ==> (v.value.total.Some? <==> !Nullish(totalScore))
    ensures v.Some? && !Nullish(totalScore) ==>
      v.value.total == Some((FormatScore(totalScore), ScoreColor(totalScore)))
    ensures v.Some? ==> (v.value.portionBlock <==>
      !servingSize.Undefined? || Truthy(servingUnit) || !density.Undefined?)
    ensures v.Some? ==> (v.value.density.Some? <==> !Nullish(density) && density != Num(0.0))
    ensures v.Some? && density.Num? && density.n != 0.0 ==> v.value.density == Some(Text.ToFixed(density.n, 2))
    ensures v.Some? ==> v.value.rows == Rows(scores, texts)
  {
    if !isOpen then None
    else
      Some(View(
        if !Nullish(totalScore) then Some((FormatScore(totalScore), ScoreColor(totalScore))) else None,
        !servingSize.Undefined? || Truthy(servingUnit) || !density.Undefined?,
        if !Nullish(servingSize) then Some(servingSize) else None,
        if Truthy(servingUnit) then Some(servingUnit.s) else None,
        if !Nullish(density) && density != Num(0.0) then Some(NumberText(density, 2)) else None,
        Rows(scores, texts)))
  }

  /** A null serving size opens the portion block but shows no size in it. */
  lemma NullServingSize(scores: Record, totalScore: Value, density: Value, texts: map<string, string>)
    requires ScoresReadable(scores) && NumberLike(totalScore) && NumberLike(density)
    ensures var v := Render(true, scores, totalScore, Null, Undefined, density, texts).value;
      v.portionBlock && v.servingSize.None?
  {
  }
}
