/**
 * The helpers of the HFS badge (src/components/HFSLabel.tsx) on the 0–100
 * scale: a designation by thresholds 75/50/30, a colour by score, its
 * translucent background, and the shown score. The colour helper as written
 * (`Color`) runs its segments in the opposite direction to the gradient it
 * describes and jumps at 30, 50 and 75; the background is built from it.
 * `GradientColor` is the smooth red–yellow–green–cyan–blue gradient, and
 * `CorrectedBackground` the background built from that.
 */
module HfsLabel {
  import opened Wrappers
  import Text
  import Js

  /** The localized designations; a missing or empty one falls back to Portuguese. */
  datatype Designations = Designations(
    excellent: Option<string>, good: Option<string>, moderate: Option<string>, poor: Option<string>)

  /** The four bands of the scale, and no band for a negative score. */
  datatype Band = NoBand | Poor | Moderate | Good | Excellent

  function Rank(b: Band): nat {
    match b
    case NoBand => 0
    case Poor => 1
    case Moderate => 2
    case Good => 3
    case Excellent => 4
  }

  function BandOf(score: real): (b: Band)
    ensures b == NoBand <==> score < 0.0
    ensures b == Excellent <==> score >= 75.0
    ensures b == Good <==> 50.0 <= score < 75.0
    ensures b == Moderate <==> 30.0 <= score < 50.0
    ensures b == Poor <==> 0.0 <= score < 30.0
  {
    if score < 0.0 then NoBand
    else if score >= 75.0 then Excellent
    else if score >= 50.0 then Good
    else if score >= 30.0 then Moderate
    else Poor
  }

  /** A higher score never lands in a lower band. */
  lemma BandMonotone(s1: real, s2: real)
    requires s1 <= s2
    ensures Rank(BandOf(s1)) <= Rank(BandOf(s2))
  {
  }

  /** `getHFSDesignation` */
  function Designation(score: real, texts: Designations): (r: string)
    ensures score < 0.0 ==> r == ""
    ensures score >= 75.0 ==> r == Js.Pick(texts.excellent, "ótimo")
    ensures 50.0 <= score < 75.0 ==> r == Js.Pick(texts.good, "bom")
    ensures 30.0 <= score < 50.0 ==> r == Js.Pick(texts.moderate, "moderado / usar com cautela")
    ensures 0.0 <= score < 30.0 ==> r == Js.Pick(texts.poor, "ruim / melhor evitar como rotina")
  {
    match BandOf(score)
    case NoBand => ""
    case Excellent => Js.Pick(texts.excellent, "ótimo")
    case Good => Js.Pick(texts.good, "bom")
    case Moderate => Js.Pick(texts.moderate, "moderado / usar com cautela")
    case Poor => Js.Pick(texts.poor, "ruim / melhor evitar como rotina")
  }

  datatype Rgb = Rgb(r: int, g: int, b: int)

  predicate InRange(c: Rgb) {
    0 <= c.r <= 255 && 0 <= c.g <= 255 && 0 <= c.b <= 255
  }

  /** `Math.max(0, Math.min(100, score))` */
  function Clamp(score: real): (c: real)
    ensures 0.0 <= c <= 100.0
    ensures 0.0 <= score <= 100.0 ==> c == score
  {
    if score < 0.0 then 0.0 else if score > 100.0 then 100.0 else score
  }

  /** Math.round of a value in [0, 255] stays in [0, 255]. */
  lemma RoundChannel(x: real)
    requires 0.0 <= x <= 255.0
    ensures 0 <= Text.Round(x) <= 255
  {
  }

  /** `getHFSColor`: grey for a negative score, else the gradient at the clamped score. */
  function Color(score: real): (c: Rgb)
    ensures InRange(c)
    ensures score < 0.0 ==> c == Rgb(128, 128, 128)
  {
    if score < 0.0 then Rgb(128, 128, 128)
    else
      var s := Clamp(score);
      if s >= 75.0 then
        var factor := (s - 75.0) / 25.0;
        RoundChannel(100.0 + 155.0 * factor);
        Rgb(0, Text.Round(100.0 + 155.0 * factor), 255)
      else if s >= 50.0 then
        var factor := (s - 50.0) / 25.0;
        RoundChannel(255.0 * (1.0 - factor));
        Rgb(0, 255, Text.Round(255.0 * (1.0 - factor)))
      else if s >= 30.0 then
        var factor := (s - 30.0) / 20.0;
        RoundChannel(255.0 * factor);
        Rgb(Text.Round(255.0 * factor), 255, 0)
      else
        var factor := s / 30.0;
        RoundChannel(255.0 * factor);
        Rgb(255, Text.Round(255.0 * factor), 0)
  }

  /** The ends of the gradient: red at 0 and cyan for every score of 100 or more. */
  lemma ColorEnds(score: real)
    ensures Color(0.0) == Rgb(255, 0, 0)
    ensures score >= 100.0 ==> Color(score) == Rgb(0, 255, 255)
  {
    assert Text.Round(255.0) == 255;
    assert Text.Round(0.0) == 0;
  }

  /** Green at 30, cyan at 50 and blue at 75: the value each segment starts from. */
  lemma ColorJoints()
    ensures Color(30.0) == Rgb(0, 255, 0)
    ensures Color(50.0) == Rgb(0, 255, 255)
    ensures Color(75.0) == Rgb(0, 100, 255)
  {
    assert Text.Round(0.0) == 0;
    assert Text.Round(255.0) == 255;
    assert Text.Round(100.0) == 100;
  }

  /**
   * Just below each joint the colour is nowhere near the colour at the joint:
   * a tenth of a point below 30, 50 and 75 the gradient shows yellow, yellow
   * and green, at the joint green, cyan and blue.
   */
  lemma ColorJumps()
    ensures Color(29.9) == Rgb(255, 254, 0) && Color(30.0) == Rgb(0, 255, 0)
    ensures Color(49.9) == Rgb(254, 255, 0) && Color(50.0) == Rgb(0, 255, 255)
    ensures Color(74.9) == Rgb(0, 255, 1) && Color(75.0) == Rgb(0, 100, 255)
  {
    ColorJoints();
    assert Text.Round(255.0 * (29.9 / 30.0)) == 254;
    assert Text.Round(255.0 * ((49.9 - 30.0) / 20.0)) == 254;
    assert Text.Round(255.0 * (1.0 - (74.9 - 50.0) / 25.0)) == 1;
  }

  /** Within [0, 30) green rises with the score, within [30, 50) red does; the other channels are fixed there. */
  lemma ColorMonotone(s1: real, s2: real)
    requires 0.0 <= s1 <= s2
    ensures s2 < 30.0 ==> Color(s1).r == Color(s2).r == 255 && Color(s1).g <= Color(s2).g
    ensures 30.0 <= s1 && s2 < 50.0 ==> Color(s1).g == Color(s2).g == 255 && Color(s1).r <= Color(s2).r
    ensures 50.0 <= s1 && s2 < 75.0 ==> Color(s1).b >= Color(s2).b
    ensures 75.0 <= s1 ==> Color(s1).g <= Color(s2).g
  {
    var c1, c2 := Clamp(s1), Clamp(s2);
    if s2 < 30.0 {
      Text.RoundMonotone(255.0 * (c1 / 30.0), 255.0 * (c2 / 30.0));
    } else if 30.0 <= s1 && s2 < 50.0 {
      Text.RoundMonotone(255.0 * ((c1 - 30.0) / 20.0), 255.0 * ((c2 - 30.0) / 20.0));
    } else if 50.0 <= s1 && s2 < 75.0 {
      Text.RoundMonotone(255.0 * (1.0 - (c2 - 50.0) / 25.0), 255.0 * (1.0 - (c1 - 50.0) / 25.0));
    } else if 75.0 <= s1 {
      Text.RoundMonotone(100.0 + 155.0 * ((c1 - 75.0) / 25.0), 100.0 + 155.0 * ((c2 - 75.0) / 25.0));
    }
  }

  /*
   * The gradient the colour helper describes: red at 0, yellow at 30, green at
   * 50, cyan at 75 and blue at 100, each channel moving linearly in between.
   * The levels are defined on the clamped score.
   */

  function RedLevel(s: real): (x: real)
    requires 0.0 <= s <= 100.0
    ensures 0.0 <= x <= 255.0
  {
    if s <= 30.0 then 255.0 else if s <= 50.0 then 255.0 * (50.0 - s) / 20.0 else 0.0
  }

  function GreenLevel(s: real): (x: real)
    requires 0.0 <= s <= 100.0
    ensures 0.0 <= x <= 255.0
  {
    if s <= 30.0 then 255.0 * s / 30.0 else if s <= 75.0 then 255.0 else 255.0 - 155.0 * (s - 75.0) / 25.0
  }

  function BlueLevel(s: real): (x: real)
    requires 0.0 <= s <= 100.0
    ensures 0.0 <= x <= 255.0
  {
    if s <= 50.0 then 0.0 else if s <= 75.0 then 255.0 * (s - 50.0) / 25.0 else 255.0
  }

  /** The corrected colour: grey for a negative score, else the smooth gradient at the clamped score. */
  function GradientColor(score: real): (c: Rgb)
    ensures InRange(c)
    ensures score < 0.0 ==> c == Rgb(128, 128, 128)
  {
    if score < 0.0 then Rgb(128, 128, 128)
    else
      var s := Clamp(score);
      RoundChannel(RedLevel(s));
      RoundChannel(GreenLevel(s));
      RoundChannel(BlueLevel(s));
      Rgb(Text.Round(RedLevel(s)), Text.Round(GreenLevel(s)), Text.Round(BlueLevel(s)))
  }

  /** The stops of the corrected gradient, in score order, and blue for every score of 100 or more. */
  lemma GradientStops(score: real)
    ensures GradientColor(0.0) == Rgb(255, 0, 0)
    ensures GradientColor(30.0) == Rgb(255, 255, 0)
    ensures GradientColor(50.0) == Rgb(0, 255, 0)
    ensures GradientColor(75.0) == Rgb(0, 255, 255)
    ensures score >= 100.0 ==> GradientColor(score) == Rgb(0, 100, 255)
  {
    assert Text.Round(0.0) == 0;
    assert Text.Round(255.0) == 255;
    assert Text.Round(100.0) == 100;
  }

  /** Each level moves by at most 12.75 per score point. */
  lemma LevelsSteady(s1: real, s2: real)
    requires 0.0 <= s1 <= s2 <= 100.0
    ensures -12.75 * (s2 - s1) <= RedLevel(s2) - RedLevel(s1) <= 12.75 * (s2 - s1)
    ensures -12.75 * (s2 - s1) <= GreenLevel(s2) - GreenLevel(s1) <= 12.75 * (s2 - s1)
    ensures -12.75 * (s2 - s1) <= BlueLevel(s2) - BlueLevel(s1) <= 12.75 * (s2 - s1)
  {
  }

  /** Rounding two levels to whole channels widens their distance by less than 1. */
  lemma RoundedDistance(x: real, y: real, d: real)
    requires -d <= y - x <= d
    ensures -d - 1.0 < (Text.Round(y) - Text.Round(x)) as real < d + 1.0
  {
  }

  /** Clamping never moves two scores further apart. */
  lemma ClampCloser(s1: real, s2: real)
    requires s1 <= s2
    ensures 0.0 <= Clamp(s2) - Clamp(s1) <= s2 - s1
  {
  }

  /**
   * The corrected gradient is smooth: scores a distance d apart get channels
   * less than 12.75 * d + 1 apart, so no small change of score changes the
   * colour by much.
   */
  lemma GradientSmooth(s1: real, s2: real)
    requires 0.0 <= s1 <= s2
    ensures var c1, c2, bound := GradientColor(s1), GradientColor(s2), 12.75 * (s2 - s1) + 1.0;
      && -bound < (c2.r - c1.r) as real < bound
      && -bound < (c2.g - c1.g) as real < bound
      && -bound < (c2.b - c1.b) as real < bound
  {
    var a, b := Clamp(s1), Clamp(s2);
    ClampCloser(s1, s2);
    LevelsSteady(a, b);
    var d := 12.75 * (b - a);
    assert d <= 12.75 * (s2 - s1);
    RoundedDistance(RedLevel(a), RedLevel(b), d);
    RoundedDistance(GreenLevel(a), GreenLevel(b), d);
    RoundedDistance(BlueLevel(a), BlueLevel(b), d);
  }

  /** A colour at alpha 0.15, as CSS `rgba(r, g, b, 0.15)` text. */
  function Translucent(c: Rgb): string {
    "rgba(" + Text.IntText(c.r) + ", " + Text.IntText(c.g) + ", " + Text.IntText(c.b) + ", 0.15)"
  }

  /** `getHFSBackgroundColor`: the colour of `getHFSColor`, as written, at alpha 0.15. */
  function Background(score: real): string {
    Translucent(Color(score))
  }

  /** The background the smooth gradient evidently intended gives. */
  function CorrectedBackground(score: real): string {
    Translucent(GradientColor(score))
  }

  /**
   * The background text reads back as the three channels of `getHFSColor`:
   * each is written as plain decimal digits whose value is the channel.
   */
  lemma BackgroundReadsBack(score: real)
    ensures var c := Color(score);
      && Background(score) == "rgba(" + Text.NatText(c.r) + ", " + Text.NatText(c.g) + ", " + Text.NatText(c.b) + ", 0.15)"
      && Text.DigitsValue(Text.NatText(c.r)) == c.r
      && Text.DigitsValue(Text.NatText(c.g)) == c.g
      && Text.DigitsValue(Text.NatText(c.b)) == c.b
  {
    var c := Color(score);
    Text.NatTextValue(c.r);
    Text.NatTextValue(c.g);
    Text.NatTextValue(c.b);
  }

  /** The corrected background reads back as the channels of the corrected colour. */
  lemma CorrectedBackgroundReadsBack(score: real)
    ensures var c := GradientColor(score);
      && CorrectedBackground(score) == "rgba(" + Text.NatText(c.r) + ", " + Text.NatText(c.g) + ", " + Text.NatText(c.b) + ", 0.15)"
      && Text.DigitsValue(Text.NatText(c.r)) == c.r
      && Text.DigitsValue(Text.NatText(c.g)) == c.g
      && Text.DigitsValue(Text.NatText(c.b)) == c.b
  {
    var c := GradientColor(score);
    Text.NatTextValue(c.r);
    Text.NatTextValue(c.g);
    Text.NatTextValue(c.b);
  }

  lemma ChannelTexts()
    ensures Text.IntText(0) == "0" && Text.IntText(128) == "128" && Text.IntText(255) == "255"
  {
    assert Text.NatText(128) == "128" by {
      assert Text.NatText(12) == "12" by { assert Text.NatText(1) == "1"; }
    }
    assert Text.NatText(255) == "255" by {
      assert Text.NatText(25) == "25" by { assert Text.NatText(2) == "2"; }
    }
  }

  /** A negative score gets a translucent grey from `getHFSBackgroundColor`. */
  lemma BackgroundGrey(score: real)
    requires score < 0.0
    ensures Background(score) == "rgba(128, 128, 128, 0.15)"
  {
    ChannelTexts();
  }

  /** Both colourings give a score of 0 a translucent red. */
  lemma BackgroundRed()
    ensures Background(0.0) == "rgba(255, 0, 0, 0.15)"
    ensures CorrectedBackground(0.0) == "rgba(255, 0, 0, 0.15)"
  {
    ColorEnds(0.0);
    GradientStops(0.0);
    ChannelTexts();
  }

  /** At 50 the code's background is cyan where the smooth gradient gives green. */
  lemma BackgroundsPartAt50()
    ensures Background(50.0) == "rgba(0, 255, 255, 0.15)"
    ensures CorrectedBackground(50.0) == "rgba(0, 255, 0, 0.15)"
  {
    ColorJoints();
    GradientStops(0.0);
    ChannelTexts();
  }

  /** The badge's style: a light grey for a negative score, else `getHFSBackgroundColor`. */
  function BadgeBackground(hfs: real): (t: string)
    ensures hfs < 0.0 ==> t == "rgba(240, 240, 240, 0.15)"
    ensures hfs >= 0.0 ==> t == Background(hfs)
  {
    if hfs < 0.0 then "rgba(240, 240, 240, 0.15)" else Background(hfs)
  }

  /** The shown score: one decimal when not negative, else '—'. */
  function DisplayScore(hfs: real): (t: string)
    ensures hfs < 0.0 ==> t == "—"
    ensures hfs >= 0.0 ==> t == Text.ToFixed(hfs, 1)
  {
    if hfs >= 0.0 then Text.ToFixed(hfs, 1) else "—"
  }
}
