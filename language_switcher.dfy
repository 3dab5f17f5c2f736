/**
 * The language selector (src/components/LanguageSwitcher.tsx): the current
 * language is the second '/'-separated segment of the path, and choosing a
 * language rewrites that segment and keeps the rest of the path.
 */
module LanguageSwitcher {
  import Text

  /** `pathname.split('/')[1] || 'pt'` */
  function CurrentLang(pathname: string): (lang: string)
    ensures lang != ""
  {
    var segments := Text.Split(pathname, '/');
    if |segments| > 1 && segments[1] != "" then segments[1] else "pt"
  }

  /** A path whose second segment is missing or empty is read as Portuguese. */
  lemma DefaultLang(pathname: string)
    requires |Text.Split(pathname, '/')| < 2 || Text.Split(pathname, '/')[1] == ""
    ensures CurrentLang(pathname) == "pt"
  {
  }

  /** `segments[1] = lang` on a JavaScript array: the slot is replaced, or added when the array has only one element. */
  function WithLang(segments: seq<string>, lang: string): (r: seq<string>)
    requires |segments| >= 1
    ensures |r| == if |segments| < 2 then 2 else |segments|
    ensures r[1] == lang
    ensures forall i :: 0 <= i < |segments| && i != 1 ==> r[i] == segments[i]
  {
    if |segments| > 1 then segments[1 := lang] else segments + [lang]
  }

  /** The path `handleLanguageChange` pushes. */
  function RewritePath(pathname: string, lang: string): string {
    Text.Join(WithLang(Text.Split(pathname, '/'), lang), "/")
  }

  /** `handleLanguageChange` without the navigation: split, set segment 1, join. */
  method HandleLanguageChange(pathname: string, newLang: string) returns (newPath: string)
    ensures newPath == RewritePath(pathname, newLang)
  {
    var segments := Text.Split(pathname, '/');
    if |segments| > 1 {
      segments := segments[1 := newLang];
    } else {
      segments := segments + [newLang];
    }
    newPath := Text.Join(segments, "/");
  }

  /**
   * For a language without '/', the new path splits into the old segments
   * with segment 1 replaced: max(n, 2) segments, all but the second unchanged.
   */
  lemma RewriteSegments(pathname: string, lang: string)
    requires '/' !in lang
    ensures Text.Split(RewritePath(pathname, lang), '/') == WithLang(Text.Split(pathname, '/'), lang)
  {
    var segs := WithLang(Text.Split(pathname, '/'), lang);
    forall i | 0 <= i < |segs| ensures '/' !in segs[i] {
      if i != 1 {
        assert segs[i] == Text.Split(pathname, '/')[i];
      }
    }
    Text.SplitJoin(segs, '/');
  }

  /** After switching to a non-empty language without '/', that language is the current one. */
  lemma SwitchedLangIsCurrent(pathname: string, lang: string)
    requires lang != "" && '/' !in lang
    ensures CurrentLang(RewritePath(pathname, lang)) == lang
  {
    RewriteSegments(pathname, lang);
  }

  /** Switching twice to the same language gives the path of switching once. */
  lemma RewriteIdempotent(pathname: string, lang: string)
    requires '/' !in lang
    ensures RewritePath(RewritePath(pathname, lang), lang) == RewritePath(pathname, lang)
  {
    RewriteSegments(pathname, lang);
    var segs := WithLang(Text.Split(pathname, '/'), lang);
    assert WithLang(segs, lang) == segs;
  }
}
