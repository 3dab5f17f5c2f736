/**
 * The photo panel of the edit form (src/components/forms/ImageGallery.tsx):
 * the stored file name of an upload, the record column of each photo tab,
 * the merge of a rescan result into the draft, and the `uploading` and
 * `isRescanning` flags around the awaited storage and processing calls,
 * whose results are inputs here.
 */
module ImageGallery {
  import opened Wrappers
  import opened Js
  import Text

  /** `/[a-z0-9]/i` */
  predicate IsAsciiAlnum(c: char) {
    ('a' <= c <= 'z') || ('A' <= c <= 'Z') || ('0' <= c <= '9')
  }

  /** `name.replace(/[^a-z0-9]/gi, '_')`: every other character becomes '_'. */
  function SanitizeFileName(name: string): (r: string)
    ensures |r| == |name|
    ensures forall i :: 0 <= i < |name| ==> r[i] == (if IsAsciiAlnum(name[i]) then name[i] else '_')
  {
    if |name| == 0 then ""
    else [if IsAsciiAlnum(name[0]) then name[0] else '_'] + SanitizeFileName(name[1..])
  }

  /** A sanitized name holds only letters, digits and '_', so sanitizing it again changes nothing. */
  lemma SanitizeIdempotent(name: string)
    ensures forall i :: 0 <= i < |name| ==> IsAsciiAlnum(SanitizeFileName(name)[i]) || SanitizeFileName(name)[i] == '_'
    ensures SanitizeFileName(SanitizeFileName(name)) == SanitizeFileName(name)
  {
  }

  /** `${Date.now()}-${activeTab}-${sanitized name}` */
  function UploadFileName(now: nat, tab: string, fileName: string): string {
    Text.NatText(now) + "-" + tab + "-" + SanitizeFileName(fileName)
  }

  /** For a tab without '-', the stored name splits back at '-' into the time, the tab and the sanitized name. */
  lemma UploadFileNameReadsBack(now: nat, tab: string, fileName: string)
    requires '-' !in tab
    ensures Text.Split(UploadFileName(now, tab, fileName), '-') == [Text.NatText(now), tab, SanitizeFileName(fileName)]
  {
    var t, s := Text.NatText(now), SanitizeFileName(fileName);
    assert '-' !in t by {
      forall i | 0 <= i < |t| ensures t[i] != '-' {
        assert Text.IsDigit(t[i]);
      }
    }
    assert '-' !in s by {
      forall i | 0 <= i < |s| ensures s[i] != '-' {
        SanitizeIdempotent(fileName);
      }
    }
    var parts := [t, tab, s];
    assert parts[1..] == [tab, s] && parts[1..][1..] == [s];
    assert Text.Join([s], "-") == s;
    assert Text.Join([tab, s], "-") == tab + "-" + s;
    assert Text.Join(parts, "-") == t + "-" + Text.Join([tab, s], "-");
    assert t + "-" + (tab + "-" + s) == UploadFileName(now, tab, fileName);
    Text.SplitJoin(parts, '-');
  }

  /** `TAB_CONFIG`: each photo tab and the record column holding its URL. */
  const TabConfig: seq<(string, string)> := [
    ("front", "front_photo_url"),
    ("back", "back_photo_url"),
    ("nutrition", "nutrition_label_url"),
    ("ingredients", "ingredients_photo_url")
  ]

  /** `TAB_CONFIG.find(t => t.id === tab)?.dbKey` */
  function DbKeyIn(config: seq<(string, string)>, tab: string): (k: Option<string>)
    ensures k.None? <==> forall i :: 0 <= i < |config| ==> config[i].0 != tab
    ensures k.Some? ==> exists i :: 0 <= i < |config| && config[i] == (tab, k.value)
  {
    if |config| == 0 then None
    else if config[0].0 == tab then Some(config[0].1)
    else DbKeyIn(config[1..], tab)
  }

  function TabDbKey(tab: string): Option<string> {
    DbKeyIn(TabConfig, tab)
  }

  /** The four tabs map to four different columns, and any other tab to none. */
  lemma TabDbKeys(tab: string)
    ensures TabDbKey("front") == Some("front_photo_url")
    ensures TabDbKey("back") == Some("back_photo_url")
    ensures TabDbKey("nutrition") == Some("nutrition_label_url")
    ensures TabDbKey("ingredients") == Some("ingredients_photo_url")
    ensures tab !in {"front", "back", "nutrition", "ingredients"} ==> TabDbKey(tab) == None
  {
  }

  /** The fields a rescan keeps from the draft when the new value is falsy. */
  const KeptOnEmptyRescan: set<string> := {"ingredients_raw", "nutrition_raw", "declared_special_nutrients"}

  /**
   * The update sent to the form after a rescan: the processed data, with the
   * three text fields taking the draft's value when the new one is falsy.
   */
  function RescanMerge(data: Record, formData: Record): (r: Record)
    ensures r.Keys == data.Keys + KeptOnEmptyRescan
    ensures forall k :: k in KeptOnEmptyRescan ==> r[k] == Or(Get(data, k), Get(formData, k))
    ensures forall k :: k in data && k !in KeptOnEmptyRescan ==> r[k] == data[k]
  {
    data["ingredients_raw" := Or(Get(data, "ingredients_raw"), Get(formData, "ingredients_raw"))]
        ["nutrition_raw" := Or(Get(data, "nutrition_raw"), Get(formData, "nutrition_raw"))]
        ["declared_special_nutrients" :=
           Or(Get(data, "declared_special_nutrients"), Get(formData, "declared_special_nutrients"))]
  }

  /** No locked-field set takes part: a field the draft holds is overwritten by any truthy new value. */
  lemma RescanOverwrites(data: Record, formData: Record, k: string)
    requires k in data && Truthy(data[k])
    ensures k in RescanMerge(data, formData) && RescanMerge(data, formData)[k] == data[k]
  {
  }

  /** The localized notices; a missing or empty one falls back to English. */
  datatype Notices = Notices(noPhoto: Option<string>, rescanSuccess: Option<string>, rescanError: Option<string>)

  /** How an upload ends: ignored, refused by the storage, or stored (with the record update for a known tab). */
  datatype UploadEffect =
    | Ignored
    | UploadFailed(fileName: string)
    | Uploaded(fileName: string, columnUpdate: Option<(string, string)>)

  /** How a rescan ends: no photo (nothing processed), processed and merged, or failed. */
  datatype RescanEffect =
    | NoImage(notice: string)
    | Rescanned(images: seq<string>, update: Record, notice: string)
    | RescanFailed(images: seq<string>, notice: string)

  /** The state of one ImageGallery. */
  class ImageGalleryState {
    var activeTab: string
    var uploading: bool
    var isRescanning: bool

    constructor ()
      ensures activeTab == "front" && !uploading && !isRescanning
    {
      activeTab := "front";
      uploading := false;
      isRescanning := false;
    }

    method SelectTab(tab: string)
      modifies this
      ensures activeTab == tab && uploading == old(uploading) && isRescanning == old(isRescanning)
    {
      activeTab := tab;
    }

    /**
     * `handleImageUpload`. `file` is the chosen file's name, `stored` the public
     * URL the storage gives back, or None when the upload fails. Without a
     * file or dictionary nothing happens; otherwise the flag is lowered at the end
     * whatever the outcome.
     */
    method HandleImageUpload(file: Option<string>, dictLoaded: bool, now: nat, stored: Option<string>)
      returns (r: UploadEffect)
      modifies this
      ensures activeTab == old(activeTab) && isRescanning == old(isRescanning)
      ensures file.None? || !dictLoaded ==> r == Ignored && uploading == old(uploading)
      ensures file.Some? && dictLoaded ==> !uploading
      ensures file.Some? && dictLoaded && stored.None? ==>
        r == UploadFailed(UploadFileName(now, activeTab, file.value))
      ensures file.Some? && dictLoaded && stored.Some? ==>
        r == Uploaded(UploadFileName(now, activeTab, file.value),
                      match TabDbKey(activeTab)
                      case Some(k) => Some((k, stored.value))
                      case None => None)
    {
      if file.None? || !dictLoaded {
        return Ignored;
      }
      uploading := true;
      var fileName := UploadFileName(now, activeTab, file.value);
      if stored.None? {
        r := UploadFailed(fileName);
      } else {
        var dbKey := TabDbKey(activeTab);
        if dbKey.Some? {
          r := Uploaded(fileName, Some((dbKey.value, stored.value)));
        } else {
          r := Uploaded(fileName, None);
        }
      }
      uploading := false;
    }

    /**
     * `handleRescan`. `processed` is what the processing call returns, or None
     * when it throws. Without a photo on the active tab nothing is processed
     * and the flag is untouched; otherwise the flag is lowered at the end.
     */
    method HandleRescan(images: map<string, string>, formData: Record, processed: Option<Record>, notices: Notices)
      returns (r: RescanEffect)
      modifies this
      ensures activeTab == old(activeTab) && uploading == old(uploading)
      ensures (activeTab !in images || images[activeTab] == "") ==>
        r == NoImage(Pick(notices.noPhoto, "No image available to rescan")) && isRescanning == old(isRescanning)
      ensures activeTab in images && images[activeTab] != "" ==> !isRescanning
      ensures activeTab in images && images[activeTab] != "" && processed.Some? ==>
        r == Rescanned([images[activeTab]], RescanMerge(processed.value, formData),
                       Pick(notices.rescanSuccess, "Image rescanned successfully"))
      ensures activeTab in images && images[activeTab] != "" && processed.None? ==>
        r == RescanFailed([images[activeTab]], Pick(notices.rescanError, "Failed to rescan image"))
    {
      if activeTab !in images || images[activeTab] == "" {
        return NoImage(Pick(notices.noPhoto, "No image available to rescan"));
      }
      var currentImage := images[activeTab];
      isRescanning := true;
      match processed {
        case Some(data) =>
          r := Rescanned([currentImage], RescanMerge(data, formData),
                         Pick(notices.rescanSuccess, "Image rescanned successfully"));
        case None =>
          r := RescanFailed([currentImage], Pick(notices.rescanError, "Failed to rescan image"));
      }
      isRescanning := false;
    }
  }
}
