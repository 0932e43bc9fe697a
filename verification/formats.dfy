/** The fixed output formats and the per-format constant tables of the
    editor: dimensions, default background, file suffix, built-in preset
    baseline, scale lock and the custom background menu. */
module Formats {
  import opened Wrappers

  datatype Format = Square | PhoneSaver | Raid

  datatype FormatSpec = FormatSpec(
    key: string, name: string, width: nat, height: nat,
    defaultBg: string, fileSuffix: string)

  /** One entry of the `FORMATS` table. */
  function Spec(f: Format): FormatSpec {
    match f
    case Square => FormatSpec("square", "Square", 1080, 1080, "square1.png", "square")
    case PhoneSaver => FormatSpec("phonesaver", "Phone Saver", 1080, 2340, "phone1.png", "phonesaver")
    case Raid => FormatSpec("raid", "Raid", 1600, 900, "raid1.png", "raid")
  }

  function Key(f: Format): string {
    Spec(f).key
  }

  /** `FORMATS[s]` used as a validity test: only the three own keys name a
      format. */
  function ParseFormat(s: string): (r: Option<Format>)
    ensures r.Some? ==> Key(r.value) == s
    ensures forall f: Format :: Key(f) == s ==> r == Some(f)
  {
    if s == "square" then Some(Square)
    else if s == "phonesaver" then Some(PhoneSaver)
    else if s == "raid" then Some(Raid)
    else None
  }

  /** `LOCK_SCALE_FORMATS`: only the phone format keeps its character scale
      across custom backgrounds. */
  const LockScaleKeys: set<string> := {"phonesaver"}

  predicate LockScale(f: Format) {
    Key(f) in LockScaleKeys
  }

  /** A menu entry `{label, file}`; `title` holds the label. */
  datatype BgEntry = BgEntry(title: string, file: string)

  /** `CUSTOM_BG[f]`: the custom background menu of a format, in menu order. */
  function CustomBgs(f: Format): seq<BgEntry> {
    match f
    case Square => [
      BgEntry("Rascals on Apechain", "square1.png"),
      BgEntry("Apechain Rascals", "square2.png"),
      BgEntry("Want to play a game", "square3.png"),
      BgEntry("To the moon", "square4.png")]
    case PhoneSaver => [
      BgEntry("Color Brown/White", "phone1.png"),
      BgEntry("Color Dark/Yellow", "phone2.png"),
      BgEntry("Color Dark/Orange", "phone3.png"),
      BgEntry("Color Blue/White", "phone4.png")]
    case Raid => [
      BgEntry("WELCOME TO THE APECHAIN", "raid1.png"),
      BgEntry("JOIN THE RASCALS", "raid2.png"),
      BgEntry("GET YOUR GRAILS NOW", "raid3.png"),
      BgEntry("YOU AINT SEEN NOTHING YET", "raid4.png"),
      BgEntry("BUY HOLD BELIEVE", "raid5.png"),
      BgEntry("UNITED AS ONE", "raid6.png")]
  }

  /** Every menu is non-empty, names non-empty files, names each file once,
      and offers the format's default background first. */
  lemma CustomBgsWellFormed(f: Format)
    ensures |CustomBgs(f)| > 1
    ensures CustomBgs(f)[0].file == Spec(f).defaultBg
    ensures forall i :: 0 <= i < |CustomBgs(f)| ==> CustomBgs(f)[i].file != ""
    ensures forall i, j :: 0 <= i < j < |CustomBgs(f)| ==> CustomBgs(f)[i].file != CustomBgs(f)[j].file
  {
  }
}
