/** The history gallery: every finished render appends a thumbnail holding
    the data needed to restore it, the gallery keeps only the newest
    `HISTORY_MAX` thumbnails, and clicking one restores its state. The image
    data URL is a parameter; the DOM elements are not modelled. */
module History {
  import opened Wrappers
  import opened Text
  import opened Numbers
  import opened Formats
  import opened Tokens
  import opened EditorState

  /** `HISTORY_MAX`. */
  const HistoryMax: nat := 6

  /** `makeSnapshot()`; `img` is the canvas image as a data URL. */
  datatype Snapshot = Snapshot(
    img: string,
    token: int,
    format: Format,
    mode: BgMode,
    customFile: Option<string>,
    gmCups: bool)

  function MakeSnapshot(e: Editor, img: string): Snapshot {
    Snapshot(img, Token(e), e.format, e.mode, Selected(e, e.format), e.gmCups)
  }

  /** The restore data a thumbnail keeps in its `dataset`, as strings. The
      format is always written from a snapshot, so it is always a format
      key. */
  datatype Thumb = Thumb(
    token: string,
    format: Format,
    mode: string,
    customFile: string,
    gmCups: string)

  /** The dataset `addToHistory` writes for a snapshot. */
  function ToThumb(s: Snapshot): Thumb {
    Thumb(IntToString(s.token), s.format, ModeName(s.mode), s.customFile.GetOr(""), if s.gmCups then "1" else "0")
  }

  type Gallery = seq<Thumb>

  /** The newest `HISTORY_MAX` entries of a list. */
  function Newest(g: Gallery): (r: Gallery)
    ensures |r| == Min(|g|, HistoryMax)
  {
    if |g| <= HistoryMax then g else g[|g| - HistoryMax..]
  }

  /** Eviction: the oldest entry is removed, one at a time, while there are
      more than `HISTORY_MAX`. */
  function Evict(g: Gallery): (r: Gallery)
    ensures |r| == Min(|g|, HistoryMax)
    ensures r == g[|g| - |r|..]
    decreases |g|
  {
    if |g| <= HistoryMax then g else Evict(g[1..])
  }

  /** Eviction keeps exactly the newest entries. */
  lemma EvictIsNewest(g: Gallery)
    ensures Evict(g) == Newest(g)
  {
  }

  /** `addToHistory(snapshot)`: a snapshot without an image is ignored. */
  function AddToHistory(g: Gallery, s: Snapshot): (r: Gallery)
    ensures s.img == "" ==> r == g
    ensures s.img != "" ==> |r| == Min(|g| + 1, HistoryMax) && r[|r| - 1] == ToThumb(s)
    ensures s.img != "" && |g| < HistoryMax ==> r == g + [ToThumb(s)]
    ensures s.img != "" && |g| >= HistoryMax ==> r == g[|g| - HistoryMax + 1..] + [ToThumb(s)]
  {
    if s.img == "" then g
    else
      var r := Evict(g + [ToThumb(s)]);
      assert |g| >= HistoryMax ==> (g + [ToThumb(s)])[|g| + 1 - HistoryMax..] == g[|g| - HistoryMax + 1..] + [ToThumb(s)];
      r
  }

  /** The gallery after a sequence of finished renders, oldest first. */
  function Replay(g: Gallery, snaps: seq<Snapshot>): Gallery
    decreases |snaps|
  {
    if |snaps| == 0 then g
    else AddToHistory(Replay(g, snaps[..|snaps| - 1]), snaps[|snaps| - 1])
  }

  function Thumbs(snaps: seq<Snapshot>): (r: seq<Thumb>)
    ensures |r| == |snaps|
    ensures forall i :: 0 <= i < |snaps| ==> r[i] == ToThumb(snaps[i])
  {
    seq(|snaps|, i requires 0 <= i < |snaps| => ToThumb(snaps[i]))
  }

  /** Keeping the newest entries and then appending one keeps the same
      entries as appending first. */
  lemma NewestAppend(xs: Gallery, t: Thumb)
    ensures Newest(Newest(xs) + [t]) == Newest(xs + [t])
  {
  }

  /** The thumbnails of a list of snapshots end with its last one's. */
  lemma ThumbsSnoc(snaps: seq<Snapshot>)
    requires |snaps| > 0
    ensures Thumbs(snaps) == Thumbs(snaps[..|snaps| - 1]) + [ToThumb(snaps[|snaps| - 1])]
  {
    var a := Thumbs(snaps);
    var b := Thumbs(snaps[..|snaps| - 1]) + [ToThumb(snaps[|snaps| - 1])];
    assert |a| == |b|;
    forall i | 0 <= i < |a|
      ensures a[i] == b[i]
    {
      if i < |snaps| - 1 {
        assert snaps[..|snaps| - 1][i] == snaps[i];
      }
    }
  }

  /** Whatever the number of renders, the gallery holds the newest
      `HISTORY_MAX` of the earlier entries and the new thumbnails, in
      order, oldest dropped first. */
  lemma {:induction false} ReplayKeepsNewest(g: Gallery, snaps: seq<Snapshot>)
    requires |g| <= HistoryMax
    requires forall i :: 0 <= i < |snaps| ==> snaps[i].img != ""
    ensures Replay(g, snaps) == Newest(g + Thumbs(snaps))
    ensures |Replay(g, snaps)| <= HistoryMax
    decreases |snaps|
  {
    if |snaps| == 0 {
      assert g + Thumbs(snaps) == g;
    } else {
      var init := snaps[..|snaps| - 1];
      assert forall i :: 0 <= i < |init| ==> init[i].img != "" by {
        forall i | 0 <= i < |init|
          ensures init[i].img != ""
        {
          assert init[i] == snaps[i];
        }
      }
      ReplayKeepsNewest(g, init);
      ReplayStep(g, snaps);
    }
  }

  /** One more render keeps the gallery the newest entries. */
  lemma ReplayStep(g: Gallery, snaps: seq<Snapshot>)
    requires |snaps| > 0 && snaps[|snaps| - 1].img != ""
    requires Replay(g, snaps[..|snaps| - 1]) == Newest(g + Thumbs(snaps[..|snaps| - 1]))
    ensures Replay(g, snaps) == Newest(g + Thumbs(snaps))
  {
    var init := snaps[..|snaps| - 1];
    var last := snaps[|snaps| - 1];
    var w := Replay(g, init);
    var t := ToThumb(last);
    assert Replay(g, snaps) == Evict(w + [t]);
    EvictIsNewest(w + [t]);
    NewestAppend(g + Thumbs(init), t);
    ThumbsSnoc(snaps);
    assert g + Thumbs(snaps) == (g + Thumbs(init)) + [t];
  }

  /** Clicking a thumbnail: every restored field replaces the state's, the
      mode is normalised, the token clamped, the stored custom file written
      only in custom mode and when non-empty, and the restored format's menu
      is populated, so that without a stored file the format keeps its
      remembered selection or falls back to its default background. */
  function Restore(e: Editor, th: Thumb): (r: Editor)
    ensures r.format == th.format
    ensures r.tokens == [ClampText(th.token)]
    ensures r.mode == ParseMode(th.mode)
    ensures th.mode != "custom" && th.mode != "none" ==> r.mode == Nft
    ensures r.gmCups == (th.gmCups == "1")
    ensures r.mode == Custom && th.customFile != "" ==> Selected(r, r.format) == Some(th.customFile)
    ensures !(r.mode == Custom && th.customFile != "") ==>
      Selected(r, r.format) == Some(Selected(e, th.format).GetOr(Spec(th.format).defaultBg))
    ensures SameOtherSelections(r, e, th.format)
    ensures Selected(e, th.format).Some? && (r.mode != Custom || th.customFile == "") ==>
      Lookup(r.selectedCustom, th.format) == Lookup(e.selectedCustom, th.format)
  {
    var mode := ParseMode(th.mode);
    var selected := if mode == Custom && th.customFile != "" then e.selectedCustom[th.format := th.customFile]
                    else e.selectedCustom;
    PopulateCustomSelect(Editor(th.format, [ClampText(th.token)], mode, selected, th.gmCups == "1"))
  }

  /** Restoring a render's thumbnail brings back the format, the token, the
      background mode, the cups switch and, in custom mode, the selected
      file, whatever state it is restored over. */
  lemma RestoreSnapshot(base: Editor, e: Editor, img: string)
    requires InRange(Token(e))
    ensures var r := Restore(base, ToThumb(MakeSnapshot(e, img)));
      && r.format == e.format
      && r.tokens == [Token(e)]
      && r.mode == e.mode
      && r.gmCups == e.gmCups
      && (e.mode == Custom && Selected(e, e.format).Some? ==> Selected(r, r.format) == Selected(e, e.format))
  {
    var th := ToThumb(MakeSnapshot(e, img));
    assert th.token == IntToString(Token(e));
    assert ParseMode(th.mode) == e.mode;
    assert (th.gmCups == "1") == e.gmCups;
    assert e.mode == Custom && Selected(e, e.format).Some? ==> th.customFile == Selected(e, e.format).value;
    ClampTextSpec("", Token(e));
  }
}
