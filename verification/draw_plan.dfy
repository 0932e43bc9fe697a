/** What `renderSceneCore` draws, in order: the background (a custom file,
    the token's own BACKGROUND layer, or nothing), the character layers in
    the fixed `AFFECTED_LAYERS` order, and the optional GMCUPS overlay, plus
    the transform preset the character is drawn with. Pixels, image loading
    and the cover geometry are not modelled: a plan is a list of sources. */
module DrawPlan {
  import opened Wrappers
  import opened Text
  import opened Formats
  import opened Metadata
  import opened Presets
  import opened EditorState

  /** An image the renderer draws: a custom background of a format
      (`assets/costumbackgrounds/<fmt>/<file>`) or a layer image
      (`assets/layers/<folder>/<file>.png`). */
  datatype Source =
    | CustomBg(format: Format, file: string)
    | Layer(folder: string, file: string)

  datatype LayerEntry = LayerEntry(key: string, folder: string)

  /** `LAYER_ORDER`. */
  const LayerOrder: seq<LayerEntry> := [
    LayerEntry("BACKGROUND", "BACKGROUND"),
    LayerEntry("BODY", "BODY"),
    LayerEntry("CLOTHING", "CLOTHING"),
    LayerEntry("EXTRA", "EXTRA"),
    LayerEntry("HEADSTUFF", "HEADSTUFF"),
    LayerEntry("MOUTHS", "MOUTHS"),
    LayerEntry("ONE OF ONE", "ONE OF ONE")]

  /** `AFFECTED_LAYERS`: the character layers, bottom to top. */
  const AffectedLayers: seq<string> := ["BODY", "CLOTHING", "EXTRA", "HEADSTUFF", "MOUTHS", "ONE OF ONE"]

  /** The first entry of the table with the given key, if any. */
  function FindEntry(list: seq<LayerEntry>, key: string): (r: Option<LayerEntry>)
    ensures r.Some? ==> r.value in list && r.value.key == key
    ensures r.None? ==> forall i :: 0 <= i < |list| ==> list[i].key != key
    decreases |list|
  {
    if |list| == 0 then None
    else if list[0].key == key then Some(list[0])
    else FindEntry(list[1..], key)
  }

  /** A trait value that is drawn: present, non-empty and not `None`. */
  predicate Drawable(values: TraitValues, k: string) {
    k in values && values[k] != "" && values[k] != "None"
  }

  /** `valueToFile`: the trait value with surrounding whitespace removed. */
  function ValueToFile(v: string): string {
    Trim(v)
  }

  /** The image one character layer contributes, if any, given the layer
      table `order`. */
  function LayerSource(order: seq<LayerEntry>, values: TraitValues, k: string): Option<Source> {
    var entry := FindEntry(order, k);
    if entry.None? || !Drawable(values, k) then None
    else Some(Layer(entry.value.folder, ValueToFile(values[k])))
  }

  /** The character loop over a list of layer keys. */
  function LayerSources(order: seq<LayerEntry>, values: TraitValues, keys: seq<string>): (r: seq<Source>)
    ensures |r| <= |keys|
    decreases |keys|
  {
    if |keys| == 0 then []
    else
      var head := LayerSource(order, values, keys[0]);
      (if head.Some? then [head.value] else []) + LayerSources(order, values, keys[1..])
  }

  function CharacterSources(values: TraitValues): seq<Source> {
    LayerSources(LayerOrder, values, AffectedLayers)
  }

  /** The folder a source is read from; custom backgrounds have none. */
  function FolderOf(s: Source): string {
    match s
    case CustomBg(_, _) => ""
    case Layer(folder, _) => folder
  }

  function Folders(ss: seq<Source>): (r: seq<string>)
    ensures |r| == |ss|
    ensures forall i :: 0 <= i < |ss| ==> r[i] == FolderOf(ss[i])
  {
    seq(|ss|, i requires 0 <= i < |ss| => FolderOf(ss[i]))
  }

  /** `xs` is `ys` with some elements left out. */
  predicate IsSubsequence(xs: seq<string>, ys: seq<string>)
    decreases |ys|
  {
    if |xs| == 0 then true
    else if |ys| == 0 then false
    else (xs[0] == ys[0] && IsSubsequence(xs[1..], ys[1..])) || IsSubsequence(xs, ys[1..])
  }

  /** Every key of the list is a key of the layer table read from the
      folder of the same name. */
  predicate SelfFolders(order: seq<LayerEntry>, keys: seq<string>) {
    forall j :: 0 <= j < |keys| ==> FindEntry(order, keys[j]) == Some(LayerEntry(keys[j], keys[j]))
  }

  /** `s` is the image of a drawable layer of `keys`, read from the folder
      of that name with the trimmed value as file name. */
  predicate DrawnFrom(values: TraitValues, keys: seq<string>, s: Source) {
    s.Layer? && s.folder in keys && Drawable(values, s.folder) && s.file == ValueToFile(values[s.folder])
  }

  /** The tail of a list of keys read from same-named folders is one too. */
  lemma SelfFoldersTail(order: seq<LayerEntry>, keys: seq<string>)
    requires |keys| > 0 && SelfFolders(order, keys)
    ensures SelfFolders(order, keys[1..])
    ensures FindEntry(order, keys[0]) == Some(LayerEntry(keys[0], keys[0]))
  {
    forall j | 0 <= j < |keys[1..]|
      ensures FindEntry(order, keys[1..][j]) == Some(LayerEntry(keys[1..][j], keys[1..][j]))
    {
      assert keys[1..][j] == keys[j + 1];
    }
  }

  /** The character loop draws only drawable layers of the list. */
  lemma {:induction false} LayerSourcesSound(order: seq<LayerEntry>, values: TraitValues, keys: seq<string>)
    requires SelfFolders(order, keys)
    ensures forall i :: 0 <= i < |LayerSources(order, values, keys)| ==> DrawnFrom(values, keys, LayerSources(order, values, keys)[i])
    decreases |keys|
  {
    if |keys| > 0 {
      SelfFoldersTail(order, keys);
      LayerSourcesSound(order, values, keys[1..]);
      var rest := LayerSources(order, values, keys[1..]);
      var head := LayerSource(order, values, keys[0]);
      var h := if head.Some? then [head.value] else [];
      var r := LayerSources(order, values, keys);
      assert r == h + rest;
      forall i | 0 <= i < |r|
        ensures DrawnFrom(values, keys, r[i])
      {
        if i < |h| {
          assert r[i] == Layer(keys[0], ValueToFile(values[keys[0]]));
        } else {
          assert r[i] == rest[i - |h|];
          assert DrawnFrom(values, keys[1..], rest[i - |h|]);
        }
      }
    }
  }

  /** The character loop draws every drawable layer of the list. */
  lemma {:induction false} LayerSourcesComplete(order: seq<LayerEntry>, values: TraitValues, keys: seq<string>)
    requires SelfFolders(order, keys)
    ensures forall k :: k in keys && Drawable(values, k) ==> Layer(k, ValueToFile(values[k])) in LayerSources(order, values, keys)
    decreases |keys|
  {
    if |keys| > 0 {
      SelfFoldersTail(order, keys);
      LayerSourcesComplete(order, values, keys[1..]);
      var rest := LayerSources(order, values, keys[1..]);
      var head := LayerSource(order, values, keys[0]);
      var r := LayerSources(order, values, keys);
      assert r == (if head.Some? then [head.value] else []) + rest;
      forall k | k in keys && Drawable(values, k)
        ensures Layer(k, ValueToFile(values[k])) in r
      {
        if k != keys[0] {
          assert k in keys[1..];
        }
      }
    }
  }

  /** The character loop draws in list order. */
  lemma {:induction false} LayerSourcesOrdered(order: seq<LayerEntry>, values: TraitValues, keys: seq<string>)
    requires SelfFolders(order, keys)
    ensures IsSubsequence(Folders(LayerSources(order, values, keys)), keys)
    decreases |keys|
  {
    if |keys| > 0 {
      SelfFoldersTail(order, keys);
      LayerSourcesOrdered(order, values, keys[1..]);
      var rest := LayerSources(order, values, keys[1..]);
      var r := LayerSources(order, values, keys);
      var k0 := keys[0];
      if Drawable(values, k0) {
        var fr := Folders(r);
        assert r == [Layer(k0, ValueToFile(values[k0]))] + rest;
        assert fr[0] == k0;
        assert fr[1..] == Folders(rest) by {
          forall i | 0 <= i < |rest|
            ensures fr[1..][i] == Folders(rest)[i]
          {
            assert r[i + 1] == rest[i];
          }
        }
        assert IsSubsequence(fr[1..], keys[1..]);
      } else {
        assert r == rest;
        SubsequenceOfTail(Folders(rest), keys);
      }
    }
  }

  /** A subsequence of a list's tail is a subsequence of the list. */
  lemma SubsequenceOfTail(xs: seq<string>, ys: seq<string>)
    requires |ys| > 0 && IsSubsequence(xs, ys[1..])
    ensures IsSubsequence(xs, ys)
  {
  }

  /** An entry no earlier entry shares a key with is the one found. */
  lemma {:induction false} FindEntryFirst(list: seq<LayerEntry>, j: nat)
    requires j < |list|
    requires forall i :: 0 <= i < j ==> list[i].key != list[j].key
    ensures FindEntry(list, list[j].key) == Some(list[j])
    decreases j
  {
    if j > 0 {
      assert list[1..][j - 1] == list[j];
      forall i | 0 <= i < j - 1
        ensures list[1..][i].key != list[1..][j - 1].key
      {
        assert list[1..][i] == list[i + 1];
      }
      FindEntryFirst(list[1..], j - 1);
    }
  }

  /** Each affected layer is read from the folder named like its key. */
  lemma AffectedLayersSelfFolders()
    ensures SelfFolders(LayerOrder, AffectedLayers)
  {
    forall j | 0 <= j < |AffectedLayers|
      ensures FindEntry(LayerOrder, AffectedLayers[j]) == Some(LayerEntry(AffectedLayers[j], AffectedLayers[j]))
    {
      assert LayerOrder[j + 1] == LayerEntry(AffectedLayers[j], AffectedLayers[j]);
      FindEntryFirst(LayerOrder, j + 1);
    }
  }

  /** The character part of the plan: the drawable layers among `BODY`,
      `CLOTHING`, `EXTRA`, `HEADSTUFF`, `MOUTHS` and `ONE OF ONE`, in that
      order, and nothing else. */
  lemma CharacterSourcesSpec(values: TraitValues)
    ensures forall i :: 0 <= i < |CharacterSources(values)| ==> DrawnFrom(values, AffectedLayers, CharacterSources(values)[i])
    ensures forall k :: k in AffectedLayers && Drawable(values, k) ==> Layer(k, ValueToFile(values[k])) in CharacterSources(values)
    ensures IsSubsequence(Folders(CharacterSources(values)), AffectedLayers)
  {
    AffectedLayersSelfFolders();
    LayerSourcesSound(LayerOrder, values, AffectedLayers);
    LayerSourcesComplete(LayerOrder, values, AffectedLayers);
    LayerSourcesOrdered(LayerOrder, values, AffectedLayers);
  }

  /** A background image: a custom file or the token's BACKGROUND layer. */
  predicate IsBackground(s: Source) {
    s.CustomBg? || s.folder == "BACKGROUND"
  }

  /** The GMCUPS overlay image. */
  predicate IsOverlay(s: Source) {
    s.Layer? && s.folder == "GMCUPS"
  }

  /** Character images are neither backgrounds nor overlays. */
  lemma CharacterIsCharacter(values: TraitValues)
    ensures forall i :: 0 <= i < |CharacterSources(values)| ==>
      !IsBackground(CharacterSources(values)[i]) && !IsOverlay(CharacterSources(values)[i])
  {
    CharacterSourcesSpec(values);
    var ch := CharacterSources(values);
    forall i | 0 <= i < |ch|
      ensures !IsBackground(ch[i]) && !IsOverlay(ch[i])
    {
      assert DrawnFrom(values, AffectedLayers, ch[i]);
      NotCharacterFolder(ch[i].folder);
    }
  }

  /** The background and overlay folders are not character layers. */
  lemma NotCharacterFolder(k: string)
    requires k in AffectedLayers
    ensures k != "BACKGROUND" && k != "GMCUPS"
  {
  }

  /** The custom file in effect: in custom mode the format's selection or,
      without one, its default background; otherwise none. */
  function CustomFile(e: Editor, f: Format): (r: Option<string>)
    ensures r.Some? <==> e.mode == Custom
    ensures r.Some? ==> r.value != ""
  {
    if e.mode == Custom then Some(Selected(e, f).GetOr(Spec(f).defaultBg)) else None
  }

  /** The background step; `first` is the first record's trait values, if
      there is a record. */
  function BackgroundSources(e: Editor, f: Format, first: Option<TraitValues>): (r: seq<Source>)
    ensures |r| <= 1
    ensures forall i :: 0 <= i < |r| ==> IsBackground(r[i]) && !IsOverlay(r[i])
  {
    if e.mode == NoBg then []
    else if CustomFile(e, f).Some? then [CustomBg(f, CustomFile(e, f).value)]
    else if first.Some? && Drawable(first.value, "BACKGROUND") then [Layer("BACKGROUND", ValueToFile(first.value["BACKGROUND"]))]
    else []
  }

  /** The GMCUPS overlay step. */
  function Overlay(e: Editor, values: TraitValues): seq<Source> {
    if e.gmCups && Drawable(values, "BODY") then [Layer("GMCUPS", ValueToFile(values["BODY"]))] else []
  }

  /** The images of a plan with a first record, bottom to top. */
  function PlanSources(e: Editor, f: Format, values: TraitValues): seq<Source> {
    BackgroundSources(e, f, Some(values)) + CharacterSources(values) + Overlay(e, values)
  }

  /** A finished plan, or the images drawn before the renderer failed on a
      missing first record. */
  datatype Plan =
    | Complete(sources: seq<Source>, preset: Preset)
    | Aborted(drawn: seq<Source>)

  /** `renderSceneCore(ctx, w, h, fmtKey, records)` with the state `e` and
      the preset table `t`; the preset is resolved by `getPreset` as written. */
  function RenderPlan(e: Editor, t: PresetTable, f: Format, records: seq<TraitRecord>): (p: Plan)
    ensures p.Aborted? <==> |records| == 0
    ensures p.Aborted? ==> forall i :: 0 <= i < |p.drawn| ==> p.drawn[i].CustomBg?
    ensures p.Complete? ==> |p.sources| <= |AffectedLayers| + 2
  {
    if |records| == 0 then Aborted(BackgroundSources(e, f, None))
    else
      var values := records[0].values;
      Complete(PlanSources(e, f, values), GetPreset(t, values, f, CustomFile(e, f)))
  }

  /** The same plan with the corrected, field-by-field layering of custom
      presets (see `GetPresetLayered`): only the preset differs. */
  function RenderPlanLayered(e: Editor, t: PresetTable, f: Format, records: seq<TraitRecord>): (p: Plan)
    ensures p.Aborted? <==> |records| == 0
    ensures p.Aborted? ==> p == RenderPlan(e, t, f, records)
    ensures p.Complete? ==> p.sources == RenderPlan(e, t, f, records).sources
  {
    if |records| == 0 then Aborted(BackgroundSources(e, f, None))
    else
      var values := records[0].values;
      Complete(PlanSources(e, f, values), GetPresetLayered(t, values, f, CustomFile(e, f)))
  }

  /** Neither the character nor the overlay step draws a background. */
  lemma AfterBackgroundStep(e: Editor, values: TraitValues)
    ensures forall i :: 0 <= i < |CharacterSources(values) + Overlay(e, values)| ==>
      !IsBackground((CharacterSources(values) + Overlay(e, values))[i])
  {
    var ch := CharacterSources(values);
    var ov := Overlay(e, values);
    CharacterIsCharacter(values);
    forall i | 0 <= i < |ch + ov|
      ensures !IsBackground((ch + ov)[i])
    {
      if i < |ch| {
        assert (ch + ov)[i] == ch[i];
      } else {
        assert (ch + ov)[i] == ov[i - |ch|];
      }
    }
  }

  /** The plan is the background step followed by the rest. */
  lemma PlanSplit(e: Editor, f: Format, values: TraitValues)
    ensures PlanSources(e, f, values) == BackgroundSources(e, f, Some(values)) + (CharacterSources(values) + Overlay(e, values))
  {
  }

  /** The background rule: no background without one, the selected or
      default file in custom mode, and otherwise the token's own BACKGROUND
      trait exactly when it is drawable. Nothing after the first image is a
      background. */
  lemma PlanBackground(e: Editor, f: Format, values: TraitValues)
    ensures var ss := PlanSources(e, f, values);
      && (forall i :: 0 < i < |ss| ==> !IsBackground(ss[i]))
      && (e.mode == Custom ==> ss[0] == CustomBg(f, Selected(e, f).GetOr(Spec(f).defaultBg)))
      && (e.mode == Nft && Drawable(values, "BACKGROUND") ==> ss[0] == Layer("BACKGROUND", ValueToFile(values["BACKGROUND"])))
      && (e.mode == NoBg || (e.mode == Nft && !Drawable(values, "BACKGROUND")) ==>
            forall i :: 0 <= i < |ss| ==> !IsBackground(ss[i]))
  {
    var bg := BackgroundSources(e, f, Some(values));
    var rest := CharacterSources(values) + Overlay(e, values);
    var ss := PlanSources(e, f, values);
    PlanSplit(e, f, values);
    AfterBackgroundStep(e, values);
    forall i | |bg| <= i < |ss|
      ensures !IsBackground(ss[i])
    {
      assert ss[i] == rest[i - |bg|];
    }
    if |bg| == 1 {
      assert ss[0] == bg[0];
    }
  }

  /** The overlay rule: the plan ends with the GMCUPS image of the BODY
      value exactly when the cups switch is on and BODY is drawable, and no
      other image comes from the GMCUPS folder. */
  lemma PlanOverlay(e: Editor, f: Format, values: TraitValues)
    ensures var ss := PlanSources(e, f, values);
      && (e.gmCups && Drawable(values, "BODY") <==> |ss| > 0 && IsOverlay(ss[|ss| - 1]))
      && (e.gmCups && Drawable(values, "BODY") ==> ss[|ss| - 1] == Layer("GMCUPS", ValueToFile(values["BODY"])))
      && (forall i :: 0 <= i < |ss| - 1 ==> !IsOverlay(ss[i]))
      && (!(e.gmCups && Drawable(values, "BODY")) ==> forall i :: 0 <= i < |ss| ==> !IsOverlay(ss[i]))
  {
    var bg := BackgroundSources(e, f, Some(values));
    var ch := CharacterSources(values);
    var ov := Overlay(e, values);
    CharacterIsCharacter(values);
    NoOverlayConcat(bg, ch);
    var front := bg + ch;
    var ss := PlanSources(e, f, values);
    assert ss == front + ov;
    if ov == [] {
      assert ss == front;
    } else {
      NoOverlayPrefix(front, ov);
    }
  }

  /** No overlay in either list means none in their concatenation. */
  lemma NoOverlayConcat(a: seq<Source>, b: seq<Source>)
    requires forall i :: 0 <= i < |a| ==> !IsOverlay(a[i])
    requires forall i :: 0 <= i < |b| ==> !IsOverlay(b[i])
    ensures forall i :: 0 <= i < |a + b| ==> !IsOverlay((a + b)[i])
  {
    forall i | 0 <= i < |a + b|
      ensures !IsOverlay((a + b)[i])
    {
      if i < |a| {
        assert (a + b)[i] == a[i];
      } else {
        assert (a + b)[i] == b[i - |a|];
      }
    }
  }

  /** A list without overlays followed by one image keeps its images
      before the last. */
  lemma NoOverlayPrefix(front: seq<Source>, ov: seq<Source>)
    requires forall i :: 0 <= i < |front| ==> !IsOverlay(front[i])
    requires |ov| == 1
    ensures forall i :: 0 <= i < |front + ov| - 1 ==> !IsOverlay((front + ov)[i])
    ensures (front + ov)[|front + ov| - 1] == ov[0]
  {
    forall i | 0 <= i < |front + ov| - 1
      ensures !IsOverlay((front + ov)[i])
    {
      assert (front + ov)[i] == front[i];
    }
  }

  /** The character is drawn with the preset for the first record's values:
      without a custom background it is the base chain; in custom mode on an
      unlocked format it is the merge of the custom layers alone, and on a
      scale-locked format it takes the base chain's scale and the custom
      layers' offsets. */
  lemma PlanPreset(e: Editor, t: PresetTable, f: Format, records: seq<TraitRecord>)
    requires |records| > 0
    ensures e.mode != Custom ==> RenderPlan(e, t, f, records).preset == BaseCommon(t, records[0].values, f)
    ensures e.mode == Custom && !LockScale(f) ==>
      RenderPlan(e, t, f, records).preset == Merge(CustomLayers(t, f, CustomFile(e, f).value))
    ensures e.mode == Custom && LockScale(f) ==>
      RenderPlan(e, t, f, records).preset.scale == BaseCommon(t, records[0].values, f).scale
    ensures e.mode == Custom && LockScale(f) ==>
      RenderPlan(e, t, f, records).preset.offsetX == Merge(CustomLayers(t, f, CustomFile(e, f).value)).offsetX &&
      RenderPlan(e, t, f, records).preset.offsetY == Merge(CustomLayers(t, f, CustomFile(e, f).value)).offsetY
  {
    var values := records[0].values;
    if e.mode == Custom {
      var file := CustomFile(e, f).value;
      if LockScale(f) {
        ScaleLock(t, values, f, file);
      } else {
        CustomPrecedence(t, values, f, file);
      }
    }
  }

  /** The corrected plan keeps the base chain's value of every field no
      custom layer sets, and the scale of a locked format. */
  lemma PlanPresetLayered(e: Editor, t: PresetTable, f: Format, records: seq<TraitRecord>)
    requires |records| > 0
    ensures e.mode != Custom ==> RenderPlanLayered(e, t, f, records).preset == BaseCommon(t, records[0].values, f)
    ensures e.mode == Custom ==> forall fd ::
      NeverSet(MaskedCustomLayers(t, f, CustomFile(e, f).value), fd) ==>
        ValueOf(RenderPlanLayered(e, t, f, records).preset, fd) == ValueOf(BaseCommon(t, records[0].values, f), fd)
    ensures e.mode == Custom && LockScale(f) ==>
      RenderPlanLayered(e, t, f, records).preset.scale == BaseCommon(t, records[0].values, f).scale
  {
    var values := records[0].values;
    if e.mode == Custom {
      var file := CustomFile(e, f).value;
      LayeredCustomFields(t, values, f, file);
      if LockScale(f) {
        assert NeverSet(MaskedCustomLayers(t, f, file), Scale);
      }
    }
  }

}
