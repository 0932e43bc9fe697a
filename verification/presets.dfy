/** Preset resolution: the field-wise, last-non-null-wins merge of partial
    `{scale, offsetX, offsetY}` records and the fixed stacking order in which
    `getPreset` applies the sections of the loaded preset table. */
module Presets {
  import opened Wrappers
  import opened Formats
  import opened Metadata

  /** A partial preset; `None` is a field that is null or absent. */
  datatype Override = Override(scale: Option<real>, offsetX: Option<real>, offsetY: Option<real>)

  /** `{}`. */
  const Empty: Override := Override(None, None, None)

  /** A fully defined transform, as `mergePresets` returns it. */
  datatype Preset = Preset(scale: real, offsetX: real, offsetY: real)

  datatype Field = Scale | OffsetX | OffsetY

  /** The value an argument of the merge gives a field; an absent argument
      gives none. */
  function FieldOf(o: Option<Override>, f: Field): Option<real> {
    match o
    case None => None
    case Some(x) =>
      match f
      case Scale => x.scale
      case OffsetX => x.offsetX
      case OffsetY => x.offsetY
  }

  function ValueOf(p: Preset, f: Field): real {
    match f
    case Scale => p.scale
    case OffsetX => p.offsetX
    case OffsetY => p.offsetY
  }

  /** The starting point of every merge: `{scale: 1, offsetX: 0, offsetY: 0}`. */
  const Root: Preset := Preset(1.0, 0.0, 0.0)

  /** A full preset passed back into a merge as an argument. */
  function Full(p: Preset): Override {
    Override(Some(p.scale), Some(p.offsetX), Some(p.offsetY))
  }

  /** One pass of the merge loop: each field the argument sets overwrites. */
  function Apply(p: Preset, o: Option<Override>): Preset {
    match o
    case None => p
    case Some(x) => Preset(x.scale.GetOr(p.scale), x.offsetX.GetOr(p.offsetX), x.offsetY.GetOr(p.offsetY))
  }

  function ApplyAll(p: Preset, objs: seq<Option<Override>>): Preset
    decreases |objs|
  {
    if |objs| == 0 then p else ApplyAll(Apply(p, objs[0]), objs[1..])
  }

  /** `mergePresets(...objs)`. */
  function Merge(objs: seq<Option<Override>>): Preset {
    ApplyAll(Root, objs)
  }

  /** Argument `i` is the last one that sets field `f`. */
  ghost predicate LastSetAt(objs: seq<Option<Override>>, f: Field, i: int) {
    && 0 <= i < |objs|
    && FieldOf(objs[i], f).Some?
    && forall j :: i < j < |objs| ==> FieldOf(objs[j], f).None?
  }

  /** No argument sets field `f`. */
  ghost predicate NeverSet(objs: seq<Option<Override>>, f: Field) {
    forall i :: 0 <= i < |objs| ==> FieldOf(objs[i], f).None?
  }

  /** The merge loop as written: start from the root and let every non-null
      field of every non-null argument overwrite, in argument order. */
  method MergePresets(objs: seq<Option<Override>>) returns (out: Preset)
    ensures forall f, i :: LastSetAt(objs, f, i) ==> ValueOf(out, f) == FieldOf(objs[i], f).value
    ensures forall f :: NeverSet(objs, f) ==> ValueOf(out, f) == ValueOf(Root, f)
  {
    out := Root;
    for k := 0 to |objs|
      invariant forall f, i :: LastSetAt(objs[..k], f, i) ==> ValueOf(out, f) == FieldOf(objs[i], f).value
      invariant forall f :: NeverSet(objs[..k], f) ==> ValueOf(out, f) == ValueOf(Root, f)
    {
      var o := objs[k];
      ghost var prev := out;
      if o.Some? {
        if o.value.scale.Some? { out := out.(scale := o.value.scale.value); }
        if o.value.offsetX.Some? { out := out.(offsetX := o.value.offsetX.value); }
        if o.value.offsetY.Some? { out := out.(offsetY := o.value.offsetY.value); }
      }
      assert forall f :: ValueOf(out, f) == FieldOf(o, f).GetOr(ValueOf(prev, f));
      forall f, i | LastSetAt(objs[..k + 1], f, i)
        ensures ValueOf(out, f) == FieldOf(objs[i], f).value
      {
        if i < k {
          assert FieldOf(objs[..k + 1][k], f).None?;
          assert LastSetAt(objs[..k], f, i);
        }
      }
      forall f | NeverSet(objs[..k + 1], f)
        ensures ValueOf(out, f) == ValueOf(Root, f)
      {
        assert FieldOf(objs[..k + 1][k], f).None?;
        assert NeverSet(objs[..k], f);
      }
    }
    assert objs[..|objs|] == objs;
  }

  /** Folding the arguments over `p`: each field ends with the value of the
      last argument that sets it, or keeps `p`'s value when none does. */
  lemma {:induction false} ApplyAllLastWins(p: Preset, objs: seq<Option<Override>>)
    ensures forall f, i :: LastSetAt(objs, f, i) ==> ValueOf(ApplyAll(p, objs), f) == FieldOf(objs[i], f).value
    ensures forall f :: NeverSet(objs, f) ==> ValueOf(ApplyAll(p, objs), f) == ValueOf(p, f)
    decreases |objs|
  {
    if |objs| > 0 {
      var q := Apply(p, objs[0]);
      var rest := objs[1..];
      ApplyAllLastWins(q, rest);
      assert ApplyAll(p, objs) == ApplyAll(q, rest);
      forall f, i | LastSetAt(objs, f, i)
        ensures ValueOf(ApplyAll(p, objs), f) == FieldOf(objs[i], f).value
      {
        if i > 0 {
          assert LastSetAt(rest, f, i - 1);
        } else {
          assert NeverSet(rest, f);
          match f {
            case Scale =>
            case OffsetX =>
            case OffsetY =>
          }
        }
      }
      forall f | NeverSet(objs, f)
        ensures ValueOf(ApplyAll(p, objs), f) == ValueOf(p, f)
      {
        assert NeverSet(rest, f);
        assert FieldOf(objs[0], f).None?;
        match f {
          case Scale =>
          case OffsetX =>
          case OffsetY =>
        }
      }
    }
  }

  /** `mergePresets` is total and last-non-null-wins: every field is defined,
      holds the last non-null value given for it, and is 1 / 0 / 0 when no
      argument sets it. */
  lemma MergeLastWins(objs: seq<Option<Override>>)
    ensures forall f, i :: LastSetAt(objs, f, i) ==> ValueOf(Merge(objs), f) == FieldOf(objs[i], f).value
    ensures forall f :: NeverSet(objs, f) ==> ValueOf(Merge(objs), f) == ValueOf(Root, f)
  {
    ApplyAllLastWins(Root, objs);
  }

  /** Merging in two runs is merging once. */
  lemma {:induction false} ApplyAllAppend(p: Preset, a: seq<Option<Override>>, b: seq<Option<Override>>)
    ensures ApplyAll(p, a + b) == ApplyAll(ApplyAll(p, a), b)
    decreases |a|
  {
    if |a| > 0 {
      assert (a + b)[0] == a[0];
      assert (a + b)[1..] == a[1..] + b;
      ApplyAllAppend(Apply(p, a[0]), a[1..], b);
    } else {
      assert a + b == b;
    }
  }

  /** Null, undefined and `{}` arguments are ignored. */
  lemma MergeIgnoresAbsent(a: seq<Option<Override>>, b: seq<Option<Override>>)
    ensures Merge(a + [None] + b) == Merge(a + b)
    ensures Merge(a + [Some(Empty)] + b) == Merge(a + b)
  {
    ApplyAllAppend(Root, a + [None], b);
    ApplyAllAppend(Root, a, [None]);
    ApplyAllAppend(Root, a + [Some(Empty)], b);
    ApplyAllAppend(Root, a, [Some(Empty)]);
    ApplyAllAppend(Root, a, b);
    var m := Merge(a);
    assert ApplyAll(m, [None]) == m;
    assert ApplyAll(m, [Some(Empty)]) == Apply(m, Some(Empty));
  }

  /** Feeding a merge result back in as the first argument is the same as
      merging its arguments in place: nested merges flatten. */
  lemma MergeFlatten(a: seq<Option<Override>>, b: seq<Option<Override>>)
    ensures Merge([Some(Full(Merge(a)))] + b) == Merge(a + b)
  {
    var s := [Some(Full(Merge(a)))] + b;
    assert s[0] == Some(Full(Merge(a))) && s[1..] == b;
    assert Apply(Root, s[0]) == Merge(a);
    ApplyAllAppend(Root, a, b);
  }

  /** A full preset argument erases everything merged before it. */
  lemma MergeFullResets(a: seq<Option<Override>>, p: Preset, b: seq<Option<Override>>)
    ensures Merge(a + [Some(Full(p))] + b) == Merge([Some(Full(p))] + b)
  {
    ApplyAllAppend(Root, a + [Some(Full(p))], b);
    ApplyAllAppend(Root, a, [Some(Full(p))]);
    var s := [Some(Full(p))] + b;
    assert s[0] == Some(Full(p)) && s[1..] == b;
  }

  /** `withoutScale`: the offsets of a preset, each defaulting to 0, and no
      scale. */
  function WithoutScale(p: Option<Override>): (r: Override)
    ensures r.scale.None?
    ensures r.offsetX == Some(FieldOf(p, OffsetX).GetOr(0.0))
    ensures r.offsetY == Some(FieldOf(p, OffsetY).GetOr(0.0))
  {
    match p
    case None => Override(None, Some(0.0), Some(0.0))
    case Some(x) => Override(None, Some(x.offsetX.GetOr(0.0)), Some(x.offsetY.GetOr(0.0)))
  }

  /** The loaded `scene-presets.json`; an absent section is empty. */
  datatype PresetTable = PresetTable(
    defaults: Override,
    formatDefaults: map<string, Override>,
    bodyOverrides: map<string, Override>,
    bodyOverridesByFormat: map<string, Override>,
    customFormatDefaults: map<string, Override>,
    customBackgrounds: map<string, Override>)

  /** What the editor resolves against when the table failed to load. */
  const EmptyTable: PresetTable := PresetTable(Empty, map[], map[], map[], map[], map[])

  /** `FORMAT_BASELINE`. */
  function Baseline(f: Format): Override {
    match f
    case Square => Override(Some(0.85), Some(0.0), Some(0.0))
    case PhoneSaver => Override(Some(0.50), Some(0.0), Some(0.0))
    case Raid => Override(Some(0.55), Some(0.0), Some(0.0))
  }

  /** The entry of a table section, or the empty preset when it has none. */
  function SectionEntry(m: map<string, Override>, k: string): Override {
    Lookup(m, k).GetOr(Empty)
  }

  /** The BODY trait value, when it is present and not empty. */
  function BodyValue(values: TraitValues): Option<string> {
    if "BODY" in values && values["BODY"] != "" then Some(values["BODY"]) else None
  }

  /** The resolved `formatDefaults`: the baseline under the file's entry. */
  function FormatDefaults(t: PresetTable, f: Format): Preset {
    Merge([Some(Baseline(f)), Some(SectionEntry(t.formatDefaults, Key(f)))])
  }

  function BodyGlobal(t: PresetTable, values: TraitValues): Option<Override> {
    var body := BodyValue(values);
    if body.Some? then Lookup(t.bodyOverrides, body.value) else None
  }

  function BodyByFormat(t: PresetTable, values: TraitValues, f: Format): Option<Override> {
    var body := BodyValue(values);
    if body.Some? then Lookup(t.bodyOverridesByFormat, Key(f) + "/" + body.value) else None
  }

  /** `baseCommon`: defaults < format defaults < body < body-in-format. */
  function BaseCommon(t: PresetTable, values: TraitValues, f: Format): Preset {
    Merge([Some(t.defaults), Some(Full(FormatDefaults(t, f))), BodyGlobal(t, values), BodyByFormat(t, values, f)])
  }

  /** The custom layers in precedence order: format defaults < the format's wildcard entry <
      `fmt/file`. */
  function CustomLayers(t: PresetTable, f: Format, file: string): seq<Option<Override>> {
    [ Some(SectionEntry(t.customFormatDefaults, Key(f))),
      Some(SectionEntry(t.customBackgrounds, Key(f) + "/*")),
      Some(SectionEntry(t.customBackgrounds, Key(f) + "/" + file)) ]
  }

  /** A custom file is in effect when it is present and non-empty. */
  predicate IsCustom(customFile: Option<string>) {
    customFile.Some? && customFile.value != ""
  }

  /** `getPreset(values, fmtKey, customFile)` as written. */
  function GetPreset(t: PresetTable, values: TraitValues, f: Format, customFile: Option<string>): Preset {
    var baseCommon := BaseCommon(t, values, f);
    if IsCustom(customFile) then
      var mergedCustom := Merge(CustomLayers(t, f, customFile.value));
      if LockScale(f) then Merge([Some(Full(baseCommon)), Some(WithoutScale(Some(Full(mergedCustom))))])
      else Merge([Some(Full(baseCommon)), Some(Full(mergedCustom))])
    else baseCommon
  }

  /** Merging a short argument list unrolls to nested passes of the loop. */
  lemma ApplyAllUnroll(p: Preset, a: Option<Override>, b: Option<Override>, c: Option<Override>)
    ensures ApplyAll(p, [a]) == Apply(p, a)
    ensures ApplyAll(p, [a, b]) == Apply(Apply(p, a), b)
    ensures ApplyAll(p, [a, b, c]) == Apply(Apply(Apply(p, a), b), c)
  {
    forall q: Preset, x: Option<Override>
      ensures ApplyAll(q, [x]) == Apply(q, x)
    {
      assert [x][1..] == [];
      assert ApplyAll(q, [x]) == ApplyAll(Apply(q, x), []);
    }
    assert [a, b][1..] == [b];
    assert ApplyAll(p, [a, b]) == ApplyAll(Apply(p, a), [b]);
    assert [a, b, c][1..] == [b, c];
    assert ApplyAll(p, [a, b, c]) == ApplyAll(Apply(p, a), [b, c]);
    assert [b, c][1..] == [c];
    assert ApplyAll(Apply(p, a), [b, c]) == ApplyAll(Apply(Apply(p, a), b), [c]);
  }

  /** The base chain with the global `defaults` section left out. */
  function BaseLayers(t: PresetTable, values: TraitValues, f: Format): seq<Option<Override>> {
    [ Some(Baseline(f)), Some(SectionEntry(t.formatDefaults, Key(f))),
      BodyGlobal(t, values), BodyByFormat(t, values, f) ]
  }

  /** The resolved format defaults are fully defined, so `baseCommon` is the
      flat chain baseline < file format defaults < body < body-in-format, and
      the global `defaults` section is always overwritten. */
  lemma BaseCommonChain(t: PresetTable, values: TraitValues, f: Format)
    ensures BaseCommon(t, values, f) == Merge(BaseLayers(t, values, f))
  {
    var fd := FormatDefaults(t, f);
    var rest := [BodyGlobal(t, values), BodyByFormat(t, values, f)];
    var head := [Some(Baseline(f)), Some(SectionEntry(t.formatDefaults, Key(f)))];
    assert [Some(t.defaults), Some(Full(fd)), rest[0], rest[1]] == [Some(t.defaults)] + [Some(Full(fd))] + rest;
    MergeFullResets([Some(t.defaults)], fd, rest);
    MergeFlatten(head, rest);
    assert head + rest == BaseLayers(t, values, f);
  }

  /** Without a custom file the result is exactly the base chain: baseline,
      the file's format defaults, the body override and the body-in-format
      override, later non-null fields winning. */
  lemma NoCustomIsBaseChain(t: PresetTable, values: TraitValues, f: Format, customFile: Option<string>)
    requires !IsCustom(customFile)
    ensures GetPreset(t, values, f, customFile) == Merge(BaseLayers(t, values, f))
  {
    BaseCommonChain(t, values, f);
  }

  /** Every format has a baseline, so the global `defaults` section of the
      table never affects any resolved preset. */
  lemma DefaultsSectionIgnored(t: PresetTable, d: Override, values: TraitValues, f: Format, customFile: Option<string>)
    ensures GetPreset(t.(defaults := d), values, f, customFile) == GetPreset(t, values, f, customFile)
  {
    BaseCommonChain(t, values, f);
    BaseCommonChain(t.(defaults := d), values, f);
    assert BaseLayers(t.(defaults := d), values, f) == BaseLayers(t, values, f);
  }

  /** Scale lock: on a locked format a custom background keeps the scale of
      the plain token background, while the offsets come from the custom
      layers (each defaulting to 0). */
  lemma ScaleLock(t: PresetTable, values: TraitValues, f: Format, file: string)
    requires LockScale(f) && file != ""
    ensures GetPreset(t, values, f, Some(file)).scale == GetPreset(t, values, f, None).scale
    ensures GetPreset(t, values, f, Some(file)).offsetX == Merge(CustomLayers(t, f, file)).offsetX
    ensures GetPreset(t, values, f, Some(file)).offsetY == Merge(CustomLayers(t, f, file)).offsetY
  {
    var base := BaseCommon(t, values, f);
    var m := Merge(CustomLayers(t, f, file));
    ApplyAllUnroll(Root, Some(Full(base)), Some(WithoutScale(Some(Full(m)))), None);
  }

  /** Two custom backgrounds of a locked format give the same scale. */
  lemma ScaleLockAcrossFiles(t: PresetTable, values: TraitValues, f: Format, a: string, b: string)
    requires LockScale(f) && a != "" && b != ""
    ensures GetPreset(t, values, f, Some(a)).scale == GetPreset(t, values, f, Some(b)).scale
  {
    ScaleLock(t, values, f, a);
    ScaleLock(t, values, f, b);
  }

  /** On a format without scale lock a custom background resolves by the
      custom layers alone: the file preset beats the format's wildcard preset, which
      beats the custom format defaults, field by field; a field none of them
      sets takes the root value (scale 1, offsets 0), not the base chain's. */
  lemma CustomPrecedence(t: PresetTable, values: TraitValues, f: Format, file: string)
    requires !LockScale(f) && file != ""
    ensures GetPreset(t, values, f, Some(file)) == Merge(CustomLayers(t, f, file))
    ensures forall fd :: FieldOf(CustomLayers(t, f, file)[2], fd).Some? ==>
      ValueOf(GetPreset(t, values, f, Some(file)), fd) == FieldOf(CustomLayers(t, f, file)[2], fd).value
    ensures forall fd :: FieldOf(CustomLayers(t, f, file)[2], fd).None? && FieldOf(CustomLayers(t, f, file)[1], fd).Some? ==>
      ValueOf(GetPreset(t, values, f, Some(file)), fd) == FieldOf(CustomLayers(t, f, file)[1], fd).value
    ensures forall fd :: NeverSet(CustomLayers(t, f, file), fd) ==>
      ValueOf(GetPreset(t, values, f, Some(file)), fd) == ValueOf(Root, fd)
  {
    var layers := CustomLayers(t, f, file);
    var base := BaseCommon(t, values, f);
    var m := Merge(layers);
    ApplyAllUnroll(Root, Some(Full(base)), Some(Full(m)), None);
    MergeLastWins(layers);
    forall fd | FieldOf(layers[2], fd).None? && FieldOf(layers[1], fd).Some?
      ensures ValueOf(m, fd) == FieldOf(layers[1], fd).value
    {
      assert LastSetAt(layers, fd, 1);
    }
    forall fd | FieldOf(layers[2], fd).Some?
      ensures ValueOf(m, fd) == FieldOf(layers[2], fd).value
    {
      assert LastSetAt(layers, fd, 2);
    }
  }

  /** As written, a custom background on an unlocked format discards the
      base chain even for fields no custom layer sets: with an empty preset
      table the square character is drawn at scale 1 on every custom
      background, but at its 0.85 baseline on the token's own background. */
  lemma CustomClobbersBaseline(file: string)
    requires file != ""
    ensures NeverSet(CustomLayers(EmptyTable, Square, file), Scale)
    ensures GetPreset(EmptyTable, map[], Square, None).scale == 0.85
    ensures GetPreset(EmptyTable, map[], Square, Some(file)).scale == 1.0
  {
    NoCustomIsBaseChain(EmptyTable, map[], Square, None);
    var base := BaseLayers(EmptyTable, map[], Square);
    assert base == [Some(Baseline(Square)), Some(Empty), None, None];
    MergeLastWins(base);
    assert LastSetAt(base, Scale, 0);
    var layers := CustomLayers(EmptyTable, Square, file);
    assert layers == [Some(Empty), Some(Empty), Some(Empty)];
    CustomPrecedence(EmptyTable, map[], Square, file);
  }


  /** The scale of a custom layer, dropped on a scale-locked format. */
  function Masked(f: Format, o: Override): Override {
    if LockScale(f) then o.(scale := None) else o
  }

  /** The custom layers as the corrected resolution applies them. */
  function MaskedCustomLayers(t: PresetTable, f: Format, file: string): seq<Option<Override>> {
    [ Some(Masked(f, SectionEntry(t.customFormatDefaults, Key(f)))),
      Some(Masked(f, SectionEntry(t.customBackgrounds, Key(f) + "/*"))),
      Some(Masked(f, SectionEntry(t.customBackgrounds, Key(f) + "/" + file))) ]
  }

  /** Preset resolution with the custom layers stacked field by field on
      top of the base chain, so that only the fields they set overwrite. */
  function GetPresetLayered(t: PresetTable, values: TraitValues, f: Format, customFile: Option<string>): Preset {
    var baseCommon := BaseCommon(t, values, f);
    if IsCustom(customFile) then ApplyAll(baseCommon, MaskedCustomLayers(t, f, customFile.value))
    else baseCommon
  }

  /** In the corrected resolution a field that no custom layer sets keeps
      its base-chain value, and a field some custom layer sets takes the
      value of the last such layer. */
  lemma LayeredCustomFields(t: PresetTable, values: TraitValues, f: Format, file: string)
    requires file != ""
    ensures GetPresetLayered(t, values, f, None) == GetPreset(t, values, f, None)
    ensures forall fd :: NeverSet(MaskedCustomLayers(t, f, file), fd) ==>
      ValueOf(GetPresetLayered(t, values, f, Some(file)), fd) == ValueOf(GetPresetLayered(t, values, f, None), fd)
    ensures forall fd, i :: LastSetAt(MaskedCustomLayers(t, f, file), fd, i) ==>
      ValueOf(GetPresetLayered(t, values, f, Some(file)), fd) == FieldOf(MaskedCustomLayers(t, f, file)[i], fd).value
  {
    ApplyAllLastWins(BaseCommon(t, values, f), MaskedCustomLayers(t, f, file));
  }

  /** The corrected resolution keeps the scale lock. */
  lemma LayeredScaleLock(t: PresetTable, values: TraitValues, f: Format, file: string)
    requires LockScale(f) && file != ""
    ensures GetPresetLayered(t, values, f, Some(file)).scale == GetPresetLayered(t, values, f, None).scale
  {
    LayeredCustomFields(t, values, f, file);
    assert NeverSet(MaskedCustomLayers(t, f, file), Scale);
  }

  /** When the custom layers between them set every field they are allowed
      to set, the corrected and the written resolution agree. */
  lemma LayeredAgreesWhenComplete(t: PresetTable, values: TraitValues, f: Format, file: string)
    requires file != ""
    requires forall fd :: fd != Scale || !LockScale(f) ==> !NeverSet(CustomLayers(t, f, file), fd)
    ensures GetPresetLayered(t, values, f, Some(file)) == GetPreset(t, values, f, Some(file))
  {
    var layers := CustomLayers(t, f, file);
    var masked := MaskedCustomLayers(t, f, file);
    var base := BaseCommon(t, values, f);
    var m := Merge(layers);
    ApplyAllUnroll(base, masked[0], masked[1], masked[2]);
    ApplyAllUnroll(Root, layers[0], layers[1], layers[2]);
    assert masked == [masked[0], masked[1], masked[2]];
    assert layers == [layers[0], layers[1], layers[2]];
    if LockScale(f) {
      ApplyAllUnroll(Root, Some(Full(base)), Some(WithoutScale(Some(Full(m)))), None);
      assert !NeverSet(layers, OffsetX) && !NeverSet(layers, OffsetY);
    } else {
      ApplyAllUnroll(Root, Some(Full(base)), Some(Full(m)), None);
      assert !NeverSet(layers, Scale) && !NeverSet(layers, OffsetX) && !NeverSet(layers, OffsetY);
    }
  }
}
