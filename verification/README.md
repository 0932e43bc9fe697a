# Rascals compositing editor — a Dafny model

The Rascals editor composes a token's character over a background in one of
three output formats: square, phone saver and raid. It renders the picture to
a canvas, keeps a small gallery of past renders, shares its state through a
link and downloads the result. This project models the editor's logic as pure
functions over immutable data and proves properties about them. The model
covers:

- the editing state (`State`): format, token ids, background mode
  `nft | custom | none`, the per-format custom background selection and the
  GM cups switch;
- the transitions the editor's controls apply to the state: format tabs,
  token previous/next/enter, the background stepper, the custom, no-background
  and cups switches, the custom menu, and the id normalisation of
  `buildFromTokens`;
- loading and saving the state;
- `clampToken` over JavaScript's `Number(...)` of a string;
- the share link, as a map from parameter name to decoded value
  (`fmt, t, uc, cb, nb, gmc`), and how a link is applied to a state;
- preset resolution: `mergePresets`, `withoutScale` and the stacking order of
  `getPreset`, including the phone format's scale lock;
- the draw plan of `renderSceneCore`: the ordered list of images drawn
  (background, character layers in `AFFECTED_LAYERS` order, GMCUPS overlay)
  and the preset the character is drawn with;
- the history gallery, which holds at most `HISTORY_MAX` = 6 thumbnails and
  restores a render when a thumbnail is clicked;
- the `dirty` flag of `scheduleRender`, which coalesces render requests;
- `attributesToRecord`, `expandTemplate`, and the download file name.

Modules follow the parts of `editor/script.js`:

| file | module | contents |
|---|---|---|
| wrappers.dfy | Wrappers | `Option`, map lookup |
| text.dfy | Text | trim, split, `replaceAll`, `padStart`, `join` |
| numbers.dfy | Numbers | decimal numerals, `String(n)`, `Number(s)` |
| formats.dfy | Formats | `FORMATS`, `LOCK_SCALE_FORMATS`, `CUSTOM_BG` |
| tokens.dfy | Tokens | `clampToken`, token controls, id normalisation |
| metadata.dfy | Metadata | trait records, `attributesToRecord`, `expandTemplate` |
| presets.dfy | Presets | `mergePresets`, `withoutScale`, `getPreset` |
| editor_state.dfy | EditorState | `State`, load/save, tabs, stepper, toggles |
| share_codec.dfy | ShareCodec | `buildShareURL`, `loadFromQuery` |
| draw_plan.dfy | DrawPlan | `renderSceneCore` as a list of sources |
| history.dfy | History | `makeSnapshot`, `addToHistory`, restore |
| scheduler.dfy | RenderScheduler | `scheduleRender` and animation frames |
| download.dfy | Download | the `downloadCurrent` file name |

Parameters stand in for the outside world:

- The canvas image is an `img` string.
- The loaded `scene-presets.json` is a `PresetTable`.
- The fetched metadata is a `MetadataJson` value.
- The stored record is a `Stored` value.
- A share link's query is a `map<string, string>`.

## Model

| member | source | states |
|---|---|---|
| Formats.ParseFormat | editor/script.js:16-20 | only the three own keys of `FORMATS` name a format, and each names exactly its own format |
| Formats.CustomBgsWellFormed | editor/script.js:47-69 | every custom menu has more than one entry, lists the format's `defaultBg` first, and names non-empty, pairwise distinct files |
| Numbers.NatToString | editor/script.js:74 | `String(n)` is a non-empty digit string without a leading zero that reads back as `n` |
| Numbers.ToNumberIntToString | editor/script.js:101 | `Number(String(i))` is `i` for every integer |
| Text.PadStart | editor/script.js:685 | `padStart(n, c)` keeps the string as its suffix, fills only with `c`, and gives length `max(len, n)` |
| Text.ReplaceAllSingle | editor/script.js:74 | a single occurrence of the pattern, flanked by text that never shows the pattern's first character, is the one thing replaced |
| Metadata.AttributesToRecordKeys | editor/script.js:75 | the record has a key exactly for each trait type that occurs among the attributes |
| Metadata.AttributesToRecordLast | editor/script.js:75 | each key holds the value of the last attribute of its type |
| Metadata.MetadataPath | editor/script.js:74 | expanding `META_TEMPLATE` gives `metadata/<String(id)>.json` |
| Tokens.ClampToken | editor/script.js:101 | the result is always in `[1, 3333]`; it is the identity on ids in range; it saturates at 3333 above; NaN, 0 and values below 1 give 1 |
| Tokens.ClampTextSpec | editor/script.js:101 | the numeral of an id in range clamps to that id; blank or non-numeric text clamps to 1 |
| Tokens.NormalizeTokens | editor/script.js:692-693 | exactly one id remains, in range; an empty list becomes `[1]`; an in-range first id is kept; a first id above the range becomes 3333 and one below it becomes 1 |
| Tokens.PrevTokens | editor/script.js:387-391 | one in-range id remains: the current id minus one, or 1 at or below the bottom |
| Tokens.NextTokens | editor/script.js:392-396 | one in-range id remains: the current id plus one, or 3333 at or above the top |
| Tokens.EnterTokens | editor/script.js:397-399 | the typed text, clamped, becomes the only id |
| Tokens.PrevNextInverse | editor/script.js:387-396 | next then previous, and previous then next, return to the same id wherever there is room; the ends saturate instead of wrapping |
| EditorState.ModeName | editor/script.js:222-228 | the stored mode string reads back as the same mode |
| EditorState.AssignSelections | editor/script.js:219 | a stored key replaces the in-memory selection, a stored null clears it, and any other key keeps its in-memory selection |
| EditorState.Load | editor/script.js:212-221 | each stored field replaces the default; absent fields keep it; a stored mode is normalised; stored selections are merged over the remembered ones per format, the others are kept; `gmCups` is the stored flag coerced to a boolean |
| EditorState.LoadSave | editor/script.js:212-228 | loading what was saved restores the state, whatever state it is loaded over |
| EditorState.PopulateCustomSelect | editor/script.js:333-348 | a format without a selection gets its default background (the first menu file); an existing selection and all other fields are kept |
| EditorState.SwitchFormat | editor/script.js:363-382 | an unknown or current format changes nothing; otherwise only the format changes, and the new format keeps its remembered selection or, without one, gets its default background |
| EditorState.TokenPrev | editor/script.js:387-391 | only the ids change, to one in-range id: one below the current id when there is room, otherwise 1 |
| EditorState.TokenNext | editor/script.js:392-396 | only the ids change, to one in-range id: one above the current id when there is room, otherwise 3333 |
| EditorState.TokenEnter | editor/script.js:397-399 | only the ids change, to the single id that `clampToken` makes of the typed text |
| EditorState.TokenEnterNumeral | editor/script.js:397-399 | typing the numeral of an id in range selects it; typing nothing selects 1 |
| EditorState.FindFile | editor/script.js:420 | `findIndex`: the first position holding the current file, or -1 when there is none |
| EditorState.NextIndexAt | editor/script.js:416-440 | from a listed file the stepper moves to the neighbouring position, wrapping round at both ends |
| EditorState.StepInverse | editor/script.js:416-440 | on a menu of distinct files, a step forward and a step back cancel, in either order |
| EditorState.UnknownStartsAtFirst | editor/script.js:420-421 | a selection not on the menu steps as from position 0: forward to the second entry, back to the last |
| EditorState.BgNext | editor/script.js:429-440 | forces custom mode; the format's selection becomes the menu entry after the current one; nothing else changes |
| EditorState.BgPrev | editor/script.js:416-427 | forces custom mode; the format's selection becomes the menu entry before the current one; nothing else changes |
| EditorState.BgStepSelectsMenuFile | editor/script.js:416-440 | either button always selects a file of the format's menu; from an unknown selection they select the second and the last entry |
| EditorState.BgNextThenPrev | editor/script.js:416-440 | next then previous restores a listed selection; only the mode becomes custom |
| EditorState.BgPrevThenNext | editor/script.js:416-440 | previous then next restores a listed selection; only the mode becomes custom |
| EditorState.ToggleCustom | editor/script.js:472-478 | on means custom mode, off means the token's own background; the current format keeps its remembered selection or, without one, gets its default background; everything else is untouched |
| EditorState.SelectCustom | editor/script.js:481-485 | only the current format's selection changes; an empty choice clears it |
| EditorState.ToggleNoBg | editor/script.js:489-496 | on means no background; off falls back to custom or the token's own background, following the custom switch; nothing else changes |
| EditorState.ToggleCups | editor/script.js:503-506 | the cups flag follows the switch and nothing else changes |
| ShareCodec.NonZero | editor/script.js:522 | `filter(Boolean)` keeps exactly the non-zero ids, and keeps a non-zero first id first |
| ShareCodec.EncodeShare | editor/script.js:520-528 | the link carries exactly the six parameters; `fmt` names the format; `uc`, `nb` and `gmc` are `1` exactly for custom mode, no background and cups on; `cb` is non-empty exactly in custom mode with a selection, and then it is that selection |
| ShareCodec.DecodeShare | editor/script.js:529-539 | a query with neither `fmt` nor `t` changes nothing; `nb` wins over `uc`; an unknown `fmt` keeps the format; a blank `t` keeps the ids and otherwise its first `-` segment is clamped; a non-empty `cb` sets only the resulting format's selection |
| ShareCodec.TokenTextHead | editor/script.js:522 | the `t` text of an in-range first id is already trimmed, is not empty, and starts with that id's numeral as its first `-` segment |
| ShareCodec.SharedTokenDecodes | editor/script.js:520-533 | the `t` parameter decodes back to the first id when it is in range |
| ShareCodec.SharedModeDecodes | editor/script.js:524-536 | the `uc`/`nb` pair decodes back to the background mode |
| ShareCodec.ShareRoundTrip | editor/script.js:520-539 | applying a state's own link to it gives the state back, reduced to its first id |
| ShareCodec.ShareTransfers | editor/script.js:520-539 | opened over any state, a link carries the format, the first id, the mode, the cups flag and, in custom mode, the selected file |
| Presets.MergePresets | editor/script.js:232-241 | the merge loop's result has every field; each field holds the last non-null value given, or 1 / 0 / 0 when no argument sets it |
| Presets.ApplyAllLastWins | editor/script.js:232-241 | folding arguments over a preset: a field takes the value of the last argument that sets it and keeps its value otherwise |
| Presets.MergeLastWins | editor/script.js:232-241 | `mergePresets` is total and last-non-null-wins, starting from `{1, 0, 0}` |
| Presets.ApplyAllAppend | editor/script.js:232-241 | merging in two runs is merging once |
| Presets.MergeIgnoresAbsent | editor/script.js:235 | a null argument, or an empty object, is ignored |
| Presets.MergeFlatten | editor/script.js:249-253 | a merge result passed as the first argument of another merge flattens into it |
| Presets.MergeFullResets | editor/script.js:253 | a fully defined argument erases everything merged before it |
| Presets.WithoutScale | editor/script.js:242 | `withoutScale` has no scale and keeps both offsets, each defaulting to 0 |
| Presets.BaseCommonChain | editor/script.js:244-253 | `baseCommon` is the flat chain: baseline, then the file's format defaults, then the body override, then the body-in-format override |
| Presets.NoCustomIsBaseChain | editor/script.js:244-273 | without a custom file, the preset is exactly that base chain |
| Presets.DefaultsSectionIgnored | editor/script.js:245-253 | the table's global `defaults` section never affects a resolved preset |
| Presets.ScaleLock | editor/script.js:262-266 | on the phone format a custom file keeps the plain background's scale, and the offsets come from the custom layers |
| Presets.ScaleLockAcrossFiles | editor/script.js:262-266 | two custom files on the phone format give the same scale |
| Presets.CustomPrecedence | editor/script.js:255-268 | on an unlocked format the file preset beats the wildcard preset, which beats the custom format defaults, field by field |
| Presets.CustomClobbersBaseline | editor/script.js:255-268 | as written, with an empty preset table no custom layer sets the scale, yet the square character is drawn at 0.85 on its own background and at 1 on every non-empty custom file |
| Presets.LayeredCustomFields | editor/script.js:244-273 | in the corrected resolution, a field no custom layer sets keeps its base-chain value, and a set field takes the last custom layer's value |
| Presets.LayeredScaleLock | editor/script.js:262-266 | the corrected resolution keeps the phone format's scale lock |
| Presets.LayeredAgreesWhenComplete | editor/script.js:255-268 | when the custom layers set every field they may set, the corrected and the written resolution agree |
| DrawPlan.FindEntry | editor/script.js:598 | `LAYER_ORDER.find`: the first entry with the key, or none when no entry has it |
| DrawPlan.AffectedLayersSelfFolders | editor/script.js:35-44 | every affected layer is found in `LAYER_ORDER` and is read from the folder named like its key |
| DrawPlan.LayerSourcesSound | editor/script.js:597-603 | the character loop draws only drawable layers of its list, each from its own folder, with the trimmed value as the file name |
| DrawPlan.LayerSourcesComplete | editor/script.js:597-603 | the character loop draws every drawable layer of its list |
| DrawPlan.LayerSourcesOrdered | editor/script.js:597-603 | the character loop draws in list order |
| DrawPlan.CharacterSourcesSpec | editor/script.js:597-603 | the character images are exactly the drawable `AFFECTED_LAYERS`, in that order |
| DrawPlan.CharacterIsCharacter | editor/script.js:35-44 | no character image is a background or an overlay |
| DrawPlan.CustomFile | editor/script.js:564-566 | a custom file is in effect exactly in custom mode, and it is never empty |
| DrawPlan.BackgroundSources | editor/script.js:571-585 | the background step draws at most one image, and it is a background |
| DrawPlan.RenderPlan | editor/script.js:560-613 | the renderer fails exactly when there is no record, after drawing at most a custom background; a finished plan draws at most eight images |
| DrawPlan.RenderPlanLayered | editor/script.js:560-613 | the corrected plan draws the same images as the written one and fails in the same cases; only the preset differs |
| DrawPlan.PlanBackground | editor/script.js:571-585 | with no background, no background image; in custom mode, the selection or the default first; otherwise the token's BACKGROUND exactly when it is drawable; nothing after the first image is a background |
| DrawPlan.PlanOverlay | editor/script.js:605-611 | the plan ends with the GMCUPS image of the BODY value exactly when cups are on and BODY is drawable, and no other image is an overlay |
| DrawPlan.PlanPreset | editor/script.js:587-589 | the character is drawn with `getPreset` as written: the base chain without a custom background; in custom mode on an unlocked format the merged custom layers alone; on the phone format the base chain's scale with the custom layers' offsets |
| DrawPlan.PlanPresetLayered | editor/script.js:587-589 | with the corrected resolution, fields no custom layer sets keep the base chain's value in custom mode, and so does the phone format's scale |
| History.Newest | editor/script.js:104 | keeping the newest entries leaves `min(len, 6)` of them |
| History.Evict | editor/script.js:192 | eviction leaves `min(len, 6)` entries, and they are the list's own tail |
| History.EvictIsNewest | editor/script.js:192 | removing the first child while there are more than six keeps exactly the newest six |
| History.AddToHistory | editor/script.js:151-192 | a snapshot without an image is ignored; otherwise its thumbnail is appended last and the oldest entries are dropped down to six |
| History.ReplayKeepsNewest | editor/script.js:151-192 | after any number of renders the gallery holds the newest six of the earlier and the new thumbnails, in order |
| History.Restore | editor/script.js:176-189 | the format, the clamped id and the cups flag are replaced; modes other than custom and none become nft; a non-empty custom file is written only in custom mode, and otherwise the restored format keeps its remembered selection or gets its default background; other formats are untouched |
| History.RestoreSnapshot | editor/script.js:140-189 | restoring a render's thumbnail brings back its format, id, mode, cups flag and, in custom mode, its selected file, over any state |
| RenderScheduler.Schedule | editor/script.js:313-317 | a request sets the flag; a pending render absorbs it; otherwise exactly one callback is queued |
| RenderScheduler.Frame | editor/script.js:316 | a frame clears the flag and renders once exactly when a render was pending |
| RenderScheduler.RunValid | editor/script.js:313-317 | at most one callback is ever waiting; from the idle page the flag is set exactly when a request came after the last frame |
| RenderScheduler.RunRenderBound | editor/script.js:313-317 | renders never outnumber frames, nor the requests plus the callbacks already waiting |
| RenderScheduler.BurstQueuesOne | editor/script.js:313-317 | any burst of requests queues a single callback and renders nothing yet |
| RenderScheduler.BurstThenFrame | editor/script.js:313-317 | a burst followed by one frame renders exactly once, or not at all for an empty burst |
| Download.PaddedIdSpec | editor/script.js:683-685 | an id in range is written as exactly four decimal digits whose value is the id |
| Download.SuffixInjective | editor/script.js:16-20 | no two formats share a file suffix |
| Download.DownloadNameShape | editor/script.js:681-688 | the name is `rascal_`, the four-digit id, `_`, the format suffix and `.png`, at fixed positions |
| Download.DownloadNameInjective | editor/script.js:681-688 | two renders get the same file name only for the same id in the same format |

## Left out

- DOM wiring, the canvas, the preview image, the loader, the drawer, the trait
  chips and `history.replaceState` are not modelled. A plan is a list of image
  sources, not pixels.
- The cover geometry (`coverScale`, `drawCustomCover`, the translate/scale
  transform) is floating-point drawing arithmetic. So is the `p.scale || 1`
  fallback at draw time, which only matters for a scale of 0.
- `loadJson`, `fetchRecord`'s network access, the image cache and image
  loading are not modelled. A missing image is not modelled either; the
  source only logs it and carries on.
- `localStorage` access in `Persist` is not modelled. Reading is a `Stored`
  parameter. An unreadable record is the all-absent `Stored`.
- `requestAnimationFrame` timing and overlapping asynchronous renders are not
  modelled. The scheduler models the flag and the number of waiting callbacks.
- Shuffle token and shuffle background depend on `Math.random`. Both are left
  out.
- `app.js` and `editor/nft-editor/script.js` are separate pages and are not
  part of this model.
- Tokens.ClampText: `Number(...)` is modelled on the integer grammar only
  (blank, optional sign, decimal digits). Fractions, exponents, hexadecimal
  and `Infinity` read as NaN, and so clamp to 1. In JavaScript they can give
  other ids, for example `"1e9"` gives 3333.
- Formats.ParseFormat: `FORMATS[fmt]` in JavaScript also accepts inherited
  object keys such as `toString`. The model accepts only the three format
  keys.
- EditorState.Load: a stored format and stored ids are taken as they are. An
  invalid stored format or non-integer ids are not representable. The mode
  string is normalised with `ParseMode`. Every reader of the mode compares it
  only with `custom` and `none`, so this does not change behaviour.
- Metadata.AttributesToRecordKeys: trait values are strings. Non-string JSON
  values, and the `attrs || []` guard for a missing array, are outside the
  `MetadataJson` type.
- Presets.MergePresets: preset numbers are reals. The `+x` coercion of
  strings, NaN and infinities is not modelled.
- ShareCodec.EncodeShare: percent-encoding and the page origin and path are
  not modelled.
- DrawPlan.RenderPlan: image paths are represented by their folder and file.
  The path strings themselves are not built.
- History.ToThumb: the thumbnail's label and `alt` text are not modelled.
- EditorState.TokenPrev, EditorState.TokenNext and EditorState.TokenEnter:
  the input box's display value is not modelled.

## Findings

| source | as written | input that shows it | evidently intended | confidence | as-written member | corrected member |
|---|---|---|---|---|---|---|
| editor/script.js:255-268 | in custom mode `getPreset` merges the fully defined `mergedCustom` (scale 1, offsets 0 where no custom layer sets a field) over `baseCommon`, so every field is replaced even when no custom layer sets it | an empty preset table, the square format and any non-empty custom file such as `square1.png`: the character scale is 1 on the custom background, but the square baseline of 0.85 on the token's own background | custom layers override only the fields they set, layered on the base chain, as the comments and `FORMAT_BASELINE` suggest | medium, not executed | Presets.CustomClobbersBaseline | Presets.LayeredCustomFields |

`Presets.GetPreset` models the resolution as written. `Presets.GetPresetLayered`
is the corrected resolution. It applies the custom layers field by field on top
of `baseCommon`, and on the phone format it drops their scale. The draw plan
(`DrawPlan.RenderPlan`) follows the code and uses the written resolution.
`DrawPlan.RenderPlanLayered` is the same plan with the corrected resolution. The
two resolutions agree when the custom layers set every field they may set
(`Presets.LayeredAgreesWhenComplete`).
