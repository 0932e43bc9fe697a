/** The editing state (`State`) and the transitions the editor's controls
    apply to it: load and save, format tabs, token controls, the background
    stepper and the background toggles. */
module EditorState {
  import opened Wrappers
  import opened Formats
  import opened Numbers
  import opened Tokens

  /** `backgroundMode`: the token's own background, a custom one, or none. */
  datatype BgMode = Nft | Custom | NoBg

  /** The string a mode is stored and shared as. */
  function ModeName(m: BgMode): (s: string)
    ensures ParseMode(s) == m
  {
    match m
    case Nft => "nft"
    case Custom => "custom"
    case NoBg => "none"
  }

  /** A stored mode string: `custom` and `none` are recognised and anything
      else means the token's own background. Every reader of the mode in the
      editor only compares it with `custom` and `none`. */
  function ParseMode(s: string): BgMode {
    if s == "custom" then Custom else if s == "none" then NoBg else Nft
  }

  /** The persisted part of `State`; a format with no entry in
      `selectedCustom` has a null selection. */
  datatype Editor = Editor(
    format: Format,
    tokens: seq<int>,
    mode: BgMode,
    selectedCustom: map<Format, string>,
    gmCups: bool)

  /** The state the page starts from before anything is loaded. */
  const Initial: Editor := Editor(Square, [1], Nft, map[], false)

  /** The remembered custom file of format `f`; an empty one counts as none. */
  function Selected(e: Editor, f: Format): Option<string> {
    if f in e.selectedCustom && e.selectedCustom[f] != "" then Some(e.selectedCustom[f]) else None
  }

  /** The active token: the first id, or 1 when there is none. */
  function Token(e: Editor): int {
    First(e.tokens)
  }

  /** The selections of all formats other than `f` agree. */
  predicate SameOtherSelections(a: Editor, b: Editor, f: Format) {
    forall g: Format :: g != f ==> Lookup(a.selectedCustom, g) == Lookup(b.selectedCustom, g)
  }

  // ---------------------------------------------------------------- storage

  /** The record read back from storage; an absent or null field is `None`
      and an unreadable record is `Stored(None, None, None, None, false)`. */
  datatype Stored = Stored(
    format: Option<Format>,
    tokens: Option<seq<int>>,
    mode: Option<string>,
    selectedCustom: Option<map<Format, Option<string>>>,
    gmCups: bool)

  /** The stored selections copied over the in-memory ones: a stored key
      replaces the in-memory one, a stored null clears it. */
  function AssignSelections(base: map<Format, string>, over: map<Format, Option<string>>): (r: map<Format, string>)
    ensures forall f :: f in over ==> Lookup(r, f) == over[f]
    ensures forall f :: f !in over ==> Lookup(r, f) == Lookup(base, f)
  {
    map f | f in base.Keys + over.Keys && (f in over ==> over[f].Some?) ::
      if f in over then over[f].value else base[f]
  }

  /** `State.load`: each stored field replaces the in-memory default. */
  function Load(base: Editor, s: Stored): (r: Editor)
    ensures s.format.Some? ==> r.format == s.format.value
    ensures s.format.None? ==> r.format == base.format
    ensures r.tokens == s.tokens.GetOr(base.tokens)
    ensures s.mode.Some? ==> r.mode == ParseMode(s.mode.value)
    ensures s.mode.None? ==> r.mode == base.mode
    ensures r.gmCups == s.gmCups
    ensures s.selectedCustom.Some? ==> forall f :: f in s.selectedCustom.value ==>
      Lookup(r.selectedCustom, f) == s.selectedCustom.value[f]
    ensures forall f :: (s.selectedCustom.None? || f !in s.selectedCustom.value) ==>
      Lookup(r.selectedCustom, f) == Lookup(base.selectedCustom, f)
  {
    Editor(
      s.format.GetOr(base.format),
      s.tokens.GetOr(base.tokens),
      if s.mode.Some? then ParseMode(s.mode.value) else base.mode,
      AssignSelections(base.selectedCustom, s.selectedCustom.GetOr(map[])),
      s.gmCups)
  }

  /** `State.save`: every persisted field, with an explicit null for each
      format that has no selection. */
  function Save(e: Editor): Stored {
    Stored(
      Some(e.format),
      Some(e.tokens),
      Some(ModeName(e.mode)),
      Some(map f: Format | f in {Square, PhoneSaver, Raid} :: Lookup(e.selectedCustom, f)),
      e.gmCups)
  }

  /** Saving and loading restores the state whatever it is loaded over. */
  lemma LoadSave(base: Editor, e: Editor)
    ensures Load(base, Save(e)) == e
  {
    var r := Load(base, Save(e));
    var over := Save(e).selectedCustom.value;
    forall f: Format
      ensures Lookup(r.selectedCustom, f) == Lookup(e.selectedCustom, f)
    {
      assert f == Square || f == PhoneSaver || f == Raid;
      assert f in over;
    }
    assert r.selectedCustom == e.selectedCustom;
  }

  // ------------------------------------------------------------- selection

  /** `populateCustomSelect`: a format without a selection gets the first
      file of its menu. */
  function PopulateCustomSelect(e: Editor): (r: Editor)
    ensures r.format == e.format && r.tokens == e.tokens && r.mode == e.mode && r.gmCups == e.gmCups
    ensures Selected(e, e.format).Some? ==> r == e
    ensures Selected(e, e.format).None? ==> Selected(r, r.format) == Some(Spec(e.format).defaultBg)
    ensures Selected(r, r.format) == Some(Selected(e, e.format).GetOr(Spec(e.format).defaultBg))
    ensures SameOtherSelections(r, e, e.format)
  {
    CustomBgsWellFormed(e.format);
    var list := CustomBgs(e.format);
    var remembered := if Selected(e, e.format).Some? then Selected(e, e.format).value
                      else if |list| > 0 then list[0].file else "";
    if remembered != "" then e.(selectedCustom := e.selectedCustom[e.format := remembered]) else e
  }

  /** A format tab: an unknown or current format changes nothing; otherwise
      the format switches and its menu is populated. */
  function SwitchFormat(e: Editor, view: string): (r: Editor)
    ensures ParseFormat(view).None? || ParseFormat(view) == Some(e.format) ==> r == e
    ensures ParseFormat(view).Some? ==> r.format == ParseFormat(view).value
    ensures ParseFormat(view).Some? && ParseFormat(view).value != e.format ==>
      Selected(r, r.format) == Some(Selected(e, r.format).GetOr(Spec(r.format).defaultBg))
    ensures r.tokens == e.tokens && r.mode == e.mode && r.gmCups == e.gmCups
    ensures SameOtherSelections(r, e, r.format)
  {
    var f := ParseFormat(view);
    if f.None? || f.value == e.format then e
    else PopulateCustomSelect(e.(format := f.value))
  }

  // ---------------------------------------------------------------- tokens

  /** The "previous token" button; only the ids change. */
  function TokenPrev(e: Editor): (r: Editor)
    ensures InRange(Token(r)) && r.tokens == [Token(r)]
    ensures InRange(Token(e)) && Token(e) > MinToken ==> Token(r) == Token(e) - 1
    ensures Token(e) <= MinToken ==> Token(r) == MinToken
    ensures r.(tokens := e.tokens) == e
  {
    e.(tokens := PrevTokens(e.tokens))
  }

  /** The "next token" button; only the ids change. */
  function TokenNext(e: Editor): (r: Editor)
    ensures InRange(Token(r)) && r.tokens == [Token(r)]
    ensures InRange(Token(e)) && Token(e) < MaxToken ==> Token(r) == Token(e) + 1
    ensures Token(e) >= MaxToken ==> Token(r) == MaxToken
    ensures r.(tokens := e.tokens) == e
  {
    e.(tokens := NextTokens(e.tokens))
  }

  /** Enter in the token box; only the ids change. */
  function TokenEnter(e: Editor, input: string): (r: Editor)
    ensures r.tokens == [ClampText(input)] && Token(r) == ClampText(input)
    ensures r.(tokens := e.tokens) == e
  {
    e.(tokens := EnterTokens(e.tokens, input))
  }

  /** Typing an id in range selects that id; typing nothing selects 1. */
  lemma TokenEnterNumeral(e: Editor, t: int)
    requires InRange(t)
    ensures Token(TokenEnter(e, IntToString(t))) == t
    ensures Token(TokenEnter(e, "")) == MinToken
  {
    ClampTextSpec("", t);
  }

  // ------------------------------------------------------ background stepper

  /** The position of the first menu entry whose file is the current
      selection, or -1 when there is no selection or no such entry. */
  function FindFile(list: seq<BgEntry>, current: Option<string>): (r: int)
    ensures -1 <= r < |list|
    ensures r >= 0 ==> current.Some? && list[r].file == current.value
    ensures r >= 0 ==> forall j :: 0 <= j < r ==> list[j].file != current.value
    ensures r == -1 ==> current.None? || forall j :: 0 <= j < |list| ==> list[j].file != current.value
    decreases |list|
  {
    if current.None? || |list| == 0 then -1
    else if list[0].file == current.value then 0
    else
      var i := FindFile(list[1..], current);
      if i < 0 then -1 else i + 1
  }

  /** Files of a menu are pairwise distinct. */
  predicate DistinctFiles(list: seq<BgEntry>) {
    forall a, b :: 0 <= a < b < |list| ==> list[a].file != list[b].file
  }

  /** The file at a position of a menu with distinct files is found at that
      position. */
  lemma FindFileAt(list: seq<BgEntry>, i: int)
    requires 0 <= i < |list| && DistinctFiles(list)
    ensures FindFile(list, Some(list[i].file)) == i
  {
  }

  /** The position the stepper starts from: the current file's, or 0 when
      the current selection is not on the menu. */
  function StartIndex(list: seq<BgEntry>, current: Option<string>): (i: nat)
    requires |list| > 0
    ensures i < |list|
  {
    var found := FindFile(list, current);
    if found < 0 then 0 else found
  }

  /** The position after the starting one, wrapping round to the first. */
  function NextIndex(list: seq<BgEntry>, current: Option<string>): (i: nat)
    requires |list| > 0
    ensures i < |list|
  {
    (StartIndex(list, current) + 1) % |list|
  }

  /** The position before the starting one, wrapping round to the last. */
  function PrevIndex(list: seq<BgEntry>, current: Option<string>): (i: nat)
    requires |list| > 0
    ensures i < |list|
  {
    (StartIndex(list, current) - 1 + |list|) % |list|
  }

  /** The wrap-around of one step on a ring of `n` positions. */
  lemma RingStep(a: int, n: int)
    requires 0 <= a < n
    ensures (a + 1) % n == if a + 1 < n then a + 1 else 0
    ensures (a - 1 + n) % n == if a > 0 then a - 1 else n - 1
  {
    if a + 1 == n {
      assert (a + 1) % n == 0;
    }
    if a > 0 {
      assert a - 1 + n == (a - 1) + n;
    }
  }

  /** From a listed file, the next position is the one after it, wrapping
      round. */
  lemma NextIndexAt(list: seq<BgEntry>, j: nat)
    requires j < |list| && DistinctFiles(list)
    ensures NextIndex(list, Some(list[j].file)) == if j + 1 < |list| then j + 1 else 0
    ensures PrevIndex(list, Some(list[j].file)) == if j > 0 then j - 1 else |list| - 1
  {
    FindFileAt(list, j);
    RingStep(j, |list|);
  }

  /** On a menu with distinct files, stepping forward from a listed file and
      back lands on it again, and so does stepping back and forward. */
  lemma StepInverse(list: seq<BgEntry>, j: nat)
    requires j < |list| && DistinctFiles(list)
    ensures PrevIndex(list, Some(list[NextIndex(list, Some(list[j].file))].file)) == j
    ensures NextIndex(list, Some(list[PrevIndex(list, Some(list[j].file))].file)) == j
  {
    NextIndexAt(list, j);
    var k := if j + 1 < |list| then j + 1 else 0;
    NextIndexAt(list, k);
    var m := if j > 0 then j - 1 else |list| - 1;
    NextIndexAt(list, m);
  }

  /** A selection that is not on the menu steps as if it were the first
      entry: forward to the second, back to the last. */
  lemma UnknownStartsAtFirst(list: seq<BgEntry>, current: Option<string>)
    requires |list| > 1 && FindFile(list, current) < 0
    ensures NextIndex(list, current) == 1
    ensures PrevIndex(list, current) == |list| - 1
  {
    RingStep(0, |list|);
  }

  /** The stepper's right-arrow button: custom mode, and the menu entry after
      the current one. */
  function BgNext(e: Editor): (r: Editor)
    ensures r.mode == Custom
    ensures r.format == e.format && r.tokens == e.tokens && r.gmCups == e.gmCups
    ensures SameOtherSelections(r, e, e.format)
    ensures |CustomBgs(e.format)| > 0 ==>
      Lookup(r.selectedCustom, e.format) == Some(CustomBgs(e.format)[NextIndex(CustomBgs(e.format), Lookup(e.selectedCustom, e.format))].file)
  {
    var list := CustomBgs(e.format);
    var e1 := e.(mode := Custom);
    if |list| == 0 then e1
    else
      var idx := NextIndex(list, Lookup(e.selectedCustom, e.format));
      e1.(selectedCustom := e.selectedCustom[e.format := list[idx].file])
  }

  /** The stepper's left-arrow button: custom mode, and the menu entry
      before the current one. */
  function BgPrev(e: Editor): (r: Editor)
    ensures r.mode == Custom
    ensures r.format == e.format && r.tokens == e.tokens && r.gmCups == e.gmCups
    ensures SameOtherSelections(r, e, e.format)
    ensures |CustomBgs(e.format)| > 0 ==>
      Lookup(r.selectedCustom, e.format) == Some(CustomBgs(e.format)[PrevIndex(CustomBgs(e.format), Lookup(e.selectedCustom, e.format))].file)
  {
    var list := CustomBgs(e.format);
    var e1 := e.(mode := Custom);
    if |list| == 0 then e1
    else
      var idx := PrevIndex(list, Lookup(e.selectedCustom, e.format));
      e1.(selectedCustom := e.selectedCustom[e.format := list[idx].file])
  }

  /** Either stepper button selects a file of the current format's menu and
      only changes that format's selection; an unknown selection counts as
      the first entry. */
  lemma BgStepSelectsMenuFile(e: Editor)
    ensures Lookup(BgNext(e).selectedCustom, e.format).Some?
    ensures FindFile(CustomBgs(e.format), Lookup(BgNext(e).selectedCustom, e.format)) >= 0
    ensures FindFile(CustomBgs(e.format), Lookup(BgPrev(e).selectedCustom, e.format)) >= 0
    ensures FindFile(CustomBgs(e.format), Lookup(e.selectedCustom, e.format)) < 0 ==>
      && Lookup(BgNext(e).selectedCustom, e.format) == Some(CustomBgs(e.format)[1].file)
      && Lookup(BgPrev(e).selectedCustom, e.format) == Some(CustomBgs(e.format)[|CustomBgs(e.format)| - 1].file)
  {
    CustomBgsWellFormed(e.format);
    var list := CustomBgs(e.format);
    assert DistinctFiles(list);
    var cur := Lookup(e.selectedCustom, e.format);
    FindFileAt(list, NextIndex(list, cur));
    FindFileAt(list, PrevIndex(list, cur));
    if FindFile(list, cur) < 0 {
      UnknownStartsAtFirst(list, cur);
    }
  }

  /** Overwriting a key and then writing its old value back restores the
      map. */
  lemma UpdateBack(m: map<Format, string>, k: Format, a: string, b: string)
    requires k in m && m[k] == b
    ensures m[k := a][k := b] == m
  {
  }

  /** Next then previous gives back the selected file when it is on the
      menu; only the mode is forced to custom. */
  lemma BgNextThenPrev(e: Editor, j: nat)
    requires j < |CustomBgs(e.format)|
    requires Lookup(e.selectedCustom, e.format) == Some(CustomBgs(e.format)[j].file)
    ensures BgPrev(BgNext(e)) == e.(mode := Custom)
  {
    var list := CustomBgs(e.format);
    CustomBgsWellFormed(e.format);
    assert DistinctFiles(list);
    StepInverse(list, j);
    var k := NextIndex(list, Some(list[j].file));
    var nx := BgNext(e);
    assert nx.selectedCustom == e.selectedCustom[e.format := list[k].file];
    var back := BgPrev(nx);
    assert back.selectedCustom == nx.selectedCustom[e.format := list[j].file];
    UpdateBack(e.selectedCustom, e.format, list[k].file, list[j].file);
  }

  /** Previous then next gives back the selected file when it is on the
      menu; only the mode is forced to custom. */
  lemma BgPrevThenNext(e: Editor, j: nat)
    requires j < |CustomBgs(e.format)|
    requires Lookup(e.selectedCustom, e.format) == Some(CustomBgs(e.format)[j].file)
    ensures BgNext(BgPrev(e)) == e.(mode := Custom)
  {
    var list := CustomBgs(e.format);
    CustomBgsWellFormed(e.format);
    assert DistinctFiles(list);
    StepInverse(list, j);
    var k := PrevIndex(list, Some(list[j].file));
    var pv := BgPrev(e);
    assert pv.selectedCustom == e.selectedCustom[e.format := list[k].file];
    var back := BgNext(pv);
    assert back.selectedCustom == pv.selectedCustom[e.format := list[j].file];
    UpdateBack(e.selectedCustom, e.format, list[k].file, list[j].file);
  }

  // ------------------------------------------------------ background toggles

  /** The "custom background" switch; switching it on also re-populates the
      menu, so a selection exists. */
  function ToggleCustom(e: Editor, checked: bool): (r: Editor)
    ensures checked ==> r.mode == Custom
    ensures !checked ==> r.mode == Nft
    ensures Selected(r, r.format) == Some(Selected(e, e.format).GetOr(Spec(e.format).defaultBg))
    ensures r.format == e.format && r.tokens == e.tokens && r.gmCups == e.gmCups
    ensures SameOtherSelections(r, e, e.format)
  {
    PopulateCustomSelect(e.(mode := if checked then Custom else Nft))
  }

  /** The "no background" switch; switching it off falls back on the custom
      switch's current position. */
  function ToggleNoBg(e: Editor, checked: bool, customChecked: bool): (r: Editor)
    ensures checked ==> r.mode == NoBg
    ensures !checked ==> r.mode == (if customChecked then Custom else Nft)
    ensures r.(mode := e.mode) == e
  {
    e.(mode := if checked then NoBg else if customChecked then Custom else Nft)
  }

  /** Choosing from the custom menu: only the current format's selection
      changes; an empty choice clears it. */
  function SelectCustom(e: Editor, value: string): (r: Editor)
    ensures Selected(r, e.format) == (if value == "" then None else Some(value))
    ensures r.format == e.format && r.tokens == e.tokens && r.mode == e.mode && r.gmCups == e.gmCups
    ensures SameOtherSelections(r, e, e.format)
  {
    if value == "" then e.(selectedCustom := e.selectedCustom - {e.format})
    else e.(selectedCustom := e.selectedCustom[e.format := value])
  }

  /** The GM cups switch. */
  function ToggleCups(e: Editor, checked: bool): (r: Editor)
    ensures r.gmCups == checked
    ensures r.(gmCups := e.gmCups) == e
  {
    e.(gmCups := checked)
  }
}
