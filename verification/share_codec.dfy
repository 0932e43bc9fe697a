/** The share link: `buildShareURL` turns the editing state into the query
    parameters `fmt, t, uc, cb, nb, gmc`, and `loadFromQuery` applies such
    parameters to a state. The query is a map from parameter name to its
    decoded value; percent-encoding and the page address are not modelled. */
module ShareCodec {
  import opened Wrappers
  import opened Text
  import opened Numbers
  import opened Formats
  import opened Tokens
  import opened EditorState

  type Query = map<string, string>

  /** The parameter names a share link always carries. */
  const ShareKeys: set<string> := {"fmt", "t", "uc", "cb", "nb", "gmc"}

  /** A boolean switch as a query value. */
  function Flag(b: bool): string {
    if b then "1" else "0"
  }

  /** The ids the link keeps: those other than 0, in order. */
  function NonZero(ts: seq<int>): (r: seq<int>)
    ensures |r| <= |ts|
    ensures forall x :: x in r <==> x in ts && x != 0
    ensures |ts| > 0 && ts[0] != 0 ==> |r| > 0 && r[0] == ts[0]
    decreases |ts|
  {
    if |ts| == 0 then []
    else
      var rest := NonZero(ts[1..]);
      assert forall x :: x in ts <==> x == ts[0] || x in ts[1..];
      if ts[0] == 0 then rest else [ts[0]] + rest
  }

  /** The `t` parameter: the non-zero ids joined by `-`. */
  function TokenText(ts: seq<int>): string {
    var ids := NonZero(ts);
    Join(seq(|ids|, i requires 0 <= i < |ids| => IntToString(ids[i])), "-")
  }

  /** The custom file a link carries: the current format's selection, and
      only in custom mode. */
  function SharedCustom(e: Editor): string {
    if e.mode == Custom && Selected(e, e.format).Some? then Selected(e, e.format).value else ""
  }

  /** `buildShareURL`'s parameters. */
  function EncodeShare(e: Editor): (q: Query)
    ensures q.Keys == ShareKeys
    ensures ParseFormat(q["fmt"]) == Some(e.format)
    ensures q["uc"] == "1" <==> e.mode == Custom
    ensures q["nb"] == "1" <==> e.mode == NoBg
    ensures q["cb"] != "" <==> e.mode == Custom && Selected(e, e.format).Some?
    ensures q["cb"] != "" ==> Selected(e, e.format) == Some(q["cb"])
    ensures q["gmc"] == "1" <==> e.gmCups
  {
    map[
      "fmt" := Key(e.format),
      "t" := TokenText(e.tokens),
      "uc" := Flag(e.mode == Custom),
      "cb" := SharedCustom(e),
      "nb" := Flag(e.mode == NoBg),
      "gmc" := Flag(e.gmCups)]
  }

  /** The mode a query selects: `nb=1` wins over `uc=1`, and neither means
      the token's own background. */
  function QueryMode(q: Query): BgMode {
    if Lookup(q, "nb") == Some("1") then NoBg
    else if Lookup(q, "uc") == Some("1") then Custom
    else Nft
  }

  /** The format a query selects: `fmt` when it names a format, the
      current one otherwise. */
  function QueryFormat(e: Editor, q: Query): (f: Format)
    ensures "fmt" in q && ParseFormat(q["fmt"]).Some? ==> f == ParseFormat(q["fmt"]).value
    ensures "fmt" !in q || ParseFormat(q["fmt"]).None? ==> f == e.format
  {
    var fmt := Lookup(q, "fmt").GetOr("");
    if ParseFormat(fmt).Some? then ParseFormat(fmt).value else e.format
  }

  /** The ids a query selects: the first `-` segment of a non-blank `t`,
      clamped, or the current ids. */
  function QueryTokens(e: Editor, q: Query): (ts: seq<int>)
    ensures "t" in q && Trim(q["t"]) != "" ==> ts == [ClampText(FirstSegment(Trim(q["t"]), '-'))]
    ensures "t" !in q || Trim(q["t"]) == "" ==> ts == e.tokens
  {
    var t := Trim(Lookup(q, "t").GetOr(""));
    if t != "" then [ClampText(FirstSegment(t, '-'))] else e.tokens
  }

  /** The remembered selections after a query: a non-empty `cb` becomes the
      selection of format `f`. */
  function QuerySelections(e: Editor, q: Query, f: Format): (m: map<Format, string>)
    ensures Lookup(q, "cb").GetOr("") != "" ==> Lookup(m, f) == Some(q["cb"])
    ensures Lookup(q, "cb").GetOr("") == "" ==> m == e.selectedCustom
    ensures forall g :: g != f ==> Lookup(m, g) == Lookup(e.selectedCustom, g)
  {
    var cb := Lookup(q, "cb").GetOr("");
    if cb != "" then e.selectedCustom[f := cb] else e.selectedCustom
  }

  /** `loadFromQuery`. */
  function DecodeShare(e: Editor, q: Query): (r: Editor)
    ensures "fmt" !in q && "t" !in q ==> r == e
    ensures "fmt" in q || "t" in q ==> r.mode == QueryMode(q) && r.gmCups == (Lookup(q, "gmc") == Some("1"))
    ensures "fmt" in q && ParseFormat(q["fmt"]).Some? ==> r.format == ParseFormat(q["fmt"]).value
    ensures "fmt" !in q || ParseFormat(q["fmt"]).None? ==> r.format == e.format
    ensures "t" in q && Trim(q["t"]) != "" ==> r.tokens == [ClampText(FirstSegment(Trim(q["t"]), '-'))]
    ensures "t" !in q || Trim(q["t"]) == "" ==> r.tokens == e.tokens
    ensures ("fmt" in q || "t" in q) && Lookup(q, "cb").GetOr("") != "" ==> Lookup(r.selectedCustom, r.format) == Some(q["cb"])
    ensures Lookup(q, "cb").GetOr("") == "" ==> r.selectedCustom == e.selectedCustom
    ensures SameOtherSelections(r, e, r.format)
  {
    if "fmt" !in q && "t" !in q then e
    else
      var format := QueryFormat(e, q);
      Editor(format, QueryTokens(e, q), QueryMode(q), QuerySelections(e, q, format), Lookup(q, "gmc") == Some("1"))
  }

  /** The `t` parameter of a state whose first id is in range spells that id
      first, without surrounding whitespace, and its first `-` segment is
      exactly that id's numeral. */
  lemma TokenTextHead(ts: seq<int>)
    requires |ts| > 0 && InRange(ts[0])
    ensures Trim(TokenText(ts)) == TokenText(ts)
    ensures TokenText(ts) != ""
    ensures FirstSegment(TokenText(ts), '-') == IntToString(ts[0])
  {
    var ids := NonZero(ts);
    var strs := seq(|ids|, i requires 0 <= i < |ids| => IntToString(ids[i]));
    var t := Join(strs, "-");
    assert t == TokenText(ts);
    assert strs[0] == IntToString(ts[0]);
    assert forall j :: 0 <= j < |strs| ==> NoWhitespace(strs[j]) by {
      forall j | 0 <= j < |strs|
        ensures NoWhitespace(strs[j])
      {
        assert strs[j] == IntToString(ids[j]);
      }
    }
    assert NoWhitespace("-");
    JoinNoWhitespace(strs, "-");
    TrimNoWhitespace(t);
    JoinHead(strs, "-");
    var rest := t[|strs[0]|..];
    assert t == strs[0] + rest;
    assert |rest| == 0 || rest[0] == '-';
    assert '-' !in strs[0];
    FirstSegmentOfPrefix(strs[0], rest, '-');
  }

  /** The `t` parameter of a state's link decodes to its first id when that
      id is in range. */
  lemma SharedTokenDecodes(e: Editor)
    requires |e.tokens| > 0 && InRange(e.tokens[0])
    ensures Trim(EncodeShare(e)["t"]) != ""
    ensures ClampText(FirstSegment(Trim(EncodeShare(e)["t"]), '-')) == e.tokens[0]
  {
    var t := EncodeShare(e)["t"];
    assert t == TokenText(e.tokens);
    TokenTextHead(e.tokens);
    ClampTextSpec("", e.tokens[0]);
  }

  /** The mode a state's link carries is the state's mode. */
  lemma SharedModeDecodes(e: Editor)
    ensures QueryMode(EncodeShare(e)) == e.mode
  {
    var q := EncodeShare(e);
    assert Lookup(q, "nb") == Some(q["nb"]) && Lookup(q, "uc") == Some(q["uc"]);
  }

  /** Decoding a state's own link gives back the state, reduced to its first
      id as every load does. */
  lemma ShareRoundTrip(e: Editor)
    requires |e.tokens| > 0 && InRange(e.tokens[0])
    ensures DecodeShare(e, EncodeShare(e)) == e.(tokens := [e.tokens[0]])
  {
    var q := EncodeShare(e);
    ShareTransfers(e, e);
    var r := DecodeShare(e, q);
    var cb := Lookup(q, "cb").GetOr("");
    if cb != "" {
      assert r.selectedCustom == e.selectedCustom[e.format := cb];
      assert e.selectedCustom[e.format] == cb;
      assert e.selectedCustom[e.format := cb] == e.selectedCustom;
    }
    assert r.selectedCustom == e.selectedCustom;
  }

  /** Whatever state a link is opened over, it carries the format, the first
      id, the background mode and the cups switch, and in custom mode the
      selected file. */
  lemma ShareTransfers(base: Editor, e: Editor)
    requires |e.tokens| > 0 && InRange(e.tokens[0])
    ensures DecodeShare(base, EncodeShare(e)).format == e.format
    ensures DecodeShare(base, EncodeShare(e)).tokens == [e.tokens[0]]
    ensures DecodeShare(base, EncodeShare(e)).mode == e.mode
    ensures DecodeShare(base, EncodeShare(e)).gmCups == e.gmCups
    ensures e.mode == Custom && Selected(e, e.format).Some? ==>
      Selected(DecodeShare(base, EncodeShare(e)), e.format) == Selected(e, e.format)
  {
    var q := EncodeShare(e);
    SharedTokenDecodes(e);
    SharedModeDecodes(e);
    assert "fmt" in q && ParseFormat(q["fmt"]) == Some(e.format);
  }
}
