/** Token ids: `clampToken`, the id normalisation at the start of
    `buildFromTokens`, and the previous / next / typed-in token controls. */
module Tokens {
  import opened Text
  import opened Numbers

  const MinToken: int := 1
  const MaxToken: int := 3333

  predicate InRange(t: int) {
    MinToken <= t <= MaxToken
  }

  function Min(a: int, b: int): int { if a <= b then a else b }
  function Max(a: int, b: int): int { if a >= b then a else b }

  /** `clampToken`: a NaN or zero number counts as 1, and the result is
      then limited to the range of ids. */
  function ClampToken(n: JsNumber): (r: int)
    ensures InRange(r)
    ensures n.Num? && InRange(n.value) ==> r == n.value
    ensures n.Num? && n.value > MaxToken ==> r == MaxToken
    ensures n.NaN? || n.value < MinToken ==> r == MinToken
  {
    var v := if n.NaN? || n.value == 0 then 1 else n.value;
    Min(MaxToken, Max(MinToken, v))
  }

  /** `clampToken` applied to text (an input box, a query value, a dataset
      attribute). */
  function ClampText(s: string): (r: int)
    ensures InRange(r)
  {
    ClampToken(ToNumber(s))
  }

  /** Text that spells an in-range id clamps to that id; empty, blank or
      non-numeric text clamps to 1. */
  lemma ClampTextSpec(s: string, t: int)
    ensures InRange(t) ==> ClampText(IntToString(t)) == t
    ensures Trim(s) == "" ==> ClampText(s) == MinToken
    ensures ToNumber(s).NaN? ==> ClampText(s) == MinToken
  {
    ToNumberIntToString(t);
  }

  /** The current token: the first id, or 1 when there is none or it is 0. */
  function First(tokens: seq<int>): int {
    if |tokens| > 0 && tokens[0] != 0 then tokens[0] else 1
  }

  /** The id list `buildFromTokens` keeps: only the first id, clamped, or
      `[1]` when there is none. */
  function NormalizeTokens(ids: seq<int>): (r: seq<int>)
    ensures |r| == 1 && InRange(r[0])
    ensures |ids| == 0 ==> r == [1]
    ensures |ids| > 0 && InRange(ids[0]) ==> r == [ids[0]]
    ensures |ids| > 0 && ids[0] > MaxToken ==> r == [MaxToken]
    ensures |ids| > 0 && ids[0] < MinToken ==> r == [MinToken]
  {
    if |ids| == 0 then [1] else [ClampToken(Num(ids[0]))]
  }

  /** The ids with the first one replaced by `v` (or set, when there is none). */
  function SetFirst(tokens: seq<int>, v: int): seq<int> {
    if |tokens| == 0 then [v] else [v] + tokens[1..]
  }

  /** The "previous token" button: clamp one below the current token, then
      rebuild. */
  function PrevTokens(tokens: seq<int>): (r: seq<int>)
    ensures |r| == 1 && InRange(r[0])
    ensures InRange(First(tokens)) && First(tokens) > MinToken ==> r == [First(tokens) - 1]
    ensures First(tokens) <= MinToken ==> r == [MinToken]
  {
    NormalizeTokens(SetFirst(tokens, ClampToken(Num(First(tokens) - 1))))
  }

  /** The "next token" button: clamp one above the current token, then
      rebuild. */
  function NextTokens(tokens: seq<int>): (r: seq<int>)
    ensures |r| == 1 && InRange(r[0])
    ensures InRange(First(tokens)) && First(tokens) < MaxToken ==> r == [First(tokens) + 1]
    ensures First(tokens) >= MaxToken ==> r == [MaxToken]
  {
    NormalizeTokens(SetFirst(tokens, ClampToken(Num(First(tokens) + 1))))
  }

  /** Enter in the token box: clamp the typed text, then rebuild. */
  function EnterTokens(tokens: seq<int>, input: string): (r: seq<int>)
    ensures r == [ClampText(input)]
  {
    NormalizeTokens(SetFirst(tokens, ClampText(input)))
  }

  /** Stepping forward and back returns to the same token wherever there is
      room to step; the steps saturate at the ends rather than wrap. */
  lemma PrevNextInverse(tokens: seq<int>)
    ensures InRange(First(tokens)) && First(tokens) < MaxToken ==> PrevTokens(NextTokens(tokens)) == [First(tokens)]
    ensures InRange(First(tokens)) && First(tokens) > MinToken ==> NextTokens(PrevTokens(tokens)) == [First(tokens)]
    ensures NextTokens([MaxToken]) == [MaxToken]
    ensures PrevTokens([MinToken]) == [MinToken]
  {
  }
}
