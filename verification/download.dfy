/** The file name `downloadCurrent` gives the rendered image:
    `rascal_<id padded to four digits>_<format suffix>.png`. */
module Download {
  import opened Text
  import opened Numbers
  import opened Formats
  import opened Tokens
  import opened EditorState

  /** The id as it appears in the file name. */
  function PaddedId(id: int): string {
    PadStart(IntToString(id), 4, '0')
  }

  function DownloadName(e: Editor): string {
    "rascal_" + PaddedId(Token(e)) + "_" + Spec(e.format).fileSuffix + ".png"
  }

  /** An id in range is written as exactly four decimal digits whose value
      is the id. */
  lemma PaddedIdSpec(id: int)
    requires InRange(id)
    ensures |PaddedId(id)| == 4 && AllDigits(PaddedId(id)) && DigitsValue(PaddedId(id)) == id
  {
    var d := NatToString(id);
    assert IntToString(id) == d;
    FourDigitsBound(id);
    PadNumeral(d);
  }

  /** Ids in range have at most four digits. */
  lemma FourDigitsBound(id: int)
    requires InRange(id)
    ensures |NatToString(id)| <= 4
  {
    assert Pow10(4) == 10000 by {
      assert Pow10(1) == 10;
      assert Pow10(2) == 100;
      assert Pow10(3) == 1000;
    }
    NatToStringLength(id, 4);
  }

  /** Padding a numeral of at most four digits with zeros keeps its value. */
  lemma PadNumeral(d: string)
    requires |d| <= 4 && AllDigits(d)
    ensures |PadStart(d, 4, '0')| == 4
    ensures AllDigits(PadStart(d, 4, '0')) && DigitsValue(PadStart(d, 4, '0')) == DigitsValue(d)
  {
    var p := PadStart(d, 4, '0');
    var z := p[..4 - |d|];
    assert p == z + d;
    DigitsValueLeadingZeros(z, d);
  }

  /** Every format has its own file suffix. */
  lemma SuffixInjective(a: Format, b: Format)
    requires Spec(a).fileSuffix == Spec(b).fileSuffix
    ensures a == b
  {
  }

  /** The pieces of a name of the download shape are found at fixed
      positions. */
  lemma NameSlices(mid: string, suf: string)
    requires |mid| == 4
    ensures var n := "rascal_" + mid + "_" + suf + ".png";
      && |n| == 12 + |suf| + 4
      && n[..7] == "rascal_"
      && n[7..11] == mid
      && n[11] == '_'
      && n[12..|n| - 4] == suf
      && n[|n| - 4..] == ".png"
  {
    var n := "rascal_" + mid + "_" + suf + ".png";
    assert n == ("rascal_" + mid + "_") + suf + ".png";
    assert n[12..|n| - 4] == suf;
  }

  /** The file name starts with `rascal_`, ends with `.png`, and carries the
      four-digit id and the format suffix. */
  lemma DownloadNameShape(e: Editor)
    requires InRange(Token(e))
    ensures var n := DownloadName(e);
      && |n| == 12 + |Spec(e.format).fileSuffix| + 4
      && n[..7] == "rascal_"
      && AllDigits(n[7..11]) && DigitsValue(n[7..11]) == Token(e)
      && n[11] == '_'
      && n[12..|n| - 4] == Spec(e.format).fileSuffix
      && n[|n| - 4..] == ".png"
  {
    var mid := PaddedId(Token(e));
    var suf := Spec(e.format).fileSuffix;
    PaddedIdSpec(Token(e));
    NameSlices(mid, suf);
    assert DownloadName(e) == "rascal_" + mid + "_" + suf + ".png";
  }

  /** Two renders get the same file name only when they show the same token
      in the same format. */
  lemma DownloadNameInjective(a: Editor, b: Editor)
    requires InRange(Token(a)) && InRange(Token(b))
    requires DownloadName(a) == DownloadName(b)
    ensures Token(a) == Token(b) && a.format == b.format
  {
    DownloadNameShape(a);
    DownloadNameShape(b);
    var n := DownloadName(a);
    assert Spec(a.format).fileSuffix == n[12..|n| - 4] == Spec(b.format).fileSuffix;
    SuffixInjective(a.format, b.format);
  }
}
