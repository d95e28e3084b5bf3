/**
 * Worked inputs: what each step does to a typical text, and a text on
 * which running the whole pipeline twice gives a different result.
 */
module Scenarios {
  import opened Wrappers
  import opened CharClasses
  import opened Patterns
  import opened Substitution
  import opened Rewriters
  import opened Preprocess

  /** A text in which the hand-coded matcher finds nothing is left as it is. */
  lemma NoMatchAnywhere(p: Pattern, repl: string, s: string)
    requires forall t :: 0 <= t < |s| ==> MatchAt(p, s, t).None?
    ensures Sub(p, repl, s) == s
  {
    CopiedWhereNone(s, MatchEnds(p, s), repl, 0, |s|);
    assert s[0..|s|] == s;
  }

  /** A text whose only match runs from `m` to the end: the text before `m`, then the replacement. */
  lemma MatchAtEnd(p: Pattern, repl: string, s: string, m: nat)
    requires m < |s| && MatchAt(p, s, m) == Some(|s|)
    requires forall t :: 0 <= t < m ==> MatchAt(p, s, t).None?
    ensures Sub(p, repl, s) == s[..m] + repl
  {
    var ends := MatchEnds(p, s);
    CopiedWhereNone(s, ends, repl, 0, m);
    assert ends[m] == Some(|s|);
    assert ReplaceFrom(s, ends, repl, m) == repl + ReplaceFrom(s, ends, repl, |s|);
    assert s[0..m] == s[..m];
  }

  lemma ValorMatch(s: string)
    requires s == "r$ 1.234,56"
    ensures MatchAt(Valor, s, 3) == Some(11)
  {
    assert RunEnd(s, 4, Digit) == 4;
    assert RunEnd(s, 3, Digit) == 4;
    assert DotGroupsEnd(s, 8) == 8;
    assert DotGroupsEnd(s, 4) == 8;
    assert RunEnd(s, 11, Digit) == 11;
    assert RunEnd(s, 10, Digit) == 11;
    assert RunEnd(s, 9, Digit) == 11;
    assert CentsEnd(s, 8) == Some(11);
    assert IsBoundary(s, 3);
  }

  /** An amount with a thousands group and cents. */
  lemma ValorReplaced(s: string)
    requires s == "r$ 1.234,56"
    ensures ReplaceValores(s, ValorWord) == "r$ regexvalor"
  {
    forall t | 0 <= t < 3 ensures MatchAt(Valor, s, t).None? {
      assert !IsDigit(s[t]);
    }
    ValorMatch(s);
    MatchAtEnd(Valor, ValorWord, s, 3);
    ValorSplice(s);
  }

  lemma ValorSplice(s: string)
    requires s == "r$ 1.234,56"
    ensures s[..3] + ValorWord == "r$ regexvalor"
  {
    assert s[..3] == "r$ ";
  }

  lemma DataMatch(s: string)
    requires s == "em 01/02/2020"
    ensures MatchAt(Data, s, 3) == Some(13)
  {
    assert !FitsLayout(s, 3, DateLayouts[0]) by { assert !CharFits(s[3 + 2], DateLayouts[0][2]); }
    assert FitsLayout(s, 3, DateLayouts[1]) by {
      forall t | 0 <= t < 10 ensures CharFits(s[3 + t], DateLayouts[1][t]) {}
    }
    assert IsBoundary(s, 13) && IsBoundary(s, 3);
  }

  /** A day/month/year date: the second date shape. */
  lemma DataReplaced(s: string)
    requires s == "em 01/02/2020"
    ensures ReplaceData(s, DataWord) == "em regexdata"
  {
    forall t | 0 <= t < 3 ensures MatchAt(Data, s, t).None? {
      assert !IsDigit(s[t]);
    }
    DataMatch(s);
    MatchAtEnd(Data, DataWord, s, 3);
    DataSplice(s);
  }

  lemma DataSplice(s: string)
    requires s == "em 01/02/2020"
    ensures s[..3] + DataWord == "em regexdata"
  {
    assert s[..3] == "em ";
  }

  lemma CpfMatch(s: string)
    requires s == "123.456.789-09"
    ensures MatchAt(Cpf, s, 0) == Some(14)
  {
    assert Skip(s, 3, ".") == 4;
    assert Skip(s, 7, ".") == 8;
    assert Skip(s, 11, "- ") == 12;
    assert DigitGroups(s, 12, [2], []) == Some(14);
    assert DigitGroups(s, 8, [3, 2], ["- "]) == Some(14);
    assert DigitGroups(s, 4, [3, 3, 2], [".", "- "]) == Some(14);
    assert DigitGroups(s, 0, [3, 3, 3, 2], [".", ".", "- "]) == Some(14);
  }

  /** A CPF written with its dots and dash. */
  lemma CpfReplaced(s: string)
    requires s == "123.456.789-09"
    ensures ReplaceCpf(s, CpfWord) == CpfWord
  {
    CpfMatch(s);
    var ends := MatchEnds(Cpf, s);
    assert ends[0] == Some(14);
    assert ReplaceFrom(s, ends, CpfWord, 0) == CpfWord + ReplaceFrom(s, ends, CpfWord, 14);
  }

  lemma CnpjGroups(s: string)
    requires s == "12.345.678/0001-95"
    ensures DigitGroups(s, 0, [2, 3, 3, 4, 2], [".", ".", "/", "-"]) == Some(18)
  {
    CnpjTail(s);
    assert Skip(s, 6, ".") == 7;
    assert DigitsAt(s, 3, 3);
    assert DigitGroups(s, 3, [3, 3, 4, 2], [".", "/", "-"]) == Some(18);
    assert Skip(s, 2, ".") == 3;
    assert DigitsAt(s, 0, 2);
  }

  lemma CnpjTail(s: string)
    requires s == "12.345.678/0001-95"
    ensures DigitGroups(s, 7, [3, 4, 2], ["/", "-"]) == Some(18)
  {
    assert DigitGroups(s, 16, [2], []) == Some(18);
    assert Skip(s, 15, "-") == 16;
    assert DigitsAt(s, 11, 4);
    assert DigitGroups(s, 11, [4, 2], ["-"]) == Some(18);
    assert Skip(s, 10, "/") == 11;
    assert DigitsAt(s, 7, 3);
  }

  lemma CnpjMatch(s: string)
    requires s == "12.345.678/0001-95"
    ensures MatchAt(Cnpj, s, 0) == Some(18)
  {
    CnpjGroups(s);
    assert CnpjBody(s, 0, true) == Some(18);
    assert s[0] != '0';
    assert WithOptionalZero(s, 0, true) == Some(18);
  }

  /** A CNPJ written with its dots, slash and dash. */
  lemma CnpjReplaced(s: string)
    requires s == "12.345.678/0001-95"
    ensures ReplaceCnpj(s, CnpjWord) == CnpjWord
  {
    CnpjMatch(s);
    var ends := MatchEnds(Cnpj, s);
    assert ends[0] == Some(18);
    assert ReplaceFrom(s, ends, CnpjWord, 0) == CnpjWord + ReplaceFrom(s, ends, CnpjWord, 18);
  }

  lemma LinkMatch(s: string)
    requires s == "ver https://a.b/c ok"
    ensures MatchLink(s, 4) == Some(17)
  {
    assert Skip(s, 8, "sS\U{17F}") == 9;
    assert s[9..12] == "://";
    assert SchemeEnd(s, 4) == Some(12);
    assert RunEnd(s, 17, NonSpace) == 17;
    assert RunEnd(s, 4, NonSpace) == 17 by {
      forall t | 4 <= t < 17 ensures InClass(s[t], NonSpace) {}
      RunEndSkips(s, 4, 17, NonSpace);
    }
  }

  lemma NoLinkWithoutLead(s: string, t: nat)
    requires t < |s| && s[t] != 'h' && s[t] != 'H' && s[t] != 'w' && s[t] != 'W'
    ensures MatchLink(s, t).None?
  {
    LinkStartChars(s, t);
  }

  /** The link at 4 is the only one: no other character is an `h` or a `w`. */
  lemma NoLinkAround(s: string)
    requires s == "ver https://a.b/c ok"
    ensures forall t :: 0 <= t < |s| && t != 4 ==> MatchLink(s, t).None?
  {
    forall t | 0 <= t < |s| && t != 4 ensures MatchLink(s, t).None? {
      NoLinkWithoutLead(s, t);
    }
  }

  lemma LinkSplice(s: string)
    requires s == "ver https://a.b/c ok"
    ensures s[..4] + LinkWord + s[17..] == "ver regexlink ok"
  {
    assert s[..4] == "ver ";
    assert s[17..] == " ok";
  }

  /** A link runs up to the next whitespace. */
  lemma LinkReplaced(s: string)
    requires s == "ver https://a.b/c ok"
    ensures ReplaceLinks(s, LinkWord) == "ver regexlink ok"
  {
    var ends := MatchEnds(Link, s);
    LinkEnds(s);
    NoLinkAround(s);
    LinkMatch(s);
    ReplacedOnce(s, ends, LinkWord, Some(4));
    LinkSplice(s);
  }

  /** `chr(34)` goes at both ends, once each. */
  lemma Chr34Removed(s: string)
    requires s == "chr(34)ola chr(34)"
    ensures RemoveChr34(s) == "ola "
  {
    assert s[..7] == "chr(34)" && s[7..] == "ola chr(34)";
    var t := "ola chr(34)";
    assert t[|t| - 7..] == "chr(34)" && t[..|t| - 7] == "ola ";
  }

  /** A run of mixed whitespace becomes one space. */
  lemma WhitespaceCollapsed(s: string)
    requires s == "a \t\n b"
    ensures CollapseWhitespace(s) == "a b"
  {
    var ends := MatchEnds(Whitespace, s);
    WhitespaceEnds(s);
    assert ends[0].None?;
    assert RunEnd(s, 5, Space) == 5;
    assert RunEnd(s, 1, Space) == 5 by {
      forall t | 1 <= t < 5 ensures InClass(s[t], Space) {}
      RunEndSkips(s, 1, 5, Space);
    }
    assert ends[1] == Some(5);
    assert ends[5].None?;
    assert ReplaceFrom(s, ends, " ", 6) == [];
    assert ReplaceFrom(s, ends, " ", 5) == "b";
    assert ReplaceFrom(s, ends, " ", 1) == " b";
  }

  /** In `chr(34)x` a number can only start at the `3`: the `4` follows a digit and nothing else is one. */
  lemma NumberOnlyAtThree(p: Pattern, s: string)
    requires IsNumericPattern(p) && s == "chr(34)x"
    ensures forall t :: 0 <= t < |s| && t != 4 ==> MatchAt(p, s, t).None?
  {
    forall t | 0 <= t < |s| && t != 4 ensures MatchAt(p, s, t).None? {
      if t == 5 { assert !IsBoundary(s, 5); }
      else { assert !IsDigit(s[t]); }
    }
  }

  /** `34)` has no cents. */
  lemma NoValorAtThree(s: string)
    requires s == "chr(34)x"
    ensures MatchValor(s, 4).None?
  {
    assert RunEnd(s, 6, Digit) == 6;
    assert RunEnd(s, 5, Digit) == 6;
    assert RunEnd(s, 4, Digit) == 6;
    assert DotGroupsEnd(s, 6) == 6;
  }

  /** Every date shape is longer than `34)x`. */
  lemma NoDataAtThree(s: string)
    requires s == "chr(34)x"
    ensures MatchData(s, 4).None?
  {
    assert forall j :: 0 <= j < |DateLayouts| ==> |DateLayouts[j]| >= 7;
    assert forall j :: 0 <= j < |DateLayouts| ==> !FitsLayout(s, 4, DateLayouts[j]);
    FirstLayoutNone(s, 4, DateLayouts);
  }

  lemma {:induction false} FirstLayoutNone(s: string, i: nat, layouts: seq<string>)
    requires i <= |s| && forall j :: 0 <= j < |layouts| ==> LayoutOk(layouts[j])
    requires forall j :: 0 <= j < |layouts| ==> !FitsLayout(s, i, layouts[j])
    ensures FirstLayout(s, i, layouts).None?
    decreases |layouts|
  {
    if layouts != [] {
      assert !FitsLayout(s, i, layouts[0]);
      FirstLayoutNone(s, i, layouts[1..]);
    }
  }

  /** A CPF starts with three digits; `34)` has two. */
  lemma NoCpfAtThree(s: string)
    requires s == "chr(34)x"
    ensures MatchCpf(s, 4).None?
  {
    assert !DigitsAt(s, 4, 3) by { assert !IsDigit(s[6]); }
  }

  /** Both CNPJ layouts need a digit right after the first two, or eight digits. */
  lemma NoCnpjAtThree(s: string)
    requires s == "chr(34)x"
    ensures MatchCnpj(s, 4).None?
  {
    assert Skip(s, 6, ".") == 6;
    assert !DigitsAt(s, 6, 3) by { assert !IsDigit(s[6]); }
    assert !DigitsAt(s, 4, 8);
    assert CnpjBody(s, 4, true).None?;
    assert CnpjBody(s, 4, false).None?;
  }

  /** No amount, date, CPF or CNPJ in `chr(34)x`. */
  lemma NoNumberInChr34(p: Pattern, repl: string, s: string)
    requires IsNumericPattern(p) && s == "chr(34)x"
    ensures Sub(p, repl, s) == s
  {
    NumberOnlyAtThree(p, s);
    match p {
      case Valor => NoValorAtThree(s);
      case Data => NoDataAtThree(s);
      case Cpf => NoCpfAtThree(s);
      case Cnpj => NoCnpjAtThree(s);
    }
    NoMatchAnywhere(p, repl, s);
  }

  /** `chr(34)x`: the digits `34` are no amount, date, CPF or CNPJ. */
  lemma NumbersInChr34(s: string)
    requires s == "chr(34)x"
    ensures ReplaceCnpjWord(ReplaceCpfWord(ReplaceDataWord(ReplaceValorWord(s)))) == s
  {
    NoNumberInChr34(Valor, ValorWord, s);
    NoNumberInChr34(Data, DataWord, s);
    NoNumberInChr34(Cpf, CpfWord, s);
    NoNumberInChr34(Cnpj, CnpjWord, s);
  }

  /** Without `t` and `w`, in either case, no link can start anywhere. */
  lemma NoLinkWithoutTW(s: string)
    requires forall k :: 0 <= k < |s| ==> s[k] != 't' && s[k] != 'T' && s[k] != 'w' && s[k] != 'W'
    ensures LinkFree(s)
  {
    forall t | 0 <= t < |s| ensures MatchLink(s, t).None? {
      LinkStartChars(s, t);
    }
  }

  /** Plain lower-case text without whitespace, `t` or `w`. */
  predicate Plain(s: string) {
    forall k :: 0 <= k < |s| ==>
      !IsUpper(s[k]) && !IsSpace(s[k]) && s[k] != 't' && s[k] != 'T' && s[k] != 'w' && s[k] != 'W'
  }

  /** The first three steps keep a plain text. */
  lemma FirstStepsKeep(s: string)
    requires Plain(s)
    ensures ReplaceLinkWord(CollapseWhitespace(Lowercase(s))) == s
  {
    LowercaseWithoutUpper(s);
    CollapsedUnchanged(s);
    NoLinkWithoutTW(s);
    LinkEnds(s);
    CopiedWhereNone(s, MatchEnds(Link, s), LinkWord, 0, |s|);
    assert s[0..|s|] == s;
  }

  lemma LeadingChr34Dropped(s: string)
    requires s == "chr(34)chr(34)x"
    ensures StripLeading(s) == "chr(34)x"
  {
    assert s[..7] == "chr(34)";
    assert s[7..] == "chr(34)x";
  }

  /** A text that ends in neither `)` nor a line break keeps its end. */
  lemma TrailingKept(t: string)
    requires 0 < |t| && t[|t| - 1] != ')' && t[|t| - 1] != '\n'
    ensures StripTrailing(t) == t
  {
    var n := |t|;
    if 7 <= n {
      assert t[n - 7..][6] == t[n - 1];
    }
  }

  /** The first run drops only the leading `chr(34)`: the trailing one is not at the very end. */
  lemma NormalizeFirst(s: string)
    requires s == "chr(34)chr(34)x"
    ensures Normalize(s) == "chr(34)x"
  {
    assert Plain(s);
    FirstStepsKeep(s);
    LeadingChr34Dropped(s);
    TrailingKept("chr(34)x");
    NumbersInChr34("chr(34)x");
  }

  /** The second run drops the other one. */
  lemma NormalizeSecond(s: string)
    requires s == "chr(34)x"
    ensures Normalize(s) == "x"
  {
    assert Plain(s);
    FirstStepsKeep(s);
    SecondStrip(s);
    NoNumberInX();
  }

  lemma SecondStrip(s: string)
    requires s == "chr(34)x"
    ensures RemoveChr34(s) == "x"
  {
    assert StripLeading(s) == "x" by { assert s[..7] == "chr(34)"; }
    TrailingKept("x");
  }

  /** `x` has no digit, so the four number steps keep it. */
  lemma NoNumberInX()
    ensures ReplaceCnpjWord(ReplaceCpfWord(ReplaceDataWord(ReplaceValorWord("x")))) == "x"
  {
    WithoutDigitsUnchanged(Valor, ValorWord, "x");
    WithoutDigitsUnchanged(Data, DataWord, "x");
    WithoutDigitsUnchanged(Cpf, CpfWord, "x");
    WithoutDigitsUnchanged(Cnpj, CnpjWord, "x");
  }

  lemma NormalizeTwice(s: string)
    requires s == "chr(34)chr(34)x"
    ensures Normalize(s) == "chr(34)x"
    ensures Normalize("chr(34)x") == "x"
  {
    NormalizeFirst(s);
    NormalizeSecond("chr(34)x");
  }

  /**
   * `preprocess` is not idempotent: a text that starts with `chr(34)`
   * twice loses one per run.
   */
  lemma NormalizeNotIdempotent()
    ensures exists text :: Normalize(Normalize(text)) != Normalize(text)
  {
    NormalizeTwice("chr(34)chr(34)x");
    assert Normalize(Normalize("chr(34)chr(34)x")) != Normalize("chr(34)chr(34)x");
  }
}
