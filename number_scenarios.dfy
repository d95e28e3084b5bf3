/**
 * Worked inputs for the amount, date and CPF patterns: short forms that are
 * replaced, and near misses that are left alone. Also: the empty text
 * passes through every step of `preprocess` unchanged.
 */
module NumberScenarios {
  import opened Wrappers
  import opened CharClasses
  import opened Patterns
  import opened Substitution
  import opened Rewriters
  import opened Preprocess
  import opened Scenarios

  /** A text that is one match from end to end becomes the replacement. */
  lemma WholeMatch(p: Pattern, repl: string, s: string)
    requires 0 < |s| && MatchAt(p, s, 0) == Some(|s|)
    ensures Sub(p, repl, s) == repl
  {
    var ends := MatchEnds(p, s);
    assert ends[0] == Some(|s|);
    assert ReplaceFrom(s, ends, repl, 0) == repl + ReplaceFrom(s, ends, repl, |s|);
  }

  /** One digit of cents is enough. */
  lemma ShortCentsReplaced(s: string)
    requires s == "99,9"
    ensures ReplaceValores(s, ValorWord) == ValorWord
  {
    assert RunEnd(s, 2, Digit) == 2;
    assert RunEnd(s, 0, Digit) == 2;
    assert DotGroupsEnd(s, 2) == 2;
    assert RunEnd(s, 3, Digit) == 4;
    assert CentsEnd(s, 2) == Some(4);
    WholeMatch(Valor, ValorWord, s);
  }

  /** Four digits before the comma are no amount: thousands need a `.`. */
  lemma UngroupedThousandsKept(s: string)
    requires s == "1234,56"
    ensures ReplaceValores(s, ValorWord) == s
  {
    forall t | 0 <= t < |s| ensures MatchAt(Valor, s, t).None? {
      if t == 0 {
        assert RunEnd(s, 4, Digit) == 4;
        assert RunEnd(s, 0, Digit) == 4;
      } else if t == 5 {
        CentsAfterComma(s);
      } else if t != 4 {
        assert !IsBoundary(s, t);
      }
    }
    NoMatchAnywhere(Valor, ValorWord, s);
  }

  /** `56` at the end of `1234,56` has no comma after it. */
  lemma CentsAfterComma(s: string)
    requires s == "1234,56"
    ensures MatchValor(s, 5).None?
  {
    assert RunEnd(s, 7, Digit) == 7;
    assert RunEnd(s, 5, Digit) == 7;
    assert DotGroupsEnd(s, 7) == 7;
  }

  /** A comma followed by three digits is no amount: cents have one or two digits. */
  lemma ThreeCentsKept(s: string)
    requires s == "1,234"
    ensures ReplaceValores(s, ValorWord) == s
  {
    forall t | 0 <= t < |s| ensures MatchAt(Valor, s, t).None? {
      if t == 0 {
        ThreeCentsAtZero(s);
      } else if t == 2 {
        assert RunEnd(s, 5, Digit) == 5;
        assert RunEnd(s, 2, Digit) == 5;
        assert DotGroupsEnd(s, 5) == 5;
      } else if t != 1 {
        assert !IsBoundary(s, t);
      }
    }
    NoMatchAnywhere(Valor, ValorWord, s);
  }

  lemma ThreeCentsAtZero(s: string)
    requires s == "1,234"
    ensures MatchValor(s, 0).None?
  {
    assert RunEnd(s, 1, Digit) == 1;
    assert DotGroupsEnd(s, 1) == 1;
    assert RunEnd(s, 5, Digit) == 5;
    assert RunEnd(s, 2, Digit) == 5;
  }

  /** Month and year: the fourth date shape, with no check that 13 is no month. */
  lemma MonthYearReplaced(s: string)
    requires s == "13/2020"
    ensures ReplaceData(s, DataWord) == DataWord
  {
    assert !FitsLayout(s, 0, DateLayouts[2]) by { assert !CharFits(s[2], DateLayouts[2][2]); }
    assert FitsLayout(s, 0, DateLayouts[3]) by {
      forall t | 0 <= t < 7 ensures CharFits(s[t], DateLayouts[3][t]) {}
    }
    assert MatchData(s, 0) == Some(7);
    WholeMatch(Data, DataWord, s);
  }

  /** Day, month and year with slashes: the second date shape, with no check that 99 is no day. */
  lemma FullDateReplaced(s: string)
    requires s == "99/99/9999"
    ensures ReplaceData(s, DataWord) == DataWord
  {
    assert !FitsLayout(s, 0, DateLayouts[0]) by { assert !CharFits(s[2], DateLayouts[0][2]); }
    assert FitsLayout(s, 0, DateLayouts[1]) by {
      forall t | 0 <= t < 10 ensures CharFits(s[t], DateLayouts[1][t]) {}
    }
    assert MatchData(s, 0) == Some(10);
    WholeMatch(Data, DataWord, s);
  }

  /** A CPF written as eleven digits, without separators. */
  lemma PlainCpfReplaced(s: string)
    requires s == "12345678909"
    ensures ReplaceCpf(s, CpfWord) == CpfWord
  {
    PlainCpfMatch(s);
    WholeMatch(Cpf, CpfWord, s);
  }

  lemma PlainCpfMatch(s: string)
    requires s == "12345678909"
    ensures MatchCpf(s, 0) == Some(11)
  {
    assert Skip(s, 3, ".") == 3;
    assert Skip(s, 6, ".") == 6;
    assert Skip(s, 9, "- ") == 9;
    assert DigitGroups(s, 9, [2], []) == Some(11);
    assert DigitGroups(s, 6, [3, 2], ["- "]) == Some(11);
    assert DigitGroups(s, 3, [3, 3, 2], [".", "- "]) == Some(11);
    assert DigitGroups(s, 0, [3, 3, 3, 2], [".", ".", "- "]) == Some(11);
  }

  /** Twelve digits in a row are no CPF: the eleventh digit is followed by a twelfth. */
  lemma TwelveDigitsKept(s: string)
    requires s == "123456789091"
    ensures ReplaceCpf(s, CpfWord) == s
  {
    forall t | 0 <= t < |s| ensures MatchAt(Cpf, s, t).None? {
      if t == 0 {
        TwelveDigitsAtZero(s);
      } else {
        assert !IsBoundary(s, t);
      }
    }
    NoMatchAnywhere(Cpf, CpfWord, s);
  }

  lemma TwelveDigitsAtZero(s: string)
    requires s == "123456789091"
    ensures MatchCpf(s, 0).None?
  {
    assert Skip(s, 3, ".") == 3;
    assert Skip(s, 6, ".") == 6;
    assert Skip(s, 9, "- ") == 9;
    assert !IsBoundary(s, 11);
    assert DigitGroups(s, 9, [2], []).None?;
  }

  /** The empty text passes through every step of `preprocess` unchanged. */
  lemma NormalizeEmpty()
    ensures Lowercase("") == ""
    ensures forall p: Pattern, repl: string :: Sub(p, repl, "") == ""
    ensures Normalize("") == ""
  {
    forall p: Pattern, repl: string ensures Sub(p, repl, "") == "" {
      assert ReplaceFrom("", MatchEnds(p, ""), repl, 0) == "";
    }
  }
}
