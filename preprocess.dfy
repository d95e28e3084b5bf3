/**
 * `PreprocessTextos` (app.py:17-46): a list of texts that `preprocess`
 * rewrites in place, one pass over the whole list per normalisation step.
 */
module Preprocess {
  import opened CharClasses
  import opened Patterns
  import opened Substitution
  import opened Rewriters

  /** The placeholders app.py puts where a link, amount, date, CPF or CNPJ was. */
  const LinkWord := "regexlink"
  const ValorWord := "regexvalor"
  const DataWord := "regexdata"
  const CpfWord := "regexcpf"
  const CnpjWord := "regexcnpj"

  function ReplaceLinkWord(text: string): string { ReplaceLinks(text, LinkWord) }
  function ReplaceValorWord(text: string): string { ReplaceValores(text, ValorWord) }
  function ReplaceDataWord(text: string): string { ReplaceData(text, DataWord) }
  function ReplaceCpfWord(text: string): string { ReplaceCpf(text, CpfWord) }
  function ReplaceCnpjWord(text: string): string { ReplaceCnpj(text, CnpjWord) }

  /**
   * What `preprocess` does to one text: the eight steps of app.py:30-44, in
   * order. Whatever the input, the result has only single ASCII spaces as
   * whitespace and no upper-case letter.
   */
  function Normalize(text: string): (r: string)
    ensures Collapsed(r) && NoUpper(r)
  {
    PlaceholdersFit();
    var lowered := Lowercase(text);
    var spaced := CollapseWhitespace(lowered);
    SubKeepsNoUpper(Whitespace, " ", lowered);
    var linked := ReplaceLinkWord(spaced);
    PlaceholderKeepsShape(Link, LinkWord, spaced);
    var stripped := RemoveChr34(linked);
    StripKeepsCollapsed(linked);
    StripKeepsNoUpper(linked);
    var valores := ReplaceValorWord(stripped);
    PlaceholderKeepsShape(Valor, ValorWord, stripped);
    var datas := ReplaceDataWord(valores);
    PlaceholderKeepsShape(Data, DataWord, valores);
    var cpfs := ReplaceCpfWord(datas);
    PlaceholderKeepsShape(Cpf, CpfWord, datas);
    PlaceholderKeepsShape(Cnpj, CnpjWord, cpfs);
    ReplaceCnpjWord(cpfs)
  }

  /** One list comprehension `[f(texto) for texto in textos]`. */
  method MapTexts(f: string -> string, textos: seq<string>) returns (result: seq<string>)
    ensures |result| == |textos|
    ensures forall k :: 0 <= k < |textos| ==> result[k] == f(textos[k])
  {
    result := [];
    var k := 0;
    while k < |textos|
      invariant 0 <= k <= |textos|
      invariant |result| == k
      invariant forall j :: 0 <= j < k ==> result[j] == f(textos[j])
    {
      result := result + [f(textos[k])];
      k := k + 1;
    }
  }

  class PreprocessTextos {
    var textos: seq<string>

    constructor (textos: seq<string>)
      ensures this.textos == textos
    {
      this.textos := textos;
    }

    /**
     * Rewrites every text in place, step by step, and returns the list:
     * each text becomes `Normalize` of what it was, so its whitespace is
     * single spaces and it has no upper-case letter left.
     */
    method Preprocess() returns (result: seq<string>)
      modifies this
      ensures |textos| == |old(textos)|
      ensures forall k :: 0 <= k < |textos| ==> textos[k] == Normalize(old(textos)[k])
      ensures forall k :: 0 <= k < |textos| ==> Collapsed(textos[k]) && NoUpper(textos[k])
      ensures result == textos
    {
      ghost var original := textos;
      textos := MapTexts(Lowercase, textos);
      textos := MapTexts(CollapseWhitespace, textos);
      textos := MapTexts(ReplaceLinkWord, textos);
      textos := MapTexts(RemoveChr34, textos);
      textos := MapTexts(ReplaceValorWord, textos);
      textos := MapTexts(ReplaceDataWord, textos);
      textos := MapTexts(ReplaceCpfWord, textos);
      textos := MapTexts(ReplaceCnpjWord, textos);
      result := textos;
    }
  }

  // ---------------------------------------------------------------------
  // What the output of `preprocess` looks like
  // ---------------------------------------------------------------------

  predicate NoUpper(s: string) {
    forall k :: 0 <= k < |s| ==> !IsUpper(s[k])
  }

  predicate NoSpace(s: string) {
    forall k :: 0 <= k < |s| ==> !IsSpace(s[k])
  }

  lemma SubKeepsNoUpper(p: Pattern, repl: string, s: string)
    requires NoUpper(s) && NoUpper(repl)
    ensures NoUpper(Sub(p, repl, s))
  {
    CharsFrom(s, MatchEnds(p, s), repl, 0, c => !IsUpper(c));
  }

  lemma PlaceholdersFit()
    ensures forall w :: w in [LinkWord, ValorWord, DataWord, CpfWord, CnpjWord] ==>
      w != [] && NoUpper(w) && NoSpace(w)
  {
  }

  lemma SuffixCollapsed(text: string, i: nat)
    requires i <= |text| && Collapsed(text)
    ensures Collapsed(text[i..])
  {
    var a := text[i..];
    forall k | 0 <= k < |a| && IsSpace(a[k]) ensures a[k] == ' ' && (k + 1 == |a| || !IsSpace(a[k + 1])) {
      assert a[k] == text[i + k];
      if k + 1 < |a| { assert a[k + 1] == text[i + k + 1]; }
    }
  }

  lemma PrefixCollapsed(text: string, j: nat)
    requires j <= |text| && Collapsed(text)
    ensures Collapsed(text[..j])
  {
    var a := text[..j];
    forall k | 0 <= k < |a| && IsSpace(a[k]) ensures a[k] == ' ' && (k + 1 == |a| || !IsSpace(a[k + 1])) {
      assert a[k] == text[k];
      if k + 1 < |a| { assert a[k + 1] == text[k + 1]; }
    }
  }

  /** Dropping `chr(34)` at either end keeps whitespace collapsed: a collapsed text has no line break. */
  lemma StripKeepsCollapsed(text: string)
    requires Collapsed(text)
    ensures Collapsed(StripTrailing(StripLeading(text)))
  {
    LeadingKeepsCollapsed(text);
    TrailingKeepsCollapsed(StripLeading(text));
  }

  lemma LeadingKeepsCollapsed(text: string)
    requires Collapsed(text)
    ensures Collapsed(StripLeading(text))
  {
    if 7 <= |text| && text[..7] == "chr(34)" {
      SuffixCollapsed(text, 7);
    }
  }

  lemma TrailingKeepsCollapsed(a: string)
    requires Collapsed(a)
    ensures Collapsed(StripTrailing(a))
  {
    var n := |a|;
    if 7 <= n && a[n - 7..] == "chr(34)" {
      PrefixCollapsed(a, n - 7);
    } else {
      if n > 0 {
        CollapsedNoBreak(a, n - 1);
      }
      assert StripTrailing(a) == a;
    }
  }

  /** A collapsed text has no line break. */
  lemma CollapsedNoBreak(a: string, k: nat)
    requires Collapsed(a) && k < |a|
    ensures a[k] != '\n'
  {
    assert IsSpace(a[k]) ==> a[k] == ' ';
  }

  /** Removing `chr(34)` at either end keeps every character an existing character of the text. */
  lemma StripKeepsNoUpper(text: string)
    requires NoUpper(text)
    ensures NoUpper(RemoveChr34(text))
  {
    SubKeepsNoUpper(Chr34Start, "", text);
    SubKeepsNoUpper(Chr34End, "", Sub(Chr34Start, "", text));
  }

  lemma PlaceholderKeepsShape(p: Pattern, word: string, s: string)
    requires Collapsed(s) && NoUpper(s)
    requires word != [] && NoUpper(word) && NoSpace(word)
    ensures Collapsed(Sub(p, word, s)) && NoUpper(Sub(p, word, s))
  {
    SubKeepsCollapsed(s, MatchEnds(p, s), word, 0);
    SubKeepsNoUpper(p, word, s);
  }
}
