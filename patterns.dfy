/**
 * The patterns of app.py. `Spec` writes each one down in the reference
 * syntax of module Regex, construct by construct as the source spells it;
 * the `Match*` functions are hand-coded matchers that decide the same thing
 * directly (module Agreement proves them equal to `Spec`).
 */
module Patterns {
  import opened Wrappers
  import opened CharClasses
  import opened Regex

  datatype Pattern =
    | Whitespace  // r'\s+'                                      (app.py:32)
    | Link        // r'https?://\S+|www\.\S+', IGNORECASE         (app.py:69, 84)
    | Chr34Start  // r'^chr\(34\)'                                (app.py:75)
    | Chr34End    // r'chr\(34\)$'                                (app.py:76)
    | Valor       // r'\b\d{1,3}(?:\.\d{3})*,\d{1,2}\b'           (app.py:91)
    | Data        // r'\b(\d{2}\.\d{2}\.\d{4}|...|\d{1}\/\d{1}\/\d{4})\b' (app.py:98)
    | Cpf         // r'\b\d{3}\.?\d{3}\.?\d{3}(-| )?\d{2}\b'       (app.py:105)
    | Cnpj        // r'\b0?\d{2}\.?\d{3}\.?\d{3}/?\d{4}-?\d{2}\b|\b0?\d{8}/?\d{6}\b' (app.py:112)

  // ---------------------------------------------------------------------
  // The patterns as written. Under IGNORECASE a letter class holds both
  // cases; Python also folds the long s (U+017F) onto `s`. In the date
  // pattern the two `\b` around the group are moved into each alternative,
  // which tries the same candidates in the same order.
  // ---------------------------------------------------------------------

  const HttpRegex: Regex :=
    Times(AnyOf("hH"), 1, Times(AnyOf("tT"), 2, Times(AnyOf("pP"), 1,
      UpTo(AnyOf("sS\U{17F}"), 1, Lit("://", Plus(NonSpace, Done))))))
  const WwwRegex: Regex := Times(AnyOf("wW"), 3, Lit(".", Plus(NonSpace, Done)))
  const LinkRegex: seq<Regex> := [HttpRegex, WwwRegex]

  const ValorRegex: seq<Regex> := [
    WordBoundary(Times(Digit, 1, UpTo(Digit, 2, Groups('.', 3,
      Lit(",", Times(Digit, 1, UpTo(Digit, 1, WordBoundary(Done))))))))
  ]

  const DateDots: Regex :=
    WordBoundary(Times(Digit, 2, Lit(".", Times(Digit, 2, Lit(".", Times(Digit, 4, WordBoundary(Done)))))))
  const DateSlashes: Regex :=
    WordBoundary(Times(Digit, 2, Lit("/", Times(Digit, 2, Lit("/", Times(Digit, 4, WordBoundary(Done)))))))
  const MonthDots: Regex := WordBoundary(Times(Digit, 2, Lit(".", Times(Digit, 4, WordBoundary(Done)))))
  const MonthSlashes: Regex := WordBoundary(Times(Digit, 2, Lit("/", Times(Digit, 4, WordBoundary(Done)))))
  const DateShortYear: Regex :=
    WordBoundary(Times(Digit, 2, Lit("/", Times(Digit, 2, Lit("/", Times(Digit, 2, WordBoundary(Done)))))))
  const DateShortMonth: Regex :=
    WordBoundary(Times(Digit, 2, Lit("/", Times(Digit, 1, Lit("/", Times(Digit, 4, WordBoundary(Done)))))))
  const DateShortDayMonth: Regex :=
    WordBoundary(Times(Digit, 1, Lit("/", Times(Digit, 1, Lit("/", Times(Digit, 4, WordBoundary(Done)))))))
  const DataRegex: seq<Regex> :=
    [DateDots, DateSlashes, MonthDots, MonthSlashes, DateShortYear, DateShortMonth, DateShortDayMonth]

  const CpfRegex: seq<Regex> := [
    WordBoundary(Times(Digit, 3, UpTo(AnyOf("."), 1, Times(Digit, 3, UpTo(AnyOf("."), 1,
      Times(Digit, 3, UpTo(AnyOf("- "), 1, Times(Digit, 2, WordBoundary(Done)))))))))
  ]

  const CnpjRegex: seq<Regex> := [
    WordBoundary(UpTo(AnyOf("0"), 1, Times(Digit, 2, UpTo(AnyOf("."), 1, Times(Digit, 3,
      UpTo(AnyOf("."), 1, Times(Digit, 3, UpTo(AnyOf("/"), 1, Times(Digit, 4,
      UpTo(AnyOf("-"), 1, Times(Digit, 2, WordBoundary(Done)))))))))))),
    WordBoundary(UpTo(AnyOf("0"), 1, Times(Digit, 8, UpTo(AnyOf("/"), 1, Times(Digit, 6, WordBoundary(Done))))))
  ]

  /** Each pattern as its alternatives, in the order written: two for links and CNPJ, seven for dates. */
  function Spec(p: Pattern): (alts: seq<Regex>)
    ensures |alts| == (if p.Link? || p.Cnpj? then 2 else if p.Data? then 7 else 1)
  {
    match p
    case Whitespace => [Plus(Space, Done)]
    case Link => LinkRegex
    case Chr34Start => [StringStart(Lit("chr(34)", Done))]
    case Chr34End => [Lit("chr(34)", StringEnd)]
    case Valor => ValorRegex
    case Data => DataRegex
    case Cpf => CpfRegex
    case Cnpj => CnpjRegex
  }

  // ---------------------------------------------------------------------
  // Hand-coded matchers. Each returns the end of the match that starts at
  // position `i`, if any. None of the patterns matches the empty string.
  // ---------------------------------------------------------------------

  /** A separator inside a number, date or taxpayer ID. */
  predicate IsSeparator(c: char) {
    c == '.' || c == ',' || c == '/' || c == '-' || c == ' '
  }

  /** A character that a number, date or taxpayer-ID match may consist of. */
  predicate IsNumeric(c: char) {
    IsDigit(c) || IsSeparator(c)
  }

  /** `s[i..j]` holds only `IsNumeric` characters. */
  predicate AllNumeric(s: string, i: nat, j: nat)
    requires i <= j <= |s|
  {
    forall t :: i <= t < j ==> IsNumeric(s[t])
  }

  function MatchWhitespace(s: string, i: nat): (r: Option<nat>)
    requires i <= |s|
    ensures r.Some? <==> i < |s| && IsSpace(s[i])
    ensures r.Some? ==> i < r.value <= |s| && (forall t :: i <= t < r.value ==> IsSpace(s[t]))
    ensures r.Some? ==> r.value == |s| || !IsSpace(s[r.value])
  {
    if i < |s| && IsSpace(s[i]) then Some(RunEnd(s, i, Space)) else None
  }

  /** Past an optional separator from `seps` at `k`. */
  function Skip(s: string, k: nat, seps: string): (e: nat)
    requires k <= |s|
    ensures e == k || (k < |s| && e == k + 1 && s[k] in seps)
  {
    if k < |s| && s[k] in seps then k + 1 else k
  }

  /** A case-insensitive `http` at position `i`. */
  predicate HttpAt(s: string, i: nat) {
    i + 4 <= |s| && s[i] in "hH" && s[i + 1] in "tT" && s[i + 2] in "tT" && s[i + 3] in "pP"
  }

  /** The end of an optional (case-insensitive) `s` and then `://` at position `k`. */
  function SchemeTail(s: string, k: nat): (r: Option<nat>)
    requires k <= |s|
    ensures r.Some? ==> k + 3 <= r.value <= k + 4 && r.value <= |s|
    ensures r.Some? ==> forall t :: k <= t < r.value ==> !IsSpace(s[t])
  {
    var e := Skip(s, k, "sS\U{17F}");
    if e + 3 <= |s| && s[e..e + 3] == "://" then
      assert s[e] == ':' && s[e + 1] == '/' && s[e + 2] == '/' by { assert s[e..e + 3][0] == s[e]; }
      Some(e + 3)
    else None
  }

  /** The end of a case-insensitive `http://` or `https://` at position `i`. */
  function SchemeEnd(s: string, i: nat): (r: Option<nat>)
    requires i <= |s|
    ensures r.Some? ==> i + 7 <= r.value <= i + 8 && r.value <= |s| && s[i] in "hH"
    ensures r.Some? ==> forall t :: i <= t < r.value ==> !IsSpace(s[t])
  {
    if HttpAt(s, i) then SchemeTail(s, i + 4) else None
  }

  /** The end of a case-insensitive `www.` at position `i`. */
  function WwwEnd(s: string, i: nat): (r: Option<nat>)
    requires i <= |s|
    ensures r.Some? ==> r.value == i + 4 <= |s| && s[i] in "wW"
    ensures r.Some? ==> forall t :: i <= t < r.value ==> !IsSpace(s[t])
  {
    if i + 4 <= |s| && s[i] in "wW" && s[i + 1] in "wW" && s[i + 2] in "wW" && s[i + 3] == '.' then Some(i + 4) else None
  }

  /** The end of a case-insensitive `http://`, `https://` or `www.` at position `i`. */
  function LinkPrefixEnd(s: string, i: nat): (r: Option<nat>)
    requires i <= |s|
    ensures r.Some? ==> i + 4 <= r.value <= |s| && forall t :: i <= t < r.value ==> !IsSpace(s[t])
  {
    if SchemeEnd(s, i).Some? then SchemeEnd(s, i) else WwwEnd(s, i)
  }

  function MatchLink(s: string, i: nat): (r: Option<nat>)
    requires i <= |s|
    ensures r.Some? ==> i < r.value <= |s|
    ensures r.Some? <==> LinkPrefixEnd(s, i).Some? && LinkPrefixEnd(s, i).value < |s| && !IsSpace(s[LinkPrefixEnd(s, i).value])
    ensures r.Some? ==> r.value == RunEnd(s, i, NonSpace)
  {
    match LinkPrefixEnd(s, i)
    case None => None
    case Some(k) =>
      if k < |s| && !IsSpace(s[k]) then
        RunEndSkips(s, i, k, NonSpace);
        Some(RunEnd(s, k, NonSpace))
      else None
  }

  /** A run of `cl` characters can be measured from any point inside it. */
  lemma {:induction false} RunEndSkips(s: string, i: nat, k: nat, cl: Class)
    requires i <= k <= |s|
    requires forall t :: i <= t < k ==> InClass(s[t], cl)
    ensures RunEnd(s, i, cl) == RunEnd(s, k, cl)
    decreases k - i
  {
    if i < k {
      RunEndSkips(s, i + 1, k, cl);
    }
  }

  function MatchChr34Start(s: string, i: nat): (r: Option<nat>)
    requires i <= |s|
    ensures r.Some? <==> i == 0 && 7 <= |s| && s[..7] == "chr(34)"
    ensures r.Some? ==> r.value == 7
  {
    if i == 0 && 7 <= |s| && s[..7] == "chr(34)" then Some(7) else None
  }

  function MatchChr34End(s: string, i: nat): (r: Option<nat>)
    requires i <= |s|
    ensures r.Some? ==> r.value == i + 7 <= |s| && s[i..i + 7] == "chr(34)"
    ensures r.Some? ==> |s| - 8 <= i <= |s| - 7
    ensures r.Some? && i + 8 == |s| ==> s[i + 7] == '\n'
  {
    if i + 7 <= |s| && s[i..i + 7] == "chr(34)" && (i + 7 == |s| || (i + 8 == |s| && s[i + 7] == '\n')) then
      Some(i + 7)
    else None
  }

  /** The end of the longest run of `.ddd` groups that starts at `k`. */
  function DotGroupsEnd(s: string, k: nat): (e: nat)
    requires k <= |s|
    ensures k <= e <= |s| && (e - k) % 4 == 0
    ensures AllNumeric(s, k, e)
    ensures !(e + 4 <= |s| && s[e] == '.' && DigitsAt(s, e + 1, 3))
    decreases |s| - k
  {
    if k + 4 <= |s| && s[k] == '.' && DigitsAt(s, k + 1, 3) then DotGroupsEnd(s, k + 4) else k
  }

  /** `,` and one or two digits at `g`, then a word boundary. */
  function CentsEnd(s: string, g: nat): (r: Option<nat>)
    requires g <= |s|
    ensures r.Some? ==> g + 2 <= r.value <= g + 3 && r.value <= |s| && s[g] == ','
    ensures r.Some? ==> AllNumeric(s, g, r.value) && IsBoundary(s, r.value)
    ensures r.Some? ==> DigitsAt(s, g + 1, r.value - g - 1)
  {
    if g < |s| && s[g] == ',' then
      var e := RunEnd(s, g + 1, Digit);
      if g + 1 < e <= g + 3 && IsBoundary(s, e) then Some(e) else None
    else None
  }

  function MatchValor(s: string, i: nat): (r: Option<nat>)
    requires i <= |s|
    ensures r.Some? ==> i < r.value <= |s| && AllNumeric(s, i, r.value) && IsDigit(s[i])
    ensures r.Some? ==> IsBoundary(s, i) && IsBoundary(s, r.value)
  {
    if !IsBoundary(s, i) then None
    else
      var d := RunEnd(s, i, Digit);
      if d == i || i + 3 < d then None
      else CentsEnd(s, DotGroupsEnd(s, d))
  }

  /** `s` holds `layout` at `i`, where `#` in a layout stands for one digit. */
  predicate CharFits(c: char, l: char) {
    if l == '#' then IsDigit(c) else c == l
  }

  predicate FitsLayout(s: string, i: nat, layout: string) {
    i + |layout| <= |s| && forall t :: 0 <= t < |layout| ==> CharFits(s[i + t], layout[t])
  }

  /** A date shape: it starts with a digit and holds only digits, `.` and `/`. */
  predicate LayoutOk(l: string) {
    0 < |l| && l[0] == '#' && forall t :: 0 <= t < |l| ==> l[t] == '#' || l[t] == '.' || l[t] == '/'
  }

  /** The seven date shapes, in the order the source lists them. */
  const DateLayouts: seq<string> :=
    ["##.##.####", "##/##/####", "##.####", "##/####", "##/##/##", "##/#/####", "#/#/####"]

  lemma DateLayoutsOk()
    ensures forall j :: 0 <= j < |DateLayouts| ==> LayoutOk(DateLayouts[j])
  {
  }

  /** The end of the first layout that fits at `i` and is followed by a word boundary. */
  function FirstLayout(s: string, i: nat, layouts: seq<string>): (r: Option<nat>)
    requires i <= |s|
    requires forall j :: 0 <= j < |layouts| ==> LayoutOk(layouts[j])
    ensures r.Some? ==> i < r.value <= |s| && AllNumeric(s, i, r.value) && IsDigit(s[i]) && IsBoundary(s, r.value)
    decreases |layouts|
  {
    if layouts == [] then None
    else if FitsLayout(s, i, layouts[0]) && IsBoundary(s, i + |layouts[0]|) then
      assert LayoutOk(layouts[0]);
      assert AllNumeric(s, i, i + |layouts[0]|) by {
        forall t | i <= t < i + |layouts[0]| ensures IsNumeric(s[t]) {
          assert CharFits(s[i + (t - i)], layouts[0][t - i]);
        }
      }
      Some(i + |layouts[0]|)
    else FirstLayout(s, i, layouts[1..])
  }

  function MatchData(s: string, i: nat): (r: Option<nat>)
    requires i <= |s|
    ensures r.Some? ==> i < r.value <= |s| && AllNumeric(s, i, r.value) && IsDigit(s[i])
    ensures r.Some? ==> IsBoundary(s, i) && IsBoundary(s, r.value)
  {
    DateLayoutsOk();
    if IsBoundary(s, i) then FirstLayout(s, i, DateLayouts) else None
  }

  /**
   * Groups of `sizes[j]` digits, each group after the first preceded by an
   * optional separator from `seps[j - 1]`, and then a word boundary: the
   * shape of `\d{3}\.?\d{3}\.?\d{3}(-| )?\d{2}\b` and of both CNPJ layouts.
   */
  function DigitGroups(s: string, k: nat, sizes: seq<nat>, seps: seq<string>): (r: Option<nat>)
    requires k <= |s| && |sizes| == |seps| + 1
    requires forall j :: 0 <= j < |sizes| ==> 0 < sizes[j]
    requires forall j, c :: 0 <= j < |seps| && c in seps[j] ==> IsSeparator(c)
    ensures r.Some? ==> k + sizes[0] <= r.value <= |s| && AllNumeric(s, k, r.value) && IsDigit(s[k]) && IsBoundary(s, r.value)
    decreases |seps|
  {
    var e := k + sizes[0];
    if !DigitsAt(s, k, sizes[0]) then None
    else if seps == [] then (if IsBoundary(s, e) then Some(e) else None)
    else
      var r := DigitGroups(s, Skip(s, e, seps[0]), sizes[1..], seps[1..]);
      assert r.Some? ==> AllNumeric(s, k, r.value) by {
        if r.Some? {
          var f := Skip(s, e, seps[0]);
          forall t | k <= t < r.value ensures IsNumeric(s[t]) {
            if t < e {
              assert IsDigit(s[t]);
            } else if t < f {
              assert s[t] in seps[0];
            } else {
              assert AllNumeric(s, f, r.value);
            }
          }
        }
      }
      r
  }

  function MatchCpf(s: string, i: nat): (r: Option<nat>)
    requires i <= |s|
    ensures r.Some? ==> i < r.value <= |s| && AllNumeric(s, i, r.value) && IsDigit(s[i])
    ensures r.Some? ==> IsBoundary(s, i) && IsBoundary(s, r.value)
  {
    if IsBoundary(s, i) then DigitGroups(s, i, [3, 3, 3, 2], [".", ".", "- "]) else None
  }

  /** One of the two CNPJ layouts, without its optional leading `0`. */
  function CnpjBody(s: string, k: nat, grouped: bool): (r: Option<nat>)
    requires k <= |s|
    ensures r.Some? ==> k < r.value <= |s| && AllNumeric(s, k, r.value) && IsDigit(s[k])
    ensures r.Some? ==> IsBoundary(s, r.value)
  {
    if grouped then DigitGroups(s, k, [2, 3, 3, 4, 2], [".", ".", "/", "-"])
    else DigitGroups(s, k, [8, 6], ["/"])
  }

  /** `0?` before a layout: first with the `0` consumed, then, if that fails, without. */
  function WithOptionalZero(s: string, i: nat, grouped: bool): (r: Option<nat>)
    requires i <= |s|
    ensures r.Some? ==> i < r.value <= |s| && AllNumeric(s, i, r.value) && IsDigit(s[i])
    ensures r.Some? ==> IsBoundary(s, r.value)
  {
    var zero := if i < |s| && s[i] == '0' then CnpjBody(s, i + 1, grouped) else None;
    if zero.Some? then zero else CnpjBody(s, i, grouped)
  }

  function MatchCnpj(s: string, i: nat): (r: Option<nat>)
    requires i <= |s|
    ensures r.Some? ==> i < r.value <= |s| && AllNumeric(s, i, r.value) && IsDigit(s[i])
    ensures r.Some? ==> IsBoundary(s, i) && IsBoundary(s, r.value)
  {
    if !IsBoundary(s, i) then None
    else
      var g := WithOptionalZero(s, i, true);
      if g.Some? then g else WithOptionalZero(s, i, false)
  }

  /** The patterns for amounts, dates and taxpayer numbers, whose matches are all digits and separators. */
  predicate IsNumericPattern(p: Pattern) {
    p.Valor? || p.Data? || p.Cpf? || p.Cnpj?
  }

  /** The end of the match of `p` that starts at position `i` of `s`. */
  function MatchAt(p: Pattern, s: string, i: nat): (r: Option<nat>)
    requires i <= |s|
    ensures r.Some? ==> i < r.value <= |s|
    ensures r.Some? && IsNumericPattern(p) ==>
      AllNumeric(s, i, r.value) && IsDigit(s[i]) && IsBoundary(s, i) && IsBoundary(s, r.value)
  {
    match p
    case Whitespace => MatchWhitespace(s, i)
    case Link => MatchLink(s, i)
    case Chr34Start => MatchChr34Start(s, i)
    case Chr34End => MatchChr34End(s, i)
    case Valor => MatchValor(s, i)
    case Data => MatchData(s, i)
    case Cpf => MatchCpf(s, i)
    case Cnpj => MatchCnpj(s, i)
  }
}
