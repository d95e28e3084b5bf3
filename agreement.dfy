/**
 * Each hand-coded matcher of module Patterns finds exactly the match that
 * the backtracking reference semantics of module Regex finds for the pattern
 * as app.py writes it.
 */
module Agreement {
  import opened Wrappers
  import opened CharClasses
  import opened Regex
  import opened Patterns

  // ---------------------------------------------------------------------
  // Generic facts about the reference semantics
  // ---------------------------------------------------------------------

  lemma TimesDigit(s: string, k: nat, n: nat, next: Regex)
    requires k <= |s|
    ensures First(s, k, Times(Digit, n, next)) == if DigitsAt(s, k, n) then First(s, k + n, next) else None
  {
    if k + n <= |s| {
      assert (forall t :: k <= t < k + n ==> InClass(s[t], Digit)) <==> DigitsAt(s, k, n);
    }
  }

  lemma LitOne(s: string, k: nat, c: char, next: Regex)
    requires k <= |s|
    ensures First(s, k, Lit([c], next)) == if k < |s| && s[k] == c then First(s, k + 1, next) else None
  {
    if k < |s| {
      assert s[k..k + 1] == [s[k]];
    }
  }

  /** `cl+` with nothing after it takes the whole run of `cl` characters. */
  lemma {:induction false} PlusTakesRun(s: string, k: nat, cl: Class)
    requires k <= |s|
    ensures First(s, k, Plus(cl, Done)) == if k < |s| && InClass(s[k], cl) then Some(RunEnd(s, k, cl)) else None
    decreases |s| - k
  {
    if k < |s| && InClass(s[k], cl) {
      PlusTakesRun(s, k + 1, cl);
    }
  }

  /**
   * An optional separator that the rest of the pattern cannot start with:
   * taking it when it is there is the only way to succeed.
   */
  lemma OptionalSeparator(s: string, k: nat, seps: string, next: Regex)
    requires k <= |s|
    requires k < |s| && s[k] in seps ==> First(s, k, next).None?
    ensures First(s, k, UpTo(AnyOf(seps), 1, next)) == First(s, Skip(s, k, seps), next)
  {
    if k < |s| && s[k] in seps {
      assert First(s, k + 1, UpTo(AnyOf(seps), 0, next)) == First(s, k + 1, next);
    }
  }

  /** An optional character that the rest may also start with: both ways are tried, consuming first. */
  lemma OptionalChar(s: string, k: nat, c: char, next: Regex)
    requires k <= |s|
    ensures First(s, k, UpTo(AnyOf([c]), 1, next)) ==
      var taken := if k < |s| && s[k] == c then First(s, k + 1, next) else None;
      if taken.Some? then taken else First(s, k, next)
  {
    if k < |s| && s[k] == c {
      assert First(s, k + 1, UpTo(AnyOf([c]), 0, next)) == First(s, k + 1, next);
    }
  }

  lemma SearchOne(s: string, k: nat, a: Regex)
    requires k <= |s|
    ensures Search([a], s, k) == First(s, k, a)
  {
    assert [a][1..] == [];
  }

  lemma SearchTwo(s: string, k: nat, a: Regex, b: Regex)
    requires k <= |s|
    ensures Search([a, b], s, k) == if First(s, k, a).Some? then First(s, k, a) else First(s, k, b)
  {
    assert [a, b][1..] == [b];
    SearchOne(s, k, b);
  }

  lemma TimesOne(s: string, k: nat, cs: string, next: Regex)
    requires k <= |s|
    ensures First(s, k, Times(AnyOf(cs), 1, next)) == if k < |s| && s[k] in cs then First(s, k + 1, next) else None
  {
    var r := Times(AnyOf(cs), 1, next);
    if k < |s| && s[k] in cs {
      assert forall t :: k <= t < k + 1 ==> InClass(s[t], AnyOf(cs));
      assert First(s, k, r) == First(s, k + 1, next);
    } else if k < |s| {
      assert !InClass(s[k], AnyOf(cs));
      assert !(forall t :: k <= t < k + 1 ==> InClass(s[t], AnyOf(cs)));
      assert First(s, k, r) == None;
    } else {
      assert First(s, k, r) == None;
    }
  }

  lemma TimesTwo(s: string, k: nat, cs: string, next: Regex)
    requires k <= |s|
    ensures First(s, k, Times(AnyOf(cs), 2, next)) == if k + 1 < |s| && s[k] in cs && s[k + 1] in cs then First(s, k + 2, next) else None
  {
    if k + 1 < |s| && s[k] in cs && s[k + 1] in cs {
      assert InClass(s[k], AnyOf(cs)) && InClass(s[k + 1], AnyOf(cs));
    } else if k + 1 < |s| {
      assert !InClass(s[k], AnyOf(cs)) || !InClass(s[k + 1], AnyOf(cs));
    }
  }

  lemma TimesThree(s: string, k: nat, cs: string, next: Regex)
    requires k <= |s|
    ensures First(s, k, Times(AnyOf(cs), 3, next)) ==
      if k + 2 < |s| && s[k] in cs && s[k + 1] in cs && s[k + 2] in cs then First(s, k + 3, next) else None
  {
    if k + 2 < |s| && s[k] in cs && s[k + 1] in cs && s[k + 2] in cs {
      assert InClass(s[k], AnyOf(cs)) && InClass(s[k + 1], AnyOf(cs)) && InClass(s[k + 2], AnyOf(cs));
    } else if k + 2 < |s| {
      assert !InClass(s[k], AnyOf(cs)) || !InClass(s[k + 1], AnyOf(cs)) || !InClass(s[k + 2], AnyOf(cs));
    }
  }

  // ---------------------------------------------------------------------
  // \s+ and the link pattern
  // ---------------------------------------------------------------------

  lemma WhitespaceAgrees(s: string, i: nat)
    requires i <= |s|
    ensures MatchAt(Whitespace, s, i) == Search(Spec(Whitespace), s, i)
  {
    SearchOne(s, i, Plus(Space, Done));
    PlusTakesRun(s, i, Space);
  }

  /** What follows a link prefix ending at `k`: `\S+`, taken as far as it goes. */
  function LinkBody(s: string, prefix: Option<nat>): Option<nat>
    requires prefix.Some? ==> prefix.value <= |s|
  {
    match prefix
    case None => None
    case Some(k) => if k < |s| && !IsSpace(s[k]) then Some(RunEnd(s, k, NonSpace)) else None
  }

  /** An optional separator followed by a literal that cannot start with one. */
  lemma OptionalThenLit(s: string, k: nat, seps: string, lit: string, next: Regex)
    requires k <= |s| && lit != [] && lit[0] !in seps
    ensures First(s, k, UpTo(AnyOf(seps), 1, Lit(lit, next))) ==
      var e := Skip(s, k, seps);
      if e + |lit| <= |s| && s[e..e + |lit|] == lit then First(s, e + |lit|, next) else None
  {
    if k < |s| && s[k] in seps && k + |lit| <= |s| {
      assert s[k..k + |lit|][0] == s[k];
    }
    OptionalSeparator(s, k, seps, Lit(lit, next));
  }

  /** The case-insensitive `http` in front of the rest of the first link alternative. */
  lemma HttpLetters(s: string, i: nat, rest: Regex)
    requires i <= |s|
    ensures First(s, i, Times(AnyOf("hH"), 1, Times(AnyOf("tT"), 2, Times(AnyOf("pP"), 1, rest)))) ==
      if HttpAt(s, i) then First(s, i + 4, rest) else None
  {
    var p := Times(AnyOf("pP"), 1, rest);
    var t := Times(AnyOf("tT"), 2, p);
    TimesOne(s, i, "hH", t);
    if i + 1 <= |s| {
      TimesTwo(s, i + 1, "tT", p);
      if i + 3 <= |s| {
        TimesOne(s, i + 3, "pP", rest);
      }
    }
  }

  lemma SchemeTailAgrees(s: string, k: nat)
    requires k <= |s|
    ensures First(s, k, UpTo(AnyOf("sS\U{17F}"), 1, Lit("://", Plus(NonSpace, Done)))) == LinkBody(s, SchemeTail(s, k))
  {
    OptionalThenLit(s, k, "sS\U{17F}", "://", Plus(NonSpace, Done));
    var e := Skip(s, k, "sS\U{17F}");
    if e + 3 <= |s| && s[e..e + 3] == "://" {
      PlusTakesRun(s, e + 3, NonSpace);
    }
  }

  lemma HttpAgrees(s: string, i: nat)
    requires i <= |s|
    ensures First(s, i, HttpRegex) == LinkBody(s, SchemeEnd(s, i))
  {
    HttpLetters(s, i, UpTo(AnyOf("sS\U{17F}"), 1, Lit("://", Plus(NonSpace, Done))));
    if i + 4 <= |s| {
      SchemeTailAgrees(s, i + 4);
    }
  }

  lemma WwwAgrees(s: string, i: nat)
    requires i <= |s|
    ensures First(s, i, WwwRegex) == LinkBody(s, WwwEnd(s, i))
  {
    var body := Plus(NonSpace, Done);
    TimesThree(s, i, "wW", Lit(".", body));
    if i + 3 <= |s| {
      LitOne(s, i + 3, '.', body);
      if i + 4 <= |s| {
        PlusTakesRun(s, i + 4, NonSpace);
      }
    }
  }

  lemma LinkAgrees(s: string, i: nat)
    requires i <= |s|
    ensures MatchAt(Link, s, i) == Search(Spec(Link), s, i)
  {
    SearchTwo(s, i, HttpRegex, WwwRegex);
    HttpAgrees(s, i);
    WwwAgrees(s, i);
  }

  // ---------------------------------------------------------------------
  // The anchored chr(34) patterns
  // ---------------------------------------------------------------------

  lemma Chr34Agrees(s: string, i: nat)
    requires i <= |s|
    ensures MatchAt(Chr34Start, s, i) == Search(Spec(Chr34Start), s, i)
    ensures MatchAt(Chr34End, s, i) == Search(Spec(Chr34End), s, i)
  {
    SearchOne(s, i, StringStart(Lit("chr(34)", Done)));
    if i == 0 {
      assert First(s, 0, StringStart(Lit("chr(34)", Done))) == First(s, 0, Lit("chr(34)", Done));
      if 7 <= |s| {
        assert s[..7] == s[0..0 + 7];
      }
    }
    SearchOne(s, i, Lit("chr(34)", StringEnd));
  }

  // ---------------------------------------------------------------------
  // Money values: \b\d{1,3}(?:\.\d{3})*,\d{1,2}\b
  // ---------------------------------------------------------------------

  /** `,\d{1,2}\b`, the tail of the value pattern. */
  const Cents: Regex := Lit(",", Times(Digit, 1, UpTo(Digit, 1, WordBoundary(Done))))

  /** `(?:\.\d{3})*` followed by the tail. */
  const Thousands: Regex := Groups('.', 3, Cents)

  /** `\d{1,2}\b`: the whole digit run, if it has one or two digits and a boundary after it. */
  lemma CentsDigits(s: string, q: nat)
    requires q <= |s|
    ensures First(s, q, Times(Digit, 1, UpTo(Digit, 1, WordBoundary(Done)))) ==
      var e := RunEnd(s, q, Digit);
      if q < e <= q + 2 && IsBoundary(s, e) then Some(e) else None
  {
    var tail := WordBoundary(Done);
    TimesDigit(s, q, 1, UpTo(Digit, 1, tail));
    var e := RunEnd(s, q, Digit);
    if q < |s| && IsDigit(s[q]) {
      assert DigitsAt(s, q, 1);
      if q + 1 < |s| && IsDigit(s[q + 1]) {
        assert First(s, q + 2, UpTo(Digit, 0, tail)) == First(s, q + 2, tail);
        assert !IsBoundary(s, q + 1);
        assert First(s, q + 1, tail).None?;
        if q + 2 < |s| && IsDigit(s[q + 2]) {
          assert !IsBoundary(s, q + 2);
          assert e != q + 1 && e != q + 2;
        } else {
          assert e == q + 2;
        }
      } else {
        assert e == q + 1;
        assert First(s, q + 1, UpTo(Digit, 1, tail)) == First(s, q + 1, tail);
      }
    } else {
      assert !DigitsAt(s, q, 1);
      assert e == q;
    }
  }

  lemma CentsAgree(s: string, p: nat)
    requires p <= |s|
    ensures First(s, p, Cents) == CentsEnd(s, p)
  {
    LitOne(s, p, ',', Times(Digit, 1, UpTo(Digit, 1, WordBoundary(Done))));
    if p < |s| && s[p] == ',' {
      CentsDigits(s, p + 1);
    }
  }

  lemma ThousandsFailOnDigit(s: string, k: nat)
    requires k < |s| && IsDigit(s[k])
    ensures First(s, k, Thousands).None?
  {
    LitOne(s, k, ',', Times(Digit, 1, UpTo(Digit, 1, WordBoundary(Done))));
  }

  /** The `.ddd` groups are taken greedily; giving one back leaves a `.` where the `,` must be. */
  lemma {:induction false} ThousandsGreedy(s: string, k: nat)
    requires k <= |s|
    ensures First(s, k, Thousands) == First(s, DotGroupsEnd(s, k), Cents)
    decreases |s| - k
  {
    if k + 4 <= |s| && s[k] == '.' && DigitsAt(s, k + 1, 3) {
      ThousandsGreedy(s, k + 4);
      CentsAgree(s, k);
    }
  }

  /** `\d{0,m}` before the groups: only the whole digit run can be followed by `.` or `,`. */
  lemma {:induction false} LeadingDigits(s: string, q: nat, m: nat)
    requires q <= |s|
    ensures First(s, q, UpTo(Digit, m, Thousands)) ==
      if RunEnd(s, q, Digit) <= q + m then First(s, RunEnd(s, q, Digit), Thousands) else None
    decreases m
  {
    if q < |s| && IsDigit(s[q]) {
      ThousandsFailOnDigit(s, q);
      if 0 < m {
        LeadingDigits(s, q + 1, m - 1);
      }
    }
  }

  /** `\d{1,3}` and the rest, after the leading `\b`. */
  lemma LeadAgrees(s: string, i: nat)
    requires i <= |s| && IsBoundary(s, i)
    ensures First(s, i, Times(Digit, 1, UpTo(Digit, 2, Thousands))) == MatchValor(s, i)
  {
    var rest := UpTo(Digit, 2, Thousands);
    TimesDigit(s, i, 1, rest);
    var d := RunEnd(s, i, Digit);
    if i < |s| && IsDigit(s[i]) {
      assert DigitsAt(s, i, 1);
      assert d == RunEnd(s, i + 1, Digit);
      LeadingDigits(s, i + 1, 2);
      assert First(s, i + 1, rest) == if d <= i + 3 then First(s, d, Thousands) else None;
      if d <= i + 3 {
        ThousandsGreedy(s, d);
        CentsAgree(s, DotGroupsEnd(s, d));
        assert MatchValor(s, i) == CentsEnd(s, DotGroupsEnd(s, d));
      }
    } else {
      assert !DigitsAt(s, i, 1);
      assert d == i;
    }
  }

  lemma ValorAgrees(s: string, i: nat)
    requires i <= |s|
    ensures MatchAt(Valor, s, i) == Search(Spec(Valor), s, i)
  {
    var lead := Times(Digit, 1, UpTo(Digit, 2, Thousands));
    assert ValorRegex == [WordBoundary(lead)];
    SearchOne(s, i, WordBoundary(lead));
    if IsBoundary(s, i) {
      LeadAgrees(s, i);
    }
  }

  // ---------------------------------------------------------------------
  // Dates: seven straight alternatives, each between two \b
  // ---------------------------------------------------------------------

  /** A chain of `\d{n}` and literal separators that ends in `\b`: a regex without choices. */
  predicate Straight(r: Regex) {
    match r
    case Times(cl, _, next) => cl == Digit && Straight(next)
    case Lit(text, next) => '#' !in text && Straight(next)
    case WordBoundary(next) => next == Done
    case _ => false
  }

  /** `n` hashes: the layout of `\d{n}`. */
  function Hashes(n: nat): (h: string)
    ensures |h| == n && forall t :: 0 <= t < n ==> h[t] == '#'
  {
    if n == 0 then [] else ['#'] + Hashes(n - 1)
  }

  /** The layout a straight regex accepts, `#` standing for a digit. */
  function LayoutOf(r: Regex): string
    requires Straight(r)
  {
    match r
    case Times(_, n, next) => Hashes(n) + LayoutOf(next)
    case Lit(text, next) => text + LayoutOf(next)
    case WordBoundary(_) => []
  }

  lemma FitsSplit(s: string, k: nat, a: string, b: string)
    ensures FitsLayout(s, k, a + b) <==> FitsLayout(s, k, a) && FitsLayout(s, k + |a|, b)
  {
    if FitsLayout(s, k, a + b) {
      forall t | 0 <= t < |a| ensures CharFits(s[k + t], a[t]) {
        assert (a + b)[t] == a[t];
      }
      forall t | 0 <= t < |b| ensures CharFits(s[k + |a| + t], b[t]) {
        assert (a + b)[|a| + t] == b[t];
        assert s[k + (|a| + t)] == s[k + |a| + t];
      }
    }
    if FitsLayout(s, k, a) && FitsLayout(s, k + |a|, b) {
      forall t | 0 <= t < |a + b| ensures CharFits(s[k + t], (a + b)[t]) {
        if t >= |a| {
          assert CharFits(s[k + |a| + (t - |a|)], b[t - |a|]);
        }
      }
    }
  }

  /** `n` digits are what the layout of `n` hashes accepts. */
  lemma HashesFit(s: string, k: nat, n: nat)
    ensures FitsLayout(s, k, Hashes(n)) <==> DigitsAt(s, k, n)
  {
    var hashes := Hashes(n);
    if DigitsAt(s, k, n) {
      forall t | 0 <= t < n ensures CharFits(s[k + t], hashes[t]) {
        assert IsDigit(s[k + t]);
      }
    }
    if FitsLayout(s, k, hashes) {
      forall t | k <= t < k + n ensures IsDigit(s[t]) {
        assert CharFits(s[k + (t - k)], hashes[t - k]);
      }
    }
  }

  /** A layout without `#` is accepted exactly where it is spelled out. */
  lemma TextFits(s: string, k: nat, text: string)
    requires k + |text| <= |s| && '#' !in text
    ensures FitsLayout(s, k, text) <==> s[k..k + |text|] == text
  {
    if s[k..k + |text|] == text {
      forall t | 0 <= t < |text| ensures CharFits(s[k + t], text[t]) {
        assert s[k..k + |text|][t] == s[k + t];
        assert text[t] in text;
      }
    }
    if FitsLayout(s, k, text) {
      forall t | 0 <= t < |text| ensures s[k..k + |text|][t] == text[t] {
        assert CharFits(s[k + t], text[t]);
        assert text[t] in text;
      }
    }
  }

  /** Where a straight regex, tried at `k`, ends: its layout must fit and be followed by `\b`. */
  function StraightEnd(s: string, k: nat, r: Regex): Option<nat>
    requires Straight(r)
  {
    var l := LayoutOf(r);
    if FitsLayout(s, k, l) && IsBoundary(s, k + |l|) then Some(k + |l|) else None
  }

  /** A straight regex whose layout starts with `pre`: where `pre` fits, the rest decides. */
  lemma StraightEndSplit(s: string, k: nat, r: Regex, pre: string, next: Regex)
    requires Straight(r) && Straight(next) && LayoutOf(r) == pre + LayoutOf(next)
    ensures FitsLayout(s, k, pre) ==> StraightEnd(s, k, r) == StraightEnd(s, k + |pre|, next)
    ensures !FitsLayout(s, k, pre) ==> StraightEnd(s, k, r) == None
  {
    var l := LayoutOf(next);
    FitsSplit(s, k, pre, l);
    assert k + |pre + l| == k + |pre| + |l|;
  }

  /** `\d{n}` read as a layout of `n` hashes. */
  lemma HashesStep(s: string, k: nat, n: nat, next: Regex)
    requires k <= |s|
    ensures First(s, k, Times(Digit, n, next)) == if FitsLayout(s, k, Hashes(n)) then First(s, k + n, next) else None
  {
    TimesDigit(s, k, n, next);
    HashesFit(s, k, n);
  }

  /** A literal without `#` read as a layout. */
  lemma TextStep(s: string, k: nat, text: string, next: Regex)
    requires k <= |s| && '#' !in text
    ensures First(s, k, Lit(text, next)) == if FitsLayout(s, k, text) then First(s, k + |text|, next) else None
  {
    if k + |text| <= |s| {
      TextFits(s, k, text);
    }
  }

  lemma {:induction false} StraightAgrees(s: string, k: nat, r: Regex)
    requires k <= |s| && Straight(r)
    ensures First(s, k, r) == StraightEnd(s, k, r)
    decreases r
  {
    match r
    case WordBoundary(_) =>
    case Times(_, n, next) =>
      HashesStep(s, k, n, next);
      StraightEndSplit(s, k, r, Hashes(n), next);
      if FitsLayout(s, k, Hashes(n)) {
        StraightAgrees(s, k + n, next);
      }
    case Lit(text, next) =>
      TextStep(s, k, text, next);
      StraightEndSplit(s, k, r, text, next);
      if FitsLayout(s, k, text) {
        StraightAgrees(s, k + |text|, next);
      }
  }

  /** `a` is `\b R\b` with `R` straight and of layout `l`. */
  predicate AltLayout(a: Regex, l: string) {
    a.WordBoundary? && Straight(a.next) && LayoutOf(a.next) == l
  }

  /** Each alternative is `\b R\b` with `R` straight and of the matching layout. */
  predicate LayoutsOf(alts: seq<Regex>, layouts: seq<string>)
    decreases |alts|
  {
    |alts| == |layouts| &&
    (alts == [] || (AltLayout(alts[0], layouts[0]) && LayoutsOf(alts[1..], layouts[1..])))
  }

  /** Alternatives `\b R\b` tried in order agree with the layouts of the `R` tried in order. */
  lemma {:induction false} SearchLayouts(s: string, i: nat, alts: seq<Regex>, layouts: seq<string>)
    requires i <= |s| && LayoutsOf(alts, layouts)
    requires forall j :: 0 <= j < |layouts| ==> LayoutOk(layouts[j])
    ensures Search(alts, s, i) == if IsBoundary(s, i) then FirstLayout(s, i, layouts) else None
    decreases |alts|
  {
    if alts != [] {
      var a := alts[0];
      assert AltLayout(a, layouts[0]);
      StraightAgrees(s, i, a.next);
      assert First(s, i, a) == if IsBoundary(s, i) then StraightEnd(s, i, a.next) else None;
      SearchLayouts(s, i, alts[1..], layouts[1..]);
      assert Search(alts, s, i) == if First(s, i, a).Some? then First(s, i, a) else Search(alts[1..], s, i);
      var l := layouts[0];
      assert FirstLayout(s, i, layouts) ==
        if FitsLayout(s, i, l) && IsBoundary(s, i + |l|) then Some(i + |l|) else FirstLayout(s, i, layouts[1..]);
      if IsBoundary(s, i) {
        assert First(s, i, a) == StraightEnd(s, i, a.next);
      } else {
        assert First(s, i, a) == None;
      }
    }
  }

  // The layout of each date alternative, one lemma each to keep the evaluation small.

  lemma DateDotsLayout()
    ensures AltLayout(DateDots, "##.##.####")
  {
  }

  lemma DateSlashesLayout()
    ensures AltLayout(DateSlashes, "##/##/####")
  {
  }

  lemma MonthDotsLayout()
    ensures AltLayout(MonthDots, "##.####")
  {
  }

  lemma MonthSlashesLayout()
    ensures AltLayout(MonthSlashes, "##/####")
  {
  }

  lemma DateShortYearLayout()
    ensures AltLayout(DateShortYear, "##/##/##")
  {
  }

  lemma DateShortMonthLayout()
    ensures AltLayout(DateShortMonth, "##/#/####")
  {
  }

  lemma DateShortDayMonthLayout()
    ensures AltLayout(DateShortDayMonth, "#/#/####")
  {
  }

  lemma DateRegexLayouts()
    ensures LayoutsOf(DataRegex, DateLayouts)
  {
    DateDotsLayout();
    DateSlashesLayout();
    MonthDotsLayout();
    MonthSlashesLayout();
    DateShortYearLayout();
    DateShortMonthLayout();
    DateShortDayMonthLayout();
    assert LayoutsOf(DataRegex[7..], DateLayouts[7..]);
    assert LayoutsOf(DataRegex[6..], DateLayouts[6..]);
    assert LayoutsOf(DataRegex[5..], DateLayouts[5..]);
    assert LayoutsOf(DataRegex[4..], DateLayouts[4..]);
    assert LayoutsOf(DataRegex[3..], DateLayouts[3..]);
    assert LayoutsOf(DataRegex[2..], DateLayouts[2..]);
    assert LayoutsOf(DataRegex[1..], DateLayouts[1..]);
    assert LayoutsOf(DataRegex[0..], DateLayouts[0..]);
    assert DataRegex[0..] == DataRegex && DateLayouts[0..] == DateLayouts;
  }

  lemma DataSearch(s: string, i: nat)
    requires i <= |s|
    ensures Search(DataRegex, s, i) == if IsBoundary(s, i) then FirstLayout(s, i, DateLayouts) else None
  {
    DateRegexLayouts();
    DateLayoutsOk();
    SearchLayouts(s, i, DataRegex, DateLayouts);
  }

  lemma DataAgrees(s: string, i: nat)
    requires i <= |s|
    ensures MatchAt(Data, s, i) == Search(Spec(Data), s, i)
  {
    DataSearch(s, i);
  }

  // ---------------------------------------------------------------------
  // CPF and CNPJ: digit groups with optional separators
  // ---------------------------------------------------------------------

  /** The regex that `DigitGroups` with the same sizes and separators implements. */
  function GroupsRegex(sizes: seq<nat>, seps: seq<string>): Regex
    requires |sizes| == |seps| + 1
    decreases |seps|
  {
    if seps == [] then Times(Digit, sizes[0], WordBoundary(Done))
    else Times(Digit, sizes[0], UpTo(AnyOf(seps[0]), 1, GroupsRegex(sizes[1..], seps[1..])))
  }

  lemma {:induction false} GroupsAgree(s: string, k: nat, sizes: seq<nat>, seps: seq<string>)
    requires k <= |s| && |sizes| == |seps| + 1
    requires forall j :: 0 <= j < |sizes| ==> 0 < sizes[j]
    requires forall j, c :: 0 <= j < |seps| && c in seps[j] ==> IsSeparator(c)
    ensures First(s, k, GroupsRegex(sizes, seps)) == DigitGroups(s, k, sizes, seps)
    decreases |seps|
  {
    var e := k + sizes[0];
    if seps == [] {
      TimesDigit(s, k, sizes[0], WordBoundary(Done));
    } else {
      var rest := GroupsRegex(sizes[1..], seps[1..]);
      TimesDigit(s, k, sizes[0], UpTo(AnyOf(seps[0]), 1, rest));
      if DigitsAt(s, k, sizes[0]) {
        GroupsAgree(s, e, sizes[1..], seps[1..]);
        if e < |s| && s[e] in seps[0] {
          assert IsSeparator(s[e]);
          assert sizes[1..][0] == sizes[1];
        }
        OptionalSeparator(s, e, seps[0], rest);
        GroupsAgree(s, Skip(s, e, seps[0]), sizes[1..], seps[1..]);
      }
    }
  }

  lemma CpfRegexGroups()
    ensures CpfRegex == [WordBoundary(GroupsRegex([3, 3, 3, 2], [".", ".", "- "]))]
  {
  }

  lemma CpfAgrees(s: string, i: nat)
    requires i <= |s|
    ensures MatchAt(Cpf, s, i) == Search(Spec(Cpf), s, i)
  {
    CpfRegexGroups();
    SearchOne(s, i, WordBoundary(GroupsRegex([3, 3, 3, 2], [".", ".", "- "])));
    GroupsAgree(s, i, [3, 3, 3, 2], [".", ".", "- "]);
  }

  /** `\d{2}\.?\d{3}\.?\d{3}/?\d{4}-?\d{2}\b`, the grouped CNPJ layout. */
  const GroupedCnpj: Regex := GroupsRegex([2, 3, 3, 4, 2], [".", ".", "/", "-"])

  /** `\d{8}/?\d{6}\b`, the run CNPJ layout. */
  const RunCnpj: Regex := GroupsRegex([8, 6], ["/"])

  lemma BodyAgrees(s: string, k: nat, grouped: bool)
    requires k <= |s|
    ensures First(s, k, if grouped then GroupedCnpj else RunCnpj) == CnpjBody(s, k, grouped)
  {
    if grouped {
      GroupsAgree(s, k, [2, 3, 3, 4, 2], [".", ".", "/", "-"]);
    } else {
      GroupsAgree(s, k, [8, 6], ["/"]);
    }
  }

  /** `\b0?L` for a CNPJ layout `L`. */
  lemma ZeroThenLayout(s: string, i: nat, grouped: bool)
    requires i <= |s|
    ensures First(s, i, WordBoundary(UpTo(AnyOf("0"), 1, if grouped then GroupedCnpj else RunCnpj))) ==
      if IsBoundary(s, i) then WithOptionalZero(s, i, grouped) else None
  {
    var body := if grouped then GroupedCnpj else RunCnpj;
    if IsBoundary(s, i) {
      OptionalChar(s, i, '0', body);
      BodyAgrees(s, i, grouped);
      if i < |s| { BodyAgrees(s, i + 1, grouped); }
    }
  }

  lemma CnpjAgrees(s: string, i: nat)
    requires i <= |s|
    ensures MatchAt(Cnpj, s, i) == Search(Spec(Cnpj), s, i)
  {
    var g := WordBoundary(UpTo(AnyOf("0"), 1, GroupedCnpj));
    var r := WordBoundary(UpTo(AnyOf("0"), 1, RunCnpj));
    assert CnpjRegex == [g, r];
    SearchTwo(s, i, g, r);
    ZeroThenLayout(s, i, true);
    ZeroThenLayout(s, i, false);
  }

  // ---------------------------------------------------------------------
  // All patterns
  // ---------------------------------------------------------------------

  /** Every hand-coded matcher agrees with the reference semantics of its pattern. */
  lemma MatchAtAgrees(p: Pattern, s: string, i: nat)
    requires i <= |s|
    ensures MatchAt(p, s, i) == Search(Spec(p), s, i)
  {
    match p
    case Whitespace => WhitespaceAgrees(s, i);
    case Link => LinkAgrees(s, i);
    case Chr34Start => Chr34Agrees(s, i);
    case Chr34End => Chr34Agrees(s, i);
    case Valor => ValorAgrees(s, i);
    case Data => DataAgrees(s, i);
    case Cpf => CpfAgrees(s, i);
    case Cnpj => CnpjAgrees(s, i);
  }
}
