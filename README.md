# Text normalisation of `PreprocessTextos`, in Dafny

`app.py` normalises a list of Portuguese texts before they are split into
sentences and tokens. `PreprocessTextos.preprocess` overwrites its list
`textos` eight times, once per step:

1. `str.lower()`;
2. `re.sub(r'\s+', ' ', ...)`;
3. links become `regexlink`;
4. `chr(34)` is removed at the start and at the end;
5. amounts become `regexvalor`;
6. dates become `regexdata`;
7. CPF numbers become `regexcpf`;
8. CNPJ numbers become `regexcnpj`.

Each step after lower-casing is one `re.sub` with a fixed pattern, except step 4, which is two (one anchored at the start, one at the end). The model
is built in layers:

- `Regex` is a reference semantics for the part of Python's `re` that the
  patterns use. A backtracking matcher tries the alternatives in order and
  makes greedy choices.
- `Patterns` writes each pattern of `app.py` down in that syntax (`Spec`). It
  also gives a hand-coded matcher per pattern (`MatchLink`, `MatchValor`, ...).
- `Agreement` proves that each hand-coded matcher finds exactly what the
  reference semantics finds, at every position.
- `Substitution` models `re.sub` as a left-to-right scan over the table of
  matches at each position (`ReplaceFrom`). It proves the scan equal to the
  declarative description: the leftmost non-overlapping matches (`IsScan`),
  each replaced (`Splice`).
- `Rewriters` models each function of `app.py`: `remove_links`,
  `replace_links`, `remove_chr34`, `replace_valores`, `replace_data`,
  `replace_cpf` and `replace_cnpj`. It also models the lower-case and
  whitespace steps, and proves what each one does to a text.
- `Preprocess` is the class `PreprocessTextos`. Its field `textos` is a
  `seq<string>`. `Preprocess` reassigns the field once per step, each time
  with the list comprehension `MapTexts`.
- `Scenarios` and `NumberScenarios` work through concrete inputs. They
  include a text on which running the pipeline twice gives a different result
  than running it once.

Characters are Dafny `char`s. Python's `\d`, `\w` and `str.lower()` are
modelled exactly for Latin-1, which covers Portuguese text. `\s` is modelled
exactly for all of Unicode.

## Model

| member | source | states |
|---|---|---|
| Preprocess.PreprocessTextos.constructor | app.py:21-23 | the new object holds the given list of texts |
| Preprocess.PreprocessTextos.Preprocess | app.py:25-46 | the list keeps its length; text k becomes `Normalize` of the old text k (it depends on that text only); the list is stored back into `textos` and returned; every text has only single spaces as whitespace and no upper-case letter |
| Preprocess.MapTexts | app.py:30 | a list comprehension: same length, element k is `f` applied to element k |
| Preprocess.Normalize | app.py:30-44 | the eight steps applied to one text in the order of `preprocess`; whatever the input, the result has only isolated `' '` as whitespace and no upper-case letter |
| Preprocess.PlaceholdersFit | app.py:34-44 | the five placeholders are non-empty, lower-case and free of whitespace |
| Preprocess.PlaceholderKeepsShape | app.py:34-44 | replacing matches of any pattern by such a placeholder keeps a collapsed, lower-case text collapsed and lower-case |
| Preprocess.SubKeepsNoUpper | app.py:32-44 | a `re.sub` step with a lower-case replacement adds no upper-case letter |
| Preprocess.StripKeepsCollapsed | app.py:36 | removing `chr(34)` at either end keeps whitespace collapsed |
| Preprocess.StripKeepsNoUpper | app.py:36 | removing `chr(34)` at either end adds no upper-case letter |
| Preprocess.CollapsedNoBreak | app.py:32 | a text with collapsed whitespace has no line break |
| Rewriters.Lowercase | app.py:30 | `str.lower()`: same length; no upper-case letter is left; other characters are kept; capitals move 32 code points |
| Rewriters.LowercaseWithoutUpper | app.py:30 | a text without capitals is its own lower-case form |
| Rewriters.LowercaseIdempotent | app.py:30 | lower-casing twice is lower-casing once |
| Rewriters.LowercaseKeepsCollapsed | app.py:30 | lower-casing keeps whitespace where it is: each position is whitespace after lower-casing exactly when it was before, so a collapsed text stays collapsed |
| Rewriters.CollapseWhitespace | app.py:32 | after `re.sub(r'\s+', ' ', s)`, whitespace occurs only as single `' '` characters, and the other characters of `s` are kept in order |
| Rewriters.CollapsedUnchanged | app.py:32 | a text whose whitespace is already single spaces is unchanged |
| Rewriters.CollapseWhitespaceIdempotent | app.py:32 | collapsing whitespace twice is collapsing it once |
| Rewriters.SubKeepsCollapsed | app.py:34-44 | replacing matches by a non-empty word without whitespace keeps whitespace collapsed |
| Rewriters.CharsFrom | app.py:32-44 | every character of a `re.sub` result comes from the text or from the replacement |
| Rewriters.ReplaceLinks | app.py:81-86 | `replace_links` returns a text in which the link pattern matches nowhere unchanged, whatever the replacement |
| Rewriters.RemoveLinks | app.py:66-71 | `remove_links(t)` is `replace_links(t, "")` |
| Rewriters.LinkSpans | app.py:81-86 | `replace_links` replaces exactly the scan's spans. Each span starts with `http://`, `https://` or `www.` in any case. It runs to the end of its run of non-whitespace, so whitespace or the end of the text follows it |
| Rewriters.LinkStartIsLocal | app.py:84 | whether a link starts at a position depends only on the run of non-whitespace from there |
| Rewriters.RemoveLinksRemovesAll | app.py:66-71 | the link pattern matches nowhere in the result of `remove_links` |
| Rewriters.SubStartStrips | app.py:75-77 | `re.sub(r'^chr\(34\)', '', t)` drops one `chr(34)` at the very start and changes nothing else |
| Rewriters.SubEndStrips | app.py:76-78 | `re.sub(r'chr\(34\)$', '', t)` drops one `chr(34)` at the very end, or just before a final line break (which stays), and changes nothing else |
| Rewriters.RemoveChr34 | app.py:73-79 | `remove_chr34` is the start strip followed by the end strip, so interior `chr(34)` stay |
| Rewriters.ReplacedOnce | app.py:75-78 | when a pattern can match at one position only, `re.sub` replaces that one span and copies the rest |
| Rewriters.ReplaceValores | app.py:88-93 | `replace_valores` returns a text in which the amount pattern matches nowhere unchanged |
| Rewriters.ReplaceData | app.py:95-100 | `replace_data` returns a text in which the date pattern matches nowhere unchanged |
| Rewriters.ReplaceCpf | app.py:102-107 | `replace_cpf` returns a text in which the CPF pattern matches nowhere unchanged |
| Rewriters.ReplaceCnpj | app.py:109-114 | `replace_cnpj` returns a text in which the CNPJ pattern matches nowhere unchanged |
| Rewriters.NumericSpans | app.py:88-114 | every span the amount, date, CPF and CNPJ steps replace starts with a digit, holds only digits and `.,/-` and space, and has a word boundary on each side |
| Rewriters.WithoutDigitsUnchanged | app.py:88-114 | a text without digits comes back from those four steps unchanged |
| Substitution.Sub | app.py:32-44 | `re.sub(p, repl, s)` is the text with each span of the scan (`Matches`) replaced by `repl`; the spans are in order and do not overlap |
| Substitution.SubReplacesMatches | app.py:32-44 | `re.sub(p, repl, s)` replaces the leftmost non-overlapping matches of `p`, by the reference semantics, and keeps everything between them. Those spans are the only ones that fit the description |
| Substitution.SubWithoutMatch | app.py:32-44 | when the pattern matches nowhere, `re.sub` returns the text unchanged |
| Substitution.EndsAgree | app.py:32-112 | the table of hand-coded matches is the table of reference matches |
| Substitution.ReplaceFromIsSplice | app.py:32-44 | the scan produces the text with each described span replaced |
| Substitution.ScanUnique | app.py:32-44 | only one sequence of spans fits the leftmost non-overlapping description |
| Substitution.CopiedWhereNone | app.py:32-44 | where no match starts, the scan copies the text |
| Regex.First | app.py:32-112 | the backtracking match of one alternative; the match it reports ends inside the text and not before its start |
| Regex.Search | app.py:69-112 | the alternatives of a pattern tried at one position; the match it reports ends inside the text and not before its start |
| Regex.SearchInOrder | app.py:69-112 | `Search` reports the match of the first alternative that matches, and no match exactly when no alternative matches |
| Patterns.Spec | app.py:32-112 | each pattern of app.py as its alternatives in the order written: two for links and CNPJ, seven for dates, one otherwise |
| Agreement.WhitespaceAgrees | app.py:32 | `MatchWhitespace` finds exactly the match `\s+` has at each position |
| Agreement.LinkAgrees | app.py:69 | `MatchLink` finds exactly the match of the case-insensitive link pattern, `https?://\S+` tried before `www\.\S+` |
| Agreement.Chr34Agrees | app.py:75-76 | `MatchChr34Start` and `MatchChr34End` find exactly the matches of `^chr\(34\)` and `chr\(34\)$` |
| Agreement.ValorAgrees | app.py:91 | `MatchValor` finds exactly the match of the amount pattern, with its greedy thousands groups and backtracking |
| Agreement.DataAgrees | app.py:98 | `MatchData` finds exactly the match of the date pattern: the first of its seven alternatives that fits, in order |
| Agreement.CpfAgrees | app.py:105 | `MatchCpf` finds exactly the match of the CPF pattern |
| Agreement.CnpjAgrees | app.py:112 | `MatchCnpj` finds exactly the match of the CNPJ pattern, both alternatives and the optional leading `0` |
| Agreement.MatchAtAgrees | app.py:32-112 | every hand-coded matcher agrees with its pattern at every position |
| Patterns.MatchWhitespace | app.py:32 | a match starts exactly at a whitespace character; it covers only whitespace and runs to the end of that run |
| Patterns.MatchChr34Start | app.py:75 | a match exists exactly when the text starts with `chr(34)`, at position 0 only, and covers those seven characters |
| Patterns.MatchLink | app.py:84 | a link is found if and only if a link prefix is followed by a non-whitespace character; it ends where that non-whitespace run ends |
| Patterns.MatchChr34End | app.py:76 | a match is `chr(34)` ending the text or followed only by a final line break |
| Patterns.MatchValor | app.py:91 | an amount starts with a digit, holds only digits and separators, and is word-bounded |
| Patterns.CentsEnd | app.py:91 | the cents are `,` and one or two digits, then a word boundary |
| Patterns.MatchData | app.py:98 | a date starts with a digit, holds only digits and separators, and is word-bounded |
| Patterns.MatchCpf | app.py:105 | a CPF starts with a digit, holds only digits and separators, and is word-bounded |
| Patterns.MatchCnpj | app.py:112 | a CNPJ starts with a digit, holds only digits and separators, and is word-bounded |
| Scenarios.ValorReplaced | app.py:88-93 | `r$ 1.234,56` becomes `r$ regexvalor` |
| Scenarios.DataReplaced | app.py:95-100 | `em 01/02/2020` becomes `em regexdata` |
| Scenarios.CpfReplaced | app.py:102-107 | `123.456.789-09` becomes `regexcpf` |
| Scenarios.CnpjReplaced | app.py:109-114 | `12.345.678/0001-95` becomes `regexcnpj` |
| Scenarios.LinkReplaced | app.py:81-86 | `ver https://a.b/c ok` becomes `ver regexlink ok` |
| Scenarios.Chr34Removed | app.py:73-79 | `chr(34)ola chr(34)` becomes `ola ` |
| Scenarios.WhitespaceCollapsed | app.py:32 | `a \t\n b` becomes `a b` |
| Scenarios.NumbersInChr34 | app.py:38-44 | in `chr(34)x`, `34` is no amount, date, CPF or CNPJ |
| Scenarios.FirstStepsKeep | app.py:30-34 | lower-case text without whitespace, `t` or `w` passes the first three steps unchanged |
| Scenarios.NormalizeTwice | app.py:30-44 | `chr(34)chr(34)x` becomes `chr(34)x`, which in turn becomes `x` |
| Scenarios.NormalizeNotIdempotent | app.py:30-44 | some text changes again when normalised a second time |
| NumberScenarios.ShortCentsReplaced | app.py:88-93 | `99,9` is an amount |
| NumberScenarios.UngroupedThousandsKept | app.py:88-93 | `1234,56` is left unchanged |
| NumberScenarios.ThreeCentsKept | app.py:88-93 | `1,234` is left unchanged |
| NumberScenarios.MonthYearReplaced | app.py:95-100 | `13/2020` is a date, with no calendar check |
| NumberScenarios.FullDateReplaced | app.py:95-100 | `99/99/9999` is a date, with no calendar check |
| NumberScenarios.PlainCpfReplaced | app.py:102-107 | `12345678909` is a CPF |
| NumberScenarios.TwelveDigitsKept | app.py:102-107 | a run of twelve digits is no CPF |
| NumberScenarios.NormalizeEmpty | app.py:30-44 | the empty text passes through every step unchanged: lower-casing, every `re.sub` step, and so the whole pipeline |

## Left out

- The NLTK downloads and the `joblib` tagger load (app.py:11-15) are left out. They are I/O and an opaque trained model.
- `split_nltk_listsentences`, `_split_nltk_tokens` and `split_nltk_tokens_list` (app.py:48-63) are left out. They wrap NLTK's `sent_tokenize` and `word_tokenize`, which are not part of this model.
  - `split_nltk_tokens_list` ignores its `textos` argument and uses the field.
  - `split_nltk_listsentences` runs `preprocess` again on the already rewritten field.
- The attribute `nlp_nltk` that the constructor sets (app.py:23) is not modelled.
- The `__main__` driver (app.py:118-135) is left out. It reads JSON and prints.
- Rewriters.Lowercase: models `str.lower()` on Latin-1 only. Beyond Latin-1, characters are kept as they are. Python can also change the length of a string there, for example `'İ'.lower()`.
- Patterns.MatchValor, Patterns.MatchData, Patterns.MatchCpf, Patterns.MatchCnpj: beyond Latin-1, no character counts as a `\d` digit or a `\w` word character. Python counts other Unicode digits as both `\d` and `\w`, and other Unicode letters as `\w`.
- Regex.First: its contract states only where a match can end. The backtracking order it models is its definition, and the `Agreement` lemmas compare each hand-coded matcher against it.
- Escapes in the replacement string of `re.sub` are not processed. The placeholders of app.py contain no backslash.
- A pipeline-wide idempotence property is not stated: it does not hold for the code. `remove_chr34` removes one anchored `chr(34)` per end, so `chr(34)chr(34)x` loses one per run (`Scenarios.NormalizeNotIdempotent`). The model follows the code.
- `remove_chr34` also strips a `chr(34)` that sits just before a final line break, because Python's `$` matches there. The model follows the code, not a reading of "at the very end".
