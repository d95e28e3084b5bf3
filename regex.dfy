/**
 * Reference semantics for the fragment of Python regular expressions that
 * app.py uses: what `re` finds when it tries a pattern at one position.
 *
 * A `Regex` is written in continuation form: every construct carries the rest
 * of the pattern as `next`. A greedy construct first tries to consume more and
 * hands the rest of the pattern what is left; only when that whole attempt
 * fails does it give back a character and try again. `First` therefore
 * returns the end of the match a backtracking engine reports: the earliest
 * alternative, and within it the greediest choices that let the rest succeed.
 */
module Regex {
  import opened Wrappers
  import opened CharClasses

  datatype Regex =
    | Done                                   // the whole pattern has matched
    | Lit(text: string, next: Regex)         // the literal characters `text`
    | Times(cl: Class, n: nat, next: Regex)  // `cl{n}`
    | UpTo(cl: Class, m: nat, next: Regex)   // `cl{0,m}`, greedy (so `cl?` is `UpTo(cl, 1, ..)`)
    | Plus(cl: Class, next: Regex)           // `cl+`, greedy
    | Groups(sep: char, n: nat, next: Regex) // `(?:sep\d{n})*`, greedy
    | WordBoundary(next: Regex)              // `\b`
    | StringStart(next: Regex)               // `^` without MULTILINE
    | StringEnd                              // `$` without MULTILINE, ending the pattern

  function Size(r: Regex): nat {
    match r
    case Done => 1
    case StringEnd => 1
    case Lit(_, next) => 1 + Size(next)
    case Times(_, _, next) => 1 + Size(next)
    case UpTo(_, _, next) => 1 + Size(next)
    case Plus(_, next) => 1 + Size(next)
    case Groups(_, _, next) => 1 + Size(next)
    case WordBoundary(next) => 1 + Size(next)
    case StringStart(next) => 1 + Size(next)
  }

  /** The end of the match of `r` that a backtracking engine finds at position `k` of `s`. */
  function First(s: string, k: nat, r: Regex): (res: Option<nat>)
    requires k <= |s|
    ensures res.Some? ==> k <= res.value <= |s|
    decreases Size(r), |s| - k
  {
    match r
    case Done => Some(k)
    case Lit(text, next) =>
      if k + |text| <= |s| && s[k..k + |text|] == text then First(s, k + |text|, next) else None
    case Times(cl, n, next) =>
      if k + n <= |s| && (forall t :: k <= t < k + n ==> InClass(s[t], cl)) then First(s, k + n, next) else None
    case UpTo(cl, m, next) =>
      var more := if 0 < m && k < |s| && InClass(s[k], cl) then First(s, k + 1, UpTo(cl, m - 1, next)) else None;
      if more.Some? then more else First(s, k, next)
    case Plus(cl, next) =>
      if k < |s| && InClass(s[k], cl) then
        var more := First(s, k + 1, Plus(cl, next));
        if more.Some? then more else First(s, k + 1, next)
      else None
    case Groups(sep, n, next) =>
      var more := if k + 1 + n <= |s| && s[k] == sep && DigitsAt(s, k + 1, n) then First(s, k + 1 + n, Groups(sep, n, next)) else None;
      if more.Some? then more else First(s, k, next)
    case WordBoundary(next) =>
      if IsBoundary(s, k) then First(s, k, next) else None
    case StringStart(next) =>
      if k == 0 then First(s, k, next) else None
    case StringEnd =>
      if k == |s| || (k + 1 == |s| && s[k] == '\n') then Some(k) else None
  }

  /** `a|b|...`: the alternatives are tried in the order written. */
  function Search(alts: seq<Regex>, s: string, k: nat): (res: Option<nat>)
    requires k <= |s|
    ensures res.Some? ==> k <= res.value <= |s|

    decreases |alts|
  {
    if alts == [] then None
    else
      var r := First(s, k, alts[0]);
      if r.Some? then r else Search(alts[1..], s, k)
  }

  /**
   * `Search` reports the match of the first alternative that matches, and
   * none exactly when no alternative matches.
   */
  lemma {:induction false} SearchInOrder(alts: seq<Regex>, s: string, k: nat)
    requires k <= |s|
    ensures Search(alts, s, k).None? <==> forall j :: 0 <= j < |alts| ==> First(s, k, alts[j]).None?
    ensures Search(alts, s, k).Some? ==>
      exists j :: 0 <= j < |alts| && Search(alts, s, k) == First(s, k, alts[j]) &&
        forall i :: 0 <= i < j ==> First(s, k, alts[i]).None?
    decreases |alts|
  {
    if alts != [] {
      var tail := alts[1..];
      SearchInOrder(tail, s, k);
      assert forall j :: 0 <= j < |tail| ==> tail[j] == alts[j + 1];
      if First(s, k, alts[0]).Some? {
        assert Search(alts, s, k) == First(s, k, alts[0]);
      } else if Search(tail, s, k).Some? {
        var j :| 0 <= j < |tail| && Search(tail, s, k) == First(s, k, tail[j]) &&
          forall i :: 0 <= i < j ==> First(s, k, tail[i]).None?;
        assert Search(alts, s, k) == First(s, k, alts[j + 1]);
        assert forall i :: 0 <= i < j + 1 ==> First(s, k, alts[i]).None? by {
          forall i | 0 <= i < j + 1 ensures First(s, k, alts[i]).None? {
            if i > 0 { assert alts[i] == tail[i - 1]; }
          }
        }
      } else {
        forall j | 0 <= j < |alts| ensures First(s, k, alts[j]).None? {
          if j > 0 { assert alts[j] == tail[j - 1]; }
        }
      }
    }
  }
}
