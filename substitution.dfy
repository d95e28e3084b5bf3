/**
 * Python's `re.sub(pattern, repl, string)`: every leftmost, non-overlapping
 * match of the pattern, scanning from the start, is replaced by `repl`.
 *
 * The patterns of app.py are pure, so the match that starts at each
 * position of the text is fixed before the scan begins: `MatchEnds` lists
 * it for every position. `ReplaceFrom` is the scan over that list; `IsScan`
 * and `Splice` say declaratively which spans are replaced and what the
 * result is, and the lemmas tie the two together.
 */
module Substitution {
  import opened Wrappers
  import opened Regex
  import opened Patterns
  import opened Agreement

  /** For each position of a text, the end of the match that starts there, if any. */
  type Ends = seq<Option<nat>>

  /** Every match lies inside the text and is non-empty: none of the patterns matches the empty string. */
  predicate Advancing(ends: Ends) {
    forall k :: 0 <= k < |ends| && ends[k].Some? ==> k < ends[k].value <= |ends|
  }

  /** The hand-coded matcher of `p` tried at every position of `s`. */
  function MatchEnds(p: Pattern, s: string): (ends: Ends)
    ensures |ends| == |s| && Advancing(ends)
    ensures forall k :: 0 <= k < |s| ==> ends[k] == MatchAt(p, s, k)
  {
    seq(|s|, k requires 0 <= k < |s| => MatchAt(p, s, k))
  }

  /** The reference semantics of `p` tried at every position of `s`. */
  function SpecEnds(p: Pattern, s: string): (ends: Ends)
    ensures |ends| == |s|
    ensures forall k :: 0 <= k < |s| ==> ends[k] == Search(Spec(p), s, k)
  {
    seq(|s|, k requires 0 <= k < |s| => Search(Spec(p), s, k))
  }

  /** The hand-coded matchers find what the reference semantics finds, everywhere. */
  lemma EndsAgree(p: Pattern, s: string)
    ensures MatchEnds(p, s) == SpecEnds(p, s)
  {
    forall k | 0 <= k < |s| ensures MatchEnds(p, s)[k] == SpecEnds(p, s)[k] {
      MatchAtAgrees(p, s, k);
    }
  }

  /** The scan of `re.sub` from position `i`: a match is replaced and skipped, any other character copied. */
  function ReplaceFrom(s: string, ends: Ends, repl: string, i: nat): string
    requires |ends| == |s| && Advancing(ends) && i <= |s|
    decreases |s| - i
  {
    if i == |s| then []
    else
      match ends[i]
      case Some(e) => repl + ReplaceFrom(s, ends, repl, e)
      case None => [s[i]] + ReplaceFrom(s, ends, repl, i + 1)
  }

  /**
   * `re.sub(pattern, repl, s)` for one of the patterns of app.py: the text
   * with each span the scan finds replaced by `repl`.
   */
  function Sub(p: Pattern, repl: string, s: string): (r: string)
    ensures Ordered(s, 0, Matches(p, s)) && r == Splice(s, 0, Matches(p, s), repl)
  {
    ReplaceFromIsSplice(s, MatchEnds(p, s), repl, 0, Matches(p, s));
    ReplaceFrom(s, MatchEnds(p, s), repl, 0)
  }

  // ---------------------------------------------------------------------
  // The declarative description: the replaced spans
  // ---------------------------------------------------------------------

  /** No match starts anywhere in `[i, j)`. */
  predicate NoneIn(ends: Ends, i: nat, j: nat)
    requires i <= j <= |ends|
  {
    forall t :: i <= t < j ==> ends[t].None?
  }

  /** No match of `p`, by the reference semantics, starts anywhere in `[i, j)`. */
  predicate NoMatchIn(p: Pattern, s: string, i: nat, j: nat)
    requires i <= j <= |s|
  {
    forall t :: i <= t < j ==> Search(Spec(p), s, t).None?
  }

  /**
   * `spans` are the matches `re.sub` replaces from position `i` on: each is
   * a match, none starts in the text before it (leftmost), each begins where
   * or after the previous one ended (non-overlapping), and after the last
   * no match starts at all.
   */
  predicate IsScan(ends: Ends, i: nat, spans: seq<(nat, nat)>)
    requires i <= |ends|
    decreases |spans|
  {
    if spans == [] then NoneIn(ends, i, |ends|)
    else
      var (a, b) := spans[0];
      i <= a < b <= |ends| && NoneIn(ends, i, a) && ends[a] == Some(b) &&
      IsScan(ends, b, spans[1..])
  }

  /** Spans from `i` on, in order, each inside the text and none overlapping the previous one. */
  predicate Ordered(s: string, i: nat, spans: seq<(nat, nat)>)
    decreases |spans|
  {
    spans == [] || (i <= spans[0].0 <= spans[0].1 <= |s| && Ordered(s, spans[0].1, spans[1..]))
  }

  /** The text from `i` with each span of `spans` replaced by `repl`. */
  function Splice(s: string, i: nat, spans: seq<(nat, nat)>, repl: string): (r: string)
    requires i <= |s| && Ordered(s, i, spans)
    ensures |r| == |s| - i - SpansLength(spans) + |spans| * |repl|
    decreases |spans|
  {
    if spans == [] then s[i..]
    else s[i..spans[0].0] + repl + Splice(s, spans[0].1, spans[1..], repl)
  }

  function SpansLength(spans: seq<(nat, nat)>): int
    decreases |spans|
  {
    if spans == [] then 0 else spans[0].1 - spans[0].0 + SpansLength(spans[1..])
  }

  lemma {:induction false} ScanOrdered(s: string, ends: Ends, i: nat, spans: seq<(nat, nat)>)
    requires |ends| == |s| && i <= |s| && IsScan(ends, i, spans)
    ensures Ordered(s, i, spans)
    decreases |spans|
  {
    if spans != [] {
      ScanOrdered(s, ends, spans[0].1, spans[1..]);
    }
  }

  /** Each replaced span is a match found at its start. */
  lemma {:induction false} ScanSpansMatch(ends: Ends, i: nat, spans: seq<(nat, nat)>)
    requires i <= |ends| && IsScan(ends, i, spans)
    ensures forall k :: 0 <= k < |spans| ==> spans[k].0 < |ends| && ends[spans[k].0] == Some(spans[k].1)
    decreases |spans|
  {
    if spans != [] {
      ScanSpansMatch(ends, spans[0].1, spans[1..]);
      forall k | 1 <= k < |spans| ensures spans[k] == spans[1..][k - 1] {}
    }
  }

  // ---------------------------------------------------------------------
  // The scan against the description
  // ---------------------------------------------------------------------

  /** One step of the scan where nothing matches: the character is copied. */
  lemma CopyOne(s: string, ends: Ends, repl: string, i: nat)
    requires |ends| == |s| && Advancing(ends) && i < |s| && ends[i].None?
    ensures ReplaceFrom(s, ends, repl, i) == [s[i]] + ReplaceFrom(s, ends, repl, i + 1)
  {
  }

  /** Positions where no match starts are copied through unchanged. */
  lemma {:induction false} CopiedWhereNone(s: string, ends: Ends, repl: string, i: nat, j: nat)
    requires |ends| == |s| && Advancing(ends) && i <= j <= |s| && NoneIn(ends, i, j)
    ensures ReplaceFrom(s, ends, repl, i) == s[i..j] + ReplaceFrom(s, ends, repl, j)
    decreases j - i
  {
    if i < j {
      CopyOne(s, ends, repl, i);
      CopiedWhereNone(s, ends, repl, i + 1, j);
      SliceCons(s, i, j);
      Regroup([s[i]], s[i + 1..j], ReplaceFrom(s, ends, repl, j));
    }
  }

  lemma SliceCons(s: string, i: nat, j: nat)
    requires i < j <= |s|
    ensures s[i..j] == [s[i]] + s[i + 1..j]
  {
  }

  lemma Regroup(a: string, b: string, c: string)
    ensures (a + b) + c == a + (b + c)
  {
  }

  /** The scan replaces exactly the spans of any `IsScan` description. */
  lemma {:induction false} ReplaceFromIsSplice(s: string, ends: Ends, repl: string, i: nat, spans: seq<(nat, nat)>)
    requires |ends| == |s| && Advancing(ends) && i <= |s| && IsScan(ends, i, spans)
    ensures Ordered(s, i, spans)
    ensures ReplaceFrom(s, ends, repl, i) == Splice(s, i, spans, repl)
    decreases |spans|
  {
    ScanOrdered(s, ends, i, spans);
    if spans == [] {
      CopiedWhereNone(s, ends, repl, i, |s|);
    } else {
      var (a, b) := spans[0];
      CopiedWhereNone(s, ends, repl, i, a);
      ReplaceFromIsSplice(s, ends, repl, b, spans[1..]);
    }
  }

  /** The spans the scan replaces from `i` on, found the way the scan finds them. */
  function ScanSpans(ends: Ends, i: nat): (spans: seq<(nat, nat)>)
    requires Advancing(ends) && i <= |ends|
    ensures IsScan(ends, i, spans)
    decreases |ends| - i
  {
    if i == |ends| then []
    else
      match ends[i]
      case Some(e) =>
        var rest := ScanSpans(ends, e);
        assert ([(i, e)] + rest)[1..] == rest;
        [(i, e)] + rest
      case None =>
        var rest := ScanSpans(ends, i + 1);
        assert NoneIn(ends, i, if rest == [] then |ends| else rest[0].0);
        rest
  }

  /** There is only one way to describe the scan: the replaced spans are determined by the matches. */
  lemma {:induction false} ScanUnique(ends: Ends, i: nat, xs: seq<(nat, nat)>, ys: seq<(nat, nat)>)
    requires i <= |ends| && IsScan(ends, i, xs) && IsScan(ends, i, ys)
    ensures xs == ys
    decreases |xs|
  {
    if xs != [] && ys != [] {
      assert xs[0].0 == ys[0].0;
      ScanUnique(ends, xs[0].1, xs[1..], ys[1..]);
      assert xs == [xs[0]] + xs[1..] && ys == [ys[0]] + ys[1..];
    }
  }

  /** The spans `re.sub` replaces in `s`. */
  function Matches(p: Pattern, s: string): seq<(nat, nat)> {
    ScanSpans(MatchEnds(p, s), 0)
  }

  /**
   * `re.sub` as the documentation of Python's `re` module describes it:
   * the result is the text with the leftmost non-overlapping matches of the
   * reference semantics, which `Matches` lists and which are the only spans
   * with that description, each replaced by `repl`.
   */
  lemma SubReplacesMatches(p: Pattern, repl: string, s: string)
    ensures IsScan(SpecEnds(p, s), 0, Matches(p, s))
    ensures forall spans :: IsScan(SpecEnds(p, s), 0, spans) ==> spans == Matches(p, s)
    ensures Ordered(s, 0, Matches(p, s))
    ensures Sub(p, repl, s) == Splice(s, 0, Matches(p, s), repl)
  {
    var ends := MatchEnds(p, s);
    EndsAgree(p, s);
    forall spans | IsScan(ends, 0, spans) ensures spans == Matches(p, s) {
      ScanUnique(ends, 0, spans, Matches(p, s));
    }
    ReplaceFromIsSplice(s, ends, repl, 0, Matches(p, s));
  }

  /** A text in which the pattern matches nowhere comes back unchanged. */
  lemma SubWithoutMatch(p: Pattern, repl: string, s: string)
    ensures NoMatchIn(p, s, 0, |s|) ==> Sub(p, repl, s) == s
  {
    if NoMatchIn(p, s, 0, |s|) {
      EndsAgree(p, s);
      CopiedWhereNone(s, MatchEnds(p, s), repl, 0, |s|);
      assert s[0..|s|] == s;
    }
  }
}
