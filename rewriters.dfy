/**
 * The text rewriters of app.py, each a `re.sub` with one pattern, and what
 * they guarantee about their result.
 */
module Rewriters {
  import opened Wrappers
  import opened CharClasses
  import opened Regex
  import opened Patterns
  import opened Agreement
  import opened Substitution

  // ---------------------------------------------------------------------
  // Generic facts about the scan
  // ---------------------------------------------------------------------

  /** Every character of the result is a character of the text or of the replacement. */
  lemma {:induction false} CharsFrom(s: string, ends: Ends, repl: string, i: nat, ok: char -> bool)
    requires |ends| == |s| && Advancing(ends) && i <= |s|
    requires forall k :: i <= k < |s| ==> ok(s[k])
    requires forall k :: 0 <= k < |repl| ==> ok(repl[k])
    ensures forall k :: 0 <= k < |ReplaceFrom(s, ends, repl, i)| ==> ok(ReplaceFrom(s, ends, repl, i)[k])
    decreases |s| - i
  {
    if i < |s| {
      match ends[i]
      case Some(e) =>
        CharsFrom(s, ends, repl, e, ok);
        var r := ReplaceFrom(s, ends, repl, e);
        forall k | 0 <= k < |repl + r| ensures ok((repl + r)[k]) {
          if k >= |repl| { assert (repl + r)[k] == r[k - |repl|]; }
        }
      case None =>
        CharsFrom(s, ends, repl, i + 1, ok);
    }
  }

  /** Whitespace occurs only as single ASCII spaces. */
  predicate Collapsed(s: string) {
    forall k :: 0 <= k < |s| && IsSpace(s[k]) ==> s[k] == ' ' && (k + 1 == |s| || !IsSpace(s[k + 1]))
  }

  /**
   * Replacing matches by a non-empty word without whitespace keeps
   * whitespace collapsed, whatever the pattern.
   */
  lemma {:induction false} SubKeepsCollapsed(s: string, ends: Ends, repl: string, i: nat)
    requires |ends| == |s| && Advancing(ends) && i <= |s| && Collapsed(s)
    requires repl != [] && forall k :: 0 <= k < |repl| ==> !IsSpace(repl[k])
    ensures var r := ReplaceFrom(s, ends, repl, i);
      Collapsed(r) && (r != [] ==> r[0] == s[i] || r[0] == repl[0])
    decreases |s| - i
  {
    if i < |s| {
      match ends[i]
      case Some(e) =>
        SubKeepsCollapsed(s, ends, repl, e);
        var r := ReplaceFrom(s, ends, repl, e);
        forall k | 0 <= k < |repl + r| && IsSpace((repl + r)[k])
          ensures (repl + r)[k] == ' ' && (k + 1 == |repl + r| || !IsSpace((repl + r)[k + 1]))
        {
          assert k >= |repl|;
          assert (repl + r)[k] == r[k - |repl|];
          if k + 1 < |repl + r| { assert (repl + r)[k + 1] == r[k + 1 - |repl|]; }
        }
      case None =>
        SubKeepsCollapsed(s, ends, repl, i + 1);
        var r := ReplaceFrom(s, ends, repl, i + 1);
        assert ReplaceFrom(s, ends, repl, i) == [s[i]] + r;
        forall k | 0 <= k < |[s[i]] + r| && IsSpace(([s[i]] + r)[k])
          ensures ([s[i]] + r)[k] == ' ' && (k + 1 == |[s[i]] + r| || !IsSpace(([s[i]] + r)[k + 1]))
        {
          if k == 0 {
            if r != [] {
              assert r[0] == s[i + 1] || r[0] == repl[0];
            }
          } else {
            assert ([s[i]] + r)[k] == r[k - 1];
            if k + 1 < |[s[i]] + r| { assert ([s[i]] + r)[k + 1] == r[k]; }
          }
        }
    }
  }

  // ---------------------------------------------------------------------
  // str.lower() and re.sub(r'\s+', ' ', texto)          (app.py:30, 32)
  // ---------------------------------------------------------------------

  /** `str.lower()`: every upper-case letter is replaced by its lower-case form, everything else is kept. */
  function Lowercase(s: string): (r: string)
    ensures |r| == |s|
    ensures forall k :: 0 <= k < |r| ==> !IsUpper(r[k])
    ensures forall k :: 0 <= k < |s| && !IsUpper(s[k]) ==> r[k] == s[k]
    ensures forall k :: 0 <= k < |s| && IsUpper(s[k]) ==> r[k] as int == s[k] as int + 32
  {
    seq(|s|, k requires 0 <= k < |s| => LowerChar(s[k]))
  }

  /** A text without upper-case letters is its own lower-case form. */
  lemma LowercaseWithoutUpper(s: string)
    requires forall k :: 0 <= k < |s| ==> !IsUpper(s[k])
    ensures Lowercase(s) == s
  {
  }

  lemma LowercaseIdempotent(s: string)
    ensures Lowercase(Lowercase(s)) == Lowercase(s)
  {
    var l := Lowercase(s);
    forall k | 0 <= k < |l| ensures Lowercase(l)[k] == l[k] {
      assert !IsUpper(l[k]);
    }
  }

  /** Lower-casing keeps whitespace where it is: no whitespace character is an upper-case letter. */
  lemma LowercaseKeepsCollapsed(s: string)
    ensures forall k :: 0 <= k < |s| ==> (IsSpace(Lowercase(s)[k]) <==> IsSpace(s[k]))
    ensures Collapsed(s) ==> Collapsed(Lowercase(s))
  {
    var l := Lowercase(s);
    forall k | 0 <= k < |s| ensures IsSpace(l[k]) <==> IsSpace(s[k]) {
      if IsUpper(s[k]) {
        assert !IsSpace(l[k]);
      }
    }
  }

  /**
   * `re.sub(r'\s+', ' ', texto)`: whitespace is left only as single `' '`
   * characters, and every other character is kept, in order.
   */
  function CollapseWhitespace(s: string): (r: string)
    ensures Collapsed(r)
    ensures Unspaced(r) == Unspaced(s)
  {
    WhitespaceEnds(s);
    CollapseFrom(s, MatchEnds(Whitespace, s), 0);
    assert s[0..] == s;
    Sub(Whitespace, " ", s)
  }

  /** The characters of `s` that are not whitespace, in order. */
  function Unspaced(s: string): string
    decreases |s|
  {
    if s == [] then [] else (if IsSpace(s[0]) then [] else [s[0]]) + Unspaced(s[1..])
  }

  /** `ends` is the match table of `\s+` over `s`. */
  predicate WhitespaceTable(s: string, ends: Ends) {
    |ends| == |s| && Advancing(ends) && forall k :: 0 <= k < |s| ==> ends[k] == MatchWhitespace(s, k)
  }

  lemma WhitespaceEnds(s: string)
    ensures WhitespaceTable(s, MatchEnds(Whitespace, s))
  {
  }

  lemma {:induction false} CollapseFrom(s: string, ends: Ends, i: nat)
    requires WhitespaceTable(s, ends) && i <= |s|
    ensures var r := ReplaceFrom(s, ends, " ", i);
      Collapsed(r) && Unspaced(r) == Unspaced(s[i..]) &&
      (r != [] ==> i < |s| && (IsSpace(r[0]) <==> IsSpace(s[i])))
    decreases |s| - i
  {
    if i < |s| {
      var m := ends[i];
      assert m == MatchWhitespace(s, i);
      if m.Some? {
        var e := m.value;
        CollapseFrom(s, ends, e);
        var r := ReplaceFrom(s, ends, " ", e);
        assert ReplaceFrom(s, ends, " ", i) == " " + r;
        assert r != [] ==> !IsSpace(r[0]);
        forall k | 0 <= k < |" " + r| && IsSpace((" " + r)[k])
          ensures (" " + r)[k] == ' ' && (k + 1 == |" " + r| || !IsSpace((" " + r)[k + 1]))
        {
          if k > 0 {
            assert (" " + r)[k] == r[k - 1];
            if k + 1 < |" " + r| { assert (" " + r)[k + 1] == r[k]; }
          }
        }
        assert (" " + r)[1..] == r;
        SpacesThenRest(s, i, e);
      } else {
        CollapseFrom(s, ends, i + 1);
        var r := ReplaceFrom(s, ends, " ", i + 1);
        assert ReplaceFrom(s, ends, " ", i) == [s[i]] + r;
        forall k | 0 <= k < |[s[i]] + r| && IsSpace(([s[i]] + r)[k])
          ensures ([s[i]] + r)[k] == ' ' && (k + 1 == |[s[i]] + r| || !IsSpace(([s[i]] + r)[k + 1]))
        {
          assert k > 0;
          assert ([s[i]] + r)[k] == r[k - 1];
          if k + 1 < |[s[i]] + r| { assert ([s[i]] + r)[k + 1] == r[k]; }
        }
        assert ([s[i]] + r)[1..] == r;
        assert s[i..][1..] == s[i + 1..];
      }
    }
  }

  /** A run of whitespace contributes nothing to `Unspaced`. */
  lemma {:induction false} SpacesThenRest(s: string, i: nat, e: nat)
    requires i <= e <= |s| && forall t :: i <= t < e ==> IsSpace(s[t])
    ensures Unspaced(s[i..]) == Unspaced(s[e..])
    decreases e - i
  {
    if i < e {
      assert s[i..][1..] == s[i + 1..];
      SpacesThenRest(s, i + 1, e);
    }
  }

  lemma {:induction false} CollapsedFixedFrom(s: string, ends: Ends, i: nat)
    requires WhitespaceTable(s, ends) && i <= |s| && Collapsed(s)
    ensures ReplaceFrom(s, ends, " ", i) == s[i..]
    decreases |s| - i
  {
    if i < |s| {
      var m := ends[i];
      assert m == MatchWhitespace(s, i);
      if m.Some? {
        if i + 1 < |s| {
          assert !IsSpace(s[i + 1]);
        }
        CollapsedFixedFrom(s, ends, i + 1);
        assert s[i..] == [s[i]] + s[i + 1..];
      } else {
        CollapsedFixedFrom(s, ends, i + 1);
        assert s[i..] == [s[i]] + s[i + 1..];
      }
    }
  }

  /** Text whose whitespace is already single spaces comes back unchanged. */
  lemma CollapsedUnchanged(s: string)
    requires Collapsed(s)
    ensures CollapseWhitespace(s) == s
  {
    WhitespaceEnds(s);
    CollapsedFixedFrom(s, MatchEnds(Whitespace, s), 0);
    assert s[0..] == s;
  }

  /** Collapsing whitespace a second time changes nothing. */
  lemma CollapseWhitespaceIdempotent(s: string)
    ensures CollapseWhitespace(CollapseWhitespace(s)) == CollapseWhitespace(s)
  {
    CollapsedUnchanged(CollapseWhitespace(s));
  }

  // ---------------------------------------------------------------------
  // Links                                              (app.py:66-71, 81-86)
  // ---------------------------------------------------------------------

  /** `replace_links(text, to_replace)`: a text in which no link starts comes back unchanged. */
  function ReplaceLinks(text: string, repl: string): (r: string)
    ensures NoMatchIn(Link, text, 0, |text|) ==> r == text
  {
    SubWithoutMatch(Link, repl, text);
    Sub(Link, repl, text)
  }

  /** `remove_links(text)`: the same pattern, replaced by nothing. */
  function RemoveLinks(text: string): (r: string)
    ensures r == ReplaceLinks(text, "")
  {
    Sub(Link, "", text)
  }

  /**
   * Whether a link starts at `t` depends only on the run of non-whitespace
   * characters from `t`: a copy of that run elsewhere starts a link too.
   */
  lemma LinkStartIsLocal(x: string, t: nat, y: string, u: nat, w: nat)
    requires t + w <= |x| && u + w <= |y|
    requires x[t..t + w] == y[u..u + w]
    requires t + w == |x| || IsSpace(x[t + w])
    requires MatchLink(x, t).Some?
    ensures MatchLink(y, u).Some?
  {
    var k := LinkPrefixEnd(x, t).value;
    assert k < t + w;
    assert SameRun(x, t, y, u, w) by {
      forall j | t <= j < t + w ensures x[j] == y[u + (j - t)] {
        assert x[j] == x[t..t + w][j - t];
      }
    }
    if SchemeEnd(x, t).Some? {
      SchemeLocal(x, t, y, u, w);
    } else {
      WwwLocal(x, t, y, u, w);
    }
    assert LinkPrefixEnd(y, u) == Some(u + (k - t));
    assert y[u + (k - t)] == x[k];
  }

  /** `y` from `u` repeats the `n` characters of `x` from `t`. */
  predicate SameRun(x: string, t: nat, y: string, u: nat, n: nat) {
    t + n <= |x| && u + n <= |y| && forall j :: t <= j < t + n ==> x[j] == y[u + (j - t)]
  }

  /** An `http://` or `https://` inside a repeated run is repeated. */
  lemma SchemeLocal(x: string, t: nat, y: string, u: nat, n: nat)
    requires SameRun(x, t, y, u, n)
    requires SchemeEnd(x, t).Some? && SchemeEnd(x, t).value <= t + n
    ensures SchemeEnd(y, u) == Some(u + (SchemeEnd(x, t).value - t))
  {
    assert x[t] == y[u] && x[t + 1] == y[u + 1] && x[t + 2] == y[u + 2] && x[t + 3] == y[u + 3];
    assert HttpAt(y, u);
    var c := Skip(x, t + 4, "sS\U{17F}");
    assert x[t + 4] == y[u + 4];
    var d := u + (c - t);
    assert Skip(y, u + 4, "sS\U{17F}") == d;
    assert x[c..c + 3] == "://";
    assert x[c] == y[d] && x[c + 1] == y[d + 1] && x[c + 2] == y[d + 2];
    assert y[d..d + 3] == "://";
  }

  /** A `www.` inside a repeated run is repeated, and is no `http`. */
  lemma WwwLocal(x: string, t: nat, y: string, u: nat, n: nat)
    requires SameRun(x, t, y, u, n) && 4 < n
    requires WwwEnd(x, t).Some?
    ensures SchemeEnd(y, u).None? && WwwEnd(y, u) == Some(u + 4)
  {
    assert x[t] == y[u] && x[t + 1] == y[u + 1] && x[t + 2] == y[u + 2] && x[t + 3] == y[u + 3];
  }

  /** A link starts with `h` or `w`, in either case, and its second character is `t` or `w`. */
  lemma LinkStartChars(s: string, t: nat)
    requires t < |s|
    ensures MatchLink(s, t).Some? ==> s[t] == 'h' || s[t] == 'H' || s[t] == 'w' || s[t] == 'W'
    ensures MatchLink(s, t).Some? ==>
      t + 1 < |s| && (s[t + 1] == 't' || s[t + 1] == 'T' || s[t + 1] == 'w' || s[t + 1] == 'W')
  {
    if SchemeEnd(s, t).Some? {
      assert HttpAt(s, t);
      assert s[t + 1] in "tT";
    } else if WwwEnd(s, t).Some? {
      assert s[t + 1] in "wW";
    }
  }

  /** `ends` is the match table of the link pattern over `s`. */
  predicate LinkTable(s: string, ends: Ends) {
    |ends| == |s| && Advancing(ends) && forall k :: 0 <= k < |s| ==> ends[k] == MatchLink(s, k)
  }

  lemma LinkEnds(s: string)
    ensures LinkTable(s, MatchEnds(Link, s))
  {
  }

  /** The leading run of non-whitespace characters of `r` is a copy of the text from `i`. */
  predicate LeadFrom(s: string, i: nat, r: string)
    requires i <= |s|
  {
    var w := RunEnd(r, 0, NonSpace);
    i + w <= |s| && r[..w] == s[i..i + w]
  }

  /** After removing links from `i` on, the leading run of non-whitespace characters is copied from the text at `i`. */
  lemma {:induction false} LeadCopied(s: string, ends: Ends, i: nat)
    requires LinkTable(s, ends) && i <= |s|
    ensures LeadFrom(s, i, ReplaceFrom(s, ends, "", i))
    decreases |s| - i
  {
    if i == |s| {
      assert RunEnd(ReplaceFrom(s, ends, "", i), 0, NonSpace) == 0;
    } else if ends[i].Some? {
      LeadAfterLink(s, ends, i);
    } else {
      LeadCopied(s, ends, i + 1);
      CopyOne(s, ends, "", i);
      LeadCons(s, i, ReplaceFrom(s, ends, "", i + 1));
    }
  }

  /** A removed link is followed by whitespace or the end of the text, so nothing leads what follows it. */
  lemma LeadAfterLink(s: string, ends: Ends, i: nat)
    requires LinkTable(s, ends) && i < |s| && ends[i].Some?
    ensures LeadFrom(s, i, ReplaceFrom(s, ends, "", i))
  {
    var e := ends[i].value;
    LinkEndsAtSpace(s, i);
    var r := ReplaceFrom(s, ends, "", e);
    assert ReplaceFrom(s, ends, "", i) == "" + r;
    if e < |s| {
      NoLinkAtSpace(s, e);
      CopyOne(s, ends, "", e);
    }
    EmptyLead(s, i, r);
  }

  /** A link runs up to whitespace or the end of the text. */
  lemma LinkEndsAtSpace(s: string, i: nat)
    requires i < |s| && MatchLink(s, i).Some?
    ensures MatchLink(s, i).value == |s| || IsSpace(s[MatchLink(s, i).value])
  {
  }

  /** No link starts at a whitespace character. */
  lemma NoLinkAtSpace(s: string, e: nat)
    requires e < |s| && IsSpace(s[e])
    ensures MatchLink(s, e).None?
  {
  }

  /** A text that starts with whitespace, or is empty, has an empty leading run, copied from anywhere. */
  lemma EmptyLead(s: string, i: nat, r: string)
    requires i <= |s| && (r == [] || IsSpace(r[0]))
    ensures LeadFrom(s, i, r)
  {
    assert RunEnd(r, 0, NonSpace) == 0;
    assert r[..0] == s[i..i];
  }

  /** The leading run of `[s[i]] + rest` is copied from `s` at `i` when that of `rest` is copied from `i + 1`. */
  lemma LeadCons(s: string, i: nat, rest: string)
    requires i < |s| && LeadFrom(s, i + 1, rest)
    ensures LeadFrom(s, i, [s[i]] + rest)
  {
    var r := [s[i]] + rest;
    if !IsSpace(s[i]) {
      RunEndShift(s[i], rest, 0);
      var w' := RunEnd(rest, 0, NonSpace);
      assert RunEnd(r, 0, NonSpace) == RunEnd(r, 1, NonSpace) == w' + 1;
      assert r[..w' + 1] == [s[i]] + rest[..w'];
      assert s[i..i + w' + 1] == [s[i]] + s[i + 1..i + 1 + w'];
      assert r[..w' + 1] == s[i..i + w' + 1];
    } else {
      assert RunEnd(r, 0, NonSpace) == 0;
      assert r[..0] == s[i..i];
    }
  }

  /** A link that starts after the first character of `[c] + x` starts at the same place in `x`. */
  lemma LinkInTail(c: char, x: string, t: nat)
    requires 0 < t < |[c] + x| && MatchLink([c] + x, t).Some?
    ensures MatchLink(x, t - 1).Some?
  {
    var y := [c] + x;
    assert y[t..|y|] == x[t - 1..|x|] by {
      forall j | 0 <= j < |y| - t ensures y[t..|y|][j] == x[t - 1..|x|][j] {
        assert y[t + j] == x[t - 1 + j];
      }
    }
    LinkStartIsLocal(y, t, x, t - 1, |y| - t);
  }

  /** No link starts anywhere in `x`. */
  predicate LinkFree(x: string) {
    forall t :: 0 <= t < |x| ==> MatchLink(x, t).None?
  }

  /**
   * A character that starts no link in `s`, put in front of a link-free
   * text whose leading run is copied from `s` after that character.
   */
  lemma ConsLinkFree(s: string, i: nat, rest: string)
    requires i < |s| && MatchLink(s, i).None? && LinkFree(rest) && LeadFrom(s, i, [s[i]] + rest)
    ensures LinkFree([s[i]] + rest)
  {
    var r := [s[i]] + rest;
    forall t | 0 <= t < |r| ensures MatchLink(r, t).None? {
      if MatchLink(r, t).Some? {
        if t == 0 {
          var w := RunEnd(r, 0, NonSpace);
          assert w == |r| || IsSpace(r[w]);
          assert r[0..w] == r[..w];
          LinkStartIsLocal(r, 0, s, i, w);
        } else {
          LinkInTail(s[i], rest, t);
        }
      }
    }
  }

  /** After removing links from position `i` on, no link starts anywhere in the result. */
  lemma {:induction false} RemovedFrom(s: string, ends: Ends, i: nat)
    requires LinkTable(s, ends) && i <= |s|
    ensures LinkFree(ReplaceFrom(s, ends, "", i))
    decreases |s| - i
  {
    if i < |s| {
      assert ends[i] == MatchLink(s, i);
      match ends[i]
      case Some(e) =>
        RemovedFrom(s, ends, e);
        assert ReplaceFrom(s, ends, "", i) == "" + ReplaceFrom(s, ends, "", e);
        assert "" + ReplaceFrom(s, ends, "", e) == ReplaceFrom(s, ends, "", e);
      case None =>
        RemovedFrom(s, ends, i + 1);
        LeadCopied(s, ends, i);
        CopyOne(s, ends, "", i);
        ConsLinkFree(s, i, ReplaceFrom(s, ends, "", i + 1));
    }
  }

  /** Runs of non-whitespace measured in `[c] + x` and in `x`. */
  lemma {:induction false} RunEndShift(c: char, x: string, k: nat)
    requires k <= |x|
    ensures RunEnd([c] + x, k + 1, NonSpace) == RunEnd(x, k, NonSpace) + 1
    decreases |x| - k
  {
    if k < |x| {
      assert ([c] + x)[k + 1] == x[k];
      RunEndShift(c, x, k + 1);
    }
  }

  /** `remove_links` leaves no link behind: the link pattern matches nowhere in its result. */
  lemma RemoveLinksRemovesAll(text: string)
    ensures NoMatchIn(Link, RemoveLinks(text), 0, |RemoveLinks(text)|)
  {
    var r := RemoveLinks(text);
    LinkEnds(text);
    RemovedFrom(text, MatchEnds(Link, text), 0);
    forall t | 0 <= t < |r| ensures Search(Spec(Link), r, t).None? {
      MatchAtAgrees(Link, r, t);
      assert MatchAt(Link, r, t) == MatchLink(r, t);
    }
  }

  /**
   * What `replace_links` replaces: each replaced span starts with a link
   * prefix and runs to the end of the non-whitespace run it starts, so it
   * is followed by whitespace or the end of the text.
   */
  lemma LinkSpans(s: string, repl: string)
    ensures Ordered(s, 0, Matches(Link, s))
    ensures ReplaceLinks(s, repl) == Splice(s, 0, Matches(Link, s), repl)
    ensures forall k :: 0 <= k < |Matches(Link, s)| ==>
      var (a, b) := Matches(Link, s)[k];
      a < b <= |s| && LinkPrefixEnd(s, a).Some? && LinkPrefixEnd(s, a).value < b &&
      b == RunEnd(s, a, NonSpace) && (b == |s| || IsSpace(s[b]))
  {
    SubReplacesMatches(Link, repl, s);
    var ends := MatchEnds(Link, s);
    var spans := Matches(Link, s);
    ScanSpansMatch(ends, 0, spans);
    forall k | 0 <= k < |spans|
      ensures var (a, b) := spans[k];
        a < b <= |s| && LinkPrefixEnd(s, a).Some? && LinkPrefixEnd(s, a).value < b &&
        b == RunEnd(s, a, NonSpace) && (b == |s| || IsSpace(s[b]))
    {
      var (a, b) := spans[k];
      assert MatchAt(Link, s, a) == Some(b);
      var p := LinkPrefixEnd(s, a).value;
      assert InClass(s[p], NonSpace);
    }
  }

  // ---------------------------------------------------------------------
  // chr(34) at the start and the end                    (app.py:73-79)
  // ---------------------------------------------------------------------

  /**
   * `remove_chr34(texto)`: first `^chr\(34\)`, then `chr\(34\)$`, each
   * replaced by nothing. One `chr(34)` goes at the start and one at the end;
   * the interior is kept.
   */
  function RemoveChr34(text: string): (r: string)
    ensures r == StripTrailing(StripLeading(text))
  {
    SubStartStrips(text);
    SubEndStrips(StripLeading(text));
    Sub(Chr34End, "", Sub(Chr34Start, "", text))
  }

  /** One `chr(34)` at the very start dropped. */
  function StripLeading(text: string): (r: string)
    ensures |r| == |text| || (|r| == |text| - 7 && text[..7] == "chr(34)")
  {
    if 7 <= |text| && text[..7] == "chr(34)" then text[7..] else text
  }

  /**
   * One `chr(34)` at the very end dropped, or just before a final line
   * break, which stays: `$` also matches in front of a trailing `\n`.
   */
  function StripTrailing(text: string): (r: string)
    ensures |r| == |text| || |r| == |text| - 7
  {
    var n := |text|;
    if 7 <= n && text[n - 7..] == "chr(34)" then text[..n - 7]
    else if 8 <= n && text[n - 8..n - 1] == "chr(34)" && text[n - 1] == '\n' then text[..n - 8] + "\n"
    else text
  }

  /** A table with at most one match, at `at`: the scan replaces that span and copies the rest. */
  lemma ReplacedOnce(s: string, ends: Ends, repl: string, at: Option<nat>)
    requires |ends| == |s| && Advancing(ends)
    requires forall t :: 0 <= t < |s| ==> (ends[t].Some? <==> at == Some(t))
    requires at.Some? ==> at.value < |s|
    ensures at.None? ==> ReplaceFrom(s, ends, repl, 0) == s
    ensures at.Some? ==> ReplaceFrom(s, ends, repl, 0) == s[..at.value] + repl + s[ends[at.value].value..]
  {
    match at
    case None =>
      CopiedWhereNone(s, ends, repl, 0, |s|);
      assert s[0..|s|] == s;
    case Some(m) =>
      var e := ends[m].value;
      CopiedWhereNone(s, ends, repl, 0, m);
      CopiedWhereNone(s, ends, repl, e, |s|);
      assert s[0..m] == s[..m];
      assert ReplaceFrom(s, ends, repl, |s|) == [];
  }

  lemma SubStartStrips(text: string)
    ensures Sub(Chr34Start, "", text) == StripLeading(text)
  {
    var ends := MatchEnds(Chr34Start, text);
    var at: Option<nat> := if 7 <= |text| && text[..7] == "chr(34)" then Some(0) else None;
    forall t | 0 <= t < |text| ensures ends[t].Some? <==> at == Some(t) {
      assert ends[t] == MatchChr34Start(text, t);
    }
    ReplacedOnce(text, ends, "", at);
    if at.Some? {
      assert ends[0] == Some(7);
      assert text[..0] == [];
    }
  }

  /** Where `chr\(34\)$` matches, if anywhere: right at the end, or just before a final line break. */
  function Chr34EndAt(text: string): (at: Option<nat>)
    ensures at.Some? ==> at.value < |text| && MatchChr34End(text, at.value).Some?
  {
    var n := |text|;
    if 7 <= n && MatchChr34End(text, n - 7).Some? then Some(n - 7)
    else if 8 <= n && MatchChr34End(text, n - 8).Some? then Some(n - 8)
    else None
  }

  /** The table of `chr\(34\)$` has one entry at most, at `Chr34EndAt`. */
  lemma Chr34EndOnce(text: string, t: nat)
    requires t < |text|
    ensures MatchChr34End(text, t).Some? <==> Chr34EndAt(text) == Some(t)
  {
    var n := |text|;
    if t == n - 8 {
      Chr34Letters(text, t);
      Chr34Letters(text, n - 7);
    }
  }

  /** A match of `chr\(34\)$` starts with `ch`. */
  lemma Chr34Letters(text: string, i: nat)
    requires i < |text|
    ensures MatchChr34End(text, i).Some? ==> i + 1 < |text| && text[i] == 'c' && text[i + 1] == 'h'
  {
    if MatchChr34End(text, i).Some? {
      assert text[i..i + 7][0] == text[i] && text[i..i + 7][1] == text[i + 1];
    }
  }

  lemma SubEndStrips(text: string)
    ensures Sub(Chr34End, "", text) == StripTrailing(text)
  {
    var ends := MatchEnds(Chr34End, text);
    var at := Chr34EndAt(text);
    forall t | 0 <= t < |text| ensures ends[t].Some? <==> at == Some(t) {
      assert ends[t] == MatchChr34End(text, t);
      Chr34EndOnce(text, t);
    }
    ReplacedOnce(text, ends, "", at);
    match at {
      case None => NoChr34AtEnd(text);
      case Some(m) =>
        assert ends[m] == MatchChr34End(text, m) == Some(m + 7);
        if m == |text| - 7 {
          Chr34AtEnd(text);
        } else {
          Chr34BeforeBreak(text);
        }
    }
  }

  lemma NoChr34AtEnd(text: string)
    ensures Chr34EndAt(text).None? ==> StripTrailing(text) == text
  {
    var n := |text|;
    if 7 <= n && text[n - 7..] == "chr(34)" {
      assert text[n - 7..n] == text[n - 7..];
    }
  }

  lemma Chr34AtEnd(text: string)
    requires 7 <= |text| && MatchChr34End(text, |text| - 7).Some?
    ensures StripTrailing(text) == text[..|text| - 7] + "" + text[|text|..]
  {
    var n := |text|;
    assert text[n - 7..] == text[n - 7..n];
    assert text[n..] == [];
  }

  lemma Chr34BeforeBreak(text: string)
    requires 8 <= |text| && MatchChr34End(text, |text| - 8).Some? && Chr34EndAt(text) == Some(|text| - 8)
    ensures StripTrailing(text) == text[..|text| - 8] + "" + text[|text| - 1..]
  {
    var n := |text|;
    assert text[n - 1] == '\n';
    assert text[n - 1..] == "\n";
  }

  // ---------------------------------------------------------------------
  // Amounts, dates, CPF and CNPJ                        (app.py:88-114)
  // ---------------------------------------------------------------------

  /** `replace_valores(text, to_replace)`. */
  function ReplaceValores(text: string, repl: string): (r: string)
    ensures NoMatchIn(Valor, text, 0, |text|) ==> r == text
  {
    SubWithoutMatch(Valor, repl, text);
    Sub(Valor, repl, text)
  }

  /** `replace_data(text, to_replace)`. */
  function ReplaceData(text: string, repl: string): (r: string)
    ensures NoMatchIn(Data, text, 0, |text|) ==> r == text
  {
    SubWithoutMatch(Data, repl, text);
    Sub(Data, repl, text)
  }

  /** `replace_cpf(text, to_replace)`. */
  function ReplaceCpf(text: string, repl: string): (r: string)
    ensures NoMatchIn(Cpf, text, 0, |text|) ==> r == text
  {
    SubWithoutMatch(Cpf, repl, text);
    Sub(Cpf, repl, text)
  }

  /** `replace_cnpj(text, to_replace)`. */
  function ReplaceCnpj(text: string, repl: string): (r: string)
    ensures NoMatchIn(Cnpj, text, 0, |text|) ==> r == text
  {
    SubWithoutMatch(Cnpj, repl, text);
    Sub(Cnpj, repl, text)
  }

  /**
   * What the number patterns replace: each replaced span starts with a
   * digit, holds only digits and the separators `.,/-` and space, and has
   * a word boundary on either side.
   */
  lemma NumericSpans(p: Pattern, s: string)
    requires IsNumericPattern(p)
    ensures Ordered(s, 0, Matches(p, s))
    ensures forall k :: 0 <= k < |Matches(p, s)| ==>
      var (a, b) := Matches(p, s)[k];
      a < b <= |s| && IsDigit(s[a]) && AllNumeric(s, a, b) && IsBoundary(s, a) && IsBoundary(s, b)
  {
    var ends := MatchEnds(p, s);
    var spans := Matches(p, s);
    ScanOrdered(s, ends, 0, spans);
    ScanSpansMatch(ends, 0, spans);
    forall k | 0 <= k < |spans|
      ensures var (a, b) := spans[k];
        a < b <= |s| && IsDigit(s[a]) && AllNumeric(s, a, b) && IsBoundary(s, a) && IsBoundary(s, b)
    {
      var (a, b) := spans[k];
      assert MatchAt(p, s, a) == Some(b);
    }
  }

  /** A text without digits has no amount, date, CPF or CNPJ in it and comes back unchanged. */
  lemma WithoutDigitsUnchanged(p: Pattern, repl: string, s: string)
    requires IsNumericPattern(p)
    requires forall k :: 0 <= k < |s| ==> !IsDigit(s[k])
    ensures Sub(p, repl, s) == s
  {
    var ends := MatchEnds(p, s);
    assert NoneIn(ends, 0, |s|);
    CopiedWhereNone(s, ends, repl, 0, |s|);
    assert s[0..|s|] == s;
  }
}
