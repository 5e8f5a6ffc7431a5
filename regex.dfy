/**
 * The three regular expressions the verifier hands to `re.findall`, over
 * ASCII text:
 *
 *   WordToken   \b\w+\b
 *   Subject     \b[A-Z][a-z]*\b(?:\s\b[A-Z][a-z]*\b)*|\b[a-zA-Z]{4,}\b
 *   ProperNoun  \b[A-Z][a-z]+(?:\s[A-Z][a-z]+)*\b
 *
 * `MatchAt` is what the backtracking engine returns when it tries a pattern
 * at one position; `Matches` is the language of the pattern written out
 * declaratively, and `MatchAtIsLongestMatch` proves that the engine's answer
 * is the longest match there is. `Scan` is the left-to-right search of
 * `re.findall`, and `ScanIsLeftmost` proves it returns exactly the leftmost,
 * non-overlapping matches.
 */
module Regex {
  import opened Wrappers
  import opened Chars

  datatype Pattern = WordToken | Subject | ProperNoun

  datatype CharClass = WordChars | LowerChars | Letters

  predicate InClass(cls: CharClass, c: char)
  {
    match cls
    case WordChars => IsWordChar(c)
    case LowerChars => IsLower(c)
    case Letters => IsLetter(c)
  }

  /** A word character stands at position i (positions outside s hold none). */
  predicate WordAt(s: string, i: int)
  {
    0 <= i < |s| && IsWordChar(s[i])
  }

  /** `\b` at position i: a word character on one side and not on the other. */
  predicate Boundary(s: string, i: nat)
  {
    WordAt(s, i - 1) != WordAt(s, i)
  }

  /** The end of the longest run of `cls` characters starting at i. */
  function RunEnd(s: string, i: nat, cls: CharClass): (j: nat)
    requires i <= |s|
    ensures i <= j <= |s|
    ensures forall k :: i <= k < j ==> InClass(cls, s[k])
    ensures j == |s| || !InClass(cls, s[j])
    decreases |s| - i
  {
    if i < |s| && InClass(cls, s[i]) then RunEnd(s, i + 1, cls) else i
  }

  // ---------------------------------------------------------------------
  // The languages of the patterns, declaratively.
  // ---------------------------------------------------------------------

  /** s[i..e] is made of capitalised words joined by single whitespace
      characters: `[A-Z][a-z]*(?:\s[A-Z][a-z]*)*`. */
  predicate CapPhrase(s: string, i: nat, e: nat)
  {
    && i < e <= |s|
    && IsUpper(s[i])
    && (forall k :: i <= k < e ==> IsUpper(s[k]) || IsLower(s[k]) || IsSpace(s[k]))
    && (forall k :: i <= k < e && IsSpace(s[k]) ==> k + 1 < e && IsUpper(s[k + 1]))
    && (forall k :: i < k < e && IsUpper(s[k]) ==> IsSpace(s[k - 1]))
  }

  /** As CapPhrase, with at least one lower-case letter after every capital:
      `[A-Z][a-z]+(?:\s[A-Z][a-z]+)*`. */
  predicate ProperPhrase(s: string, i: nat, e: nat)
  {
    && CapPhrase(s, i, e)
    && (forall k :: i <= k < e && IsUpper(s[k]) ==> k + 1 < e && IsLower(s[k + 1]))
  }

  /** `\b\w+\b` matches s[i..e]. */
  predicate WordMatch(s: string, i: nat, e: nat)
  {
    && i < e <= |s|
    && Boundary(s, i) && Boundary(s, e)
    && forall k :: i <= k < e ==> IsWordChar(s[k])
  }

  /** The first alternative of the subject pattern matches s[i..e]: every
      word of the phrase is bounded by `\b` on both sides. */
  predicate CapPhraseMatch(s: string, i: nat, e: nat)
  {
    CapPhrase(s, i, e) && Boundary(s, i) && Boundary(s, e)
  }

  /** The second alternative of the subject pattern, `\b[a-zA-Z]{4,}\b`. */
  predicate LongWordMatch(s: string, i: nat, e: nat)
  {
    && i + 4 <= e <= |s|
    && Boundary(s, i) && Boundary(s, e)
    && forall k :: i <= k < e ==> IsLetter(s[k])
  }

  /** The proper-noun pattern matches s[i..e]. */
  predicate ProperMatch(s: string, i: nat, e: nat)
  {
    ProperPhrase(s, i, e) && Boundary(s, i) && Boundary(s, e)
  }

  /** Pattern p matches exactly the text s[i..e], read in the context of s. */
  predicate Matches(p: Pattern, s: string, i: nat, e: nat)
  {
    match p
    case WordToken => WordMatch(s, i, e)
    case Subject => CapPhraseMatch(s, i, e) || LongWordMatch(s, i, e)
    case ProperNoun => ProperMatch(s, i, e)
  }

  // ---------------------------------------------------------------------
  // The engine: what a greedy backtracking match at one position returns.
  // ---------------------------------------------------------------------

  /** `\w+` greedy, then `\b`, which the maximal run always satisfies. */
  function MatchWord(s: string, i: nat): Option<nat>
    requires i <= |s|
  {
    if i < |s| && Boundary(s, i) && IsWordChar(s[i]) then Some(RunEnd(s, i, WordChars)) else None
  }

  /** `\b[a-zA-Z]{4,}\b`: the letter run, if it is long enough and ends at a
      boundary (giving letters back cannot create one). */
  function MatchLongWord(s: string, i: nat): Option<nat>
    requires i <= |s|
  {
    var q := RunEnd(s, i, Letters);
    if i < |s| && Boundary(s, i) && i + 4 <= q && Boundary(s, q) then Some(q) else None
  }

  /** After a complete capitalised word ending at k, `(?:\s\b[A-Z][a-z]*\b)*`
      takes as many further words as it can. */
  function CapRest(s: string, k: nat): (e: nat)
    requires k <= |s|
    ensures k <= e <= |s|
    decreases |s| - k
  {
    if k + 1 < |s| && IsSpace(s[k]) && IsUpper(s[k + 1]) && Boundary(s, RunEnd(s, k + 2, LowerChars))
    then CapRest(s, RunEnd(s, k + 2, LowerChars))
    else k
  }

  /** The first alternative of the subject pattern at position i. */
  function MatchCapPhrase(s: string, i: nat): Option<nat>
    requires i <= |s|
  {
    if i < |s| && Boundary(s, i) && IsUpper(s[i]) && Boundary(s, RunEnd(s, i + 1, LowerChars))
    then Some(CapRest(s, RunEnd(s, i + 1, LowerChars)))
    else None
  }

  /** After a capitalised word ending at k, `(?:\s[A-Z][a-z]+)*\b`: take
      every further word that fits; when no `\b` follows the last one,
      backtrack one word, where the whitespace supplies the `\b`. */
  function ProperRest(s: string, k: nat): (r: Option<nat>)
    requires k <= |s|
    ensures r.Some? ==> k <= r.value <= |s|
    decreases |s| - k
  {
    if k + 2 < |s| && IsSpace(s[k]) && IsUpper(s[k + 1]) && IsLower(s[k + 2]) then
      match ProperRest(s, RunEnd(s, k + 2, LowerChars))
      case Some(e) => Some(e)
      case None => Some(k)
    else if Boundary(s, k) then Some(k)
    else None
  }

  function MatchProperNoun(s: string, i: nat): Option<nat>
    requires i <= |s|
  {
    if i + 1 < |s| && Boundary(s, i) && IsUpper(s[i]) && IsLower(s[i + 1])
    then ProperRest(s, RunEnd(s, i + 1, LowerChars))
    else None
  }

  /** One attempt of `re` at position i: the end of the match, if any. The
      subject pattern tries its first alternative before its second. */
  function MatchAt(p: Pattern, s: string, i: nat): (r: Option<nat>)
    requires i <= |s|
    ensures r.Some? ==> i < r.value <= |s|
    ensures r.Some? ==> Matches(p, s, i, r.value)
  {
    match p
    case WordToken =>
      MatchWordIsLongest(s, i);
      MatchWord(s, i)
    case Subject =>
      MatchCapPhraseSound(s, i);
      MatchLongWordIsLongest(s, i);
      if MatchCapPhrase(s, i).Some? then MatchCapPhrase(s, i) else MatchLongWord(s, i)
    case ProperNoun =>
      MatchProperNounSound(s, i);
      MatchProperNoun(s, i)
  }

  // ---------------------------------------------------------------------
  // The engine returns the longest match.
  // ---------------------------------------------------------------------

  /** A run reaches at least as far as any stretch of its class. */
  lemma {:induction false} RunReaches(s: string, i: nat, e: nat, cls: CharClass)
    requires i <= e <= |s|
    requires forall k :: i <= k < e ==> InClass(cls, s[k])
    ensures e <= RunEnd(s, i, cls)
    decreases e - i
  {
    if i < e {
      RunReaches(s, i + 1, e, cls);
    }
  }

  /** A run stops no later than the first character outside its class. */
  lemma {:induction false} RunStops(s: string, i: nat, e: nat, cls: CharClass)
    requires i <= e <= |s|
    requires e == |s| || !InClass(cls, s[e])
    ensures RunEnd(s, i, cls) <= e
    decreases e - i
  {
    if i < e && InClass(cls, s[i]) {
      RunStops(s, i + 1, e, cls);
    }
  }

  /** A lower-case run that follows a word character cannot run past a `\b`. */
  lemma {:induction false} RunStopsAtBoundary(s: string, m: nat, e: nat)
    requires 1 <= m <= e <= |s|
    requires IsWordChar(s[m - 1])
    requires Boundary(s, e)
    ensures RunEnd(s, m, LowerChars) <= e
    decreases e - m
  {
    if m < e && IsLower(s[m]) {
      RunStopsAtBoundary(s, m + 1, e);
    }
  }

  /** Inside a capitalised phrase that ends at a `\b`, the capital at m begins
      a word that also ends at a `\b`, no later than the phrase. */
  lemma WordInsidePhrase(s: string, i: nat, e: nat, m: nat)
    requires CapPhrase(s, i, e) && Boundary(s, e)
    requires i <= m < e && IsUpper(s[m])
    ensures RunEnd(s, m + 1, LowerChars) <= e
    ensures Boundary(s, RunEnd(s, m + 1, LowerChars))
    ensures RunEnd(s, m + 1, LowerChars) < e ==> IsSpace(s[RunEnd(s, m + 1, LowerChars)])
  {
    var q := RunEnd(s, m + 1, LowerChars);
    RunStopsAtBoundary(s, m + 1, e);
    assert IsLetter(s[q - 1]);
    if q < e {
      assert IsSpace(s[q]);
    }
  }

  /** Adding `\s` and a capitalised word at k keeps a capitalised phrase. */
  lemma ExtendCapPhrase(s: string, i: nat, k: nat, q: nat)
    requires CapPhrase(s, i, k)
    requires k + 1 < |s| && IsSpace(s[k]) && IsUpper(s[k + 1])
    requires k + 2 <= q <= |s|
    requires forall m :: k + 2 <= m < q ==> IsLower(s[m])
    ensures CapPhrase(s, i, q)
  {
    forall m | i <= m < q && IsSpace(s[m])
      ensures m + 1 < q && IsUpper(s[m + 1])
    {
      if m < k {
        assert m + 1 < k && IsUpper(s[m + 1]);
      }
    }
    forall m | i < m < q && IsUpper(s[m])
      ensures IsSpace(s[m - 1])
    {
      if m < k {
      } else {
        assert m == k + 1;
      }
    }
  }

  lemma {:induction false} CapRestSound(s: string, i: nat, k: nat)
    requires CapPhrase(s, i, k) && Boundary(s, k)
    ensures CapPhrase(s, i, CapRest(s, k)) && Boundary(s, CapRest(s, k))
    decreases |s| - k
  {
    if k + 1 < |s| && IsSpace(s[k]) && IsUpper(s[k + 1]) && Boundary(s, RunEnd(s, k + 2, LowerChars)) {
      var q := RunEnd(s, k + 2, LowerChars);
      ExtendCapPhrase(s, i, k, q);
      CapRestSound(s, i, q);
    }
  }

  /** No capitalised phrase match that contains the word ending at k reaches
      further than CapRest(s, k). */
  lemma {:induction false} CapRestLongest(s: string, i: nat, k: nat, e: nat)
    requires CapPhrase(s, i, e) && Boundary(s, e)
    requires i < k <= e && !WordAt(s, k)
    ensures e <= CapRest(s, k)
    decreases |s| - k
  {
    if k < e {
      assert IsSpace(s[k]) && IsUpper(s[k + 1]);
      WordInsidePhrase(s, i, e, k + 1);
      CapRestLongest(s, i, RunEnd(s, k + 2, LowerChars), e);
    }
  }

  /** A capital followed by its run of lower-case letters is a
      capitalised phrase of one word. */
  lemma FirstWordIsCapPhrase(s: string, i: nat)
    requires i < |s| && IsUpper(s[i])
    ensures CapPhrase(s, i, RunEnd(s, i + 1, LowerChars))
  {
    var q := RunEnd(s, i + 1, LowerChars);
    assert forall k :: i < k < q ==> IsLower(s[k]);
  }

  lemma MatchCapPhraseSound(s: string, i: nat)
    requires i <= |s|
    ensures MatchCapPhrase(s, i).Some? ==> CapPhraseMatch(s, i, MatchCapPhrase(s, i).value)
  {
    if i < |s| && Boundary(s, i) && IsUpper(s[i]) && Boundary(s, RunEnd(s, i + 1, LowerChars)) {
      FirstWordIsCapPhrase(s, i);
      CapRestSound(s, i, RunEnd(s, i + 1, LowerChars));
    }
  }

  lemma MatchCapPhraseReaches(s: string, i: nat, e: nat)
    requires CapPhraseMatch(s, i, e)
    ensures MatchCapPhrase(s, i).Some? && e <= MatchCapPhrase(s, i).value
  {
    WordInsidePhrase(s, i, e, i);
    CapRestLongest(s, i, RunEnd(s, i + 1, LowerChars), e);
  }

  lemma MatchCapPhraseIsLongest(s: string, i: nat)
    requires i <= |s|
    ensures MatchCapPhrase(s, i).Some? ==> CapPhraseMatch(s, i, MatchCapPhrase(s, i).value)
    ensures forall e: nat :: CapPhraseMatch(s, i, e) ==> MatchCapPhrase(s, i).Some? && e <= MatchCapPhrase(s, i).value
  {
    MatchCapPhraseSound(s, i);
    forall e: nat | CapPhraseMatch(s, i, e)
      ensures MatchCapPhrase(s, i).Some? && e <= MatchCapPhrase(s, i).value
    {
      MatchCapPhraseReaches(s, i, e);
    }
  }

  lemma MatchLongWordIsLongest(s: string, i: nat)
    requires i <= |s|
    ensures MatchLongWord(s, i).Some? ==> LongWordMatch(s, i, MatchLongWord(s, i).value)
    ensures forall e: nat :: LongWordMatch(s, i, e) ==> MatchLongWord(s, i).Some? && e <= MatchLongWord(s, i).value
  {
    forall e: nat | LongWordMatch(s, i, e)
      ensures MatchLongWord(s, i).Some? && e <= MatchLongWord(s, i).value
    {
      assert IsLetter(s[e - 1]);
      RunReaches(s, i, e, Letters);
      RunStops(s, i, e, Letters);
    }
  }

  /** When both alternatives of the subject pattern match, the first one
      reaches at least as far: its first word is the whole letter run. */
  lemma CapPhraseCoversLongWord(s: string, i: nat, e: nat)
    requires LongWordMatch(s, i, e)
    requires MatchCapPhrase(s, i).Some?
    ensures e <= MatchCapPhrase(s, i).value
  {
    var q := RunEnd(s, i + 1, LowerChars);
    assert IsLetter(s[q - 1]);
    RunStops(s, i, q, Letters);
    RunReaches(s, i, e, Letters);
  }

  lemma MatchWordIsLongest(s: string, i: nat)
    requires i <= |s|
    ensures MatchWord(s, i).Some? ==> WordMatch(s, i, MatchWord(s, i).value)
    ensures forall e: nat :: WordMatch(s, i, e) ==> MatchWord(s, i).Some? && e <= MatchWord(s, i).value
  {
    forall e: nat | WordMatch(s, i, e)
      ensures MatchWord(s, i).Some? && e <= MatchWord(s, i).value
    {
      RunReaches(s, i, e, WordChars);
    }
  }

  /** Adding `\s` and a proper-noun word at k keeps a proper-noun phrase. */
  lemma ExtendProperPhrase(s: string, i: nat, k: nat, q: nat)
    requires ProperPhrase(s, i, k)
    requires k + 2 < |s| && IsSpace(s[k]) && IsUpper(s[k + 1]) && IsLower(s[k + 2])
    requires k + 3 <= q <= |s|
    requires forall m :: k + 2 <= m < q ==> IsLower(s[m])
    ensures ProperPhrase(s, i, q)
  {
    ExtendCapPhrase(s, i, k, q);
    forall m | i <= m < q && IsUpper(s[m])
      ensures m + 1 < q && IsLower(s[m + 1])
    {
      if m < k {
        assert m + 1 < k;
      }
    }
  }

  /** A proper-noun phrase ends with a lower-case letter. */
  lemma ProperPhraseEndsLower(s: string, i: nat, k: nat)
    requires ProperPhrase(s, i, k)
    ensures IsLower(s[k - 1])
  {
  }

  lemma {:induction false} ProperRestSound(s: string, i: nat, k: nat)
    requires ProperPhrase(s, i, k)
    ensures ProperRest(s, k).Some? ==>
              ProperPhrase(s, i, ProperRest(s, k).value) && Boundary(s, ProperRest(s, k).value)
    decreases |s| - k
  {
    ProperPhraseEndsLower(s, i, k);
    if k + 2 < |s| && IsSpace(s[k]) && IsUpper(s[k + 1]) && IsLower(s[k + 2]) {
      var q := RunEnd(s, k + 2, LowerChars);
      ExtendProperPhrase(s, i, k, q);
      ProperRestSound(s, i, q);
    }
  }

  /** No proper-noun match that contains the word ending at k reaches
      further than ProperRest(s, k). */
  lemma {:induction false} ProperRestLongest(s: string, i: nat, k: nat, e: nat)
    requires ProperPhrase(s, i, e) && Boundary(s, e)
    requires i < k <= e && IsLower(s[k - 1])
    requires k < e ==> !IsLower(s[k])
    ensures ProperRest(s, k).Some? && e <= ProperRest(s, k).value
    decreases |s| - k
  {
    if k < e {
      assert IsUpper(s[k]) ==> IsSpace(s[k - 1]);
      assert IsSpace(s[k]);
      assert IsUpper(s[k + 1]) && IsLower(s[k + 2]);
      var q := RunEnd(s, k + 2, LowerChars);
      RunStopsAtBoundary(s, k + 2, e);
      ProperRestLongest(s, i, q, e);
    }
  }

  lemma MatchProperNounSound(s: string, i: nat)
    requires i <= |s|
    ensures MatchProperNoun(s, i).Some? ==> ProperMatch(s, i, MatchProperNoun(s, i).value)
  {
    if i + 1 < |s| && Boundary(s, i) && IsUpper(s[i]) && IsLower(s[i + 1]) {
      var q := RunEnd(s, i + 1, LowerChars);
      assert ProperPhrase(s, i, q);
      ProperRestSound(s, i, q);
    }
  }

  lemma MatchProperNounReaches(s: string, i: nat, e: nat)
    requires ProperMatch(s, i, e)
    ensures MatchProperNoun(s, i).Some? && e <= MatchProperNoun(s, i).value
  {
    assert IsUpper(s[i]) && IsLower(s[i + 1]);
    RunStopsAtBoundary(s, i + 1, e);
    ProperRestLongest(s, i, RunEnd(s, i + 1, LowerChars), e);
  }

  lemma MatchProperNounIsLongest(s: string, i: nat)
    requires i <= |s|
    ensures MatchProperNoun(s, i).Some? ==> ProperMatch(s, i, MatchProperNoun(s, i).value)
    ensures forall e: nat :: ProperMatch(s, i, e) ==> MatchProperNoun(s, i).Some? && e <= MatchProperNoun(s, i).value
  {
    MatchProperNounSound(s, i);
    forall e: nat | ProperMatch(s, i, e)
      ensures MatchProperNoun(s, i).Some? && e <= MatchProperNoun(s, i).value
    {
      MatchProperNounReaches(s, i, e);
    }
  }

  /** What `re` returns at a position is a match of the pattern, and no
      match there is longer; it returns nothing exactly when nothing
      matches there. */
  lemma MatchAtIsLongestMatch(p: Pattern, s: string, i: nat)
    requires i <= |s|
    ensures MatchAt(p, s, i).Some? ==> Matches(p, s, i, MatchAt(p, s, i).value)
    ensures forall e: nat :: Matches(p, s, i, e) ==> MatchAt(p, s, i).Some? && e <= MatchAt(p, s, i).value
  {
    match p
    case WordToken =>
      MatchWordIsLongest(s, i);
    case Subject =>
      MatchCapPhraseIsLongest(s, i);
      MatchLongWordIsLongest(s, i);
      forall e: nat | LongWordMatch(s, i, e) && MatchCapPhrase(s, i).Some?
        ensures e <= MatchCapPhrase(s, i).value
      {
        CapPhraseCoversLongWord(s, i, e);
      }
    case ProperNoun =>
      MatchProperNounIsLongest(s, i);
  }

  // ---------------------------------------------------------------------
  // re.findall: scan left to right, resume after each match.
  // ---------------------------------------------------------------------

  datatype Span = Span(start: nat, end: nat)

  /** Spans in strictly left-to-right order, none overlapping the next. */
  predicate Ordered(spans: seq<Span>)
  {
    forall a, b :: 0 <= a < b < |spans| ==> spans[a].end <= spans[b].start
  }

  /** A table of match results, one per position of a text of length
      |t|, in which every match ends after its start. */
  predicate Advancing(t: seq<Option<nat>>)
  {
    forall k :: 0 <= k < |t| && t[k].Some? ==> k < t[k].value <= |t|
  }

  /** The engine's result at every position of s. */
  function MatchTable(p: Pattern, s: string): (t: seq<Option<nat>>)
    ensures |t| == |s|
    ensures forall k :: 0 <= k < |s| ==> t[k] == MatchAt(p, s, k)
    ensures Advancing(t)
  {
    seq(|s|, k requires 0 <= k < |s| => MatchAt(p, s, k))
  }

  /** The leftmost scan over a table: take the match at i if there is one
      and resume at its end, else move on by one position. */
  function ScanTable(t: seq<Option<nat>>, i: nat): (r: seq<Span>)
    requires Advancing(t) && i <= |t|
    ensures forall k :: 0 <= k < |r| ==> i <= r[k].start < r[k].end <= |t|
    decreases |t| - i
  {
    if i == |t| then []
    else
      match t[i]
      case Some(e) => [Span(i, e)] + ScanTable(t, e)
      case None => ScanTable(t, i + 1)
  }

  lemma {:induction false} ScanTableSound(t: seq<Option<nat>>, i: nat)
    requires Advancing(t) && i <= |t|
    ensures forall k :: 0 <= k < |ScanTable(t, i)| ==> t[ScanTable(t, i)[k].start] == Some(ScanTable(t, i)[k].end)
    ensures Ordered(ScanTable(t, i))
    decreases |t| - i
  {
    if i < |t| {
      if t[i].Some? {
        var e := t[i].value;
        ScanTableSound(t, e);
        var r, rest := ScanTable(t, i), ScanTable(t, e);
        assert r == [Span(i, e)] + rest;
        assert forall k :: 0 < k < |r| ==> r[k] == rest[k - 1];
      } else {
        ScanTableSound(t, i + 1);
      }
    }
  }

  lemma {:induction false} ScanTableCovers(t: seq<Option<nat>>, i: nat, j: nat)
    requires Advancing(t) && i <= j < |t| && t[j].Some?
    ensures exists k :: 0 <= k < |ScanTable(t, i)| && ScanTable(t, i)[k].start <= j < ScanTable(t, i)[k].end
    decreases |t| - i
  {
    var r := ScanTable(t, i);
    if t[i].Some? {
      var e := t[i].value;
      var rest := ScanTable(t, e);
      assert r == [Span(i, e)] + rest;
      if j < e {
        assert r[0].start <= j < r[0].end;
      } else {
        ScanTableCovers(t, e, j);
        var k :| 0 <= k < |rest| && rest[k].start <= j < rest[k].end;
        assert r[k + 1] == rest[k];
      }
    } else {
      ScanTableCovers(t, i + 1, j);
    }
  }

  /** The spans `re.findall(p, s[i:])` visits, in order. */
  function Scan(p: Pattern, s: string, i: nat): (r: seq<Span>)
    requires i <= |s|
    ensures forall k :: 0 <= k < |r| ==> i <= r[k].start < r[k].end <= |s|
    ensures forall k :: 0 <= k < |r| ==> MatchAt(p, s, r[k].start) == Some(r[k].end)
    ensures Ordered(r)
  {
    ScanTableSound(MatchTable(p, s), i);
    ScanTable(MatchTable(p, s), i)
  }

  /** Every position from i on where the pattern matches lies in one of the
      spans Scan returns: the scan skips no match except those a previous
      match has consumed. */
  lemma ScanCoversEveryMatch(p: Pattern, s: string, i: nat, j: nat)
    requires i <= j < |s| && MatchAt(p, s, j).Some?
    ensures exists k :: 0 <= k < |Scan(p, s, i)| && Scan(p, s, i)[k].start <= j < Scan(p, s, i)[k].end
  {
    var t := MatchTable(p, s);
    assert t[j] == MatchAt(p, s, j);
    ScanTableCovers(t, i, j);
    assert Scan(p, s, i) == ScanTable(t, i);
  }

  /** The spans `re.findall` reports are exactly the leftmost non-overlapping
      longest matches: each is a longest match at its start, they are in
      order, and a position where the pattern matches but no span starts lies
      strictly inside an earlier span. */
  lemma ScanIsLeftmost(p: Pattern, s: string, j: nat)
    requires j < |s|
    ensures forall sp :: sp in Scan(p, s, 0) ==>
              Matches(p, s, sp.start, sp.end) &&
              forall e: nat :: Matches(p, s, sp.start, e) ==> e <= sp.end
    ensures (exists e: nat :: Matches(p, s, j, e)) ==>
              exists k :: 0 <= k < |Scan(p, s, 0)| && Scan(p, s, 0)[k].start <= j < Scan(p, s, 0)[k].end
  {
    forall sp | sp in Scan(p, s, 0)
      ensures Matches(p, s, sp.start, sp.end) && forall e: nat :: Matches(p, s, sp.start, e) ==> e <= sp.end
    {
      MatchAtIsLongestMatch(p, s, sp.start);
    }
    if exists e: nat :: Matches(p, s, j, e) {
      MatchAtIsLongestMatch(p, s, j);
      ScanCoversEveryMatch(p, s, 0, j);
    }
  }

  /** The texts of the spans. */
  function Texts(s: string, spans: seq<Span>): (r: seq<string>)
    requires forall k :: 0 <= k < |spans| ==> spans[k].start <= spans[k].end <= |s|
    ensures |r| == |spans|
    ensures forall k :: 0 <= k < |spans| ==> r[k] == s[spans[k].start..spans[k].end]
  {
    if spans == [] then [] else [s[spans[0].start..spans[0].end]] + Texts(s, spans[1..])
  }

  /** `re.findall(p, s)`. */
  function FindAll(p: Pattern, s: string): (r: seq<string>)
    ensures |r| == |Scan(p, s, 0)|
    ensures forall k :: 0 <= k < |r| ==>
              r[k] == s[Scan(p, s, 0)[k].start..Scan(p, s, 0)[k].end] &&
              Matches(p, s, Scan(p, s, 0)[k].start, Scan(p, s, 0)[k].end)
  {
    Texts(s, Scan(p, s, 0))
  }
}
