/**
 * `verify_factual(prompt, response)` of hallucination_utils.py: extract
 * candidate subjects from the prompt, resolve an encyclopedia page through
 * three fallback tiers, and call the response grounded when it shares at
 * least two words with that page's summary.
 *
 * The encyclopedia is an oracle: a map from the title of every page that
 * exists to that page's summary. Every run also reports the titles it
 * looked up, in order, so that "stops at the first hit" and "later tiers
 * are not tried" can be stated.
 */
module Verifier {
  import opened Wrappers
  import opened Chars
  import opened Regex

  /** Title of every existing page, mapped to its summary. */
  type KnowledgeBase = map<string, string>

  /** Matches whose lower-case form is one of these are not subjects. */
  const IGNORE_LIST: set<string> :=
    {"who", "what", "where", "when", "why", "how", "the", "is", "of", "in", "did", "was", "a", "an"}

  /** Fewest shared words for a grounded verdict. */
  const MIN_SHARED: nat := 2

  // ---------------------------------------------------------------------
  // Subject extraction
  // ---------------------------------------------------------------------

  /** A word whose lower-case form is on the ignore list. */
  predicate Ignored(w: string)
  {
    LowerStr(w) in IGNORE_LIST
  }

  /** A span of s whose lower-case text is not ignored. */
  predicate Kept(s: string, sp: Span)
  {
    sp.start <= sp.end <= |s| && LowerStr(s[sp.start..sp.end]) !in IGNORE_LIST
  }

  /** The list comprehension `[w for w in words if w.lower() not in ignore_list]`. */
  function KeepSubjects(s: string, spans: seq<Span>): (r: seq<Span>)
    ensures forall sp :: sp in r <==> sp in spans && Kept(s, sp)
    ensures forall k :: 0 <= k < |r| ==> Kept(s, r[k])
  {
    if spans == [] then []
    else if Kept(s, spans[0]) then [spans[0]] + KeepSubjects(s, spans[1..])
    else KeepSubjects(s, spans[1..])
  }

  lemma {:induction false} KeepSubjectsOrdered(s: string, spans: seq<Span>)
    requires Ordered(spans)
    ensures Ordered(KeepSubjects(s, spans))
  {
    if spans != [] {
      var tail := spans[1..];
      assert Ordered(tail);
      KeepSubjectsOrdered(s, tail);
      var rest := KeepSubjects(s, tail);
      forall b | 0 <= b < |rest|
        ensures spans[0].end <= rest[b].start
      {
        assert rest[b] in tail;
        var j :| 0 <= j < |tail| && tail[j] == rest[b];
        assert spans[j + 1] == rest[b];
      }
    }
  }

  function SubjectSpans(prompt: string): (r: seq<Span>)
    ensures forall k :: 0 <= k < |r| ==> r[k].start <= r[k].end <= |prompt|
    ensures forall sp :: sp in r <==> sp in Scan(Subject, prompt, 0) && Kept(prompt, sp)
  {
    KeepSubjects(prompt, Scan(Subject, prompt, 0))
  }

  /** `subjects` of verify_factual, in order of appearance. */
  function Subjects(prompt: string): (r: seq<string>)
    ensures |r| == |SubjectSpans(prompt)|
    ensures forall k :: 0 <= k < |r| ==> !Ignored(r[k])
  {
    Texts(prompt, SubjectSpans(prompt))
  }

  function LowerEach(ts: seq<string>): (r: seq<string>)
    ensures |r| == |ts|
    ensures forall k :: 0 <= k < |ts| ==> r[k] == LowerStr(ts[k])
  {
    if ts == [] then [] else [LowerStr(ts[0])] + LowerEach(ts[1..])
  }

  /** Titles tried by the second tier: each `\w+` token of the prompt, lower-cased. */
  function PromptTokens(prompt: string): (r: seq<string>)
    ensures |r| == |FindAll(WordToken, prompt)|
    ensures forall k :: 0 <= k < |r| ==> r[k] == LowerStr(FindAll(WordToken, prompt)[k])
    ensures forall k, m :: 0 <= k < |r| && 0 <= m < |r[k]| ==> !IsUpper(r[k][m])
  {
    LowerEach(FindAll(WordToken, prompt))
  }

  /** Titles tried by the third tier: the proper-noun phrases of the response. */
  function ResponseProperNouns(response: string): (r: seq<string>)
    ensures forall k :: 0 <= k < |r| ==> |r[k]| >= 2 && IsUpper(r[k][0]) && IsLower(r[k][1])
  {
    ProperNounsCapitalised(response);
    FindAll(ProperNoun, response)
  }

  /** Every proper noun found starts with a capital followed by a lower-case letter. */
  lemma ProperNounsCapitalised(s: string)
    ensures forall k :: 0 <= k < |FindAll(ProperNoun, s)| ==>
              var w := FindAll(ProperNoun, s)[k];
              |w| >= 2 && IsUpper(w[0]) && IsLower(w[1])
  {
    var words, spans := FindAll(ProperNoun, s), Scan(ProperNoun, s, 0);
    forall k | 0 <= k < |words|
      ensures |words[k]| >= 2 && IsUpper(words[k][0]) && IsLower(words[k][1])
    {
      var a, e := spans[k].start, spans[k].end;
      assert ProperMatch(s, a, e);
      assert IsUpper(s[a]) && a + 1 < e && IsLower(s[a + 1]);
      assert words[k] == s[a..e];
    }
  }

  // ---------------------------------------------------------------------
  // Knowledge lookup
  // ---------------------------------------------------------------------

  /** The index of the first title whose page exists. */
  function FirstHit(kb: KnowledgeBase, titles: seq<string>): (r: Option<nat>)
    ensures r.Some? ==> r.value < |titles| && titles[r.value] in kb
    ensures r.Some? ==> forall j :: 0 <= j < r.value ==> titles[j] !in kb
    ensures r.None? ==> forall j :: 0 <= j < |titles| ==> titles[j] !in kb
  {
    if titles == [] then None
    else if titles[0] in kb then Some(0)
    else
      match FirstHit(kb, titles[1..])
      case Some(k) => Some(k + 1)
      case None => None
  }

  /** The page a search found, if any, and every title it looked up. */
  datatype Lookup = Lookup(page: Option<string>, queried: seq<string>)

  /** A search stopped at its first hit: every title it looked up before the
      last one is missing, and a page is found exactly when the last title
      looked up exists; that title is the page. */
  predicate StopsAtFirstHit(kb: KnowledgeBase, l: Lookup)
  {
    && (forall k :: 0 <= k < |l.queried| - 1 ==> l.queried[k] !in kb)
    && (l.page.Some? <==> l.queried != [] && l.queried[|l.queried| - 1] in kb)
    && (l.page.Some? ==> l.page.value == l.queried[|l.queried| - 1])
  }

  /** One tier: `for t in titles: p = wiki.page(t); if p.exists(): page = p; break`. */
  function Probe(kb: KnowledgeBase, titles: seq<string>): (r: Lookup)
    ensures StopsAtFirstHit(kb, r)
    ensures r.page.Some? ==> r.queried != [] && r.page.value == r.queried[|r.queried| - 1]
    ensures r.queried <= titles
    ensures r.page.None? ==> r.queried == titles
  {
    match FirstHit(kb, titles)
    case Some(k) => Lookup(Some(titles[k]), titles[..k + 1])
    case None => Lookup(None, titles)
  }

  /** The loop of one tier, looking up the titles in order until a page exists. */
  method TryTitles(kb: KnowledgeBase, titles: seq<string>) returns (page: Option<string>, queried: seq<string>)
    ensures Lookup(page, queried) == Probe(kb, titles)
  {
    page := None;
    queried := [];
    var i := 0;
    while i < |titles|
      invariant 0 <= i <= |titles|
      invariant queried == titles[..i]
      invariant forall j :: 0 <= j < i ==> titles[j] !in kb
    {
      queried := queried + [titles[i]];
      if titles[i] in kb {
        page := Some(titles[i]);
        break;
      }
      i := i + 1;
    }
  }

  /** The three tiers: prompt subjects; then lower-cased prompt tokens if no
      subject's page exists; then, if still nothing and the response is not
      empty, the response's proper nouns. */
  function Resolve(kb: KnowledgeBase, prompt: string, response: string): (r: Lookup)
    ensures r.page.Some? ==> r.page.value in kb
    ensures r.page.Some? ==> r.queried != [] && r.page.value == r.queried[|r.queried| - 1]
  {
    Tiers(kb, Subjects(prompt), PromptTokens(prompt), ResponseProperNouns(response), response != "")
  }

  /** The tier sequence over given title lists; the third tier is tried
      only when `third` holds. */
  function Tiers(kb: KnowledgeBase, first: seq<string>, second: seq<string>, nouns: seq<string>, third: bool): (r: Lookup)
    ensures r.page.Some? ==> r.page.value in kb
    ensures r.page.Some? ==> r.queried != [] && r.page.value == r.queried[|r.queried| - 1]
    ensures r.page.None? ==> r.queried == first + second + (if third then nouns else [])
    ensures r.page.None? ==> forall k :: 0 <= k < |r.queried| ==> r.queried[k] !in kb
  {
    var t1 := Probe(kb, first);
    if t1.page.Some? then t1
    else
      var t2 := Probe(kb, second);
      if t2.page.Some? || !third then Lookup(t2.page, t1.queried + t2.queried)
      else
        var t3 := Probe(kb, nouns);
        Lookup(t3.page, t1.queried + t2.queried + t3.queried)
  }

  // ---------------------------------------------------------------------
  // Overlap scoring
  // ---------------------------------------------------------------------

  /** A non-empty run of word characters none of which is a capital. */
  predicate LowerWord(w: string)
  {
    w != [] && forall c :: c in w ==> IsWordChar(c) && !IsUpper(c)
  }

  /** `set(re.findall(r'\b\w+\b', text.lower()))`. */
  function WordSet(text: string): (r: set<string>)
    ensures forall w :: w in r ==> LowerWord(w)
  {
    LowerTokensAreLowerWords(text);
    var words := FindAll(WordToken, LowerStr(text));
    set k | 0 <= k < |words| :: words[k]
  }

  /** The common words of the response and the summary. */
  function SharedWords(response: string, summary: string): (r: set<string>)
    ensures response == "" ==> r == {}
  {
    assert WordSet("") == {};
    WordSet(response) * WordSet(summary)
  }

  // ---------------------------------------------------------------------
  // The verifier
  // ---------------------------------------------------------------------

  /** The verdict and every title looked up along the way. */
  datatype Outcome = Outcome(grounded: bool, queried: seq<string>)

  /** The page titled `title` exists and its summary shares at least `n`
      words with the response. */
  predicate SharesWith(kb: KnowledgeBase, title: string, response: string, n: nat)
  {
    title in kb && |SharedWords(response, kb[title])| >= n
  }

  /** Scoring a lookup: grounded when it found a page whose summary shares
      at least n words with the response. */
  function Score(kb: KnowledgeBase, r: Lookup, response: string, n: nat): (o: Outcome)
    requires r.page.Some? ==> r.page.value in kb && r.queried != [] && r.page.value == r.queried[|r.queried| - 1]
    ensures o.queried == r.queried
    ensures o.grounded <==> r.page.Some? && SharesWith(kb, r.page.value, response, n)
  {
    Outcome(r.page.Some? && SharesWith(kb, r.page.value, response, n), r.queried)
  }

  /** What verify_factual returns, with the titles it looked up. */
  function Verify(kb: KnowledgeBase, prompt: string, response: string): (o: Outcome)
    ensures Subjects(prompt) == [] ==> o == Outcome(false, [])
    ensures o.grounded ==> o.queried != [] && SharesWith(kb, o.queried[|o.queried| - 1], response, MIN_SHARED)
  {
    if Subjects(prompt) == [] then Outcome(false, [])
    else
      Score(kb, Resolve(kb, prompt, response), response, MIN_SHARED)
  }

  /** verify_factual, step by step as hallucination_utils.py runs it. */
  method VerifyFactual(kb: KnowledgeBase, prompt: string, response: string)
    returns (grounded: bool, queried: seq<string>)
    ensures Outcome(grounded, queried) == Verify(kb, prompt, response)
  {
    var subjects := Subjects(prompt);
    if subjects == [] {
      return false, [];
    }
    var page, q := TryTitles(kb, subjects);
    queried := q;
    if page.None? {
      page, q := TryTitles(kb, PromptTokens(prompt));
      queried := queried + q;
    }
    if page.None? && response != "" {
      page, q := TryTitles(kb, ResponseProperNouns(response));
      queried := queried + q;
    }
    if page.None? {
      return false, queried;
    }
    var summary := kb[page.value];
    grounded := |SharedWords(response, summary)| >= MIN_SHARED;
  }

  // ---------------------------------------------------------------------
  // Properties
  // ---------------------------------------------------------------------

  /** Every subject is a longest match of the subject pattern in the prompt
      whose lower-case text is not ignored, every such match is a subject,
      and the subjects keep the matches' left-to-right order. */
  lemma SubjectsAreKeptMatches(prompt: string)
    ensures forall sp :: sp in SubjectSpans(prompt) <==>
              sp in Scan(Subject, prompt, 0) && LowerStr(prompt[sp.start..sp.end]) !in IGNORE_LIST
    ensures forall sp :: sp in SubjectSpans(prompt) ==> Matches(Subject, prompt, sp.start, sp.end)
    ensures Ordered(SubjectSpans(prompt))
    ensures |Subjects(prompt)| == |SubjectSpans(prompt)|
    ensures forall k :: 0 <= k < |Subjects(prompt)| ==>
              Subjects(prompt)[k] == prompt[SubjectSpans(prompt)[k].start..SubjectSpans(prompt)[k].end]
  {
    forall sp | sp in SubjectSpans(prompt)
      ensures Matches(Subject, prompt, sp.start, sp.end)
    {
      MatchAtIsLongestMatch(Subject, prompt, sp.start);
    }
    KeepSubjectsOrdered(prompt, Scan(Subject, prompt, 0));
  }

  lemma {:induction false} NothingKept(s: string, spans: seq<Span>)
    requires forall sp :: sp in spans ==> !Kept(s, sp)
    ensures KeepSubjects(s, spans) == []
  {
    if spans != [] {
      NothingKept(s, spans[1..]);
    }
  }

  lemma AllIgnoredNoSubjects(prompt: string)
    requires forall w :: w in FindAll(Subject, prompt) ==> LowerStr(w) in IGNORE_LIST
    ensures Subjects(prompt) == []
  {
    var spans := Scan(Subject, prompt, 0);
    var words := FindAll(Subject, prompt);
    forall sp | sp in spans
      ensures !Kept(prompt, sp)
    {
      var k :| 0 <= k < |spans| && spans[k] == sp;
      assert words[k] == prompt[sp.start..sp.end];
      assert words[k] in words;
    }
    NothingKept(prompt, spans);
  }

  lemma NoSubjectsAllIgnored(prompt: string)
    requires Subjects(prompt) == []
    ensures forall w :: w in FindAll(Subject, prompt) ==> LowerStr(w) in IGNORE_LIST
  {
    var spans := Scan(Subject, prompt, 0);
    var words := FindAll(Subject, prompt);
    assert SubjectSpans(prompt) == [];
    forall w | w in words
      ensures LowerStr(w) in IGNORE_LIST
    {
      var k :| 0 <= k < |words| && words[k] == w;
      assert spans[k] in spans;
      assert !Kept(prompt, spans[k]);
      assert w == prompt[spans[k].start..spans[k].end];
    }
  }

  /** There are no subjects exactly when every match of the subject pattern
      is on the ignore list. */
  lemma NoSubjectsIffAllIgnored(prompt: string)
    ensures Subjects(prompt) == [] <==>
              forall w :: w in FindAll(Subject, prompt) ==> LowerStr(w) in IGNORE_LIST
  {
    if forall w :: w in FindAll(Subject, prompt) ==> LowerStr(w) in IGNORE_LIST {
      AllIgnoredNoSubjects(prompt);
    }
    if Subjects(prompt) == [] {
      NoSubjectsAllIgnored(prompt);
    }
  }

  /** With no subject left after filtering, the verdict is not grounded and
      no page is looked up at all. */
  lemma NoSubjectNoLookup(kb: KnowledgeBase, prompt: string, response: string)
    requires forall w :: w in FindAll(Subject, prompt) ==> LowerStr(w) in IGNORE_LIST
    ensures Verify(kb, prompt, response) == Outcome(false, [])
  {
    NoSubjectsIffAllIgnored(prompt);
  }

  /** A search that found nothing, followed by a further search, together
      still stop at the first hit. */
  lemma ChainLookups(kb: KnowledgeBase, a: Lookup, b: Lookup)
    requires StopsAtFirstHit(kb, a) && a.page.None?
    requires StopsAtFirstHit(kb, b)
    ensures StopsAtFirstHit(kb, Lookup(b.page, a.queried + b.queried))
  {
    assert forall k :: 0 <= k < |a.queried| ==> a.queried[k] !in kb;
    var q := a.queried + b.queried;
    forall k | 0 <= k < |q| - 1
      ensures q[k] !in kb
    {
      if k >= |a.queried| {
        assert q[k] == b.queried[k - |a.queried|];
      }
    }
  }

  /** Across all three tiers the search stops at its first hit: every title
      looked up before the last one has no page, and the resolved page is
      the last title looked up. */
  lemma ResolveStopsAtFirstHit(kb: KnowledgeBase, prompt: string, response: string)
    ensures StopsAtFirstHit(kb, Resolve(kb, prompt, response))
  {
    var t1 := Probe(kb, Subjects(prompt));
    var t2 := Probe(kb, PromptTokens(prompt));
    var t3 := Probe(kb, ResponseProperNouns(response));
    if t1.page.None? {
      ChainLookups(kb, t1, t2);
      if t2.page.None? && response != "" {
        ChainLookups(kb, Lookup(None, t1.queried + t2.queried), t3);
      }
    }
  }

  /** When some subject's page exists, the first such subject is the page
      and no title after it, of any tier, is looked up. */
  lemma FirstTierHit(kb: KnowledgeBase, prompt: string, response: string, k: nat)
    requires k < |Subjects(prompt)| && Subjects(prompt)[k] in kb
    requires forall j :: 0 <= j < k ==> Subjects(prompt)[j] !in kb
    ensures Resolve(kb, prompt, response) == Lookup(Some(Subjects(prompt)[k]), Subjects(prompt)[..k + 1])
  {
    var f := FirstHit(kb, Subjects(prompt));
    assert f.Some?;
    assert f.value == k;
  }

  /** The second tier runs only when no subject's page exists; it looks up
      the lower-cased tokens in order and stops at the first that exists. */
  lemma SecondTierHit(kb: KnowledgeBase, prompt: string, response: string, k: nat)
    requires forall j :: 0 <= j < |Subjects(prompt)| ==> Subjects(prompt)[j] !in kb
    requires k < |PromptTokens(prompt)| && PromptTokens(prompt)[k] in kb
    requires forall j :: 0 <= j < k ==> PromptTokens(prompt)[j] !in kb
    ensures Resolve(kb, prompt, response) ==
              Lookup(Some(PromptTokens(prompt)[k]), Subjects(prompt) + PromptTokens(prompt)[..k + 1])
  {
    assert FirstHit(kb, Subjects(prompt)).None?;
    var f := FirstHit(kb, PromptTokens(prompt));
    assert f.Some?;
    assert f.value == k;
  }

  /** The third tier runs only when the first two found nothing and the
      response is not empty; it looks up the response's proper nouns in
      order. With an empty response nothing beyond the second tier is
      looked up and no page is found. */
  lemma ThirdTier(kb: KnowledgeBase, prompt: string, response: string)
    requires forall j :: 0 <= j < |Subjects(prompt)| ==> Subjects(prompt)[j] !in kb
    requires forall j :: 0 <= j < |PromptTokens(prompt)| ==> PromptTokens(prompt)[j] !in kb
    ensures response == "" ==>
              Resolve(kb, prompt, response) == Lookup(None, Subjects(prompt) + PromptTokens(prompt))
    ensures response != "" ==>
              Resolve(kb, prompt, response) ==
              Lookup(Probe(kb, ResponseProperNouns(response)).page,
                     Subjects(prompt) + PromptTokens(prompt) + Probe(kb, ResponseProperNouns(response)).queried)
  {
    assert FirstHit(kb, Subjects(prompt)).None?;
    assert FirstHit(kb, PromptTokens(prompt)).None?;
  }

  /** The first tier's lookups come first: whatever the later tiers do, the
      titles looked up start with those of the first tier. */
  lemma {:induction false} ResolveStartsWithFirstTier(kb: KnowledgeBase, prompt: string, response: string)
    ensures Probe(kb, Subjects(prompt)).queried <= Resolve(kb, prompt, response).queried
  {
    TiersStartWithFirst(kb, Subjects(prompt), PromptTokens(prompt), ResponseProperNouns(response), response != "");
  }

  lemma TiersStartWithFirst(kb: KnowledgeBase, first: seq<string>, second: seq<string>, nouns: seq<string>, third: bool)
    ensures Probe(kb, first).queried <= Tiers(kb, first, second, nouns, third).queried
  {
    var t1 := Probe(kb, first);
    if t1.page.None? {
      var t2, t3 := Probe(kb, second), Probe(kb, nouns);
      var later := if t2.page.Some? || !third then t2.queried else t2.queried + t3.queried;
      assert Tiers(kb, first, second, nouns, third).queried == t1.queried + later;
      PrefixOfAppend(t1.queried, later);
    }
  }

  lemma PrefixOfAppend(a: seq<string>, b: seq<string>)
    ensures a <= a + b
  {
    assert (a + b)[..|a|] == a;
  }

  /** The verdict is grounded exactly when there are subjects, some tier
      resolves a page, and the response shares at least two words with that
      page's summary; in particular no page means not grounded. */
  lemma GroundedIff(kb: KnowledgeBase, prompt: string, response: string)
    ensures Verify(kb, prompt, response).grounded <==>
              && Subjects(prompt) != []
              && Resolve(kb, prompt, response).page.Some?
              && |SharedWords(response, kb[Resolve(kb, prompt, response).page.value])| >= 2
  {
  }

  /** A word match in a lower-cased text is a non-empty run of lower-case
      word characters. */
  lemma LowerWordMatch(lower: string, a: nat, b: nat)
    requires WordMatch(lower, a, b)
    requires forall m :: 0 <= m < |lower| ==> !IsUpper(lower[m])
    ensures lower[a..b] != [] && forall c :: c in lower[a..b] ==> IsWordChar(c) && !IsUpper(c)
  {
    assert forall m :: 0 <= m < b - a ==> lower[a..b][m] == lower[a + m];
  }

  /** Every `\w+` token of a lower-cased text is a non-empty run of
      lower-case word characters. */
  lemma LowerTokensAreLowerWords(text: string)
    ensures forall k :: 0 <= k < |FindAll(WordToken, LowerStr(text))| ==>
              LowerWord(FindAll(WordToken, LowerStr(text))[k])
  {
    var lower := LowerStr(text);
    var spans := Scan(WordToken, lower, 0);
    var words := FindAll(WordToken, lower);
    forall k | 0 <= k < |words|
      ensures LowerWord(words[k])
    {
      LowerWordMatch(lower, spans[k].start, spans[k].end);
    }
  }

  /** w is the text of a `\b\w+\b` match in s. */
  predicate TokenOf(s: string, w: string)
  {
    exists a: nat, b: nat :: a <= b <= |s| && WordMatch(s, a, b) && w == s[a..b]
  }

  /** Each element of a word set is a `\b\w+\b` match of the lower-cased text. */
  lemma WordSetSound(text: string, w: string)
    requires w in WordSet(text)
    ensures TokenOf(LowerStr(text), w)
  {
    var lower := LowerStr(text);
    var spans := Scan(WordToken, lower, 0);
    var words := FindAll(WordToken, lower);
    var k :| 0 <= k < |words| && words[k] == w;
    assert WordMatch(lower, spans[k].start, spans[k].end);
  }

  /** Each `\b\w+\b` match of the lower-cased text is in the word set: the
      scan covers its start with a span, and the word boundaries on both
      sides make that span exactly the match. */
  lemma WordSetComplete(text: string, a: nat, b: nat)
    requires WordMatch(LowerStr(text), a, b)
    ensures LowerStr(text)[a..b] in WordSet(text)
  {
    var lower := LowerStr(text);
    var spans := Scan(WordToken, lower, 0);
    var words := FindAll(WordToken, lower);
    assert Matches(WordToken, lower, a, b);
    ScanIsLeftmost(WordToken, lower, a);
    var k :| 0 <= k < |spans| && spans[k].start <= a < spans[k].end;
    var st, en := spans[k].start, spans[k].end;
    assert WordMatch(lower, st, en);
    assert WordAt(lower, a) && !WordAt(lower, a - 1);
    assert st == a;
    assert WordAt(lower, b - 1) && !WordAt(lower, b);
    assert WordAt(lower, en - 1) && !WordAt(lower, en);
    assert en == b;
    assert words[k] == lower[a..b];
  }

  /** The word set of a text is exactly the set of `\b\w+\b` matches of its
      lower-case form, and each of them is a non-empty run of lower-case
      word characters. */
  lemma WordSetHoldsLowerWords(text: string)
    ensures forall w :: w in WordSet(text) ==>
              w != [] && forall c :: c in w ==> IsWordChar(c) && !IsUpper(c)
    ensures forall w :: w in WordSet(text) <==>
              TokenOf(LowerStr(text), w)
  {
    var lower := LowerStr(text);
    forall w | w in WordSet(text)
      ensures TokenOf(lower, w)
    {
      WordSetSound(text, w);
    }
    forall w | TokenOf(lower, w)
      ensures w in WordSet(text)
    {
      var a: nat, b: nat :| WordMatch(lower, a, b) && w == lower[a..b];
      WordSetComplete(text, a, b);
    }
  }

  /** Every word of W is a `\b\w+\b` token of both lower-cased texts. */
  ghost predicate TokensOfBoth(W: set<string>, a: string, b: string)
  {
    forall w :: w in W ==> TokenOf(LowerStr(a), w) && TokenOf(LowerStr(b), w)
  }

  /** Every shared word is a token of both texts. */
  lemma SharedAreTokensOfBoth(response: string, summary: string)
    ensures TokensOfBoth(SharedWords(response, summary), response, summary)
  {
    forall w | w in SharedWords(response, summary)
      ensures TokenOf(LowerStr(response), w) && TokenOf(LowerStr(summary), w)
    {
      WordSetSound(response, w);
      WordSetSound(summary, w);
    }
  }

  /** Every set of tokens of both texts lies within the shared words. */
  lemma TokensOfBothAreShared(W: set<string>, response: string, summary: string)
    requires TokensOfBoth(W, response, summary)
    ensures W <= SharedWords(response, summary)
  {
    forall w | w in W
      ensures w in SharedWords(response, summary)
    {
      var a: nat, b: nat :| a <= b <= |LowerStr(response)| && WordMatch(LowerStr(response), a, b) && w == LowerStr(response)[a..b];
      WordSetComplete(response, a, b);
      var c: nat, d: nat :| c <= d <= |LowerStr(summary)| && WordMatch(LowerStr(summary), c, d) && w == LowerStr(summary)[c..d];
      WordSetComplete(summary, c, d);
    }
  }

  lemma SubsetSize(a: set<string>, b: set<string>)
    requires a <= b
    ensures |a| <= |b|
  {
    assert b == a + (b - a);
  }

  /** The overlap rule, stated on the texts' tokens: a lookup scores as
      grounded exactly when it found a page and there are at least n words
      that are each a token of both the lower-cased reply and the
      lower-cased summary. */
  lemma ScoreIsTokenOverlap(kb: KnowledgeBase, r: Lookup, response: string, n: nat)
    requires r.page.Some? ==> r.page.value in kb && r.queried != [] && r.page.value == r.queried[|r.queried| - 1]
    ensures Score(kb, r, response, n).grounded <==>
              r.page.Some? && exists W: set<string> :: |W| >= n && TokensOfBoth(W, response, kb[r.page.value])
  {
    if r.page.Some? {
      var summary := kb[r.page.value];
      var shared := SharedWords(response, summary);
      SharedAreTokensOfBoth(response, summary);
      if W: set<string> :| |W| >= n && TokensOfBoth(W, response, summary) {
        TokensOfBothAreShared(W, response, summary);
        SubsetSize(W, shared);
      }
    }
  }

  /** Scoring ignores case: the word set of a text is that of its lower-case form. */
  lemma WordSetIgnoresCase(text: string)
    ensures WordSet(LowerStr(text)) == WordSet(text)
  {
    assert LowerStr(LowerStr(text)) == LowerStr(text);
  }

  /** An empty response has no words and is never grounded. */
  lemma EmptyResponseNotGrounded(kb: KnowledgeBase, prompt: string)
    ensures !Verify(kb, prompt, "").grounded
  {
    assert WordSet("") == {};
  }
}
