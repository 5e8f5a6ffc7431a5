/**
 * The older `verify_factual` written inline in app.py: the same subject
 * extraction and scoring as hallucination_utils.py, but only the first
 * lookup tier and a stricter threshold (more than two shared words).
 */
module InlineVerifier {
  import opened Wrappers
  import opened Verifier

  /** The inline version's verdict and the titles it looked up; its
      threshold `len(common_words) > 2` is at least three shared words. */
  function VerifyInline(kb: KnowledgeBase, prompt: string, response: string): (o: Outcome)
    ensures Subjects(prompt) == [] ==> o == Outcome(false, [])
    ensures o.queried <= Subjects(prompt)
    ensures o.grounded <==>
              FirstHit(kb, Subjects(prompt)).Some? &&
              SharesWith(kb, Subjects(prompt)[FirstHit(kb, Subjects(prompt)).value], response, 3)
  {
    if Subjects(prompt) == [] then Outcome(false, [])
    else
      Score(kb, Probe(kb, Subjects(prompt)), response, 3)
  }

  /** A grounded verdict rests on the last title looked up. */
  lemma InlineGroundedOnLastQueried(kb: KnowledgeBase, prompt: string, response: string)
    ensures var o := VerifyInline(kb, prompt, response);
            o.grounded ==> o.queried != [] && SharesWith(kb, o.queried[|o.queried| - 1], response, 3)
  {
    var o := VerifyInline(kb, prompt, response);
    if o.grounded {
      var l := Probe(kb, Subjects(prompt));
      assert o.queried == l.queried;
      assert l.page.value == l.queried[|l.queried| - 1];
    }
  }

  /** app.py's verify_factual, step by step. */
  method VerifyFactualInline(kb: KnowledgeBase, prompt: string, response: string)
    returns (grounded: bool, queried: seq<string>)
    ensures Outcome(grounded, queried) == VerifyInline(kb, prompt, response)
  {
    var subjects := Subjects(prompt);
    if subjects == [] {
      return false, [];
    }
    var page;
    page, queried := TryTitles(kb, subjects);
    if page.None? {
      return false, queried;
    }
    var summary := kb[page.value];
    grounded := |SharedWords(response, summary)| > 2;
  }

  /** An empty subject list gives not grounded before any lookup. */
  lemma InlineNoSubjectNoLookup(kb: KnowledgeBase, prompt: string, response: string)
    requires forall w :: w in Regex.FindAll(Regex.Subject, prompt) ==> Chars.LowerStr(w) in IGNORE_LIST
    ensures VerifyInline(kb, prompt, response) == Outcome(false, [])
  {
    NoSubjectsIffAllIgnored(prompt);
  }

  /** There is no fallback: when no subject's page exists the verdict is
      not grounded, after looking up every subject and nothing else, even
      where the three-tier version would still find a page. */
  lemma InlineHasNoFallback(kb: KnowledgeBase, prompt: string, response: string)
    requires forall j :: 0 <= j < |Subjects(prompt)| ==> Subjects(prompt)[j] !in kb
    ensures VerifyInline(kb, prompt, response) == Outcome(false, Subjects(prompt))
  {
    assert FirstHit(kb, Subjects(prompt)).None?;
  }

  /** The inline version looks up a prefix of what the three-tier version
      looks up: the same first-tier titles, and nothing after them. */
  lemma {:induction false} InlineQueriesPrefix(kb: KnowledgeBase, prompt: string, response: string)
    ensures VerifyInline(kb, prompt, response).queried <= Verify(kb, prompt, response).queried
  {
    ResolveStartsWithFirstTier(kb, prompt, response);
  }

  /** The inline version is grounded only where the three-tier version is. */
  lemma InlineGroundedImpliesGrounded(kb: KnowledgeBase, prompt: string, response: string)
    ensures VerifyInline(kb, prompt, response).grounded ==> Verify(kb, prompt, response).grounded
  {
  }

  /** The thresholds differ at exactly two shared words: with a first-tier
      page whose summary shares exactly two words with the response, the
      three-tier version says grounded and the inline one does not. */
  lemma ThresholdBoundary(kb: KnowledgeBase, prompt: string, response: string)
    requires Subjects(prompt) != []
    requires Probe(kb, Subjects(prompt)).page.Some?
    requires |SharedWords(response, kb[Probe(kb, Subjects(prompt)).page.value])| == 2
    ensures Verify(kb, prompt, response).grounded
    ensures !VerifyInline(kb, prompt, response).grounded
  {
  }
}
