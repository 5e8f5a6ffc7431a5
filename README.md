# Hallucination evaluator: factual verifier, model-reply extraction and scoring

The evaluator sends a list of test prompts to a hosted language model. It labels each reply as grounded or hallucinated.

- **Factual verifier.** It extracts candidate subjects from the prompt with a regular expression and drops question words. It then resolves an encyclopedia page through up to three tiers, stopping at the first page that exists:
  1. the prompt's subjects;
  2. failing that, the prompt's lower-cased word tokens;
  3. failing that, and only for a non-empty reply, the reply's proper nouns.

  The reply is grounded when its lower-cased word set shares at least two words with the page summary.
- **Inline verifier.** The application file defines its own copy of the verifier, and that copy is the one it calls on each answer. It has only the first tier and a stricter threshold: more than two shared words.
- **Reply extraction.** The text of the model's reply is pulled out of the decoded JSON body by a list of heuristics.
- **Prompt list and count.** The prompts are read from a text box: one per line, stripped, blank lines dropped. The number of hallucinated rows is counted for the summary.

The project has these modules:

- `Chars` (chars.dfy): ASCII character classes, as they apply to `str.lower`, `\w` and `\s`.
- `Regex` (regex.dfy):
  - The three patterns passed to `re.findall`, with a declarative language for each (`Matches`).
  - The engine's match at one position (`MatchAt`), proved to be the longest match there.
  - The `findall` scan (`Scan`), proved to return exactly the leftmost non-overlapping matches.
- `Verifier` (verifier.dfy): `verify_factual` of hallucination_utils.py.
  - The encyclopedia is a map from the title of every existing page to its summary.
  - Each run also returns the titles it looked up, in order. This makes "stops at the first hit" and "later tiers are not tried" statable.
- `InlineVerifier` (inline_verifier.dfy): the inline `verify_factual` of app.py.
- `GeminiReply` (gemini_reply.dfy): the text extraction of `ask_gemini`, over a JSON value datatype.
- `Evaluation` (evaluation.dfy): the prompt list and the hallucinated count.
- `Wrappers` (wrappers.dfy): `Option`.

Every `for` loop of the modelled code, and each function built around those loops, is a method proved equal to a specification function:

| method | code it models |
|---|---|
| `TryTitles` | one tier's lookup loop |
| `VerifyFactual`, `VerifyFactualInline` | the two verifiers, tier by tier |
| `CollectPartText`, `CollectPartTexts` | the loop over a content object's `parts` list |
| `CollectItemTexts`, `CollectInnerTexts`, `CollectContentTexts` | the nested loops over a content list |
| `FindStringField` | the loops over candidate and top-level keys |
| `ExtractText` | the extraction in `ask_gemini` |

The properties are proved on the specification functions.

## Model

| member | source | states |
|---|---|---|
| Chars.Lower | hallucination_utils.py:55-56 | `str.lower` on one ASCII character: a capital becomes the letter 32 code points above it, its lower-case form; every other character is unchanged |
| Chars.LowerStr | hallucination_utils.py:55-56 | `str.lower` on ASCII keeps the length and lower-cases each character; nothing else changes |
| Regex.MatchWordIsLongest | hallucination_utils.py:36 | what `\b\w+\b` matches at a position is a match, and no match there is longer |
| Regex.MatchCapPhraseIsLongest | hallucination_utils.py:18 | the capitalised-phrase alternative's match is a run of capitalised words joined by single whitespace, bounded by `\b`; no such phrase at that position is longer |
| Regex.MatchLongWordIsLongest | hallucination_utils.py:18 | the `\b[a-zA-Z]{4,}\b` alternative's match is a bounded letter run of length at least four; none is longer |
| Regex.CapPhraseCoversLongWord | hallucination_utils.py:18 | whenever the first alternative matches, it reaches at least as far as any match of the second, so trying the first alternative first loses nothing |
| Regex.MatchProperNounIsLongest | hallucination_utils.py:45 | the proper-noun match (capital plus at least one lower-case letter per word, ending at `\b`) is a match, including after the engine backtracks one word; none is longer |
| Regex.MatchAtIsLongestMatch | hallucination_utils.py:18 | for each of the three patterns, the engine's answer at a position is a match of the pattern's language and the longest one there |
| Regex.MatchAt | hallucination_utils.py:18 | the engine's match at a position, when there is one, ends strictly after that position and within the text, and it is a match of the pattern's language |
| Regex.MatchTable | hallucination_utils.py:18 | the table of per-position attempts has one entry per position, and every match ends strictly after it starts |
| Regex.Scan | hallucination_utils.py:18 | every returned span lies within the text from the scan's start and is the engine's match at its start, and the spans are in order and do not overlap |
| Regex.FindAll | hallucination_utils.py:18 | `findall` returns one string per span of the scan, each the text of its span and a match of the pattern there |
| Regex.ScanCoversEveryMatch | hallucination_utils.py:18 | every position where the pattern matches lies inside some returned span |
| Regex.ScanIsLeftmost | hallucination_utils.py:18 | each returned span is a longest match, and every position where any match starts is covered by a returned span |
| Verifier.KeepSubjects | hallucination_utils.py:21 | a span is kept exactly when it was found and its lower-case text is not in the ignore list |
| Verifier.KeepSubjectsOrdered | hallucination_utils.py:21 | filtering keeps the matches' left-to-right order |
| Verifier.SubjectSpans | hallucination_utils.py:18-21 | a span is a subject span exactly when the scan returned it and its lower-case text is not ignored; every span lies within the prompt |
| Verifier.Subjects | hallucination_utils.py:18-21 | one subject per subject span, and no subject lower-cases into the ignore list |
| Verifier.SubjectsAreKeptMatches | hallucination_utils.py:18-21 | the subjects are exactly the non-ignored `findall` matches of the subject pattern, as text of the prompt, in order |
| Verifier.NoSubjectsIffAllIgnored | hallucination_utils.py:21-23 | there are no subjects if and only if every match lower-cases into the ignore list |
| Verifier.NoSubjectNoLookup | hallucination_utils.py:23-24 | when every match is ignored, the verdict is not grounded and no page is looked up |
| Verifier.PromptTokens | hallucination_utils.py:36-38 | the second tier's titles are the `\b\w+\b` tokens of the prompt, one for one and in order, each lower-cased, so none holds a capital |
| Verifier.ResponseProperNouns | hallucination_utils.py:45 | every proper noun of the reply starts with a capital followed by a lower-case letter |
| Verifier.ProperNounsCapitalised | hallucination_utils.py:45 | every `findall` result of the proper-noun pattern is at least two characters long, a capital then a lower-case letter |
| Verifier.FirstHit | hallucination_utils.py:28-32 | the first index whose title exists; every earlier title is missing; none means no title exists |
| Verifier.Probe | hallucination_utils.py:28-32 | one tier looks up a prefix of its titles, stops at the first existing page and returns it, and looks up all titles when none exists |
| Verifier.TryTitles | hallucination_utils.py:27-32 | the lookup loop returns the page and the titles looked up that `Probe` specifies |
| Verifier.Tiers | hallucination_utils.py:26-50 | a found page exists and is the last title looked up; with no page, every title of every tier tried was looked up, in tier order, and none exists |
| Verifier.ChainLookups | hallucination_utils.py:34-50 | a missed tier followed by a tier that stops at its first hit still stops at the first hit overall |
| Verifier.ResolveStopsAtFirstHit | hallucination_utils.py:26-50 | across all three tiers, every title looked up before the last is missing; a page is found exactly when the last title looked up exists; it is that page |
| Verifier.Resolve | hallucination_utils.py:26-50 | a resolved page always exists in the encyclopedia |
| Verifier.FirstTierHit | hallucination_utils.py:27-32 | when subject k is the first existing one, that page is used after looking up subjects 0..k only |
| Verifier.SecondTierHit | hallucination_utils.py:34-41 | when no subject exists and token k is the first existing lower-cased token, that page is used; all subjects and then tokens 0..k are looked up |
| Verifier.ThirdTier | hallucination_utils.py:43-50 | when both earlier tiers miss, an empty reply stops with no page; otherwise the reply's proper nouns are looked up with the same first-hit rule |
| Verifier.ResolveStartsWithFirstTier | hallucination_utils.py:26-50 | the first tier's lookups are a prefix of all lookups |
| Verifier.ScoreIsTokenOverlap | hallucination_utils.py:52-64 | a lookup scores as grounded exactly when it found a page and some set of at least the threshold number of words consists of `\b\w+\b` tokens of both the lower-cased reply and the lower-cased summary |
| Verifier.SharedAreTokensOfBoth | hallucination_utils.py:59-61 | every common word is a token of both lower-cased texts |
| Verifier.TokensOfBothAreShared | hallucination_utils.py:59-61 | every set of words that are tokens of both lower-cased texts lies within the common words |
| Verifier.Verify | hallucination_utils.py:10-64 | with no subjects, not grounded and nothing looked up; when grounded, the last title looked up is an existing page whose summary shares at least two words with the reply |
| Verifier.GroundedIff | hallucination_utils.py:52-64 | grounded if and only if there are subjects, a page resolves, and reply and summary share at least two words |
| Verifier.WordSet | hallucination_utils.py:59-60 | every element of a word set is a non-empty run of word characters with no capital |
| Verifier.WordSetSound | hallucination_utils.py:59-60 | every element of a word set is the text of a `\b\w+\b` match in the lower-cased text |
| Verifier.WordSetComplete | hallucination_utils.py:59-60 | the text of every `\b\w+\b` match in the lower-cased text is in the word set |
| Verifier.WordSetHoldsLowerWords | hallucination_utils.py:59-60 | a word is in the word set if and only if it is the text of a `\b\w+\b` match in the lower-cased text; every element is a non-empty run of word characters with no capital |
| Verifier.SharedWords | hallucination_utils.py:59-61 | an empty reply shares no words with any summary |
| Verifier.WordSetIgnoresCase | hallucination_utils.py:55-60 | lower-casing the text first does not change its word set |
| Verifier.EmptyResponseNotGrounded | hallucination_utils.py:44-64 | an empty reply is never grounded |
| Verifier.VerifyFactual | hallucination_utils.py:10-64 | the step-by-step verifier returns the verdict and the lookups of `Verify` |
| InlineVerifier.VerifyInline | app.py:167-198 | with no subjects, not grounded and nothing looked up; the lookups are a prefix of the subjects; grounded if and only if some subject's page exists and the first such page's summary shares at least three words with the reply |
| InlineVerifier.InlineGroundedOnLastQueried | app.py:178-198 | when grounded, the last title looked up is an existing page whose summary shares at least three words with the reply |
| InlineVerifier.VerifyFactualInline | app.py:167-198 | the inline verifier returns the verdict and the lookups of `VerifyInline` |
| InlineVerifier.InlineNoSubjectNoLookup | app.py:172-176 | when every match is ignored, not grounded, and nothing is looked up |
| InlineVerifier.InlineHasNoFallback | app.py:178-187 | when no subject's page exists, not grounded, after looking up exactly the subjects |
| InlineVerifier.InlineQueriesPrefix | app.py:178-184 | the inline version's lookups are a prefix of the three-tier version's |
| InlineVerifier.InlineGroundedImpliesGrounded | app.py:193-198 | inline grounded implies three-tier grounded |
| InlineVerifier.ThresholdBoundary | app.py:198 | with a first-tier page sharing exactly two words, the three-tier version says grounded and the inline one does not |
| GeminiReply.FirstStringKey | app.py:53-55 | the first key in order whose field is a string; every earlier key is not; none means no key is |
| GeminiReply.FindStringField | app.py:85-87 | the key loop returns `FirstStringKey` |
| GeminiReply.Join | app.py:69 | joining succeeds exactly when every collected element is a string |
| GeminiReply.JoinReply | app.py:69 | `"".join(texts)` at app.py:69 and app.py:82: the joined text, or the `JoinError` reply for the `TypeError`; its behaviour is stated by `JoinErrorIff` and, through `Join`, by the round-trip lemmas |
| GeminiReply.JoinErrorIff | app.py:69 | the join raises exactly when some collected element is not a string |
| GeminiReply.PartTexts | app.py:62-67 | a `parts` list yields at most one text per item |
| GeminiReply.InnerTexts | app.py:76-78 | the texts of the `{"text": ...}` parts inside one content-list item, at most one per part; `InnerTextsOfTextParts` states that such parts yield their texts in order |
| GeminiReply.ContentTexts | app.py:72-80 | the texts collected from a content list, in order; `ContentTextsAppend` states that it goes item by item, `ContentTextsOfStrings` that string items pass through, and `NestedReplyRoundTrip` that a `parts` item yields its texts |
| GeminiReply.PartTextsOfStrings | app.py:62-67 | a `parts` list of strings is collected unchanged |
| GeminiReply.ContentTextsOfStrings | app.py:72-80 | a content list of strings is collected unchanged |
| GeminiReply.InnerTextsOfTextParts | app.py:75-78 | the parts `{"text": t}` inside a content-list item yield their texts, in order |
| GeminiReply.FirstCandidate | app.py:47-51 | the first candidate: `candidates`, or `outputs` when `candidates` is falsy, then its first element when that is a non-empty list whose first element is an object; `CandidatesBeforeOutputs` states the precedence and `TopLevelFallback` what happens when there is none |
| GeminiReply.FromContentObject | app.py:58-69 | a content object never gives the stringified body; it gives nothing exactly when its `parts` (or `text`) is not a list or yields no texts |
| GeminiReply.FromContentList | app.py:71-82 | a content list never gives the stringified body; it gives nothing exactly when it yields no texts |
| GeminiReply.FromCandidate | app.py:51-82 | a candidate never gives the stringified body; one with a string field among `output`, `text`, `response` gives text; when it gives nothing, it has no such field, and a list `content` yields no texts |
| GeminiReply.Extract | app.py:44-89 | a stringified reply is the body itself, and for an object body none of the top-level keys held a string; a join error needs an object body with a first candidate |
| GeminiReply.CollectPartTexts | app.py:62-67 | the parts loop collects `PartTexts` |
| GeminiReply.PartTextsAppend | app.py:62-67 | collecting over concatenated parts concatenates the collections |
| GeminiReply.CollectContentTexts | app.py:72-80 | the nested content loop collects `ContentTexts` |
| GeminiReply.ContentTextsAppend | app.py:72-80 | the same for the content-list loop |
| GeminiReply.ExtractText | app.py:44-89 | the extraction returns `Extract` |
| GeminiReply.RestReplyRoundTrip | app.py:57-69 | a REST-shaped reply, `candidates[0].content.parts[*].text`, yields the concatenation of its texts, or the stringified body when there are none |
| GeminiReply.ListReplyRoundTrip | app.py:71-82 | a candidate whose content is a non-empty list of strings yields their concatenation |
| GeminiReply.NestedReplyRoundTrip | app.py:71-82 | a candidate whose content is a list holding one item `{"parts": [{"text": t}, ...]}`, with at least one part, yields the concatenation of the texts |
| GeminiReply.CandidateStringFieldWins | app.py:52-55 | a string field of the first candidate, the first of `output`, `text`, `response` present, is returned verbatim |
| GeminiReply.CandidatesBeforeOutputs | app.py:47 | a truthy `candidates` makes `outputs` irrelevant; otherwise `candidates` is irrelevant |
| GeminiReply.TopLevelFallback | app.py:84-89 | with no candidate, or a first candidate that yields nothing, the first top-level string among `output`, `text`, `result`, `response` is returned; failing that, the stringified body |
| GeminiReply.NonObjectStringified | app.py:45 | a body that is not an object is returned stringified |
| Evaluation.SplitLines | app.py:164 | `split("\n")` gives at least one piece, and no piece holds a newline |
| Evaluation.JoinLines | app.py:161 | the newline-joined text starts with the first line |
| Evaluation.JoinSplitLines | app.py:164 | joining the pieces with newlines gives back the text |
| Evaluation.SplitJoinLines | app.py:161-164 | splitting newline-joined newline-free lines gives back the lines |
| Evaluation.Strip | app.py:164 | `strip()` is no longer than its input, and a non-empty result neither starts nor ends with whitespace |
| Evaluation.StripShape | app.py:164 | `strip()` returns a slice with only whitespace before and after it, and neither first nor last character is whitespace |
| Evaluation.StripFixes | app.py:164 | a text that neither starts nor ends with whitespace is unchanged by strip |
| Evaluation.StripEmptyIff | app.py:164 | strip gives the empty string exactly for all-whitespace text |
| Evaluation.KeepStripped | app.py:164 | the filter keeps at most one text per line, and every kept text is non-empty and neither starts nor ends with whitespace |
| Evaluation.PromptList | app.py:164 | at most one prompt per line of the text box, and every prompt is non-empty, stripped and newline-free |
| Evaluation.KeepStrippedAppend | app.py:164 | the prompt filter distributes over concatenated lines |
| Evaluation.KeepStrippedOne | app.py:164 | one line yields its stripped text, or nothing when that is blank |
| Evaluation.KeepStrippedOfPrompts | app.py:164 | lines that are already prompts are kept as they are |
| Evaluation.PromptListOfJoined | app.py:161-164 | a non-empty list of prompts joined by newlines, as the default text box shows them, gives the same prompts back |
| Evaluation.CountHallucinated | app.py:296 | the count is the number of occurrences of `Hallucinated` among the labels, at most the row count |
| Evaluation.CountIsRows | app.py:296 | the count equals the number of rows whose label is `Hallucinated` |
| Evaluation.CountAppend | app.py:295-296 | counts of concatenated label columns add up |

## Left out

- The web user interface: page layout, forms, session state, progress display, tables, charts and CSV download (app.py:91-145, 158-163 and 200-314). The prompt list and the hallucinated count are modelled.
- The API-key and `requests` availability checks (app.py:9-14, 108-137): they are configuration read from the environment.
- Demo mode's canned answers, including the floating-point percentage answer (app.py:213-232), and the `Error: ...` answer used when the call raises (app.py:236-237): the verifier takes the answer as an arbitrary string.
- The default auto-verdict-to-label mapping and the human override (app.py:239-284): the label column is taken as given.
- The success-rate arithmetic (app.py:297, 303): floating point, display only.
- The HTTP request, status check, error string and JSON decoding of `ask_gemini` (app.py:24-42).
  - These are I/O.
  - The model starts from the decoded JSON value.
  - The raw-text fallback for an undecodable body is not modelled.
- The encyclopedia client (`wikipediaapi`) becomes an oracle map from existing titles to summaries.
  - `page.exists()` is membership in the map, and `page.summary` is the mapped value.
  - A found page is treated as truthy in `if not page`, as the client's page objects are.
  - Title normalisation done by the remote service (case of the first letter, redirects) is part of the oracle.
- Lookup failures: `wiki.page` and `exists()` have no handler around them (hallucination_utils.py:29-30, 38-39, 47-48), so a lookup error would propagate; the oracle is total, so the model has no failure path.
- Unicode: in the model, `\w`, `\s`, `\b`, `[A-Z]`, `[a-z]`, `str.lower` and `str.strip` act on ASCII characters only; non-ASCII letters and whitespace are not classified as Python classifies them.
- `str(j)`: the text produced for the stringified body is not rendered. `Stringified(j)` carries the value that would be printed.
- GeminiReply.CandidatesBeforeOutputs: compares replies with `SameText`, which equates two stringified bodies. The removed key changes the printed form of `str(j)` but not which branch is taken.
- GeminiReply.JoinReply: the `TypeError` that `"".join` raises on a non-string element is raised by `ask_gemini`, and the caller turns it into an error answer (app.py:236-237); the model returns the `JoinError` reply instead.
- JSON numbers are one `real`. Python's distinction between int, float and bool does not affect any branch here, since only truthiness and `isinstance(..., str/dict/list)` are tested.
- test.py (a smoke script) and tests/test_utils.py: their cases depend on the live encyclopedia's contents, which the oracle leaves open.
- Evaluation.PromptListOfJoined: stated for a non-empty prompt list, which the default list is. For an empty list, `"\n".join([])` is the empty text and gives no prompts.
