/**
 * The text extraction at the end of `ask_gemini` in app.py: given the
 * decoded JSON reply of the Gemini REST endpoint, find the generated text
 * by trying a fixed list of response shapes in a fixed order. The HTTP call
 * and the JSON decoding before it are not part of this model.
 */
module GeminiReply {
  import opened Wrappers

  /** A decoded JSON value. */
  datatype Json =
    | Null
    | Bool(b: bool)
    | Num(n: real)
    | Str(s: string)
    | List(items: seq<Json>)
    | Obj(fields: map<string, Json>)

  /** Python's truth value of a decoded JSON value. */
  predicate Truthy(j: Json)
  {
    match j
    case Null => false
    case Bool(b) => b
    case Num(n) => n != 0.0
    case Str(s) => s != ""
    case List(items) => items != []
    case Obj(fields) => fields != map[]
  }

  /** `d.get(key)`: a missing key reads as None. */
  function Get(m: map<string, Json>, key: string): Json
  {
    if key in m then m[key] else Null
  }

  /** `a or b`. */
  function Or(a: Json, b: Json): Json
  {
    if Truthy(a) then a else b
  }

  /** What ask_gemini hands back once the reply is decoded: a text; `str(j)`
      of the whole value; or the TypeError that `"".join` raises when a
      collected text is not a string. */
  datatype Reply = Text(text: string) | Stringified(value: Json) | JoinError

  /** Fields of the first candidate read as text, in this order. */
  const CANDIDATE_KEYS: seq<string> := ["output", "text", "response"]

  /** Top-level fields read as text, in this order. */
  const TOP_LEVEL_KEYS: seq<string> := ["output", "text", "result", "response"]

  predicate IsStringField(m: map<string, Json>, key: string)
  {
    key in m && m[key].Str?
  }

  /** The index of the first key whose field is a string. */
  function FirstStringKey(m: map<string, Json>, keys: seq<string>): (r: Option<nat>)
    ensures r.Some? ==> r.value < |keys| && IsStringField(m, keys[r.value])
    ensures r.Some? ==> forall j :: 0 <= j < r.value ==> !IsStringField(m, keys[j])
    ensures r.None? ==> forall j :: 0 <= j < |keys| ==> !IsStringField(m, keys[j])
  {
    if keys == [] then None
    else if IsStringField(m, keys[0]) then Some(0)
    else
      match FirstStringKey(m, keys[1..])
      case Some(k) => Some(k + 1)
      case None => None
  }

  /** Every element is a string. */
  predicate AllStrings(items: seq<Json>)
  {
    forall k :: 0 <= k < |items| ==> items[k].Str?
  }

  /** What one item of a content object's `parts` list contributes: the
      `text` of an object item, or a string item itself. */
  function PartText(item: Json): seq<Json>
  {
    if item.Obj? && "text" in item.fields then [item.fields["text"]]
    else if item.Str? then [item]
    else []
  }

  /** The texts collected from a content object's `parts` list, in order. */
  function PartTexts(parts: seq<Json>): (r: seq<Json>)
    ensures |r| <= |parts|
  {
    if parts == [] then [] else PartTexts(parts[..|parts| - 1]) + PartText(parts[|parts| - 1])
  }

  /** What one part inside an item of a content list contributes: only the
      `text` of an object part. */
  function InnerText(part: Json): seq<Json>
  {
    if part.Obj? && "text" in part.fields then [part.fields["text"]] else []
  }

  function InnerTexts(parts: seq<Json>): (r: seq<Json>)
    ensures |r| <= |parts|
  {
    if parts == [] then [] else InnerTexts(parts[..|parts| - 1]) + InnerText(parts[|parts| - 1])
  }

  /** What one item of a content list contributes: the texts of its `parts`
      list when it is an object holding one, or a string item itself. */
  function ItemTexts(item: Json): seq<Json>
  {
    if item.Obj? && "parts" in item.fields && item.fields["parts"].List? then InnerTexts(item.fields["parts"].items)
    else if item.Str? then [item]
    else []
  }

  /** The texts collected from a content list, in order. */
  function ContentTexts(items: seq<Json>): (r: seq<Json>)
  {
    if items == [] then [] else ContentTexts(items[..|items| - 1]) + ItemTexts(items[|items| - 1])
  }

  /** Appending an item appends its texts: the step each loop takes. */
  lemma PartTextsSnoc(parts: seq<Json>, x: Json)
    ensures PartTexts(parts + [x]) == PartTexts(parts) + PartText(x)
  {
    assert (parts + [x])[..|parts|] == parts;
  }

  lemma InnerTextsSnoc(parts: seq<Json>, x: Json)
    ensures InnerTexts(parts + [x]) == InnerTexts(parts) + InnerText(x)
  {
    assert (parts + [x])[..|parts|] == parts;
  }

  lemma ContentTextsSnoc(items: seq<Json>, x: Json)
    ensures ContentTexts(items + [x]) == ContentTexts(items) + ItemTexts(x)
  {
    assert (items + [x])[..|items|] == items;
  }

  /** A `parts` list of strings is collected unchanged. */
  lemma {:induction false} PartTextsOfStrings(parts: seq<Json>)
    requires AllStrings(parts)
    ensures PartTexts(parts) == parts
  {
    if parts != [] {
      var init, x := parts[..|parts| - 1], parts[|parts| - 1];
      assert init + [x] == parts;
      assert AllStrings(init) && x.Str?;
      PartTextsOfStrings(init);
      PartTextsSnoc(init, x);
      assert PartText(x) == [x];
    }
  }

  /** So is a content list of strings. */
  lemma {:induction false} ContentTextsOfStrings(items: seq<Json>)
    requires AllStrings(items)
    ensures ContentTexts(items) == items
  {
    if items != [] {
      var init, x := items[..|items| - 1], items[|items| - 1];
      assert init + [x] == items;
      assert AllStrings(init) && x.Str?;
      ContentTextsOfStrings(init);
      ContentTextsSnoc(init, x);
      assert ItemTexts(x) == [x];
    }
  }

  function Concat(ss: seq<string>): string
  {
    if ss == [] then "" else Concat(ss[..|ss| - 1]) + ss[|ss| - 1]
  }

  /** `"".join(texts)`: the concatenation when every element is a string,
      None where Python raises TypeError. */
  function Join(texts: seq<Json>): (r: Option<string>)
    ensures r.Some? <==> forall k :: 0 <= k < |texts| ==> texts[k].Str?
  {
    if texts == [] then Some("")
    else if !texts[|texts| - 1].Str? then None
    else
      match Join(texts[..|texts| - 1])
      case Some(init) => Some(init + texts[|texts| - 1].s)
      case None => None
  }

  function JoinReply(texts: seq<Json>): Reply
  {
    match Join(texts)
    case Some(s) => Text(s)
    case None => JoinError
  }

  /** `candidates = j.get("candidates") or j.get("outputs")`, and its first
      element when that is a non-empty list whose first element is an object. */
  function FirstCandidate(m: map<string, Json>): Option<map<string, Json>>
  {
    var candidates := Or(Get(m, "candidates"), Get(m, "outputs"));
    if candidates.List? && candidates.items != [] && candidates.items[0].Obj?
    then Some(candidates.items[0].fields)
    else None
  }

  /** The content-object shape: `parts = content.get("parts") or
      content.get("text")`; the joined texts if that is a non-empty list
      contributing some text. */
  function FromContentObject(content: map<string, Json>): (r: Option<Reply>)
    ensures r.Some? ==> !r.value.Stringified?
    ensures var parts := Or(Get(content, "parts"), Get(content, "text"));
            r.None? <==> !parts.List? || PartTexts(parts.items) == []
  {
    var parts := Or(Get(content, "parts"), Get(content, "text"));
    if parts.List? && parts.items != [] && PartTexts(parts.items) != []
    then Some(JoinReply(PartTexts(parts.items)))
    else None
  }

  /** The content-list shape: the joined texts, if the list contributes some. */
  function FromContentList(items: seq<Json>): (r: Option<Reply>)
    ensures r.Some? ==> !r.value.Stringified?
    ensures r.None? <==> ContentTexts(items) == []
  {
    if ContentTexts(items) != [] then Some(JoinReply(ContentTexts(items))) else None
  }

  /** What the first candidate yields, if anything: a string field; else the
      content object (`content`, `output` or `response`, whichever is truthy
      first); else a `content` list. */
  function FromCandidate(cand: map<string, Json>): (r: Option<Reply>)
    ensures r.Some? ==> !r.value.Stringified?
    ensures FirstStringKey(cand, CANDIDATE_KEYS).Some? ==> r.Some? && r.value.Text?
    ensures r.None? ==> FirstStringKey(cand, CANDIDATE_KEYS).None?
    ensures r.None? && Get(cand, "content").List? ==> ContentTexts(Get(cand, "content").items) == []
  {
    match FirstStringKey(cand, CANDIDATE_KEYS)
    case Some(k) => Some(Text(cand[CANDIDATE_KEYS[k]].s))
    case None =>
      var content := Or(Or(Get(cand, "content"), Get(cand, "output")), Get(cand, "response"));
      var fromObject := if content.Obj? then FromContentObject(content.fields) else None;
      if fromObject.Some? then fromObject
      else if Get(cand, "content").List? then FromContentList(Get(cand, "content").items)
      else None
  }

  /** The reply ask_gemini returns for the decoded value j. */
  function Extract(j: Json): (r: Reply)
    ensures r.Stringified? ==> r.value == j
    ensures r.Stringified? && j.Obj? ==> FirstStringKey(j.fields, TOP_LEVEL_KEYS).None?
    ensures r == JoinError ==> j.Obj? && FirstCandidate(j.fields).Some?
  {
    if !j.Obj? then Stringified(j)
    else
      var fromCandidate := if FirstCandidate(j.fields).Some? then FromCandidate(FirstCandidate(j.fields).value) else None;
      if fromCandidate.Some? then fromCandidate.value
      else
        match FirstStringKey(j.fields, TOP_LEVEL_KEYS)
        case Some(k) => Text(j.fields[TOP_LEVEL_KEYS[k]].s)
        case None => Stringified(j)
  }

  // ---------------------------------------------------------------------
  // The loops of ask_gemini
  // ---------------------------------------------------------------------

  /** `for key in keys: if key in d and isinstance(d[key], str): ...`, the
      index of the key that returns. */
  method FindStringField(m: map<string, Json>, keys: seq<string>) returns (r: Option<nat>)
    ensures r == FirstStringKey(m, keys)
  {
    var i := 0;
    while i < |keys|
      invariant 0 <= i <= |keys|
      invariant forall j :: 0 <= j < i ==> !IsStringField(m, keys[j])
    {
      if keys[i] in m && m[keys[i]].Str? {
        return Some(i);
      }
      i := i + 1;
    }
    return None;
  }

  /** One pass of the parts loop: what one item adds. */
  method CollectPartText(item: Json) returns (found: seq<Json>)
    ensures found == PartText(item)
  {
    found := [];
    if item.Obj? && "text" in item.fields {
      found := [item.fields["text"]];
    } else if item.Str? {
      found := [item];
    }
  }

  /** The loop over a content object's parts, appending to `texts`. */
  method CollectPartTexts(parts: seq<Json>) returns (texts: seq<Json>)
    ensures texts == PartTexts(parts)
  {
    texts := [];
    var i := 0;
    while i < |parts|
      invariant 0 <= i <= |parts|
      invariant texts == PartTexts(parts[..i])
    {
      var item := parts[i];
      var found := CollectPartText(item);
      texts := texts + found;
      assert parts[..i + 1] == parts[..i] + [item];
      PartTextsSnoc(parts[..i], item);
      i := i + 1;
    }
    assert parts[..i] == parts;
  }

  /** The inner loop over one item's parts, appending to `texts`. */
  method CollectInnerTexts(parts: seq<Json>) returns (texts: seq<Json>)
    ensures texts == InnerTexts(parts)
  {
    texts := [];
    var k := 0;
    while k < |parts|
      invariant 0 <= k <= |parts|
      invariant texts == InnerTexts(parts[..k])
    {
      var p := parts[k];
      if p.Obj? && "text" in p.fields {
        texts := texts + [p.fields["text"]];
      }
      assert parts[..k + 1] == parts[..k] + [p];
      InnerTextsSnoc(parts[..k], p);
      k := k + 1;
    }
    assert parts[..k] == parts;
  }

  /** One pass of the outer loop: what one item of a content list adds. */
  method CollectItemTexts(item: Json) returns (found: seq<Json>)
    ensures found == ItemTexts(item)
  {
    found := [];
    if item.Obj? && "parts" in item.fields && item.fields["parts"].List? {
      found := CollectInnerTexts(item.fields["parts"].items);
    } else if item.Str? {
      found := [item];
    }
  }

  /** The outer loop over a content list, appending to `texts`. */
  method CollectContentTexts(items: seq<Json>) returns (texts: seq<Json>)
    ensures texts == ContentTexts(items)
  {
    texts := [];
    var i := 0;
    while i < |items|
      invariant 0 <= i <= |items|
      invariant texts == ContentTexts(items[..i])
    {
      var item := items[i];
      var found := CollectItemTexts(item);
      texts := texts + found;
      assert items[..i + 1] == items[..i] + [item];
      ContentTextsSnoc(items[..i], item);
      i := i + 1;
    }
    assert items[..i] == items;
  }

  /** ask_gemini from `resp.json()` on, with its early returns. */
  method ExtractText(j: Json) returns (r: Reply)
    ensures r == Extract(j)
  {
    if j.Obj? {
      var candidates := Or(Get(j.fields, "candidates"), Get(j.fields, "outputs"));
      if candidates.List? && candidates.items != [] {
        var first := candidates.items[0];
        if first.Obj? {
          var cand := first.fields;
          var hit := FindStringField(cand, CANDIDATE_KEYS);
          if hit.Some? {
            return Text(cand[CANDIDATE_KEYS[hit.value]].s);
          }
          var content := Or(Or(Get(cand, "content"), Get(cand, "output")), Get(cand, "response"));
          if content.Obj? {
            var parts := Or(Get(content.fields, "parts"), Get(content.fields, "text"));
            if parts.List? && parts.items != [] {
              var texts := CollectPartTexts(parts.items);
              if texts != [] {
                return JoinReply(texts);
              }
            }
          }
          if Get(cand, "content").List? {
            var texts := CollectContentTexts(Get(cand, "content").items);
            if texts != [] {
              return JoinReply(texts);
            }
          }
        }
      }
      var top := FindStringField(j.fields, TOP_LEVEL_KEYS);
      if top.Some? {
        return Text(j.fields[TOP_LEVEL_KEYS[top.value]].s);
      }
    }
    return Stringified(j);
  }

  // ---------------------------------------------------------------------
  // Properties
  // ---------------------------------------------------------------------

  /** `"".join` fails exactly when some collected text is not a string. */
  lemma JoinErrorIff(texts: seq<Json>)
    ensures JoinReply(texts) == JoinError <==> exists k :: 0 <= k < |texts| && !texts[k].Str?
  {
  }

  /** The part `{"text": t}`. */
  function TextPart(t: string): (r: Json)
    ensures r.Obj? && "text" in r.fields && r.fields["text"] == Str(t)
  {
    Obj(map["text" := Str(t)])
  }

  /** The parts list `[{"text": t} for t in ts]`. */
  function TextParts(ts: seq<string>): (r: seq<Json>)
    ensures |r| == |ts|
  {
    if ts == [] then [] else TextParts(ts[..|ts| - 1]) + [TextPart(ts[|ts| - 1])]
  }

  function Strs(ts: seq<string>): (r: seq<Json>)
    ensures |r| == |ts|
  {
    if ts == [] then [] else Strs(ts[..|ts| - 1]) + [Str(ts[|ts| - 1])]
  }

  /** The content object `{"parts": [{"text": t}, ...]}`. */
  function RestContent(ts: seq<string>): map<string, Json>
  {
    map["parts" := List(TextParts(ts))]
  }

  /** The candidate `{"content": {"parts": [...]}}`. */
  function RestCandidate(ts: seq<string>): map<string, Json>
  {
    map["content" := Obj(RestContent(ts))]
  }

  /** The usual REST reply `{"candidates": [{"content": {"parts": [{"text": t}, ...]}}]}`. */
  function RestReply(ts: seq<string>): Json
  {
    Obj(map["candidates" := List([Obj(RestCandidate(ts))])])
  }

  lemma {:induction false} PartTextsOfTextParts(ts: seq<string>)
    ensures PartTexts(TextParts(ts)) == Strs(ts)
    decreases |ts|
  {
    if ts != [] {
      var init, x := ts[..|ts| - 1], ts[|ts| - 1];
      PartTextsSnoc(TextParts(init), TextPart(x));
      PartTextsOfTextParts(init);
      assert PartText(TextPart(x)) == [Str(x)];
    }
  }

  lemma {:induction false} JoinOfStrs(ts: seq<string>)
    ensures Join(Strs(ts)) == Some(Concat(ts))
    decreases |ts|
  {
    if ts != [] {
      var init := ts[..|ts| - 1];
      assert Strs(ts)[..|ts| - 1] == Strs(init);
      JoinOfStrs(init);
    }
  }

  lemma RestReplyShape(ts: seq<string>)
    ensures FirstCandidate(RestReply(ts).fields) == Some(RestCandidate(ts))
    ensures FirstStringKey(RestReply(ts).fields, TOP_LEVEL_KEYS).None?
  {
    var m := RestReply(ts).fields;
    assert Get(m, "candidates") == List([Obj(RestCandidate(ts))]);
    assert !IsStringField(m, "output") && !IsStringField(m, "text");
    assert !IsStringField(m, "result") && !IsStringField(m, "response");
  }

  lemma RestCandidateShape(ts: seq<string>)
    ensures FirstStringKey(RestCandidate(ts), CANDIDATE_KEYS).None?
    ensures Get(RestCandidate(ts), "content") == Obj(RestContent(ts))
  {
    var cand := RestCandidate(ts);
    assert !IsStringField(cand, "output") && !IsStringField(cand, "text") && !IsStringField(cand, "response");
  }

  lemma {:induction false} RestContentTexts(ts: seq<string>)
    ensures ts != [] ==> FromContentObject(RestContent(ts)) == Some(Text(Concat(ts)))
    ensures ts == [] ==> FromContentObject(RestContent(ts)).None?
  {
    var content := RestContent(ts);
    assert Get(content, "parts") == List(TextParts(ts));
    if ts != [] {
      PartTextsOfTextParts(ts);
      JoinOfStrs(ts);
      assert |TextParts(ts)| > 0 && |Strs(ts)| > 0;
      assert Or(Get(content, "parts"), Get(content, "text")) == List(TextParts(ts));
      assert JoinReply(Strs(ts)) == Text(Concat(ts));
    } else {
      assert Get(content, "text") == Null;
    }
  }

  /** Round trip: from the usual REST reply carrying the texts ts, the
      extracted text is their concatenation, in order; a reply with no
      parts at all falls through to `str(j)`. */
  lemma {:induction false} RestReplyRoundTrip(ts: seq<string>)
    ensures ts != [] ==> Extract(RestReply(ts)) == Text(Concat(ts))
    ensures ts == [] ==> Extract(RestReply(ts)) == Stringified(RestReply(ts))
  {
    RestReplyShape(ts);
    RestCandidateShape(ts);
    RestContentTexts(ts);
  }

  /** The parts loop keeps order: the texts of a concatenation of part
      lists are the concatenation of their texts. */
  lemma {:induction false} PartTextsAppend(a: seq<Json>, b: seq<Json>)
    ensures PartTexts(a + b) == PartTexts(a) + PartTexts(b)
    decreases |b|
  {
    if b != [] {
      var init, x := b[..|b| - 1], b[|b| - 1];
      assert b == init + [x];
      assert a + b == (a + init) + [x];
      PartTextsSnoc(a + init, x);
      PartTextsAppend(a, init);
      PartTextsSnoc(init, x);
      assert PartTexts(a + b) == (PartTexts(a) + PartTexts(init)) + PartText(x);
      assert PartTexts(b) == PartTexts(init) + PartText(x);
    } else {
      assert a + b == a;
    }
  }

  /** The content-list loop keeps order in the same way. */
  lemma {:induction false} ContentTextsAppend(a: seq<Json>, b: seq<Json>)
    ensures ContentTexts(a + b) == ContentTexts(a) + ContentTexts(b)
    decreases |b|
  {
    if b != [] {
      var init, x := b[..|b| - 1], b[|b| - 1];
      assert b == init + [x];
      assert a + b == (a + init) + [x];
      ContentTextsSnoc(a + init, x);
      ContentTextsAppend(a, init);
      ContentTextsSnoc(init, x);
      assert ContentTexts(a + b) == (ContentTexts(a) + ContentTexts(init)) + ItemTexts(x);
      assert ContentTexts(b) == ContentTexts(init) + ItemTexts(x);
    } else {
      assert a + b == a;
    }
  }

  lemma {:induction false} ContentTextsOfStrs(ts: seq<string>)
    ensures ContentTexts(Strs(ts)) == Strs(ts)
    decreases |ts|
  {
    if ts != [] {
      var init, x := ts[..|ts| - 1], ts[|ts| - 1];
      ContentTextsSnoc(Strs(init), Str(x));
      ContentTextsOfStrs(init);
      assert ItemTexts(Str(x)) == [Str(x)];
    }
  }

  /** A reply whose first candidate's `content` is a list of strings. */
  function ListCandidate(ts: seq<string>): map<string, Json>
  {
    map["content" := List(Strs(ts))]
  }

  function ListReply(ts: seq<string>): Json
  {
    Obj(map["candidates" := List([Obj(ListCandidate(ts))])])
  }

  lemma ListCandidateShape(ts: seq<string>)
    ensures FirstStringKey(ListCandidate(ts), CANDIDATE_KEYS).None?
    ensures Get(ListCandidate(ts), "content") == List(Strs(ts))
    ensures Get(ListCandidate(ts), "output") == Null && Get(ListCandidate(ts), "response") == Null
  {
    var cand := ListCandidate(ts);
    assert !IsStringField(cand, "output") && !IsStringField(cand, "text") && !IsStringField(cand, "response");
  }

  lemma {:induction false} ListCandidateTexts(ts: seq<string>)
    requires ts != []
    ensures FromCandidate(ListCandidate(ts)) == Some(Text(Concat(ts)))
  {
    ListCandidateShape(ts);
    ContentTextsOfStrs(ts);
    JoinOfStrs(ts);
  }

  /** Round trip through the content-list shape: the extracted text is the
      in-order concatenation of the string items. */
  lemma {:induction false} ListReplyRoundTrip(ts: seq<string>)
    requires ts != []
    ensures Extract(ListReply(ts)) == Text(Concat(ts))
  {
    assert Get(ListReply(ts).fields, "candidates") == List([Obj(ListCandidate(ts))]);
    assert FirstCandidate(ListReply(ts).fields) == Some(ListCandidate(ts));
    ListCandidateTexts(ts);
  }

  /** A content-list item `{"parts": [{"text": t}, ...]}`. */
  function PartsItem(ts: seq<string>): Json
  {
    Obj(map["parts" := List(TextParts(ts))])
  }

  /** A candidate whose `content` is a list holding one such item. */
  function NestedCandidate(ts: seq<string>): map<string, Json>
  {
    map["content" := List([PartsItem(ts)])]
  }

  function NestedReply(ts: seq<string>): Json
  {
    Obj(map["candidates" := List([Obj(NestedCandidate(ts))])])
  }

  lemma {:induction false} InnerTextsOfTextParts(ts: seq<string>)
    ensures InnerTexts(TextParts(ts)) == Strs(ts)
    decreases |ts|
  {
    if ts != [] {
      var init, x := ts[..|ts| - 1], ts[|ts| - 1];
      InnerTextsSnoc(TextParts(init), TextPart(x));
      InnerTextsOfTextParts(init);
      assert InnerText(TextPart(x)) == [Str(x)];
    }
  }

  lemma NestedCandidateShape(ts: seq<string>)
    ensures FirstStringKey(NestedCandidate(ts), CANDIDATE_KEYS).None?
    ensures Get(NestedCandidate(ts), "content") == List([PartsItem(ts)])
    ensures Get(NestedCandidate(ts), "output") == Null && Get(NestedCandidate(ts), "response") == Null
  {
    var cand := NestedCandidate(ts);
    assert !IsStringField(cand, "output") && !IsStringField(cand, "text") && !IsStringField(cand, "response");
  }

  lemma NestedContentTexts(ts: seq<string>)
    ensures ContentTexts([PartsItem(ts)]) == Strs(ts)
  {
    InnerTextsOfTextParts(ts);
    assert ItemTexts(PartsItem(ts)) == Strs(ts);
    ContentTextsSnoc([], PartsItem(ts));
    assert [] + [PartsItem(ts)] == [PartsItem(ts)];
  }

  lemma {:induction false} NestedCandidateTexts(ts: seq<string>)
    requires ts != []
    ensures FromCandidate(NestedCandidate(ts)) == Some(Text(Concat(ts)))
  {
    NestedCandidateShape(ts);
    NestedContentTexts(ts);
    JoinOfStrs(ts);
  }

  /** Round trip through a content list of parts objects: the nested loop
      collects every part's text, and the extracted text is their in-order
      concatenation. */
  lemma {:induction false} NestedReplyRoundTrip(ts: seq<string>)
    requires ts != []
    ensures Extract(NestedReply(ts)) == Text(Concat(ts))
  {
    assert Get(NestedReply(ts).fields, "candidates") == List([Obj(NestedCandidate(ts))]);
    assert FirstCandidate(NestedReply(ts).fields) == Some(NestedCandidate(ts));
    NestedCandidateTexts(ts);
  }

  /** The first candidate's string fields take priority over everything
      else, `output` first, then `text`, then `response`. */
  lemma CandidateStringFieldWins(m: map<string, Json>, cand: map<string, Json>, key: string)
    requires FirstCandidate(m) == Some(cand)
    requires key in CANDIDATE_KEYS && IsStringField(cand, key)
    requires key == "text" ==> !IsStringField(cand, "output")
    requires key == "response" ==> !IsStringField(cand, "output") && !IsStringField(cand, "text")
    ensures Extract(Obj(m)) == Text(cand[key].s)
  {
    var k := FirstStringKey(cand, CANDIDATE_KEYS);
    assert k.Some?;
    assert CANDIDATE_KEYS[k.value] == key;
  }

  /** Two replies agree, reading every `str(j)` result as the same. */
  predicate SameText(a: Reply, b: Reply)
  {
    a == b || (a.Stringified? && b.Stringified?)
  }

  lemma {:induction false} FirstStringKeyAgrees(m: map<string, Json>, m': map<string, Json>, keys: seq<string>)
    requires forall k :: 0 <= k < |keys| ==> Get(m, keys[k]) == Get(m', keys[k])
    ensures FirstStringKey(m, keys) == FirstStringKey(m', keys)
  {
    if keys != [] {
      assert Get(m, keys[0]) == Get(m', keys[0]);
      FirstStringKeyAgrees(m, m', keys[1..]);
    }
  }

  /** The list searched is `candidates` when that is truthy (`outputs` is
      then never read), and `outputs` otherwise (`candidates` is then never
      read). */
  lemma CandidatesBeforeOutputs(m: map<string, Json>)
    ensures Truthy(Get(m, "candidates")) ==> SameText(Extract(Obj(m)), Extract(Obj(m - {"outputs"})))
    ensures !Truthy(Get(m, "candidates")) ==> SameText(Extract(Obj(m)), Extract(Obj(m - {"candidates"})))
  {
    FirstStringKeyAgrees(m, m - {"outputs"}, TOP_LEVEL_KEYS);
    FirstStringKeyAgrees(m, m - {"candidates"}, TOP_LEVEL_KEYS);
    assert FirstCandidate(m) == FirstCandidate(m - {"candidates"}) || Truthy(Get(m, "candidates"));
    assert FirstCandidate(m) == FirstCandidate(m - {"outputs"}) || !Truthy(Get(m, "candidates"));
  }

  /** Without a candidate object, or with one that yields nothing, a top-level string field is returned with
      priority `output`, `text`, `result`, `response`, and failing all of
      them the stringified value. */
  lemma TopLevelFallback(m: map<string, Json>)
    requires FirstCandidate(m).None? || FromCandidate(FirstCandidate(m).value).None?
    ensures forall k :: 0 <= k < |TOP_LEVEL_KEYS| && IsStringField(m, TOP_LEVEL_KEYS[k]) &&
                        (forall j :: 0 <= j < k ==> !IsStringField(m, TOP_LEVEL_KEYS[j])) ==>
              Extract(Obj(m)) == Text(m[TOP_LEVEL_KEYS[k]].s)
    ensures (forall k :: 0 <= k < |TOP_LEVEL_KEYS| ==> !IsStringField(m, TOP_LEVEL_KEYS[k])) ==>
              Extract(Obj(m)) == Stringified(Obj(m))
  {
  }

  /** A value that is not an object is returned as `str(j)`. */
  lemma NonObjectStringified(j: Json)
    requires !j.Obj?
    ensures Extract(j) == Stringified(j)
  {
  }
}
