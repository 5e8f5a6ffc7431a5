/**
 * The two pieces of arithmetic-free bookkeeping around the evaluator in
 * app.py: turning the text area into the list of prompts, and counting
 * the rows whose final label is "Hallucinated".
 */
module Evaluation {
  import opened Chars

  // ---------------------------------------------------------------------
  // Lines
  // ---------------------------------------------------------------------

  predicate NoNewline(s: string)
  {
    forall k :: 0 <= k < |s| ==> s[k] != '\n'
  }

  /** `s.split("\n")`: the pieces between newlines, always at least one. */
  function SplitLines(s: string): (r: seq<string>)
    ensures |r| >= 1
    ensures forall k :: 0 <= k < |r| ==> NoNewline(r[k])
  {
    if s == [] then [""]
    else
      var rest := SplitLines(s[1..]);
      if s[0] == '\n' then [""] + rest
      else [[s[0]] + rest[0]] + rest[1..]
  }

  /** `"\n".join(lines)`. */
  function JoinLines(lines: seq<string>): (r: string)
    requires |lines| >= 1
    ensures |lines[0]| <= |r| && r[..|lines[0]|] == lines[0]
  {
    if |lines| == 1 then lines[0] else lines[0] + "\n" + JoinLines(lines[1..])
  }

  /** Prefixing the first line prefixes the joined text. */
  lemma {:induction false} JoinLinesPrefix(x: string, lines: seq<string>)
    requires |lines| >= 1
    ensures JoinLines([x + lines[0]] + lines[1..]) == x + JoinLines(lines)
  {
    var r := [x + lines[0]] + lines[1..];
    assert r[0] == x + lines[0] && r[1..] == lines[1..];
    if |lines| > 1 {
      var tail := JoinLines(lines[1..]);
      assert JoinLines(r) == (x + lines[0]) + "\n" + tail;
      assert (x + lines[0]) + "\n" + tail == x + (lines[0] + "\n" + tail);
    }
  }

  /** Splitting and joining again gives back the text. */
  lemma {:induction false} JoinSplitLines(s: string)
    ensures JoinLines(SplitLines(s)) == s
  {
    if s != [] {
      var rest := SplitLines(s[1..]);
      JoinSplitLines(s[1..]);
      if s[0] == '\n' {
        var r := [""] + rest;
        assert r[0] == "" && r[1..] == rest;
        assert JoinLines(r) == "\n" + s[1..];
      } else {
        JoinLinesPrefix([s[0]], rest);
      }
      assert s == [s[0]] + s[1..];
    }
  }

  /** A newline-free prefix joins the first piece. */
  lemma {:induction false} SplitLinesPrefix(x: string, s: string)
    requires NoNewline(x)
    ensures SplitLines(x + s) == [x + SplitLines(s)[0]] + SplitLines(s)[1..]
    decreases |x|
  {
    if x != [] {
      assert (x + s)[0] == x[0];
      assert (x + s)[1..] == x[1..] + s;
      SplitLinesPrefix(x[1..], s);
      assert [x[0]] + (x[1..] + SplitLines(s)[0]) == x + SplitLines(s)[0];
    } else {
      assert x + s == s;
      assert x + SplitLines(s)[0] == SplitLines(s)[0];
      assert SplitLines(s) == [SplitLines(s)[0]] + SplitLines(s)[1..];
    }
  }

  /** Joining newline-free lines and splitting again gives back the lines. */
  lemma {:induction false} SplitJoinLines(lines: seq<string>)
    requires |lines| >= 1
    requires forall k :: 0 <= k < |lines| ==> NoNewline(lines[k])
    ensures SplitLines(JoinLines(lines)) == lines
    decreases |lines|
  {
    if |lines| == 1 {
      SplitLinesPrefix(lines[0], "");
      assert lines[0] + "" == lines[0];
      assert lines[0] + SplitLines("")[0] == lines[0];
    } else {
      var tail := JoinLines(lines[1..]);
      SplitJoinLines(lines[1..]);
      assert ("\n" + tail)[0] == '\n' && ("\n" + tail)[1..] == tail;
      assert SplitLines("\n" + tail) == [""] + lines[1..];
      assert lines[0] + "\n" + tail == lines[0] + ("\n" + tail);
      SplitLinesPrefix(lines[0], "\n" + tail);
      assert lines[0] + "" == lines[0];
      assert lines == [lines[0]] + lines[1..];
    }
  }

  // ---------------------------------------------------------------------
  // Strip
  // ---------------------------------------------------------------------

  /** The number of leading whitespace characters of s. */
  function LeadingSpace(s: string): (n: nat)
    ensures n <= |s|
    ensures forall k :: 0 <= k < n ==> IsSpace(s[k])
    ensures n < |s| ==> !IsSpace(s[n])
  {
    if s == [] || !IsSpace(s[0]) then 0 else 1 + LeadingSpace(s[1..])
  }

  /** The length of s without its trailing whitespace. */
  function TrailingStart(s: string): (n: nat)
    ensures n <= |s|
    ensures forall k :: n <= k < |s| ==> IsSpace(s[k])
    ensures n > 0 ==> !IsSpace(s[n - 1])
  {
    if s == [] || !IsSpace(s[|s| - 1]) then |s| else TrailingStart(s[..|s| - 1])
  }

  /** `s.strip()`, with the ASCII whitespace characters of Python's str. */
  function Strip(s: string): (r: string)
    ensures |r| <= |s|
    ensures r != [] ==> !IsSpace(r[0]) && !IsSpace(r[|r| - 1])
  {
    var a := LeadingSpace(s);
    var t := s[a..];
    var n := TrailingStart(t);
    assert s[a..a + n] == t[..n];
    s[a..a + n]
  }

  /** Strip removes exactly the whitespace at both ends: the result is a
      slice of s with only whitespace outside it and none at its ends. */
  lemma StripShape(s: string)
    ensures exists a, b ::
              (0 <= a <= b <= |s| && Strip(s) == s[a..b] &&
               (forall k :: 0 <= k < a ==> IsSpace(s[k])) &&
               (forall k :: b <= k < |s| ==> IsSpace(s[k])))
    ensures Strip(s) != [] ==> !IsSpace(Strip(s)[0]) && !IsSpace(Strip(s)[|Strip(s)| - 1])
  {
    var a := LeadingSpace(s);
    var t := s[a..];
    var n := TrailingStart(t);
    var b := a + n;
    assert Strip(s) == s[a..b] == t[..n];
    forall k | b <= k < |s|
      ensures IsSpace(s[k])
    {
      assert s[k] == t[k - a];
    }
    if n > 0 {
      assert Strip(s)[0] == s[a];
      assert Strip(s)[n - 1] == t[n - 1];
    }
  }

  /** Strip leaves alone a text without whitespace at its ends. */
  lemma StripFixes(s: string)
    requires s == [] || (!IsSpace(s[0]) && !IsSpace(s[|s| - 1]))
    ensures Strip(s) == s
  {
    assert LeadingSpace(s) == 0;
    assert s[0..] == s;
  }

  /** A text strips to nothing exactly when it is all whitespace. */
  lemma StripEmptyIff(s: string)
    ensures Strip(s) == [] <==> forall k :: 0 <= k < |s| ==> IsSpace(s[k])
  {
    var a := LeadingSpace(s);
    var t := s[a..];
    if Strip(s) == [] {
      assert TrailingStart(t) == 0;
    } else {
      StripShape(s);
      assert Strip(s)[0] == s[a];
    }
  }

  // ---------------------------------------------------------------------
  // The prompt list
  // ---------------------------------------------------------------------

  /** What one line contributes: its stripped text, unless that is empty. */
  function KeepLine(line: string): (r: seq<string>)
    ensures |r| <= 1
    ensures forall k :: 0 <= k < |r| ==> r[k] != [] && !IsSpace(r[k][0]) && !IsSpace(r[k][|r[k]| - 1])
  {
    if Strip(line) != [] then [Strip(line)] else []
  }

  /** `[p.strip() for p in lines if p.strip()]`. */
  function KeepStripped(lines: seq<string>): (r: seq<string>)
    ensures |r| <= |lines|
    ensures forall k :: 0 <= k < |r| ==> r[k] != [] && !IsSpace(r[k][0]) && !IsSpace(r[k][|r[k]| - 1])
  {
    if lines == [] then [] else KeepLine(lines[0]) + KeepStripped(lines[1..])
  }

  /** The prompts typed one per line in the text area. */
  function PromptList(text: string): (r: seq<string>)
    ensures |r| <= |SplitLines(text)|
    ensures forall k :: 0 <= k < |r| ==> IsPrompt(r[k])
  {
    KeptArePrompts(SplitLines(text));
    KeepStripped(SplitLines(text))
  }

  /** A prompt as PromptList produces it: non-empty, without whitespace at
      either end and without a newline. */
  predicate IsPrompt(p: string)
  {
    p != [] && !IsSpace(p[0]) && !IsSpace(p[|p| - 1]) && NoNewline(p)
  }

  lemma StripKeepsNoNewline(s: string)
    requires NoNewline(s)
    ensures NoNewline(Strip(s))
  {
    StripShape(s);
  }

  lemma {:induction false} KeptArePrompts(lines: seq<string>)
    requires forall k :: 0 <= k < |lines| ==> NoNewline(lines[k])
    ensures forall k :: 0 <= k < |KeepStripped(lines)| ==> IsPrompt(KeepStripped(lines)[k])
  {
    if lines != [] {
      KeptArePrompts(lines[1..]);
      StripShape(lines[0]);
      StripKeepsNoNewline(lines[0]);
    }
  }

  /** The filter keeps the lines' order: the prompts of a concatenation of
      line lists are the concatenation of their prompts. */
  lemma {:induction false} KeepStrippedAppend(a: seq<string>, b: seq<string>)
    ensures KeepStripped(a + b) == KeepStripped(a) + KeepStripped(b)
  {
    if a == [] {
      assert a + b == b;
    } else {
      assert (a + b)[0] == a[0];
      assert (a + b)[1..] == a[1..] + b;
      KeepStrippedAppend(a[1..], b);
    }
  }

  /** A line contributes its stripped text, or nothing when that is empty. */
  lemma KeepStrippedOne(line: string)
    ensures KeepStripped([line]) == if Strip(line) != [] then [Strip(line)] else []
  {
    assert [line][1..] == [];
    assert KeepStripped([line]) == KeepLine(line) + [];
  }

  lemma {:induction false} KeepStrippedOfPrompts(ps: seq<string>)
    requires forall k :: 0 <= k < |ps| ==> IsPrompt(ps[k])
    ensures KeepStripped(ps) == ps
  {
    if ps != [] {
      StripFixes(ps[0]);
      KeepStrippedOfPrompts(ps[1..]);
    }
  }

  /** Round trip with the default text area: joining prompts with "\n" and
      reading the list back gives the same prompts. */
  lemma PromptListOfJoined(ps: seq<string>)
    requires |ps| >= 1
    requires forall k :: 0 <= k < |ps| ==> IsPrompt(ps[k])
    ensures PromptList(JoinLines(ps)) == ps
  {
    SplitJoinLines(ps);
    KeepStrippedOfPrompts(ps);
  }

  // ---------------------------------------------------------------------
  // The hallucinated count
  // ---------------------------------------------------------------------

  const HALLUCINATED: string := "Hallucinated"

  /** `len(df[df["FinalLabel"] == "Hallucinated"])`, over the column of
      final labels. */
  function CountHallucinated(labels: seq<string>): (r: nat)
    ensures r <= |labels|
    ensures r == multiset(labels)[HALLUCINATED]
  {
    if labels == [] then 0
    else
      assert labels == [labels[0]] + labels[1..];
      (if labels[0] == HALLUCINATED then 1 else 0) + CountHallucinated(labels[1..])
  }

  /** The indices of the rows labelled "Hallucinated". */
  ghost function Rows(labels: seq<string>): set<int>
  {
    set i | 0 <= i < |labels| && labels[i] == HALLUCINATED
  }

  /** The count equals the number of rows labelled "Hallucinated". */
  lemma {:induction false} CountIsRows(labels: seq<string>)
    ensures CountHallucinated(labels) == |Rows(labels)|
    decreases |labels|
  {
    if labels == [] {
      assert Rows(labels) == {};
    } else {
      var n := |labels| - 1;
      var init := labels[..n];
      assert labels == init + [labels[n]];
      CountAppend(init, [labels[n]]);
      CountIsRows(init);
      assert n !in Rows(init);
      if labels[n] == HALLUCINATED {
        assert Rows(labels) == Rows(init) + {n};
      } else {
        assert Rows(labels) == Rows(init);
      }
    }
  }

  /** Counting over two batches of rows adds up. */
  lemma CountAppend(a: seq<string>, b: seq<string>)
    ensures CountHallucinated(a + b) == CountHallucinated(a) + CountHallucinated(b)
  {
    assert multiset(a + b) == multiset(a) + multiset(b);
  }
}
