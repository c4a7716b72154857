/**
 * The two source-specific cleaners of app/text_cleaner.py.
 *
 * Each cleaner is a method that walks the lines and appends the ones it keeps,
 * as the Python code does, and is proved equal to a specification function
 * (WikipediaClean, GenericClean). The properties of the cleaners are lemmas
 * about those functions. The two regular-expression substitutions are
 * written out as left-to-right passes over the string (RemoveMarkers,
 * CollapseNewlines).
 */
module TextCleaner {
  import opened Strings

  // ---------------------------------------------------------------------------
  // Citation and edit markers: the pattern \[\d*\]|\[edit\]|\[citation needed\]
  // ---------------------------------------------------------------------------

  predicate IsDigit(c: char) {
    '0' <= c <= '9'
  }

  /** The number of digits at the start of `s`. */
  function DigitRun(s: string): (n: nat)
    ensures n <= |s|
    ensures forall i :: 0 <= i < n ==> IsDigit(s[i])
    ensures n == |s| || !IsDigit(s[n])
    decreases |s|
  {
    if |s| > 0 && IsDigit(s[0]) then 1 + DigitRun(s[1..]) else 0
  }

  const EditMarker := "[edit]"
  const CitationNeededMarker := "[citation needed]"

  /** The strings the marker pattern matches: a bracketed run of digits
      (the empty `[]` included), `[edit]` and `[citation needed]`. */
  predicate IsMarker(m: string) {
    m == EditMarker || m == CitationNeededMarker ||
    (|m| >= 2 && m[0] == '[' && m[|m| - 1] == ']' &&
     forall i :: 1 <= i < |m| - 1 ==> IsDigit(m[i]))
  }

  /** The length of the match the pattern finds at the very start of `s`
      (its alternatives tried in order), or 0 when there is none. */
  function MarkerLength(s: string): (n: nat)
    ensures n <= |s|
    ensures n > 0 ==> IsMarker(s[..n])
  {
    if |s| > 0 && s[0] == '[' then
      var d := DigitRun(s[1..]);
      if d + 1 < |s| && s[d + 1] == ']' then d + 2
      else if StartsWith(s, EditMarker) then |EditMarker|
      else if StartsWith(s, CitationNeededMarker) then |CitationNeededMarker|
      else 0
    else 0
  }

  /** Every marker is recognised in full wherever it starts. */
  lemma MarkerLengthOfMarker(m: string, t: string)
    requires IsMarker(m)
    ensures MarkerLength(m + t) == |m|
  {
    var s := m + t;
    if m == EditMarker || m == CitationNeededMarker {
      assert s[1] == m[1] && !IsDigit(s[1]) && s[1] != ']';
      assert DigitRun(s[1..]) == 0;
      assert s[..|m|] == m;
      if m == CitationNeededMarker {
        assert s[..|EditMarker|] != EditMarker by {
          assert s[1] == 'c';
        }
      }
    } else {
      var d := |m| - 2;
      assert forall i :: 0 <= i < d ==> s[1..][i] == m[i + 1];
      assert s[1..][d] == ']';
      assert DigitRun(s[1..]) == d by {
        DigitRunExact(s[1..], d);
      }
    }
  }

  /** A run of `d` digits followed by a non-digit is a digit run of length `d`. */
  lemma {:induction false} DigitRunExact(s: string, d: nat)
    requires d < |s| && !IsDigit(s[d])
    requires forall i :: 0 <= i < d ==> IsDigit(s[i])
    ensures DigitRun(s) == d
    decreases d
  {
    if d > 0 {
      DigitRunExact(s[1..], d - 1);
    }
  }

  /** `re.sub(pattern, '', s)`: one left-to-right scan that deletes each
      non-overlapping match. Text uncovered by a deletion is not rescanned. */
  function RemoveMarkers(s: string): (r: string)
    ensures |r| <= |s|
    decreases |s|
  {
    if |s| == 0 then ""
    else
      var n := MarkerLength(s);
      if n > 0 then RemoveMarkers(s[n..]) else [s[0]] + RemoveMarkers(s[1..])
  }

  /** A character other than '[' starts no marker and is kept. */
  lemma RemoveMarkersPlainHead(s: string)
    requires |s| > 0 && s[0] != '['
    ensures RemoveMarkers(s) == [s[0]] + RemoveMarkers(s[1..])
  {
    assert MarkerLength(s) == 0;
  }

  /** Markers hold no newline, so the substitution never creates one. */
  lemma {:induction false} RemoveMarkersNoNewline(s: string)
    requires '\n' !in s
    ensures '\n' !in RemoveMarkers(s)
    decreases |s|
  {
    if |s| > 0 {
      var n := MarkerLength(s);
      if n > 0 {
        assert forall c :: c in s[n..] ==> c in s;
        RemoveMarkersNoNewline(s[n..]);
      } else {
        assert forall c :: c in s[1..] ==> c in s;
        RemoveMarkersNoNewline(s[1..]);
      }
    }
  }

  /** A marker at the front of the text is deleted. */
  lemma RemoveMarkersDropsMarker(m: string, t: string)
    requires IsMarker(m)
    ensures RemoveMarkers(m + t) == RemoveMarkers(t)
  {
    MarkerLengthOfMarker(m, t);
    assert (m + t)[|m|..] == t;
  }

  /** Text without an opening bracket passes through unchanged. */
  lemma {:induction false} RemoveMarkersKeepsPlainText(a: string, t: string)
    requires '[' !in a
    ensures RemoveMarkers(a + t) == a + RemoveMarkers(t)
    decreases |a|
  {
    if |a| > 0 {
      var head, rest := a[0], a[1..];
      assert a == [head] + rest;
      assert a + t == [head] + (rest + t);
      RemoveMarkersPlainHead(a + t);
      RemoveMarkersKeepsPlainText(rest, t);
    } else {
      assert a + t == t;
    }
  }

  /** A marker holds its opening bracket only at the front. */
  lemma MarkerBracketFirstOnly(m: string, i: int)
    requires IsMarker(m) && 0 < i < |m|
    ensures m[i] != '['
  {
    if m == EditMarker || m == CitationNeededMarker {
      assert m[i] != '[';
    }
  }

  /** The match at the front of `a` is also the match at the front of any
      longer text that starts with `a`. */
  lemma MarkerLengthExtend(a: string, x: string)
    requires MarkerLength(a) > 0
    ensures MarkerLength(a + x) == MarkerLength(a)
  {
    var n := MarkerLength(a);
    MarkerLengthOfMarker(a[..n], a[n..] + x);
    assert a[..n] + (a[n..] + x) == a + x;
  }

  /** A match that ends within `a` is the match at the front of `a` itself,
      and a match at the front of `a` survives appending `x`. */
  lemma MarkerLengthWithin(a: string, x: string)
    ensures MarkerLength(a + x) <= |a| ==> MarkerLength(a + x) == MarkerLength(a)
  {
    var n := MarkerLength(a + x);
    if 0 < n <= |a| {
      assert (a + x)[..n] == a[..n];
      MarkerLengthOfMarker(a[..n], a[n..]);
      assert a[..n] + a[n..] == a;
    }
    if MarkerLength(a) > 0 {
      MarkerLengthExtend(a, x);
    }
  }

  /** No match at the front of `s` has a `[` after its first character. */
  lemma MarkerNoInnerBracket(s: string, i: int)
    ensures 0 < i < MarkerLength(s) ==> s[i] != '['
  {
    var n := MarkerLength(s);
    if 0 < i < n {
      MarkerBracketFirstOnly(s[..n], i);
    }
  }

  /** When no match starts at the front of non-empty `a`, none starts there
      once a marker follows `a`: a match cannot reach past the marker's `[`. */
  lemma MarkerLengthBeforeMarker(a: string, m: string, t: string)
    requires |a| > 0 && MarkerLength(a) == 0 && IsMarker(m)
    ensures MarkerLength(a + (m + t)) == 0
  {
    var s := a + (m + t);
    MarkerLengthWithin(a, m + t);
    MarkerNoInnerBracket(s, |a|);
    assert s[|a|] == m[0] == '[';
  }

  /** Dropping a prefix of `a` from `a + b` and from `a` agree. */
  lemma DropFromConcat(a: string, b: string, n: nat)
    requires n <= |a|
    ensures (a + b)[n..] == a[n..] + b
  {
  }

  /** The step of RemoveMarkersAround where a match starts at the front of
      `a`: the same match is deleted with the marker and text behind it, so
      the property for what follows the match gives it for `a`. */
  lemma AroundMatchStep(a: string, m: string, t: string)
    requires IsMarker(m) && MarkerLength(a) > 0
    ensures var n := MarkerLength(a);
      RemoveMarkers(a[n..] + (m + t)) == RemoveMarkers(a[n..]) + RemoveMarkers(t) ==>
      RemoveMarkers(a + (m + t)) == RemoveMarkers(a) + RemoveMarkers(t)
  {
    MarkerLengthExtend(a, m + t);
    DropFromConcat(a, m + t, MarkerLength(a));
  }

  /** The step of RemoveMarkersAround where no match starts at the front of
      `a`: its first character is kept with the marker and text behind it, so
      the property for the rest of `a` gives it for `a`. */
  lemma AroundKeepStep(a: string, m: string, t: string)
    requires IsMarker(m) && |a| > 0 && MarkerLength(a) == 0
    ensures RemoveMarkers(a[1..] + (m + t)) == RemoveMarkers(a[1..]) + RemoveMarkers(t) ==>
      RemoveMarkers(a + (m + t)) == RemoveMarkers(a) + RemoveMarkers(t)
  {
    MarkerLengthBeforeMarker(a, m, t);
    DropFromConcat(a, m + t, 1);
    assert (a + (m + t))[0] == a[0];
  }

  /** Every marker in the text is deleted, wherever it stands: the scan
      treats the text before it and the text after it independently. */
  lemma {:induction false} RemoveMarkersAround(a: string, m: string, t: string)
    requires IsMarker(m)
    ensures RemoveMarkers(a + (m + t)) == RemoveMarkers(a) + RemoveMarkers(t)
    decreases |a|
  {
    if |a| == 0 {
      assert a + (m + t) == m + t;
      RemoveMarkersDropsMarker(m, t);
    } else if MarkerLength(a) > 0 {
      RemoveMarkersAround(a[MarkerLength(a)..], m, t);
      AroundMatchStep(a, m, t);
    } else {
      RemoveMarkersAround(a[1..], m, t);
      AroundKeepStep(a, m, t);
    }
  }

  /** A match starting anywhere makes the scan delete something. */
  lemma {:induction false} RemoveMarkersShrinks(s: string, i: int)
    requires 0 <= i < |s| && MarkerLength(s[i..]) > 0
    ensures |RemoveMarkers(s)| < |s|
    decreases |s|
  {
    if MarkerLength(s) == 0 {
      assert i != 0;
      assert s[1..][i - 1..] == s[i..];
      RemoveMarkersShrinks(s[1..], i - 1);
    }
  }

  /** The substitution leaves the text unchanged exactly when no match starts
      at any position. */
  lemma {:induction false} RemoveMarkersUnchangedIff(s: string)
    ensures RemoveMarkers(s) == s <==> forall i :: 0 <= i < |s| ==> MarkerLength(s[i..]) == 0
    decreases |s|
  {
    if forall i :: 0 <= i < |s| ==> MarkerLength(s[i..]) == 0 {
      if |s| > 0 {
        assert s[0..] == s;
        forall i | 0 <= i < |s| - 1 ensures MarkerLength(s[1..][i..]) == 0 {
          assert s[1..][i..] == s[i + 1..];
        }
        RemoveMarkersUnchangedIff(s[1..]);
        assert [s[0]] + s[1..] == s;
      }
    } else {
      var i :| 0 <= i < |s| && MarkerLength(s[i..]) > 0;
      RemoveMarkersShrinks(s, i);
    }
  }

  /** The scan is a single pass: deleting the inner `[1]` of `[[1]]` uncovers
      a new `[]`, which stays in the result. */
  lemma RemoveMarkersSinglePass()
    ensures RemoveMarkers("[[1]]") == "[]"
    ensures RemoveMarkers("[]") == ""
  {
    assert DigitRun("[1]]") == 0;
    assert MarkerLength("[[1]]") == 0;
    assert "[[1]]"[1..] == "[1]]";
    assert DigitRun("1]]") == 1;
    assert MarkerLength("[1]]") == 3;
    assert "[1]]"[3..] == "]";
    assert MarkerLength("]") == 0;
    assert DigitRun("]") == 0;
    assert MarkerLength("[]") == 2;
    assert "[]"[2..] == "";
  }

  // ---------------------------------------------------------------------------
  // clean_wikipedia_text
  // ---------------------------------------------------------------------------

  /** A section heading such as `==History==`, once trimmed. */
  predicate IsHeadingLine(line: string) {
    StartsWith(Strip(line), "==") && EndsWith(Strip(line), "==")
  }

  /** Template residue such as `| name = value`, once trimmed. */
  predicate IsTemplateLine(line: string) {
    StartsWith(Strip(line), "|")
  }

  predicate KeepWikipediaLine(line: string) {
    !IsHeadingLine(line) && !IsTemplateLine(line)
  }

  /** The lines the Wikipedia loop keeps, unchanged and in order. */
  function WikipediaKeptLines(lines: seq<string>): (kept: seq<string>)
    ensures forall k :: 0 <= k < |kept| ==> KeepWikipediaLine(kept[k]) && kept[k] in lines
    decreases |lines|
  {
    if |lines| == 0 then []
    else
      var last := lines[|lines| - 1];
      var init := WikipediaKeptLines(lines[..|lines| - 1]);
      if KeepWikipediaLine(last) then init + [last] else init
  }

  /** `clean_wikipedia_text(text)`. */
  function WikipediaClean(text: string): string {
    Join(WikipediaKeptLines(Split(RemoveMarkers(text))), "\n")
  }

  method CleanWikipediaText(text: string) returns (cleaned: string)
    ensures cleaned == WikipediaClean(text)
  {
    var substituted := RemoveMarkers(text);
    var lines := Split(substituted);
    var keptLines: seq<string> := [];
    for i := 0 to |lines|
      invariant keptLines == WikipediaKeptLines(lines[..i])
    {
      assert lines[..i + 1][..i] == lines[..i];
      var line := lines[i];
      if IsHeadingLine(line) {
        continue;
      }
      if IsTemplateLine(line) {
        continue;
      }
      keptLines := keptLines + [line];
    }
    assert lines[..|lines|] == lines;
    cleaned := Join(keptLines, "\n");
  }

  /** The positions of `lines` whose line passes `keep`. */
  function KeptPositions(lines: seq<string>, keep: string -> bool): set<int> {
    set k | 0 <= k < |lines| && keep(lines[k])
  }

  /** One more line adds its position exactly when it passes. */
  lemma KeptPositionsSnoc(lines: seq<string>, keep: string -> bool)
    requires |lines| > 0
    ensures |KeptPositions(lines, keep)| ==
      |KeptPositions(lines[..|lines| - 1], keep)| + (if keep(lines[|lines| - 1]) then 1 else 0)
  {
    var last := |lines| - 1;
    var before := KeptPositions(lines[..last], keep);
    assert last !in before;
    if keep(lines[last]) {
      assert KeptPositions(lines, keep) == before + {last};
    } else {
      assert KeptPositions(lines, keep) == before;
    }
  }

  /** One kept line per position whose line is neither a heading nor a
      template line. */
  lemma {:induction false} WikipediaKeptLinesCount(lines: seq<string>)
    ensures |WikipediaKeptLines(lines)| == |KeptPositions(lines, KeepWikipediaLine)|
    decreases |lines|
  {
    if |lines| > 0 {
      WikipediaKeptLinesCount(lines[..|lines| - 1]);
      KeptPositionsSnoc(lines, KeepWikipediaLine);
    }
  }

  /** The kept lines are an order-preserving subsequence of the input lines,
      as many as there are positions holding a line that is neither a heading
      nor a template line, and each of them is such a line. So the loop keeps
      exactly those positions. A value is kept exactly when it occurs as such
      a line. */
  lemma {:induction false} WikipediaKeptLinesSpec(lines: seq<string>)
    ensures IsSubsequence(WikipediaKeptLines(lines), lines)
    ensures |WikipediaKeptLines(lines)| == |KeptPositions(lines, KeepWikipediaLine)|
    ensures forall l :: l in WikipediaKeptLines(lines) <==> l in lines && KeepWikipediaLine(l)
    decreases |lines|
  {
    WikipediaKeptLinesCount(lines);
    if |lines| > 0 {
      var init := lines[..|lines| - 1];
      var last := lines[|lines| - 1];
      WikipediaKeptLinesSpec(init);
      assert lines == init + [last];
      var kept := WikipediaKeptLines(lines);
      if KeepWikipediaLine(last) {
        assert kept[..|kept| - 1] == WikipediaKeptLines(init);
      }
    }
  }

  /** Every line of the cleaned text, trimmed, is neither a `==` heading nor
      a `|` template line; the cleaned text is the kept lines joined by
      newlines, kept unchanged and in their original order. */
  lemma WikipediaCleanLines(text: string)
    ensures var lines := Split(RemoveMarkers(text));
      var kept := WikipediaKeptLines(lines);
      WikipediaClean(text) == Join(kept, "\n") &&
      IsSubsequence(kept, lines) &&
      forall k :: 0 <= k < |Split(WikipediaClean(text))| ==>
        KeepWikipediaLine(Split(WikipediaClean(text))[k])
  {
    var lines := Split(RemoveMarkers(text));
    var kept := WikipediaKeptLines(lines);
    WikipediaKeptLinesSpec(lines);
    if |kept| > 0 {
      SplitJoin(kept);
    } else {
      assert Split("") == [""];
      assert Strip("") == "";
    }
  }

  /** A single line of input stays a single line. */
  lemma WikipediaCleanNoNewline(text: string)
    requires '\n' !in text
    ensures '\n' !in WikipediaClean(text)
  {
    var t := RemoveMarkers(text);
    RemoveMarkersNoNewline(text);
    SplitNoNewline(t);
    assert [t][..0] == [];
  }

  /** Text that stays a single ordinary line after marker removal comes out
      as that line. */
  lemma WikipediaCleanOneLine(text: string)
    requires '\n' !in RemoveMarkers(text) && KeepWikipediaLine(RemoveMarkers(text))
    ensures WikipediaClean(text) == RemoveMarkers(text)
  {
    var t := RemoveMarkers(text);
    SplitNoNewline(t);
    assert [t][..0] == [];
  }

  /** Neither `[]` nor the empty line is a heading or a template line. */
  lemma EmptyBracketsKept()
    ensures KeepWikipediaLine("[]") && KeepWikipediaLine("")
  {
    StripTrimmed("[]");
    assert Strip("") == "";
  }

  /** Cleaning twice can differ from cleaning once: the first pass turns
      `[[1]]` into `[]`, the second deletes that too. */
  lemma WikipediaCleanNotIdempotent()
    ensures WikipediaClean("[[1]]") == "[]"
    ensures WikipediaClean("[]") == ""
    ensures WikipediaClean(WikipediaClean("[[1]]")) != WikipediaClean("[[1]]")
  {
    RemoveMarkersSinglePass();
    EmptyBracketsKept();
    WikipediaCleanOneLine("[[1]]");
    WikipediaCleanOneLine("[]");
  }

  /** A marker at the very end of marker-free text is deleted. */
  lemma RemoveTrailingMarker(plain: string, marker: string)
    requires '[' !in plain && IsMarker(marker)
    ensures RemoveMarkers(plain + marker) == plain
  {
    RemoveMarkersKeepsPlainText(plain, marker);
    RemoveMarkersDropsMarker(marker, "");
    assert marker + "" == marker;
    assert plain + "" == plain;
  }

  /** The inductive step of `WikipediaKeptLinesCons`: a last line added
      after `rest` is kept or dropped on its own. */
  lemma WikipediaKeptLinesConsStep(first: string, rest: seq<string>)
    requires |rest| > 0
    requires WikipediaKeptLines([first] + rest[..|rest| - 1]) ==
      (if KeepWikipediaLine(first) then [first] else []) + WikipediaKeptLines(rest[..|rest| - 1])
    ensures WikipediaKeptLines([first] + rest) ==
      (if KeepWikipediaLine(first) then [first] else []) + WikipediaKeptLines(rest)
  {
    var init := rest[..|rest| - 1];
    var head: seq<string> := if KeepWikipediaLine(first) then [first] else [];
    ConsDropLast(first, rest);
    AppendAssoc(head, WikipediaKeptLines(init),
      if KeepWikipediaLine(rest[|rest| - 1]) then [rest[|rest| - 1]] else []);
  }

  /** Dropping the last element commutes with putting one in front. */
  lemma ConsDropLast<T>(x: T, r: seq<T>)
    requires |r| > 0
    ensures ([x] + r)[..|r|] == [x] + r[..|r| - 1]
    ensures ([x] + r)[|r|] == r[|r| - 1]
  {
  }

  /** Concatenation is associative. */
  lemma AppendAssoc<T>(a: seq<T>, b: seq<T>, c: seq<T>)
    ensures a + b + c == a + (b + c)
  {
  }

  /** The kept lines of a text are those of its first line followed by those
      of the rest. */
  lemma {:induction false} WikipediaKeptLinesCons(first: string, rest: seq<string>)
    ensures WikipediaKeptLines([first] + rest) ==
      (if KeepWikipediaLine(first) then [first] else []) + WikipediaKeptLines(rest)
    decreases |rest|
  {
    if |rest| == 0 {
      assert [first] + rest == [first];
      assert [first][..0] == [];
    } else {
      WikipediaKeptLinesCons(first, rest[..|rest| - 1]);
      WikipediaKeptLinesConsStep(first, rest);
    }
  }

  /** Four newline-free lines, each followed by a newline, split into those
      lines and a final empty one. */
  lemma SplitFourLines(a: string, b: string, c: string, d: string)
    requires '\n' !in a && '\n' !in b && '\n' !in c && '\n' !in d
    ensures Split(a + "\n" + (b + "\n" + (c + "\n" + (d + "\n" + ""))))
      == [a] + ([b] + ([c] + ([d] + [""])))
  {
    SplitLine(d, "");
    SplitLine(c, d + "\n" + "");
    SplitLine(b, c + "\n" + (d + "\n" + ""));
    SplitLine(a, b + "\n" + (c + "\n" + (d + "\n" + "")));
  }

  /** Of an intro line, a heading, a template line, a body line and an empty
      line, the intro, the body and the empty line are kept. */
  lemma KeptArticleLines(intro: string, heading: string, template: string, body: string)
    requires KeepWikipediaLine(intro) && !KeepWikipediaLine(heading)
    requires !KeepWikipediaLine(template) && KeepWikipediaLine(body)
    ensures WikipediaKeptLines([intro] + ([heading] + ([template] + ([body] + [""]))))
      == [intro] + ([body] + [""])
  {
    EmptyBracketsKept();
    WikipediaKeptLinesCons("", []);
    WikipediaKeptLinesCons(body, [""]);
    WikipediaKeptLinesCons(template, [body] + [""]);
    WikipediaKeptLinesCons(heading, [template] + ([body] + [""]));
    WikipediaKeptLinesCons(intro, [heading] + ([template] + ([body] + [""])));
  }

  /** Three lines joined by newlines. */
  lemma JoinThreeLines(a: string, b: string, c: string)
    ensures Join([a] + ([b] + [c]), "\n") == a + "\n" + (b + "\n" + c)
  {
    var parts := [a] + ([b] + [c]);
    assert parts[0] == a && parts[1..] == [b] + [c];
    assert ([b] + [c])[0] == b && ([b] + [c])[1..] == [c];
    assert Join([c], "\n") == c;
    assert Join([b] + [c], "\n") == b + "\n" + c;
  }

  /** An article of four lines and a trailing citation marker: the marker
      goes, the heading and template lines go, and the line the marker stood
      on stays behind as an empty last line. */
  lemma WikipediaCleanArticle(intro: string, heading: string, template: string, body: string, marker: string)
    requires '\n' !in intro && '\n' !in heading && '\n' !in template && '\n' !in body
    requires '[' !in intro && '[' !in heading && '[' !in template && '[' !in body
    requires KeepWikipediaLine(intro) && IsHeadingLine(heading) && IsTemplateLine(template) && KeepWikipediaLine(body)
    requires IsMarker(marker)
    ensures WikipediaClean(intro + "\n" + heading + "\n" + template + "\n" + body + "\n" + marker)
      == intro + "\n" + body + "\n"
  {
    var plain := intro + "\n" + (heading + "\n" + (template + "\n" + (body + "\n" + "")));
    var input := intro + "\n" + heading + "\n" + template + "\n" + body + "\n" + marker;
    assert input == plain + marker;
    assert '[' !in plain;
    RemoveTrailingMarker(plain, marker);
    var lines := [intro] + ([heading] + ([template] + ([body] + [""])));
    SplitFourLines(intro, heading, template, body);
    var kept := [intro] + ([body] + [""]);
    KeptArticleLines(intro, heading, template, body);
    JoinThreeLines(intro, body, "");
    calc {
      WikipediaClean(input);
      Join(WikipediaKeptLines(Split(plain)), "\n");
      Join(WikipediaKeptLines(lines), "\n");
      Join(kept, "\n");
      intro + "\n" + (body + "\n" + "");
      { assert body + "\n" + "" == body + "\n"; }
      intro + "\n" + body + "\n";
    }
  }

  // ---------------------------------------------------------------------------
  // Newline collapse: the pattern \n{3,} replaced by two newlines
  // ---------------------------------------------------------------------------

  /** The number of newlines at the start of `s`. */
  function LeadingNewlines(s: string): (n: nat)
    ensures n <= |s|
    ensures forall i :: 0 <= i < n ==> s[i] == '\n'
    ensures n == |s| || s[n] != '\n'
    decreases |s|
  {
    if |s| > 0 && s[0] == '\n' then 1 + LeadingNewlines(s[1..]) else 0
  }

  /** `re.sub(r'\n{3,}', '\n\n', s)`: each maximal run of three or more
      newlines becomes exactly two; shorter runs and other text are kept. */
  function CollapseNewlines(s: string): (r: string)
    ensures |s| > 0 && s[0] != '\n' ==> |r| > 0 && r[0] == s[0]
    ensures s == [] ==> r == []
    decreases |s|
  {
    if |s| == 0 then ""
    else
      var n := LeadingNewlines(s);
      if n == 0 then [s[0]] + CollapseNewlines(s[1..])
      else if n >= 3 then "\n\n" + CollapseNewlines(s[n..])
      else s[..n] + CollapseNewlines(s[n..])
  }

  /** Three newlines in a row start at index `i`. */
  predicate TripleNewlineAt(s: string, i: int) {
    0 <= i && i + 2 < |s| && s[i] == '\n' && s[i + 1] == '\n' && s[i + 2] == '\n'
  }

  ghost predicate NoTripleNewline(s: string) {
    forall i :: !TripleNewlineAt(s, i)
  }

  /** Gluing two such strings creates no run of three when the second does
      not start with a newline. */
  lemma NoTripleNewlineConcat(p: string, q: string)
    requires NoTripleNewline(p) && NoTripleNewline(q)
    requires p == [] || q == [] || p[|p| - 1] != '\n' || q[0] != '\n'
    ensures NoTripleNewline(p + q)
  {
    forall i | 0 <= i
      ensures !TripleNewlineAt(p + q, i)
    {
      if i >= |p| {
        assert !TripleNewlineAt(q, i - |p|);
      } else if i + 2 < |p| {
        assert !TripleNewlineAt(p, i);
      } else if i + 2 < |p + q| {
        assert (p + q)[|p| - 1] == p[|p| - 1];
        assert (p + q)[|p|] == q[0];
      }
    }
  }

  /** A contiguous piece of such a string has no run of three either. */
  lemma NoTripleNewlineSlice(s: string, lo: int, hi: int)
    requires 0 <= lo <= hi <= |s| && NoTripleNewline(s)
    ensures NoTripleNewline(s[lo..hi])
  {
    forall i | 0 <= i
      ensures !TripleNewlineAt(s[lo..hi], i)
    {
      assert !TripleNewlineAt(s, lo + i);
    }
  }

  /** Stripping creates no run of three newlines. */
  lemma StripNoTriple(s: string)
    requires NoTripleNewline(s)
    ensures NoTripleNewline(Strip(s))
  {
    var lo := |s| - |StripLeft(s)|;
    StripSlice(s, lo);
    var r := Strip(s);
    forall i | 0 <= i
      ensures !TripleNewlineAt(r, i)
    {
      assert !TripleNewlineAt(s, lo + i);
      if i + 2 < |r| {
        assert r[i] == s[lo + i] && r[i + 1] == s[lo + i + 1] && r[i + 2] == s[lo + i + 2];
      }
    }
  }

  /** After the collapse no three newlines follow each other. */
  lemma {:induction false} CollapseNoTriple(s: string)
    ensures NoTripleNewline(CollapseNewlines(s))
    decreases |s|
  {
    if |s| > 0 {
      var n := LeadingNewlines(s);
      if n == 0 {
        CollapseNoTriple(s[1..]);
        NoTripleNewlineConcat([s[0]], CollapseNewlines(s[1..]));
      } else {
        CollapseNoTriple(s[n..]);
        var p := if n >= 3 then "\n\n" else s[..n];
        assert NoTripleNewline(p);
        NoTripleNewlineConcat(p, CollapseNewlines(s[n..]));
      }
    }
  }

  /** Text without a run of three newlines is left as it is. */
  lemma {:induction false} CollapseUnchanged(s: string)
    requires NoTripleNewline(s)
    ensures CollapseNewlines(s) == s
    decreases |s|
  {
    if |s| > 0 {
      var n := LeadingNewlines(s);
      if |s| >= 3 {
        assert !TripleNewlineAt(s, 0);
      }
      assert n <= 2;
      NoTripleNewlineSlice(s, n, |s|);
      assert s[n..|s|] == s[n..];
      if n == 0 {
        NoTripleNewlineSlice(s, 1, |s|);
        assert s[1..|s|] == s[1..];
        CollapseUnchanged(s[1..]);
        assert [s[0]] + s[1..] == s;
      } else {
        CollapseUnchanged(s[n..]);
        assert s[..n] + s[n..] == s;
      }
    }
  }

  // ---------------------------------------------------------------------------
  // clean_generic_text
  // ---------------------------------------------------------------------------

  /** Phrases whose presence marks a whole page as a bot check or boilerplate. */
  const JunkPhrases: seq<string> := [
    "Verifying you are human",
    "needs to review the security of your connection",
    "Enable JavaScript and cookies to continue",
    "This article needs additional citations for verification",
    "Was this article helpful?",
    "Subscribe to our newsletter"
  ]

  const MinLineLength := 50

  predicate HasJunk(text: string) {
    exists j :: 0 <= j < |JunkPhrases| && Contains(text, JunkPhrases[j])
  }

  /** A line the generic loop keeps: long once trimmed, or holding a brace. */
  predicate QualifiesGeneric(line: string) {
    |Strip(line)| >= MinLineLength || '{' in line || '}' in line
  }

  /** A non-empty line with no whitespace at either end. */
  predicate IsTrimmedLine(l: string) {
    l != [] && !IsSpace(l[0]) && !IsSpace(l[|l| - 1])
  }

  /** A line holding a curly brace is not whitespace only. */
  lemma BraceNotBlank(line: string)
    requires '{' in line || '}' in line
    ensures !IsBlank(line)
  {
    var i :| 0 <= i < |line| && (line[i] == '{' || line[i] == '}');
    assert !IsSpace(line[i]);
  }

  /** The trimmed forms of the lines the generic loop keeps, in order. */
  function GenericKeptLines(lines: seq<string>): (kept: seq<string>)
    ensures |kept| <= |lines|
    ensures forall k :: 0 <= k < |kept| ==> IsTrimmedLine(kept[k])
    decreases |lines|
  {
    if |lines| == 0 then []
    else
      var last := lines[|lines| - 1];
      var init := GenericKeptLines(lines[..|lines| - 1]);
      if QualifiesGeneric(last) then
        assert Strip(last) != [] && IsTrimmedLine(Strip(last)) by {
          StripSpec(last);
          if |Strip(last)| < MinLineLength {
            BraceNotBlank(last);
          }
        }
        init + [Strip(last)]
      else init
  }

  /** `clean_generic_text(text)`. */
  function GenericClean(text: string): (r: string)
    ensures r == [] || (!IsSpace(r[0]) && !IsSpace(r[|r| - 1]))
  {
    if HasJunk(text) then ""
    else
      var collapsed := CollapseNewlines(Join(GenericKeptLines(Split(text)), "\n"));
      StripSpec(collapsed);
      Strip(collapsed)
  }

  method CleanGenericText(text: string) returns (cleaned: string)
    ensures HasJunk(text) ==> cleaned == ""
    ensures cleaned == GenericClean(text)
  {
    for j := 0 to |JunkPhrases|
      invariant forall k :: 0 <= k < j ==> !Contains(text, JunkPhrases[k])
    {
      if Contains(text, JunkPhrases[j]) {
        return "";
      }
    }
    var lines := Split(text);
    var keptLines: seq<string> := [];
    for i := 0 to |lines|
      invariant keptLines == GenericKeptLines(lines[..i])
    {
      assert lines[..i + 1][..i] == lines[..i];
      var line := lines[i];
      if |Strip(line)| < MinLineLength && '{' !in line && '}' !in line {
        continue;
      }
      keptLines := keptLines + [Strip(line)];
    }
    assert lines[..|lines|] == lines;
    var fullText := Join(keptLines, "\n");
    cleaned := Strip(CollapseNewlines(fullText));
  }

  /** A junk phrase anywhere in the input, whatever surrounds it, makes the
      output exactly empty. */
  lemma GenericRejectsJunk(before: string, j: int, after: string)
    requires 0 <= j < |JunkPhrases|
    ensures GenericClean(before + JunkPhrases[j] + after) == ""
  {
    var s := before + JunkPhrases[j] + after;
    var p := JunkPhrases[j];
    assert s[|before|..|before| + |p|] == p;
    assert OccursAt(s, p, |before|);
    ContainsIff(s, p);
  }

  /** The trimmed kept lines are the qualifying lines, trimmed, in their
      original relative order: an order-preserving subsequence of the trimmed
      lines with one entry per qualifying position. */
  lemma GenericKeptLinesSpec(lines: seq<string>)
    ensures IsSubsequence(GenericKeptLines(lines), StripAll(lines))
    ensures |GenericKeptLines(lines)| == |KeptPositions(lines, QualifiesGeneric)|
    ensures forall l :: l in GenericKeptLines(lines) <==>
      exists k :: 0 <= k < |lines| && QualifiesGeneric(lines[k]) && Strip(lines[k]) == l
  {
    GenericKeptLinesOrder(lines);
    forall l | l in GenericKeptLines(lines)
      ensures exists k :: 0 <= k < |lines| && QualifiesGeneric(lines[k]) && Strip(lines[k]) == l
    {
      GenericKeptLinesSound(lines, l);
    }
    forall l | exists k :: 0 <= k < |lines| && QualifiesGeneric(lines[k]) && Strip(lines[k]) == l
      ensures l in GenericKeptLines(lines)
    {
      var k :| 0 <= k < |lines| && QualifiesGeneric(lines[k]) && Strip(lines[k]) == l;
      GenericKeptLinesComplete(lines, k);
    }
  }

  /** The kept lines are an order-preserving subsequence of the trimmed
      lines, one per qualifying position. */
  lemma {:induction false} GenericKeptLinesOrder(lines: seq<string>)
    ensures IsSubsequence(GenericKeptLines(lines), StripAll(lines))
    ensures |GenericKeptLines(lines)| == |KeptPositions(lines, QualifiesGeneric)|
    decreases |lines|
  {
    if |lines| > 0 {
      var init := lines[..|lines| - 1];
      var kept := GenericKeptLines(lines);
      var initKept := GenericKeptLines(init);
      var all := StripAll(lines);
      GenericKeptLinesOrder(init);
      KeptPositionsSnoc(lines, QualifiesGeneric);
      assert all[..|all| - 1] == StripAll(init);
      if QualifiesGeneric(lines[|lines| - 1]) {
        assert kept == initKept + [Strip(lines[|lines| - 1])];
        assert kept[..|kept| - 1] == initKept;
        assert kept[|kept| - 1] == all[|all| - 1];
      } else {
        assert kept == initKept;
        assert IsSubsequence(kept, all[..|all| - 1]);
      }
    }
  }

  /** Each kept line is the trimmed form of a qualifying input line. */
  lemma {:induction false} GenericKeptLinesSound(lines: seq<string>, l: string)
    requires l in GenericKeptLines(lines)
    ensures exists k :: 0 <= k < |lines| && QualifiesGeneric(lines[k]) && Strip(lines[k]) == l
    decreases |lines|
  {
    var init := lines[..|lines| - 1];
    var last := lines[|lines| - 1];
    if QualifiesGeneric(last) && l == Strip(last) {
      assert QualifiesGeneric(lines[|lines| - 1]) && Strip(lines[|lines| - 1]) == l;
    } else {
      assert l in GenericKeptLines(init);
      GenericKeptLinesSound(init, l);
      var k :| 0 <= k < |init| && QualifiesGeneric(init[k]) && Strip(init[k]) == l;
      assert lines[k] == init[k];
    }
  }

  /** Each qualifying input line is kept, trimmed. */
  lemma {:induction false} GenericKeptLinesComplete(lines: seq<string>, k: int)
    requires 0 <= k < |lines| && QualifiesGeneric(lines[k])
    ensures Strip(lines[k]) in GenericKeptLines(lines)
    decreases |lines|
  {
    var init := lines[..|lines| - 1];
    if k < |lines| - 1 {
      assert init[k] == lines[k];
      GenericKeptLinesComplete(init, k);
    }
  }

  /** Each line trimmed. */
  function StripAll(lines: seq<string>): (r: seq<string>)
    ensures |r| == |lines| && forall k :: 0 <= k < |lines| ==> r[k] == Strip(lines[k])
  {
    seq(|lines|, k requires 0 <= k < |lines| => Strip(lines[k]))
  }

  /** Kept lines never contain a newline when the input lines do not. */
  lemma {:induction false} GenericKeptLinesNoNewline(lines: seq<string>)
    requires forall k :: 0 <= k < |lines| ==> '\n' !in lines[k]
    ensures forall k :: 0 <= k < |GenericKeptLines(lines)| ==> '\n' !in GenericKeptLines(lines)[k]
    decreases |lines|
  {
    if |lines| > 0 {
      GenericKeptLinesNoNewline(lines[..|lines| - 1]);
      StripKeeps(lines[|lines| - 1], '\n');
    }
  }

  /** Trimmed, newline-free lines joined by newlines: the result starts with
      the first line's first character, ends with the last line's last one,
      and has no run of three newlines. */
  lemma {:induction false} JoinTrimmedLines(lines: seq<string>)
    requires |lines| > 0
    requires forall k :: 0 <= k < |lines| ==> IsTrimmedLine(lines[k])
    requires forall k :: 0 <= k < |lines| ==> '\n' !in lines[k]
    ensures IsTrimmedLine(lines[0]) && IsTrimmedLine(lines[|lines| - 1])
    ensures var j := Join(lines, "\n");
      |j| > 0 && j[0] == lines[0][0] &&
      j[|j| - 1] == lines[|lines| - 1][|lines[|lines| - 1]| - 1] &&
      NoTripleNewline(j)
    decreases |lines|
  {
    var first := lines[0];
    if |lines| == 1 {
      assert forall i :: 0 <= i < |first| ==> first[i] != '\n';
    } else {
      var rest := Join(lines[1..], "\n");
      JoinTrimmedLines(lines[1..]);
      var p := first + "\n";
      assert forall i :: 0 <= i < |first| ==> p[i] != '\n';
      assert NoTripleNewline(p) by {
        forall i | 0 <= i ensures !TripleNewlineAt(p, i) {
          if i + 2 < |p| {
            assert p[i] != '\n';
          }
        }
      }
      assert !IsSpace(rest[0]);
      NoTripleNewlineConcat(p, rest);
      assert Join(lines, "\n") == p + rest;
    }
  }

  /** Without junk, the generic cleaner's output is exactly the kept lines
      joined by newlines: the collapse and the final strip change nothing,
      because every kept line is non-empty and already trimmed. */
  lemma GenericCleanIsJoin(text: string)
    requires !HasJunk(text)
    ensures GenericClean(text) == Join(GenericKeptLines(Split(text)), "\n")
  {
    var kept := GenericKeptLines(Split(text));
    GenericKeptLinesNoNewline(Split(text));
    var j := Join(kept, "\n");
    if |kept| > 0 {
      JoinTrimmedLines(kept);
      CollapseUnchanged(j);
      assert CollapseNewlines(j) == j;
      StripTrimmed(j);
    } else {
      assert CollapseNewlines(j) == j;
    }
    assert GenericClean(text) == Strip(CollapseNewlines(j));
  }

  /** Every line of a non-empty output is, trimmed, at least 50 characters
      long or holds a curly brace, and the output lines are the trimmed
      qualifying input lines in their original order. */
  lemma GenericCleanLines(text: string)
    ensures var out := Split(GenericClean(text));
      GenericClean(text) != "" ==>
      out == GenericKeptLines(Split(text)) &&
      IsSubsequence(out, StripAll(Split(text))) &&
      forall k :: 0 <= k < |out| ==> QualifiesGeneric(out[k])
  {
    if GenericClean(text) == "" {
      return;
    }
    var lines := Split(text);
    var kept := GenericKeptLines(lines);
    GenericCleanIsJoin(text);
    GenericKeptLinesNoNewline(lines);
    SplitJoin(kept);
    assert Split(GenericClean(text)) == kept;
    GenericKeptLinesSpec(lines);
    GenericKeptLinesQualify(lines);
  }

  /** Each kept line passes the same test again: trimmed it is long, or it
      holds a brace. */
  lemma {:induction false} GenericKeptLinesQualify(lines: seq<string>)
    ensures forall k :: 0 <= k < |GenericKeptLines(lines)| ==> QualifiesGeneric(GenericKeptLines(lines)[k])
    decreases |lines|
  {
    if |lines| > 0 {
      var last := lines[|lines| - 1];
      var init := GenericKeptLines(lines[..|lines| - 1]);
      var kept := GenericKeptLines(lines);
      GenericKeptLinesQualify(lines[..|lines| - 1]);
      forall k | 0 <= k < |kept|
        ensures QualifiesGeneric(kept[k])
      {
        if k < |init| {
          assert kept[k] == init[k];
        } else {
          StripTrimmed(Strip(last));
          StripKeeps(last, '{');
          StripKeeps(last, '}');
        }
      }
    }
  }

  /** The output never holds three newlines in a row, and has no whitespace
      at either end. */
  lemma GenericCleanShape(text: string)
    ensures NoTripleNewline(GenericClean(text))
    ensures var r := GenericClean(text); r == [] || (!IsSpace(r[0]) && !IsSpace(r[|r| - 1]))
  {
    if !HasJunk(text) {
      var c := CollapseNewlines(Join(GenericKeptLines(Split(text)), "\n"));
      CollapseNoTriple(Join(GenericKeptLines(Split(text)), "\n"));
      StripNoTriple(c);
    }
  }

  /** When no line qualifies the output is empty. */
  lemma GenericCleanEmpty(text: string)
    requires forall k :: 0 <= k < |Split(text)| ==> !QualifiesGeneric(Split(text)[k])
    ensures GenericClean(text) == ""
  {
    GenericKeptLinesEmpty(Split(text));
    assert Strip("") == "";
  }

  lemma {:induction false} GenericKeptLinesEmpty(lines: seq<string>)
    requires forall k :: 0 <= k < |lines| ==> !QualifiesGeneric(lines[k])
    ensures GenericKeptLines(lines) == []
    decreases |lines|
  {
    if |lines| > 0 {
      GenericKeptLinesEmpty(lines[..|lines| - 1]);
    }
  }

  /** A one-line input shorter than 50 characters and without braces cleans
      to nothing, as the fetchers' non-error "nothing found" messages do. */
  lemma GenericCleanDropsShortLine(text: string)
    requires '\n' !in text && |text| < MinLineLength && '{' !in text && '}' !in text
    ensures GenericClean(text) == ""
  {
    SplitNoNewline(text);
    GenericCleanEmpty(text);
  }
}
