/** An optional value, for the record keys that may be absent. */
module Wrappers {
  datatype Option<+T> = None | Some(value: T)
}

/**
 * The steps that run.py's `run_scraping_task` and app/tasks.py's
 * `generate_qa_task` share: turning each fetcher's raw text into that
 * source's cleaned contribution, joining the contributions, deciding between
 * success and failure, and the result record.
 */
module Pipeline {
  import opened Wrappers
  import opened Strings
  import opened TextCleaner

  /** The three sources, in the fixed order they are fetched and joined. */
  datatype Source = Wikipedia | GNews | SerpApi

  /** Fetchers report failure inside the text channel with this prefix. */
  const ErrorPrefix := "ERROR:"
  const ParagraphSeparator := "\n\n"
  const SourcesUsed: seq<string> := ["Wikipedia", "GNews", "SerpAPI"]
  const NoCleanDataMessage := "Could not retrieve any clean data for the topic from any source."

  /** The progress labels of the three steps. */
  const StepWikipedia := "1/3 - Fetching & cleaning Wikipedia..."
  const StepGNews := "2/3 - Fetching & cleaning GNews..."
  const StepWebSearch := "3/3 - Fetching & cleaning web search..."
  const Success := "SUCCESS"
  const Failure := "FAILURE"

  /** The record a successful run produces. */
  datatype FinalResult = FinalResult(
    taskId: string,
    topic: string,
    timestampUtc: string,
    sourcesUsed: seq<string>,
    characterCount: nat,
    content: string)

  /** What every result record holds: the three source names, a character
      count equal to the length of the content, and content that is not
      empty or whitespace only. */
  predicate GoodResult(r: FinalResult) {
    r.sourcesUsed == SourcesUsed && r.characterCount == |r.content| && !IsBlank(r.content)
  }

  /** The cleaned text one source contributes for its raw fetcher output. */
  function SourceText(source: Source, raw: string): string {
    if StartsWith(raw, ErrorPrefix) then ""
    else if source == Wikipedia then WikipediaClean(raw)
    else GenericClean(raw)
  }

  /** One fetch-and-clean step: an `ERROR:` result contributes nothing and is
      not cleaned; otherwise the source's own cleaner runs, through its loop
      method. */
  method CleanSource(source: Source, raw: string) returns (text: string)
    ensures text == SourceText(source, raw)
  {
    if StartsWith(raw, ErrorPrefix) {
      text := "";
    } else if source == Wikipedia {
      text := CleanWikipediaText(raw);
    } else {
      text := CleanGenericText(raw);
    }
  }

  /** How many of the texts are empty. */
  function CountEmpty(texts: seq<string>): nat
    decreases |texts|
  {
    if |texts| == 0 then 0
    else (if texts[0] == "" then 1 else 0) + CountEmpty(texts[1..])
  }

  /** `filter(None, texts)`: exactly the non-empty texts, in their order. It
      is an order-preserving subsequence without empty texts that leaves out
      only the empty ones. */
  function NonEmpty(texts: seq<string>): (r: seq<string>)
    ensures IsSubsequence(r, texts)
    ensures |r| == |texts| - CountEmpty(texts)
    ensures forall k :: 0 <= k < |r| ==> r[k] != ""
    decreases |texts|
  {
    if |texts| == 0 then []
    else
      var rest := NonEmpty(texts[1..]);
      assert [texts[0]] + texts[1..] == texts;
      if texts[0] == "" then
        SubsequenceSkip(texts[0], rest, texts[1..]);
        rest
      else
        SubsequenceCons(texts[0], rest, texts[1..]);
        [texts[0]] + rest
  }

  /** `"\n\n".join(filter(None, texts))`. */
  function Combine(texts: seq<string>): string {
    Join(NonEmpty(texts), ParagraphSeparator)
  }

  /** Two pieces of text with a blank line between them; an empty piece is
      simply left out. */
  function Glue(a: string, b: string): string {
    if a == "" then b else if b == "" then a else a + ParagraphSeparator + b
  }

  /** The joined text is built front to back: each text is glued in front of
      the join of the texts after it. */
  lemma CombineCons(first: string, rest: seq<string>)
    ensures Combine([first] + rest) == Glue(first, Combine(rest))
  {
    var texts := [first] + rest;
    assert texts[1..] == rest;
    var tail := NonEmpty(rest);
    if tail != [] {
      assert |Join(tail, ParagraphSeparator)| >= |tail[0]| > 0;
    }
    if first == "" {
      assert NonEmpty(texts) == tail;
    } else {
      var parts := [first] + tail;
      assert NonEmpty(texts) == parts;
      if tail != [] {
        assert parts[1..] == tail;
        assert Join(parts, ParagraphSeparator) == first + ParagraphSeparator + Join(tail, ParagraphSeparator);
      }
    }
  }

  /** With three sources the joined text is the Wikipedia text, then the GNews
      text, then the web text, a blank line between any two that are present. */
  lemma CombineThree(wiki: string, gnews: string, web: string)
    ensures Combine([wiki, gnews, web]) == Glue(wiki, Glue(gnews, web))
  {
    CombineCons(wiki, [gnews, web]);
    assert [wiki, gnews, web] == [wiki] + [gnews, web];
    CombineCons(gnews, [web]);
    assert [gnews, web] == [gnews] + [web];
    CombineCons(web, []);
    assert [web] == [web] + [];
  }

  lemma IsBlankConcat(a: string, b: string)
    ensures IsBlank(a + b) <==> IsBlank(a) && IsBlank(b)
  {
    if IsBlank(a + b) {
      forall i | 0 <= i < |a| ensures IsSpace(a[i]) {
        assert a[i] == (a + b)[i];
      }
      forall i | 0 <= i < |b| ensures IsSpace(b[i]) {
        assert b[i] == (a + b)[|a| + i];
      }
    }
  }

  /** The joined text is empty or whitespace only exactly when every text is. */
  lemma {:induction false} CombineBlankIff(texts: seq<string>)
    ensures IsBlank(Combine(texts)) <==> forall k :: 0 <= k < |texts| ==> IsBlank(texts[k])
    decreases |texts|
  {
    if |texts| > 0 {
      var rest := texts[1..];
      CombineBlankIff(rest);
      CombineCons(texts[0], rest);
      assert [texts[0]] + rest == texts;
      var c := Combine(rest);
      if texts[0] != "" && c != "" {
        IsBlankConcat(texts[0], ParagraphSeparator + c);
        IsBlankConcat(ParagraphSeparator, c);
        assert texts[0] + ParagraphSeparator + c == texts[0] + (ParagraphSeparator + c);
      }
      if forall k :: 0 <= k < |rest| ==> IsBlank(rest[k]) {
        if IsBlank(texts[0]) {
          forall k | 0 <= k < |texts| ensures IsBlank(texts[k]) {
            if k > 0 {
              assert texts[k] == rest[k - 1];
            }
          }
        }
      }
      if forall k :: 0 <= k < |texts| ==> IsBlank(texts[k]) {
        forall k | 0 <= k < |rest| ensures IsBlank(rest[k]) {
          assert rest[k] == texts[k + 1];
        }
      }
    }
  }

  /** The text the three sources together yield for the three raw results. */
  function CombinedText(rawWiki: string, rawGNews: string, rawWeb: string): string {
    Combine([SourceText(Wikipedia, rawWiki), SourceText(GNews, rawGNews), SourceText(SerpApi, rawWeb)])
  }

  /** The two ways a run ends: with joined text worth keeping, or with none. */
  datatype Aggregated = Combined(text: string) | NoCleanData

  /** The joining step followed by the `if not combined_text.strip()` test. */
  function Aggregate(texts: seq<string>): (r: Aggregated)
    ensures r.NoCleanData? <==> forall k :: 0 <= k < |texts| ==> IsBlank(texts[k])
    ensures r.NoCleanData? <==> IsBlank(Combine(texts))
    ensures r.Combined? ==> r.text == Combine(texts) && !IsBlank(r.text)
  {
    CombineBlankIff(texts);
    var combined := Combine(texts);
    StripSpec(combined);
    if Strip(combined) == "" then NoCleanData else Combined(combined)
  }

  /** The generic cleaner's output is empty or has visible text, never
      whitespace only. */
  lemma GenericCleanNeverBlank(raw: string)
    ensures IsBlank(GenericClean(raw)) ==> GenericClean(raw) == ""
  {
    var r := GenericClean(raw);
    if r != "" {
      assert !IsSpace(r[0]);
    }
  }

  /** A run fails exactly when the Wikipedia contribution is empty or
      whitespace only and both generic sources contribute nothing. A
      Wikipedia text made of blank lines alone does not rescue the run. */
  lemma PipelineFailsIff(rawWiki: string, rawGNews: string, rawWeb: string)
    ensures IsBlank(CombinedText(rawWiki, rawGNews, rawWeb)) <==>
      IsBlank(SourceText(Wikipedia, rawWiki)) &&
      SourceText(GNews, rawGNews) == "" && SourceText(SerpApi, rawWeb) == ""
  {
    var texts := [SourceText(Wikipedia, rawWiki), SourceText(GNews, rawGNews), SourceText(SerpApi, rawWeb)];
    CombineBlankIff(texts);
    GenericCleanNeverBlank(rawGNews);
    GenericCleanNeverBlank(rawWeb);
    assert IsBlank(texts[0]) == IsBlank(SourceText(Wikipedia, rawWiki));
    assert IsBlank(texts[1]) <==> SourceText(GNews, rawGNews) == "";
    assert IsBlank(texts[2]) <==> SourceText(SerpApi, rawWeb) == "";
  }

  /** Three fetcher errors always make the run fail. */
  lemma AllErrorsFail(rawWiki: string, rawGNews: string, rawWeb: string)
    requires StartsWith(rawWiki, ErrorPrefix) && StartsWith(rawGNews, ErrorPrefix) && StartsWith(rawWeb, ErrorPrefix)
    ensures CombinedText(rawWiki, rawGNews, rawWeb) == ""
  {
    CombineThree("", "", "");
  }
}
