# qa-scraper-api core in Dafny

This is a model of the part of qa-scraper-api that turns scraped text into a
question-answering corpus. It has three parts:

- **The two text cleaners** of `app/text_cleaner.py`.
  - `clean_wikipedia_text` deletes the citation and edit markers. Then it drops
    `==` section headings and `|` template lines.
  - `clean_generic_text` discards a whole page that holds a junk phrase. Then it
    keeps only trimmed lines that are long or hold a curly brace, collapses newline
    runs and trims the result.

  Each cleaner is a method with the source's loop. Each method is proved equal to
  a specification function (`WikipediaClean`, `GenericClean`). The properties of
  the cleaners are lemmas about those functions. The two regular-expression
  substitutions are written out as left-to-right passes (`RemoveMarkers`,
  `CollapseNewlines`).
- **The threaded server of `run.py`** (`server.dfy`). The `tasks` dictionary is
  the field of a class `TaskStore`. Its methods are:
  - `Generate`, which inserts a `PENDING` entry;
  - `RunScrapingTask`, the background run, which moves the entry through the
    three progress labels to `SUCCESS` or `FAILURE`;
  - the `Status` lookup.

  A ghost log records every status write, so the order of the writes can be
  stated.
- **The Celery task of `app/tasks.py`** (`celery_task.dfy`). It returns the
  sequence of `update_state` calls it makes and the dictionary it returns.

Both runs share the steps in `pipeline.dfy`:

- The ERROR-prefix test and the choice of cleaner (`SourceText`, `CleanSource`).
- The `"\n\n".join(filter(None, ...))` aggregation (`Combine`).
- The emptiness test and the result record (`FinalResult`, `GoodResult`).

`strings.dfy` models the Python `str` operations these rely on: `isspace`,
`strip`, `startswith`, `endswith`, substring `in`, `split('\n')` and `join`.

The three fetchers' results are `string` parameters. So are the fresh task id,
the clock reading and the server's base URL.

## Model

| member | source | states |
|---|---|---|
| Strings.IsSpace | app/text_cleaner.py:15 | the characters `str.isspace()` accepts, which `strip()` removes |
| Strings.StartsWith | app/text_cleaner.py:18 | `s.startswith(p)`: `p` is a prefix of `s` |
| Strings.EndsWith | app/text_cleaner.py:15 | `s.endswith(p)`: `p` is a suffix of `s` |
| Strings.StripLeft | app/text_cleaner.py:51 | `lstrip()`, never longer than its input; characterised by StripLeftSpec |
| Strings.StripRight | app/text_cleaner.py:51 | `rstrip()`, never longer than its input; characterised by StripRightSpec |
| Strings.Strip | app/text_cleaner.py:15 | `strip()` is `rstrip()` after `lstrip()` and never lengthens; characterised by StripSpec and StripSlice |
| Strings.StripLeftSpec | app/text_cleaner.py:51 | `lstrip` returns a suffix of its input that does not start with whitespace, and every dropped character is whitespace |
| Strings.StripRightSpec | app/text_cleaner.py:51 | `rstrip` returns a prefix that does not end with whitespace, and every dropped character is whitespace |
| Strings.StripSpec | app/text_cleaner.py:60 | `strip()` leaves no whitespace at either end, and its result is empty exactly when the input is whitespace only |
| Strings.StripSlice | app/text_cleaner.py:54 | the stripped string is a contiguous piece of the input with only whitespace cut on either side |
| Strings.StripTrimmed | app/text_cleaner.py:60 | stripping a string without whitespace at its ends changes nothing |
| Strings.StripKeeps | app/text_cleaner.py:54 | stripping only removes characters and keeps every non-whitespace one |
| Strings.Contains | app/text_cleaner.py:39 | `phrase in text`: the phrase is a prefix of the text or of one of its suffixes; ContainsIff is its partner |
| Strings.ContainsIff | app/text_cleaner.py:39 | the recursive substring test holds exactly when the phrase occurs at some index |
| Strings.Split | app/text_cleaner.py:11 | `split('\n')` gives at least one piece, and no piece holds a newline |
| Strings.Join | app/text_cleaner.py:22 | `sep.join(parts)`: the parts with the separator between neighbours; JoinSplit and SplitJoin pair it with Split |
| Strings.JoinSplit | app/text_cleaner.py:11 | joining the pieces of `split('\n')` with newlines gives the text back |
| Strings.SplitLine | app/text_cleaner.py:11 | a newline-free line followed by a newline splits off as one piece |
| Strings.SplitNoNewline | app/text_cleaner.py:11 | a newline-free string splits into itself alone |
| Strings.SplitJoin | app/text_cleaner.py:22 | splitting newline-free lines joined by newlines gives the lines back |
| Strings.IsSubsequence | app/text_cleaner.py:13-20 | the order-preserving selection a filter loop makes: some elements left out, the rest in their order |
| Strings.SubsequenceSkip | run.py:42 | leaving out an extra element in front keeps a subsequence a subsequence |
| Strings.SubsequenceCons | run.py:42 | keeping the same element in front of both keeps a subsequence a subsequence |
| TextCleaner.IsMarker | app/text_cleaner.py:8 | the strings the pattern matches: `[` digits `]` (the empty `[]` included), `[edit]` and `[citation needed]` |
| TextCleaner.DigitRun | app/text_cleaner.py:8 | `\d*` matches the longest run of digits at the front |
| TextCleaner.MarkerLength | app/text_cleaner.py:8 | a match found at the front of the text is a marker: `[digits]`, `[edit]` or `[citation needed]` |
| TextCleaner.MarkerLengthOfMarker | app/text_cleaner.py:8 | every marker is matched in full wherever it starts |
| TextCleaner.DigitRunExact | app/text_cleaner.py:8 | a run of `d` digits followed by a non-digit is matched with length `d` |
| TextCleaner.RemoveMarkers | app/text_cleaner.py:8 | the substitution never lengthens the text; RemoveMarkersAround shows that every marker, wherever it stands, is deleted |
| TextCleaner.RemoveMarkersAround | app/text_cleaner.py:8 | a marker anywhere in the text is deleted, and the text on each side of it is cleaned as if the other side were not there |
| TextCleaner.MarkerBracketFirstOnly | app/text_cleaner.py:8 | a marker holds its `[` only at the front |
| TextCleaner.MarkerLengthExtend | app/text_cleaner.py:8 | a match at the front of a text stays the match when more text follows |
| TextCleaner.MarkerLengthWithin | app/text_cleaner.py:8 | a match that ends inside a prefix is that prefix's own match |
| TextCleaner.MarkerNoInnerBracket | app/text_cleaner.py:8 | no match has a `[` after its first character |
| TextCleaner.MarkerLengthBeforeMarker | app/text_cleaner.py:8 | where no match starts, none starts either once a marker follows, since a match cannot run into the marker's `[` |
| TextCleaner.DropFromConcat | app/text_cleaner.py:8 | dropping the first characters of `a + b` drops them from `a` |
| TextCleaner.AroundMatchStep | app/text_cleaner.py:8 | RemoveMarkersAround's step when a match starts at the front |
| TextCleaner.AroundKeepStep | app/text_cleaner.py:8 | RemoveMarkersAround's step when the first character is kept |
| TextCleaner.RemoveMarkersPlainHead | app/text_cleaner.py:8 | a character other than `[` starts no match and is kept |
| TextCleaner.RemoveMarkersNoNewline | app/text_cleaner.py:8 | the substitution never introduces a newline |
| TextCleaner.RemoveMarkersDropsMarker | app/text_cleaner.py:8 | a marker at the front is deleted, the empty `[]` included |
| TextCleaner.RemoveMarkersKeepsPlainText | app/text_cleaner.py:8 | text without `[` passes through unchanged |
| TextCleaner.RemoveMarkersShrinks | app/text_cleaner.py:8 | a match starting anywhere makes the result strictly shorter |
| TextCleaner.RemoveMarkersUnchangedIff | app/text_cleaner.py:8 | the text is unchanged exactly when no match starts at any index |
| TextCleaner.RemoveMarkersSinglePass | app/text_cleaner.py:8 | the scan is one non-overlapping pass: `[[1]]` becomes `[]`, which a second pass would delete |
| TextCleaner.IsHeadingLine | app/text_cleaner.py:15-16 | the trimmed line starts with `==` and ends with `==` |
| TextCleaner.IsTemplateLine | app/text_cleaner.py:18-19 | the trimmed line starts with a vertical bar |
| TextCleaner.WikipediaKeptLines | app/text_cleaner.py:13-20 | every kept line is an input line that is neither a trimmed `==...==` heading nor a trimmed `\|` line |
| TextCleaner.WikipediaClean | app/text_cleaner.py:3-22 | `clean_wikipedia_text`: marker removal, the line filter and the newline join; its properties are WikipediaCleanLines, WikipediaCleanNoNewline and WikipediaCleanArticle |
| TextCleaner.CleanWikipediaText | app/text_cleaner.py:3-22 | the loop's output equals the specification `WikipediaClean` |
| TextCleaner.KeptPositions | app/text_cleaner.py:13-20 | the positions of the lines a loop's test lets through |
| TextCleaner.KeptPositionsSnoc | app/text_cleaner.py:13-20 | one more line adds its position exactly when it passes the test |
| TextCleaner.WikipediaKeptLinesCount | app/text_cleaner.py:13-20 | the loop keeps as many lines as there are positions holding neither a heading nor a template line |
| TextCleaner.WikipediaKeptLinesSpec | app/text_cleaner.py:11-22 | the kept lines are an order-preserving subsequence of the lines, one for each position whose line is neither a heading nor a template line, and each of them is such a line; so exactly those positions are kept |
| TextCleaner.WikipediaCleanLines | app/text_cleaner.py:11-22 | the output is the unchanged kept lines joined by newlines, and no output line is a heading or a template line |
| TextCleaner.WikipediaCleanNoNewline | app/text_cleaner.py:11-22 | an input without a newline gives an output without one |
| TextCleaner.WikipediaCleanOneLine | app/text_cleaner.py:11-22 | text that remains one ordinary line after marker removal comes out as that line |
| TextCleaner.EmptyBracketsKept | app/text_cleaner.py:15-19 | neither `[]` nor the empty line is a heading or a template line |
| TextCleaner.WikipediaCleanNotIdempotent | app/text_cleaner.py:8-22 | cleaning `[[1]]` gives `[]`, and cleaning that again gives the empty string |
| TextCleaner.RemoveTrailingMarker | app/text_cleaner.py:8 | a marker at the end of marker-free text is deleted |
| TextCleaner.WikipediaKeptLinesCons | app/text_cleaner.py:13-20 | the lines kept from a text are those kept from its first line followed by those kept from the rest |
| TextCleaner.WikipediaKeptLinesConsStep | app/text_cleaner.py:13-20 | WikipediaKeptLinesCons's step: a last line is kept or dropped on its own |
| TextCleaner.ConsDropLast | app/text_cleaner.py:13-20 | dropping the last line commutes with putting a line in front |
| TextCleaner.AppendAssoc | app/text_cleaner.py:20 | appending kept lines is associative |
| TextCleaner.SplitFourLines | app/text_cleaner.py:11 | four newline-terminated lines split into the four lines and a final empty one |
| TextCleaner.KeptArticleLines | app/text_cleaner.py:13-20 | from intro, heading, template, body and empty lines, the loop keeps the intro, the body and the empty line |
| TextCleaner.JoinThreeLines | app/text_cleaner.py:22 | three lines are joined with a newline between each pair |
| TextCleaner.WikipediaCleanArticle | app/text_cleaner.py:3-22 | intro, heading, template and body lines followed by a marker clean to intro and body, with a trailing newline left behind |
| TextCleaner.LeadingNewlines | app/text_cleaner.py:60 | counts the run of newlines at the front |
| TextCleaner.CollapseNewlines | app/text_cleaner.py:60 | the collapse keeps a non-newline first character and maps empty text to empty text |
| TextCleaner.NoTripleNewlineConcat | app/text_cleaner.py:60 | two pieces free of a newline triple stay free of one when they do not meet newline to newline |
| TextCleaner.NoTripleNewlineSlice | app/text_cleaner.py:60 | a piece of text free of newline triples is also free of them |
| TextCleaner.StripNoTriple | app/text_cleaner.py:60 | stripping creates no newline triple |
| TextCleaner.CollapseNoTriple | app/text_cleaner.py:60 | after the collapse no three newlines follow each other |
| TextCleaner.CollapseUnchanged | app/text_cleaner.py:60 | text without a newline triple is left unchanged by the collapse |
| TextCleaner.HasJunk | app/text_cleaner.py:29-43 | one of the six junk phrases occurs in the text |
| TextCleaner.QualifiesGeneric | app/text_cleaner.py:51-52 | the line the loop keeps: trimmed length at least 50, or a curly brace anywhere in the untrimmed line |
| TextCleaner.BraceNotBlank | app/text_cleaner.py:51 | a line holding a brace is not whitespace only |
| TextCleaner.GenericKeptLines | app/text_cleaner.py:49-54 | every kept line is non-empty with no whitespace at either end, and there are at most as many kept lines as input lines |
| TextCleaner.GenericClean | app/text_cleaner.py:24-60 | the output has no whitespace at either end |
| TextCleaner.CleanGenericText | app/text_cleaner.py:24-60 | the loops' output equals the specification `GenericClean`, and is empty when a junk phrase occurs |
| TextCleaner.GenericRejectsJunk | app/text_cleaner.py:29-43 | any input holding one of the six junk phrases cleans to exactly the empty string, whatever surrounds the phrase |
| TextCleaner.GenericKeptLinesSpec | app/text_cleaner.py:49-57 | the kept lines are the trimmed qualifying lines, as an order-preserving subsequence of the trimmed input lines with one entry per qualifying position |
| TextCleaner.GenericKeptLinesOrder | app/text_cleaner.py:49-54 | the kept lines are an order-preserving subsequence of the trimmed input lines, one per position whose line qualifies |
| TextCleaner.GenericKeptLinesSound | app/text_cleaner.py:49-54 | each kept line is the trimmed form of a qualifying input line |
| TextCleaner.GenericKeptLinesComplete | app/text_cleaner.py:49-54 | each qualifying input line is kept, trimmed |
| TextCleaner.StripAll | app/text_cleaner.py:54 | each line is paired with its trimmed form |
| TextCleaner.GenericKeptLinesNoNewline | app/text_cleaner.py:46-54 | kept lines hold no newline |
| TextCleaner.JoinTrimmedLines | app/text_cleaner.py:57 | joined trimmed lines start and end with non-whitespace and hold no newline triple |
| TextCleaner.GenericCleanIsJoin | app/text_cleaner.py:57-60 | without junk, the output is exactly the kept lines joined by newlines, so the collapse and the final strip change nothing |
| TextCleaner.GenericCleanLines | app/text_cleaner.py:49-60 | every output line is, trimmed, at least 50 characters long or holds a brace, and the output lines are the trimmed qualifying lines in their original order |
| TextCleaner.GenericKeptLinesQualify | app/text_cleaner.py:51-54 | each kept line passes the line test again |
| TextCleaner.GenericCleanShape | app/text_cleaner.py:60 | the output never holds three newlines in a row and has no whitespace at either end |
| TextCleaner.GenericCleanEmpty | app/text_cleaner.py:46-60 | when no line qualifies, the output is empty |
| TextCleaner.GenericKeptLinesEmpty | app/text_cleaner.py:49-54 | when no line qualifies, nothing is kept |
| TextCleaner.GenericCleanDropsShortLine | app/text_cleaner.py:51-52 | a single line shorter than 50 characters and without braces cleans to the empty string |
| Pipeline.SourceText | run.py:30 | a source's contribution: the empty string for `ERROR:`-prefixed raw text, otherwise the Wikipedia cleaner's output for Wikipedia and the generic cleaner's output for GNews and SerpAPI |
| Pipeline.CleanSource | run.py:29-40 | one fetch-and-clean step, through the cleaners' loop methods, yields exactly that source's contribution |
| Pipeline.CountEmpty | run.py:42 | the number of empty texts in the list |
| Pipeline.NonEmpty | run.py:42 | `filter(None, ...)` is an order-preserving subsequence of the texts that holds no empty text and is shorter exactly by the number of empty texts, so it keeps every non-empty text in order |
| Pipeline.Combine | run.py:42 | `"\n\n".join(filter(None, texts))`; CombineCons, CombineThree and CombineBlankIff state its shape |
| Pipeline.Glue | run.py:42 | two texts with a blank line between them, an empty one left out: the reference the join is compared with |
| Pipeline.CombineCons | run.py:42 | the `"\n\n"` join of the non-empty texts glues the first text in front of the join of the rest, leaving out empty pieces |
| Pipeline.CombineThree | run.py:42 | the combined text is the Wikipedia, GNews and web texts in that order, with a blank line between any two that are present |
| Pipeline.CombinedText | run.py:42 | the joined text of the three contributions, in the order Wikipedia, GNews, SerpAPI |
| Pipeline.IsBlankConcat | run.py:43 | a concatenation is whitespace only exactly when both parts are |
| Pipeline.CombineBlankIff | run.py:42-43 | the combined text is whitespace only exactly when every source text is |
| Pipeline.Aggregate | run.py:42-44 | the run finds no clean data exactly when the joined text is empty or whitespace only, which is exactly when every source text is; otherwise it keeps the joined text, which is not blank; both runs branch on it |
| Pipeline.GenericCleanNeverBlank | app/text_cleaner.py:60 | generic output that is whitespace only is empty |
| Pipeline.PipelineFailsIff | run.py:42-44 | a run fails exactly when the Wikipedia text is whitespace only and both generic sources contribute nothing |
| Pipeline.AllErrorsFail | run.py:29-44 | three `ERROR:` results give empty combined text |
| Server.Label | run.py:28 | the status string written for each state: `PENDING`, the three progress labels, `SUCCESS`, `FAILURE` |
| Server.LabelInjective | run.py:28-63 | distinct task states are stored as distinct status strings |
| Server.WellFormed | run.py:57-64 | the shapes an entry can take: in progress with neither result nor error, `SUCCESS` with a good result for its own id, or `FAILURE` with the no-data error |
| Server.StoreUpdateWellFormed | run.py:57-64 | replacing one entry of a well-formed store by a well-formed entry keeps the store well-formed |
| Server.TaskStore.constructor | run.py:20 | the store starts empty |
| Server.TaskStore.SetStatus | run.py:28 | one status write changes only that entry's status and is logged |
| Server.TaskStore.Generate | run.py:76-97 | a fresh id is mapped to a `PENDING` entry, every other entry stays as it was, the reply carries code 202 and the status URL, and well-formedness is kept |
| Server.TaskStore.RunScrapingTask | run.py:23-64 | only this task's entry changes; its status is written `1/3`, `2/3`, `3/3` and then the final state; the run ends in `FAILURE` with the no-data message when the combined text is blank, or in `SUCCESS` with a record whose content is the combined text, whose count is its length and whose source list is fixed; well-formedness is kept |
| Server.TaskStore.Status | run.py:100-112 | 404 with `Task not found` exactly for an unknown id; otherwise the entry's state, result and error with code 200; on a well-formed store a result appears exactly in state `SUCCESS` and an error exactly in state `FAILURE` |
| CeleryTask.GenerateQaTask | app/tasks.py:15-63 | three `PROGRESS` updates with the `1/3`, `2/3`, `3/3` labels come first; then a `FAILURE` update with the no-data message and a `Task Failed!` return when the combined text is blank, or a `SUCCESS` update with `Complete!` and a `Task complete!` return holding a good result record |

## Left out

- The fetchers of `app/data_fetcher.py` (HTTP, the Wikipedia API, browser scraping, SerpAPI). Their results are string parameters. `app/data_fetcher.py` is not part of this model.
- An exception raised by a fetcher or a cleaner, which the source also turns into `FAILURE` with that exception's message. The fetchers are parameters and the cleaners are total, so the only failure modelled is the no-clean-data one.
- `threading.Thread` in `run.py`: the run is one sequential method call after `Generate`. Races with concurrent `/status` reads are not modelled. The ghost status log records every status value written, in order.
- `uuid.uuid4()`, `datetime.utcnow().isoformat()` and `url_for(..., _external=True)`. They are parameters: a fresh id that is not yet in the store, a timestamp string and a base URL.
- `print` logging, `jsonify`, the Flask routes' request parsing, `app/routes.py`, `app/__init__.py` and `config.py`.
- The JSON file write of `app/tasks.py` (lines 36-55) and the errors it can raise.
- Server.TaskStore.RunScrapingTask: requires the task id to be in the store. With an unknown id the source raises `KeyError` again inside its own error handler, and the thread dies. Only ids inserted by `generate` reach it.
- Server.TaskStore.Status: `if not task` is modelled as a membership test. A stored entry always has its `status` key, so it is never empty. Because the run is one call, it never returns `SUCCESS` without a result or `FAILURE` without an error, which the threaded code can (run.py:57-58 and 63-64).
- TextCleaner.DigitRun: `\d` is modelled as the ASCII digits 0-9. Python's `\d` on `str` also matches other Unicode decimal digits.
- Strings.IsSpace: it is the fixed set of code points that Python's `str.isspace()` accepts. `len` counts code points, as Dafny's `|s|` does.

## Behaviour of the code worth knowing

- Cleaning Wikipedia text is not idempotent. Marker removal is a single pass, so `[[1]]` cleans to `[]`, and `[]` cleans to the empty string (`TextCleaner.WikipediaCleanNotIdempotent`).
- A citation marker alone on the last line of an article leaves that line behind empty, so the cleaned text ends in a newline (`TextCleaner.WikipediaCleanArticle`).
- A whitespace-only Wikipedia contribution is not enough for a run to succeed: the run fails exactly when the Wikipedia text is empty or whitespace only and both other sources contribute nothing (`Pipeline.PipelineFailsIff`).
- The three sources are fetched one after another, and the status labels are written in that order (`Server.TaskStore.RunScrapingTask`).
- A task's status is written before its outcome. A `/status` poll between run.py:57 and run.py:58 sees `SUCCESS` with no result yet. A poll between run.py:63 and run.py:64 sees `FAILURE` with no error yet. The model's run is one call that writes both together, so `Server.TaskStore.Status` never shows these windows.
