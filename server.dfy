/**
 * The Flask server of run.py: an in-memory dictionary of tasks keyed by id,
 * the `/generate` route that registers a task, the background scraping run
 * that moves the task through its progress labels to a final state, and the
 * `/status/<task_id>` route that reports a task.
 */
module Server {
  import opened Wrappers
  import opened Strings
  import opened Pipeline

  const PendingLabel := "PENDING"
  const StartedMessage := "Scraping task has been started."
  const NotFoundMessage := "Task not found"

  /** The values the source writes to a task's 'status' key, in the order
      a run writes them. */
  datatype TaskState =
    | Pending
    | FetchingWikipedia
    | FetchingGNews
    | FetchingWebSearch
    | Succeeded
    | Failed

  /** The string stored under 'status' for each state. */
  function Label(s: TaskState): string {
    match s
    case Pending => PendingLabel
    case FetchingWikipedia => StepWikipedia
    case FetchingGNews => StepGNews
    case FetchingWebSearch => StepWebSearch
    case Succeeded => Success
    case Failed => Failure
  }

  /** Distinct states are stored as distinct strings, so a client reading
      the 'status' string learns the state. */
  lemma LabelInjective(s: TaskState, t: TaskState)
    ensures Label(s) == Label(t) <==> s == t
  {
    // The six labels already differ in their first character.
    assert s == t || Label(s)[0] != Label(t)[0];
  }

  /** A task that has not reached a final state. */
  predicate InProgress(s: TaskState) {
    !s.Succeeded? && !s.Failed?
  }

  /** One value of the `tasks` dictionary: its 'status' key and the optional
      'result' and 'error' keys. */
  datatype TaskEntry = TaskEntry(status: TaskState, result: Option<FinalResult>, error: Option<string>)

  /** The JSON body and HTTP code `/generate` answers with. */
  datatype GenerateResponse = GenerateResponse(message: string, taskId: string, statusUrl: string, code: int)

  /** The JSON body and HTTP code `/status/<task_id>` answers with. */
  datatype StatusResponse =
    | NotFound(message: string, code: int)
    | Found(taskId: string, state: string, result: Option<FinalResult>, error: Option<string>, code: int)

  /** The shapes an entry can take: still in progress with neither result nor
      error, succeeded with a result only, or failed with an error only. */
  predicate WellFormed(id: string, e: TaskEntry) {
    (InProgress(e.status) && e.result.None? && e.error.None?) ||
    (e.status == Succeeded && e.error.None? && e.result.Some? &&
     GoodResult(e.result.value) && e.result.value.taskId == id) ||
    (e.status == Failed && e.result.None? && e.error == Some(NoCleanDataMessage))
  }

  /** Every entry of the dictionary is well-formed for its own id. */
  predicate StoreWellFormed(tasks: map<string, TaskEntry>) {
    forall id :: id in tasks ==> WellFormed(id, tasks[id])
  }

  /** Replacing one entry of a well-formed store by a well-formed entry keeps
      the store well-formed. */
  lemma StoreUpdateWellFormed(tasks: map<string, TaskEntry>, id: string, e: TaskEntry)
    requires StoreWellFormed(tasks) && WellFormed(id, e)
    ensures StoreWellFormed(tasks[id := e])
  {
  }

  /** Writing one key twice keeps only the second write. */
  lemma UpdateTwice<K, V>(m: map<K, V>, k: K, a: V, b: V)
    ensures m[k := a][k := b] == m[k := b]
  {
  }

  /** Four single appends make one append of four. */
  lemma AppendFour<T>(s: seq<T>, a: T, b: T, c: T, d: T)
    ensures s + [a] + [b] + [c] + [d] == s + [a, b, c, d]
  {
  }

  class TaskStore {
    /** The `tasks` dictionary. */
    var tasks: map<string, TaskEntry>
    /** Every write of a task's status, in order: what a client polling
        `/status` can observe. */
    ghost var statusLog: seq<(string, TaskState)>

    ghost predicate Valid()
      reads this
    {
      StoreWellFormed(tasks)
    }

    constructor ()
      ensures tasks == map[] && statusLog == []
      ensures Valid()
    {
      tasks := map[];
      statusLog := [];
    }

    /** `tasks[task_id]['status'] = status`. */
    method SetStatus(taskId: string, status: TaskState)
      requires taskId in tasks
      modifies this
      ensures tasks == old(tasks)[taskId := old(tasks[taskId]).(status := status)]
      ensures statusLog == old(statusLog) + [(taskId, status)]
    {
      tasks := tasks[taskId := tasks[taskId].(status := status)];
      statusLog := statusLog + [(taskId, status)];
    }

    /** The `/generate` route. The fresh id and the server's base URL are
        parameters; the background run is the separate call to
        `RunScrapingTask`. Every other entry is left as it was. */
    method Generate(taskId: string, baseUrl: string) returns (response: GenerateResponse)
      requires taskId !in tasks
      modifies this
      ensures tasks == old(tasks)[taskId := TaskEntry(Pending, None, None)]
      ensures forall id :: id in old(tasks) ==> id in tasks && tasks[id] == old(tasks[id])
      ensures statusLog == old(statusLog) + [(taskId, Pending)]
      ensures response == GenerateResponse(StartedMessage, taskId, baseUrl + "/status/" + taskId, 202)
      ensures old(Valid()) ==> Valid()
    {
      tasks := tasks[taskId := TaskEntry(Pending, None, None)];
      statusLog := statusLog + [(taskId, Pending)];
      response := GenerateResponse(StartedMessage, taskId, baseUrl + "/status/" + taskId, 202);
    }

    /** The background run for one task. The three fetchers' results and the
        clock reading are parameters. Only this task's entry changes; its
        status goes through the three progress labels and ends in SUCCESS
        with the result record, or in FAILURE with the no-data message, when
        the joined text is empty or whitespace only. */
    method RunScrapingTask(taskId: string, topic: string, rawWiki: string, rawGNews: string, rawWeb: string, timestampUtc: string)
      requires taskId in tasks
      modifies this
      ensures taskId in tasks && tasks == old(tasks)[taskId := tasks[taskId]]
      ensures var combined := CombinedText(rawWiki, rawGNews, rawWeb);
        var final := if IsBlank(combined) then Failed else Succeeded;
        statusLog == old(statusLog) +
          [(taskId, FetchingWikipedia), (taskId, FetchingGNews), (taskId, FetchingWebSearch), (taskId, final)]
      ensures var combined := CombinedText(rawWiki, rawGNews, rawWeb);
        IsBlank(combined) ==>
          tasks[taskId] == old(tasks[taskId]).(status := Failed, error := Some(NoCleanDataMessage))
      ensures var combined := CombinedText(rawWiki, rawGNews, rawWeb);
        !IsBlank(combined) ==>
          tasks[taskId] == old(tasks[taskId]).(status := Succeeded,
            result := Some(FinalResult(taskId, topic, timestampUtc, SourcesUsed, |combined|, combined)))
      ensures old(Valid()) && InProgress(old(tasks[taskId].status)) ==> Valid()
    {
      ghost var before, entry := tasks, tasks[taskId];
      SetStatus(taskId, FetchingWikipedia);
      var wikiText := CleanSource(Wikipedia, rawWiki);

      SetStatus(taskId, FetchingGNews);
      UpdateTwice(before, taskId, entry.(status := FetchingWikipedia), entry.(status := FetchingGNews));
      var gnewsText := CleanSource(GNews, rawGNews);

      SetStatus(taskId, FetchingWebSearch);
      UpdateTwice(before, taskId, entry.(status := FetchingGNews), entry.(status := FetchingWebSearch));
      var webText := CleanSource(SerpApi, rawWeb);
      ghost var progressed := entry.(status := FetchingWebSearch);

      var outcome := Aggregate([wikiText, gnewsText, webText]);
      assert Combine([wikiText, gnewsText, webText]) == CombinedText(rawWiki, rawGNews, rawWeb);
      if outcome.NoCleanData? {
        SetStatus(taskId, Failed);
        UpdateTwice(before, taskId, progressed, progressed.(status := Failed));
        tasks := tasks[taskId := tasks[taskId].(error := Some(NoCleanDataMessage))];
        UpdateTwice(before, taskId, progressed.(status := Failed), tasks[taskId]);
      } else {
        var combined := outcome.text;
        var finalResult := FinalResult(taskId, topic, timestampUtc, SourcesUsed, |combined|, combined);
        SetStatus(taskId, Succeeded);
        UpdateTwice(before, taskId, progressed, progressed.(status := Succeeded));
        tasks := tasks[taskId := tasks[taskId].(result := Some(finalResult))];
        UpdateTwice(before, taskId, progressed.(status := Succeeded), tasks[taskId]);
      }
      AppendFour(old(statusLog), (taskId, FetchingWikipedia), (taskId, FetchingGNews),
        (taskId, FetchingWebSearch), (taskId, tasks[taskId].status));
      if old(Valid()) && InProgress(entry.status) {
        StoreUpdateWellFormed(before, taskId, tasks[taskId]);
      }
    }

    /** The `/status/<task_id>` route: 404 exactly for an unknown id;
        otherwise the entry's state label, result and error. On a
        well-formed store a result is reported exactly in state SUCCESS and
        is a good result for this id, and an error exactly in state FAILURE. */
    function Status(taskId: string): (response: StatusResponse)
      reads this
      ensures response.NotFound? <==> taskId !in tasks
      ensures response.NotFound? ==> response == NotFound(NotFoundMessage, 404)
      ensures response.Found? ==>
        response.taskId == taskId && response.code == 200 &&
        response.state == Label(tasks[taskId].status) &&
        response.result == tasks[taskId].result && response.error == tasks[taskId].error
      ensures Valid() && response.Found? ==>
        (response.result.Some? <==> response.state == Success) &&
        (response.error.Some? <==> response.state == Failure) &&
        (response.result.Some? ==> GoodResult(response.result.value) && response.result.value.taskId == taskId)
    {
      if taskId !in tasks then NotFound(NotFoundMessage, 404)
      else
        var task := tasks[taskId];
        LabelInjective(task.status, Succeeded);
        LabelInjective(task.status, Failed);
        Found(taskId, Label(task.status), task.result, task.error, 200)
    }
  }
}
