/**
 * The Celery variant of the scraping run in app/tasks.py. Instead of writing
 * a dictionary it reports its progress through `update_state` calls and ends
 * by returning a small record.
 */
module CeleryTask {
  import opened Wrappers
  import opened Strings
  import opened Pipeline

  const Progress := "PROGRESS"
  const CompleteStatus := "Complete!"
  const ErrorStatusPrefix := "An error occurred: "
  const TaskComplete := "Task complete!"
  const TaskFailed := "Task Failed!"

  /** One `update_state(state=..., meta={'status': ...})` call. */
  datatype StateUpdate = StateUpdate(state: string, status: string)

  /** The dictionary the task returns: its 'status' key and, on success, its
      'result' key. */
  datatype TaskReturn = TaskReturn(status: string, result: Option<FinalResult>)

  /** `generate_qa_task`: the fetchers' results, the Celery request id and the
      clock reading are parameters. It returns the `update_state` calls in the
      order made, and the returned record. Three progress reports come first;
      then a failure report carrying the no-data message when the joined text
      is empty or whitespace only, and a success report with the result record
      otherwise. */
  method GenerateQaTask(taskId: string, topic: string, rawWiki: string, rawGNews: string, rawWeb: string, timestampUtc: string)
    returns (updates: seq<StateUpdate>, returned: TaskReturn)
    ensures |updates| == 4
    ensures updates[..3] ==
      [StateUpdate(Progress, StepWikipedia), StateUpdate(Progress, StepGNews), StateUpdate(Progress, StepWebSearch)]
    ensures var combined := CombinedText(rawWiki, rawGNews, rawWeb);
      IsBlank(combined) ==>
        updates[3] == StateUpdate(Failure, ErrorStatusPrefix + NoCleanDataMessage) &&
        returned == TaskReturn(TaskFailed, None)
    ensures var combined := CombinedText(rawWiki, rawGNews, rawWeb);
      !IsBlank(combined) ==>
        updates[3] == StateUpdate(Success, CompleteStatus) &&
        returned == TaskReturn(TaskComplete, Some(FinalResult(taskId, topic, timestampUtc, SourcesUsed, |combined|, combined)))
    ensures updates[3].state == Success <==> returned.result.Some?
    ensures returned.result.Some? ==> GoodResult(returned.result.value)
  {
    updates := [StateUpdate(Progress, StepWikipedia)];
    var wikiText := CleanSource(Wikipedia, rawWiki);

    updates := updates + [StateUpdate(Progress, StepGNews)];
    var gnewsText := CleanSource(GNews, rawGNews);

    updates := updates + [StateUpdate(Progress, StepWebSearch)];
    var webText := CleanSource(SerpApi, rawWeb);

    var outcome := Aggregate([wikiText, gnewsText, webText]);
    assert Combine([wikiText, gnewsText, webText]) == CombinedText(rawWiki, rawGNews, rawWeb);
    if outcome.NoCleanData? {
      updates := updates + [StateUpdate(Failure, ErrorStatusPrefix + NoCleanDataMessage)];
      returned := TaskReturn(TaskFailed, None);
    } else {
      var combined := outcome.text;
      var finalResult := FinalResult(taskId, topic, timestampUtc, SourcesUsed, |combined|, combined);
      updates := updates + [StateUpdate(Success, CompleteStatus)];
      returned := TaskReturn(TaskComplete, Some(finalResult));
    }
  }
}
