/**
 * The action's entry point (src/main.ts, `run`): where the issues come from,
 * which phases run against the tracker, and what a failure leaves in the log.
 * Reading the inputs and building the tracker client are I/O; the inputs
 * arrive here already read, or as the error that reading them raised.
 */
module Action {
  import opened Wrappers
  import opened Sequences
  import opened GitHub
  import opened Jira

  /** The action's inputs, as read and parsed (the `issues` input is a JSON array). */
  datatype Inputs = Inputs(
    app: string,
    projectKey: string,
    issues: seq<string>,
    transitionId: string,
    version: string,
    draft: bool)

  /** One entry the action leaves in the workflow log. */
  datatype LogEntry =
    | ErrorLine(text: string)      // `core.error`
    | SetFailed(message: string)   // `core.setFailed`

  predicate IsErrorLine(e: LogEntry) { e.ErrorLine? }
  predicate IsSetFailed(e: LogEntry) { e.SetFailed? }

  /**
   * The source of a regular expression built from an array of strings: the
   * array converted to a string, that is its entries joined with commas.
   */
  function RegExpSource(parts: seq<string>): string {
    if parts == [] then ""
    else if |parts| == 1 then parts[0]
    else RegExpSource(parts[..|parts| - 1]) + "," + parts[|parts| - 1]
  }

  /**
   * The pattern `run` builds when the issues input is empty: the project key
   * followed by no issue keys, which converts to the project key alone.
   */
  lemma PatternOfEmptyIssues(projectKey: string, issueKeys: seq<string>)
    requires issueKeys == []
    ensures RegExpSource([projectKey] + issueKeys) == projectKey
  {
  }

  /**
   * The issues the phases work on: the issues input when it lists any, else
   * the keys extracted from the triggering event, with a pattern built from
   * the project key and the (empty) issues input, which is the project key.
   */
  function IssuesToSync(inputs: Inputs, event: Event, matcher: Matcher): (issues: seq<string>)
    ensures inputs.issues != [] ==> issues == inputs.issues
    ensures inputs.issues == [] ==> issues == ExtractIssues(event, inputs.projectKey, matcher)
  {
    if |inputs.issues| == 0 then
      ExtractIssues(event, RegExpSource([inputs.projectKey] + inputs.issues), matcher)
    else inputs.issues
  }

  /** Whether a `version` input counts as given: `getInput('version') || null` is truthy. */
  predicate VersionGiven(inputs: Inputs) { inputs.version != "" }

  /**
   * The requests of a run in which none raises: the release phase when a
   * version is given, then always the update phase, on the same issues.
   */
  function RunPlan(inputs: Inputs, event: Event, matcher: Matcher, answers: Responses): seq<Call> {
    var issues := IssuesToSync(inputs, event, matcher);
    (if VersionGiven(inputs)
     then ReleasePlan(inputs.app, inputs.projectKey, issues, inputs.version, inputs.draft, answers)
     else [])
    + UpdatePlan(inputs.app, inputs.projectKey, issues, Some(inputs.transitionId), answers)
  }

  /** A request that only the release phase makes. */
  predicate IsReleaseCall(c: Call) {
    c.GetProject? || c.GetVersions? || c.CreateVersion? || c.UpdateVersion?
    || (c.EditIssue? && c.update.AddFixVersion?)
  }

  /** Every request of the release phase is a release request. */
  lemma ReleasePlanCalls(app: string, projectKey: string, issues: seq<string>, version: string,
                         draft: bool, answers: Responses)
    ensures var plan := ReleasePlan(app, projectKey, issues, version, draft, answers);
      forall i :: 0 <= i < |plan| ==> IsReleaseCall(plan[i])
  {
    var name := VersionName(app, version);
    var head := [Call.GetProject(projectKey), GetVersions(projectKey, name), VersionUpsert(name, draft, answers)];
    var edits := FixVersionEdits(issues, TargetVersion(answers));
    assert forall i :: 0 <= i < |edits| ==> IsReleaseCall(edits[i]);
    assert forall i :: 0 <= i < |head| ==> IsReleaseCall(head[i]);
  }

  /** No request of the update phase is a release request. */
  lemma UpdatePlanCalls(app: string, projectKey: string, issues: seq<string>,
                        transitionId: Option<string>, answers: Responses)
    ensures var plan := UpdatePlan(app, projectKey, issues, transitionId, answers);
      forall i :: 0 <= i < |plan| ==> !IsReleaseCall(plan[i])
  {
    var setup := ComponentSetup(app, projectKey, answers);
    var edits := ComponentEdits(issues, projectKey, UsedComponent(answers), transitionId);
    ComponentEditsShape(issues, projectKey, UsedComponent(answers), transitionId);
    assert forall i :: 0 <= i < |edits| ==> !IsReleaseCall(edits[i]);
    assert forall i :: 0 <= i < |setup| ==> !IsReleaseCall(setup[i]);
  }

  /**
   * A run makes the release requests exactly when a version is given, and
   * then all of them before any request of the update phase; the update
   * phase always runs, on the same application, project, issues and
   * transition id.
   */
  lemma RunPlanPhases(inputs: Inputs, event: Event, matcher: Matcher, answers: Responses)
    ensures var plan := RunPlan(inputs, event, matcher, answers);
      var issues := IssuesToSync(inputs, event, matcher);
      && Only(plan, IsReleaseCall)
         == (if VersionGiven(inputs)
             then ReleasePlan(inputs.app, inputs.projectKey, issues, inputs.version, inputs.draft, answers)
             else [])
      && Only(plan, NotReleaseCall)
         == UpdatePlan(inputs.app, inputs.projectKey, issues, Some(inputs.transitionId), answers)
  {
    var issues := IssuesToSync(inputs, event, matcher);
    var release := if VersionGiven(inputs)
      then ReleasePlan(inputs.app, inputs.projectKey, issues, inputs.version, inputs.draft, answers)
      else [];
    var update := UpdatePlan(inputs.app, inputs.projectKey, issues, Some(inputs.transitionId), answers);
    ReleasePlanCalls(inputs.app, inputs.projectKey, issues, inputs.version, inputs.draft, answers);
    UpdatePlanCalls(inputs.app, inputs.projectKey, issues, Some(inputs.transitionId), answers);
    OnlyConcat(release, update, IsReleaseCall);
    OnlyConcat(release, update, NotReleaseCall);
    OnlyAll(release, IsReleaseCall);
    OnlyNone(release, NotReleaseCall);
    OnlyNone(update, IsReleaseCall);
    OnlyAll(update, NotReleaseCall);
  }

  predicate NotReleaseCall(c: Call) { !IsReleaseCall(c) }

  /** In a run, no release request comes after a request of the update phase. */
  lemma RunPlanReleaseFirst(inputs: Inputs, event: Event, matcher: Matcher, answers: Responses)
    ensures var plan := RunPlan(inputs, event, matcher, answers);
      forall i, j :: 0 <= i < j < |plan| && IsReleaseCall(plan[j]) ==> IsReleaseCall(plan[i])
  {
    var issues := IssuesToSync(inputs, event, matcher);
    var release := if VersionGiven(inputs)
      then ReleasePlan(inputs.app, inputs.projectKey, issues, inputs.version, inputs.draft, answers)
      else [];
    var update := UpdatePlan(inputs.app, inputs.projectKey, issues, Some(inputs.transitionId), answers);
    ReleasePlanCalls(inputs.app, inputs.projectKey, issues, inputs.version, inputs.draft, answers);
    UpdatePlanCalls(inputs.app, inputs.projectKey, issues, Some(inputs.transitionId), answers);
    var plan := release + update;
    assert forall k :: |release| <= k < |plan| ==> plan[k] == update[k - |release|];
    assert forall k :: 0 <= k < |release| ==> plan[k] == release[k];
  }

  /** The messages of a failed request's response data, when they form an array. */
  function ErrorMessages(e: Exception): seq<string> {
    match e.response
    case Some(ErrorResponse(Some(ErrorBody(Some(messages), _)))) => messages
    case _ => []
  }

  /** The serialised `errors` object of a failed request's response data, if present. */
  function ErrorsObjectOf(e: Exception): Option<string> {
    match e.response
    case Some(ErrorResponse(Some(ErrorBody(_, Some(errors))))) => Some(errors.stringified)
    case _ => None
  }

  /** The log lines written for messages, one each, in order. */
  function ErrorLines(messages: seq<string>): (lines: seq<LogEntry>)
    ensures |lines| == |messages|
  {
    seq(|messages|, i requires 0 <= i < |messages| => ErrorLine(messages[i]))
  }

  /** The error lines the catch block writes: each message of the response data, then the `errors` object. */
  function LoggedErrors(e: Exception): seq<LogEntry> {
    ErrorLines(ErrorMessages(e))
      + (match ErrorsObjectOf(e) case Some(errors) => [ErrorLine(errors)] case None => [])
  }

  /** What the catch block writes for a thrown error: the error lines, then the failure with the error's message. */
  function FailureLog(e: Exception): seq<LogEntry> {
    LoggedErrors(e) + [SetFailed(e.message)]
  }

  /**
   * Every message of the response data becomes its own error line, in
   * order, followed by the `errors` object once when present; an error
   * without response data writes no error line.
   */
  lemma LoggedErrorsShape(e: Exception)
    ensures var lines := LoggedErrors(e);
      var messages := ErrorMessages(e);
      && |lines| == |messages| + (if ErrorsObjectOf(e).Some? then 1 else 0)
      && (forall i :: 0 <= i < |messages| ==> lines[i] == ErrorLine(messages[i]))
      && (ErrorsObjectOf(e).Some? ==> lines[|messages|] == ErrorLine(ErrorsObjectOf(e).value))
      && ((e.response.None? || e.response.value.data.None?) ==> lines == [])
  {
  }

  /** A failure is marked exactly once, as the last entry, with the error's own message. */
  lemma FailureLogFailsOnce(e: Exception)
    ensures var log := FailureLog(e);
      && log[|log| - 1] == SetFailed(e.message)
      && Only(log, IsSetFailed) == [SetFailed(e.message)]
      && Only(log, IsErrorLine) == LoggedErrors(e)
  {
    var lines := LoggedErrors(e);
    assert forall i :: 0 <= i < |lines| ==> lines[i].ErrorLine?;
    OnlyNone(lines, IsSetFailed);
    OnlyAll(lines, IsErrorLine);
    OnlyConcat(lines, [SetFailed(e.message)], IsSetFailed);
    OnlyConcat(lines, [SetFailed(e.message)], IsErrorLine);
    OnlySingle(SetFailed(e.message), IsSetFailed);
    OnlySingle(SetFailed(e.message), IsErrorLine);
  }

  /** The error of the failing test with all data: one message, one `errors` object. */
  lemma FailureLogWithAllData(message: string, text: string, errors: string)
    ensures FailureLog(Exception(message, Some(ErrorResponse(Some(ErrorBody(Some([text]), Some(ErrorsObject(errors))))))))
            == [ErrorLine(text), ErrorLine(errors), SetFailed(message)]
  {
    var e := Exception(message, Some(ErrorResponse(Some(ErrorBody(Some([text]), Some(ErrorsObject(errors)))))));
    assert ErrorLines(ErrorMessages(e)) == [ErrorLine(text)];
  }

  /** Response data that is present but empty writes only the failure. */
  lemma FailureLogWithEmptyData(message: string)
    ensures FailureLog(Exception(message, Some(ErrorResponse(Some(ErrorBody(None, None)))))) == [SetFailed(message)]
  {
    var e := Exception(message, Some(ErrorResponse(Some(ErrorBody(None, None)))));
    assert ErrorLines(ErrorMessages(e)) == [];
  }

  /** The catch block: one log line per message, in a loop, then the `errors` object, then the failure. */
  method ReportFailure(e: Exception) returns (log: seq<LogEntry>)
    ensures log == FailureLog(e)
  {
    log := [];
    if e.response.Some? && e.response.value.data.Some? {
      var data := e.response.value.data.value;
      if data.errorMessages.Some? {
        var messages := data.errorMessages.value;
        for i := 0 to |messages|
          invariant log == ErrorLines(messages[..i])
        {
          log := log + [ErrorLine(messages[i])];
        }
        assert messages[..|messages|] == messages;
      }
      if data.errors.Some? {
        log := log + [ErrorLine(data.errors.value.stringified)];
      }
    }
    log := log + [SetFailed(e.message)];
  }

  /**
   * What a run leaves behind: nothing issued and the failure logged when the
   * inputs could not be read; otherwise the run's requests issued up to the
   * first that raises, and an empty log unless one raised.
   */
  ghost predicate Ran(jira: Client, start: seq<Call>, config: Result<Inputs, Exception>,
                      event: Event, matcher: Matcher, log: seq<LogEntry>)
    reads jira
  {
    match config
    case Failure(e) => jira.trace == start && log == FailureLog(e)
    case Success(inputs) =>
      var plan := RunPlan(inputs, event, matcher, jira.responses);
      && jira.trace == Applied(start, plan, jira.failAt)
      && log == if FailsWithin(start, plan, jira.failAt) then FailureLog(jira.failure) else []
  }

  /** A run either logs nothing or marks itself failed exactly once, as its last entry. */
  lemma RanFailsAtMostOnce(jira: Client, start: seq<Call>, config: Result<Inputs, Exception>,
                           event: Event, matcher: Matcher, log: seq<LogEntry>)
    requires Ran(jira, start, config, event, matcher, log)
    ensures log == [] || (|Only(log, IsSetFailed)| == 1 && log[|log| - 1].SetFailed?)
    ensures log == [] <==> (config.Success?
      && !FailsWithin(start, RunPlan(config.value, event, matcher, jira.responses), jira.failAt))
  {
    if config.Failure? {
      FailureLogFailsOnce(config.error);
    } else if FailsWithin(start, RunPlan(config.value, event, matcher, jira.responses), jira.failAt) {
      FailureLogFailsOnce(jira.failure);
    }
  }

  /** The issues of a run: the input list, or else those extracted from the event. */
  method ChooseIssues(inputs: Inputs, event: Event, matcher: Matcher) returns (issues: seq<string>)
    ensures issues == IssuesToSync(inputs, event, matcher)
  {
    issues := inputs.issues;
    if |issues| == 0 {
      issues := LoadIssues(event, RegExpSource([inputs.projectKey] + inputs.issues), matcher);
    }
  }

  /** The catch block, or nothing when the phase went through. */
  method Conclude(r: Outcome<Exception>) returns (log: seq<LogEntry>)
    ensures log == if r.Fail? then FailureLog(r.error) else []
  {
    log := [];
    if r.Fail? {
      log := ReportFailure(r.error);
    }
  }

  /** The release phase when a version is given. */
  method MaybeRelease(jira: Client, inputs: Inputs, issues: seq<string>) returns (r: Outcome<Exception>)
    modifies jira
    ensures Performed(jira, old(jira.trace),
      if VersionGiven(inputs)
      then ReleasePlan(inputs.app, inputs.projectKey, issues, inputs.version, inputs.draft, jira.responses)
      else [], r)
  {
    r := Pass;
    if inputs.version != "" {
      r := ReleaseIssues(jira, inputs.app, inputs.projectKey, issues, inputs.version, inputs.draft);
    }
  }

  /** The body of the `try` once the inputs are read: release when a version is given, then update. */
  method Synchronise(jira: Client, inputs: Inputs, issues: seq<string>) returns (r: Outcome<Exception>)
    modifies jira
    ensures Performed(jira, old(jira.trace),
      (if VersionGiven(inputs)
       then ReleasePlan(inputs.app, inputs.projectKey, issues, inputs.version, inputs.draft, jira.responses)
       else [])
      + UpdatePlan(inputs.app, inputs.projectKey, issues, Some(inputs.transitionId), jira.responses), r)
  {
    ghost var start := jira.trace;
    ghost var release := if VersionGiven(inputs)
      then ReleasePlan(inputs.app, inputs.projectKey, issues, inputs.version, inputs.draft, jira.responses)
      else [];
    ghost var update := UpdatePlan(inputs.app, inputs.projectKey, issues, Some(inputs.transitionId), jira.responses);
    AppliedSequence(start, release, update, jira.failAt);
    r := MaybeRelease(jira, inputs, issues);
    if r.Pass? {
      r := UpdateIssues(jira, inputs.app, inputs.projectKey, issues, Some(inputs.transitionId));
    }
  }

  /** `run`: read the inputs, choose the issues, synchronise them, and log a failure. */
  method Run(config: Result<Inputs, Exception>, event: Event, matcher: Matcher, jira: Client)
    returns (log: seq<LogEntry>)
    modifies jira
    ensures Ran(jira, old(jira.trace), config, event, matcher, log)
  {
    if config.Failure? {
      log := ReportFailure(config.error);
      return;
    }
    var issues := ChooseIssues(config.value, event, matcher);
    var r := Synchronise(jira, config.value, issues);
    log := Conclude(r);
  }
}
