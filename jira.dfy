/**
 * Synchronisation of the issue tracker (src/jira.ts): the release phase
 * `releaseIssues` and the update phase `updateIssues`, against a client that
 * records every call it receives.
 */
module Jira {
  import opened Wrappers
  import opened Sequences

  /** The project `getProject` returns; only its id is read. */
  datatype Project = Project(id: string)

  /** A version object of the tracker. */
  datatype Version = Version(id: string, name: string)

  /** A component object of the tracker. */
  datatype Component = Component(id: string, name: string)

  /** The `transition` argument of `doTransition`. */
  datatype Transition = Transition(id: string, isGlobal: bool, isConditional: bool)

  /** The `update` argument of `editIssue`: one object added to one list of the issue. */
  datatype IssueUpdate = AddFixVersion(version: Version) | AddComponent(component: Component)

  /** One request to the tracker, with its arguments. */
  datatype Call =
    | GetProject(projectIdOrKey: string)
    | GetVersions(projectIdOrKey: string, query: string)
    | CreateVersion(name: string, projectId: string, released: bool)
    | UpdateVersion(id: string, name: string, projectId: string, released: bool)
    | EditIssue(issueIdOrKey: string, update: IssueUpdate)
    | GetComponents(projectIdOrKey: string, query: string)
    | CreateComponent(name: string, project: string)
    | DoTransition(issueIdOrKey: string, transition: Transition)

  /** The `errors` object of an error response, with its `JSON.stringify` text. */
  datatype ErrorsObject = ErrorsObject(stringified: string)

  /**
   * The `data` of an error response. `errorMessages` is None unless it is an
   * array; `errors` is None when absent or falsy.
   */
  datatype ErrorBody = ErrorBody(errorMessages: Option<seq<string>>, errors: Option<ErrorsObject>)

  /** The `response` of a failed request; `data` is None when absent or falsy. */
  datatype ErrorResponse = ErrorResponse(data: Option<ErrorBody>)

  /** A thrown error: its message and, for a failed HTTP request, the response. */
  datatype Exception = Exception(message: string, response: Option<ErrorResponse>)

  /** What the tracker answers to each lookup and creation. */
  datatype Responses = Responses(
    project: Project,
    versions: Option<seq<Version>>,
    createdVersion: Version,
    components: Option<seq<Component>>,
    createdComponent: Component)

  /**
   * The tracker client. `trace` holds every request issued so far, in order.
   * The request with index `failAt` (counting from the first request this
   * client ever received) raises `failure`; every other request succeeds and
   * is answered from `responses`.
   */
  class Client {
    var trace: seq<Call>
    const responses: Responses
    const failAt: Option<nat>
    const failure: Exception

    constructor (responses: Responses, failAt: Option<nat>, failure: Exception)
      ensures trace == []
      ensures this.responses == responses && this.failAt == failAt && this.failure == failure
    {
      trace := [];
      this.responses := responses;
      this.failAt := failAt;
      this.failure := failure;
    }

    /** Whether the next request raises. */
    predicate FailsNext()
      reads this
    {
      failAt == Some(|trace|)
    }

    /** Issues `c`: records it and tells whether it went through. */
    method Send(c: Call) returns (r: Outcome<Exception>)
      modifies this
      ensures trace == old(trace) + [c]
      ensures r == if old(FailsNext()) then Fail(failure) else Pass
    {
      r := if FailsNext() then Fail(failure) else Pass;
      trace := trace + [c];
    }

    /** `jira.projects.getProject`. */
    method GetProject(projectIdOrKey: string) returns (r: Result<Project, Exception>)
      modifies this
      ensures trace == old(trace) + [Call.GetProject(projectIdOrKey)]
      ensures r == if old(FailsNext()) then Failure(failure) else Success(responses.project)
    {
      var sent := Send(Call.GetProject(projectIdOrKey));
      r := if sent.Fail? then Failure(sent.error) else Success(responses.project);
    }

    /** `jira.projectVersions.getProjectVersionsPaginated`: the `values` of the page. */
    method GetProjectVersionsPaginated(projectIdOrKey: string, query: string)
      returns (r: Result<Option<seq<Version>>, Exception>)
      modifies this
      ensures trace == old(trace) + [GetVersions(projectIdOrKey, query)]
      ensures r == if old(FailsNext()) then Failure(failure) else Success(responses.versions)
    {
      var sent := Send(GetVersions(projectIdOrKey, query));
      r := if sent.Fail? then Failure(sent.error) else Success(responses.versions);
    }

    /** `jira.projectVersions.createVersion`. */
    method CreateVersion(name: string, projectId: string, released: bool)
      returns (r: Result<Version, Exception>)
      modifies this
      ensures trace == old(trace) + [Call.CreateVersion(name, projectId, released)]
      ensures r == if old(FailsNext()) then Failure(failure) else Success(responses.createdVersion)
    {
      var sent := Send(Call.CreateVersion(name, projectId, released));
      r := if sent.Fail? then Failure(sent.error) else Success(responses.createdVersion);
    }

    /** `jira.projectVersions.updateVersion`; its answer is not used. */
    method UpdateVersion(id: string, name: string, projectId: string, released: bool)
      returns (r: Outcome<Exception>)
      modifies this
      ensures trace == old(trace) + [Call.UpdateVersion(id, name, projectId, released)]
      ensures r == if old(FailsNext()) then Fail(failure) else Pass
    {
      r := Send(Call.UpdateVersion(id, name, projectId, released));
    }

    /** `jira.issues.editIssue`. */
    method EditIssue(issueIdOrKey: string, update: IssueUpdate) returns (r: Outcome<Exception>)
      modifies this
      ensures trace == old(trace) + [Call.EditIssue(issueIdOrKey, update)]
      ensures r == if old(FailsNext()) then Fail(failure) else Pass
    {
      r := Send(Call.EditIssue(issueIdOrKey, update));
    }

    /** `jira.projectComponents.getProjectComponentsPaginated`: the `values` of the page. */
    method GetProjectComponentsPaginated(projectIdOrKey: string, query: string)
      returns (r: Result<Option<seq<Component>>, Exception>)
      modifies this
      ensures trace == old(trace) + [GetComponents(projectIdOrKey, query)]
      ensures r == if old(FailsNext()) then Failure(failure) else Success(responses.components)
    {
      var sent := Send(GetComponents(projectIdOrKey, query));
      r := if sent.Fail? then Failure(sent.error) else Success(responses.components);
    }

    /** `jira.projectComponents.createComponent`. */
    method CreateComponent(name: string, project: string) returns (r: Result<Component, Exception>)
      modifies this
      ensures trace == old(trace) + [Call.CreateComponent(name, project)]
      ensures r == if old(FailsNext()) then Failure(failure) else Success(responses.createdComponent)
    {
      var sent := Send(Call.CreateComponent(name, project));
      r := if sent.Fail? then Failure(sent.error) else Success(responses.createdComponent);
    }

    /** `jira.issues.doTransition`. */
    method DoTransition(issueIdOrKey: string, transition: Transition) returns (r: Outcome<Exception>)
      modifies this
      ensures trace == old(trace) + [Call.DoTransition(issueIdOrKey, transition)]
      ensures r == if old(FailsNext()) then Fail(failure) else Pass
    {
      r := Send(Call.DoTransition(issueIdOrKey, transition));
    }
  }

  // ---------------------------------------------------------------------------
  // Running a sequence of requests that may be cut short by a failure

  /** Whether the request at index `failAt` is one of `plan`, issued after `start`. */
  predicate FailsWithin(start: seq<Call>, plan: seq<Call>, failAt: Option<nat>) {
    failAt.Some? && |start| <= failAt.value < |start| + |plan|
  }

  /**
   * The trace after issuing `plan` in order on top of `start`, stopping at the
   * first request that raises: the requests before it stay applied, the
   * failing one is recorded, and none after it is issued.
   */
  function Applied(start: seq<Call>, plan: seq<Call>, failAt: Option<nat>): (trace: seq<Call>)
    ensures start <= trace <= start + plan
    ensures trace == start + plan <==> !FailsWithin(start, plan, failAt) || failAt.value == |start| + |plan| - 1
  {
    if FailsWithin(start, plan, failAt) then (start + plan)[..failAt.value + 1] else start + plan
  }

  /** What a phase that issues `plan` leaves behind: the trace and the outcome. */
  ghost predicate Performed(jira: Client, start: seq<Call>, plan: seq<Call>, r: Outcome<Exception>)
    reads jira
  {
    && jira.trace == Applied(start, plan, jira.failAt)
    && r == if FailsWithin(start, plan, jira.failAt) then Fail(jira.failure) else Pass
  }

  /** Having issued the prefix `done` of `plan`, the last of which raised. */
  lemma FailedAfter(start: seq<Call>, plan: seq<Call>, done: seq<Call>, failAt: Option<nat>)
    requires done <= plan && done != []
    requires failAt == Some(|start| + |done| - 1)
    ensures FailsWithin(start, plan, failAt)
    ensures Applied(start, plan, failAt) == start + done
  {
    assert (start + plan)[..|start| + |done|] == start + done;
  }

  /**
   * Issuing `a` and then, if nothing raised, `b` is issuing `a + b`; a
   * failure inside `a` means no request of `b` is issued.
   */
  lemma AppliedSequence(start: seq<Call>, a: seq<Call>, b: seq<Call>, failAt: Option<nat>)
    ensures FailsWithin(start, a + b, failAt) <==> FailsWithin(start, a, failAt) || FailsWithin(start + a, b, failAt)
    ensures Applied(start, a + b, failAt) ==
      if FailsWithin(start, a, failAt) then Applied(start, a, failAt) else Applied(start + a, b, failAt)
  {
    assert start + (a + b) == (start + a) + b;
    if FailsWithin(start, a, failAt) {
      assert (start + (a + b))[..failAt.value + 1] == (start + a)[..failAt.value + 1];
    }
  }

  // ---------------------------------------------------------------------------
  // Release phase

  /** `version.replace('v', '')`: the first `'v'`, wherever it is, removed. */
  function RemoveFirst(s: string, c: char): (r: string)
    ensures c !in s ==> r == s
    ensures c in s ==> |r| == |s| - 1
  {
    if s == [] then []
    else if s[0] == c then s[1..]
    else [s[0]] + RemoveFirst(s[1..], c)
  }

  /** Removing the first `c` deletes exactly the character at its first position. */
  lemma {:induction false} RemoveFirstDeletesFirstOccurrence(s: string, c: char)
    requires c in s
    ensures RemoveFirst(s, c) == s[..FirstIndex(s, c)] + s[FirstIndex(s, c) + 1..]
  {
    if s[0] != c {
      assert c in s[1..] by {
        var i :| 0 <= i < |s| && s[i] == c;
        assert s[1..][i - 1] == c;
      }
      RemoveFirstDeletesFirstOccurrence(s[1..], c);
      var k := FirstIndex(s[1..], c);
      FirstIndexUnique(s, c, k + 1);
      assert s[..k + 1] == [s[0]] + s[1..][..k];
      assert s[k + 2..] == s[1..][k + 1..];
    }
  }

  /** The name of the tracker version for `version` of `app`. */
  function VersionName(app: string, version: string): (name: string)
    ensures app + "/" <= name
    ensures |name| == |app| + |version| + (if 'v' in version then 0 else 1)
  {
    app + "/" + RemoveFirst(version, 'v')
  }

  /** The version name of the release tests: `myapp/1.0.0`. */
  lemma VersionNamePlain()
    ensures VersionName("myapp", "1.0.0") == "myapp/1.0.0"
  {
    assert 'v' !in "1.0.0";
  }

  /** A leading `'v'` is dropped: `v1.0.0` names the same version as `1.0.0`. */
  lemma VersionNameLeadingV()
    ensures VersionName("myapp", "v1.0.0") == "myapp/1.0.0"
  {
    assert "v1.0.0"[1..] == "1.0.0";
  }

  /** Only the first `'v'` counts, wherever it is: `1.0.0-dev` loses the `v` of `dev`. */
  lemma VersionNameInnerV()
    ensures VersionName("myapp", "1.0.0-dev") == "myapp/1.0.0-de"
  {
    VersionNameAfterV("myapp", "1.0.0-de", "");
    assert "1.0.0-de" + ['v'] + "" == "1.0.0-dev";
    assert "myapp" + "/" + "1.0.0-de" + "" == "myapp/1.0.0-de";
  }

  /** The version name drops the `'v'` that follows a `'v'`-free stretch. */
  lemma VersionNameAfterV(app: string, a: string, b: string)
    requires forall i :: 0 <= i < |a| ==> a[i] != 'v'
    ensures VersionName(app, a + ['v'] + b) == app + "/" + a + b
  {
    RemoveFirstAfter(a, 'v', b);
  }

  /** The first `c` is the one after a stretch free of `c`. */
  lemma RemoveFirstAfter(a: string, c: char, b: string)
    requires c !in a
    ensures RemoveFirst(a + [c] + b, c) == a + b
  {
    var s := a + [c] + b;
    assert s[|a|] == c && s[..|a|] == a && s[|a| + 1..] == b;
    FirstIndexUnique(s, c, |a|);
    RemoveFirstDeletesFirstOccurrence(s, c);
  }

  /** `values?.pop()`: the last entry of the page, if there is one. */
  function LastOf<T>(page: Option<seq<T>>): (found: Option<T>)
    ensures found.None? <==> page.None? || page.value == []
    ensures found.Some? ==> found.value == page.value[|page.value| - 1]
  {
    if page.Some? && page.value != [] then Some(page.value[|page.value| - 1]) else None
  }

  /** The version the issues are tagged with: the one found, or else the one created. */
  function TargetVersion(answers: Responses): Version {
    match LastOf(answers.versions)
    case None => answers.createdVersion
    case Some(found) => found
  }

  /** The create-or-update request for the version. */
  function VersionUpsert(name: string, draft: bool, answers: Responses): Call {
    match LastOf(answers.versions)
    case None => CreateVersion(name, answers.project.id, !draft)
    case Some(found) => UpdateVersion(found.id, name, answers.project.id, !draft)
  }

  /** One `editIssue` per issue, in order, adding `version` to its fix versions. */
  function FixVersionEdits(issues: seq<string>, version: Version): (edits: seq<Call>)
    ensures |edits| == |issues|
  {
    seq(|issues|, i requires 0 <= i < |issues| => EditIssue(issues[i], AddFixVersion(version)))
  }

  /** The requests `releaseIssues` issues when none of them raises. */
  function ReleasePlan(app: string, projectKey: string, issues: seq<string>, version: string,
                       draft: bool, answers: Responses): (plan: seq<Call>)
  {
    var name := VersionName(app, version);
    [Call.GetProject(projectKey), GetVersions(projectKey, name), VersionUpsert(name, draft, answers)]
      + FixVersionEdits(issues, TargetVersion(answers))
  }

  predicate IsVersionWrite(c: Call) { c.CreateVersion? || c.UpdateVersion? }
  predicate IsEdit(c: Call) { c.EditIssue? }
  predicate IsTransition(c: Call) { c.DoTransition? }

  /**
   * The release phase looks up the project, then queries the versions by
   * name within it; it then writes the version exactly once: a creation when
   * the page has no entry, else an update of the last entry, both with the
   * derived name, the project's id and `released = !draft`.
   */
  lemma ReleasePlanWritesVersionOnce(app: string, projectKey: string, issues: seq<string>,
                                     version: string, draft: bool, answers: Responses)
    ensures var plan := ReleasePlan(app, projectKey, issues, version, draft, answers);
      && plan[0] == Call.GetProject(projectKey)
      && plan[1] == GetVersions(projectKey, VersionName(app, version))
      && |Only(plan, IsVersionWrite)| == 1
      && var write := Only(plan, IsVersionWrite)[0];
      && (write.CreateVersion? <==> LastOf(answers.versions).None?)
      && (write.UpdateVersion? ==> write.id == answers.versions.value[|answers.versions.value| - 1].id)
      && write.name == VersionName(app, version)
      && write.projectId == answers.project.id
      && write.released == !draft
  {
    var name := VersionName(app, version);
    var head := [Call.GetProject(projectKey), GetVersions(projectKey, name), VersionUpsert(name, draft, answers)];
    var edits := FixVersionEdits(issues, TargetVersion(answers));
    OnlyConcat(head, edits, IsVersionWrite);
    OnlyNone(edits, IsVersionWrite);
    assert head == [head[0]] + [head[1]] + [head[2]];
    OnlyConcat([head[0]] + [head[1]], [head[2]], IsVersionWrite);
    OnlyConcat([head[0]], [head[1]], IsVersionWrite);
    assert [head[0]][..0] == [] && [head[1]][..0] == [] && [head[2]][..0] == [];
  }

  /**
   * Every issue, in input order and whatever its project, receives exactly
   * one edit adding the version found (or else the version created) to its
   * fix versions.
   */
  lemma ReleasePlanTagsEveryIssue(app: string, projectKey: string, issues: seq<string>,
                                  version: string, draft: bool, answers: Responses)
    ensures var edits := Only(ReleasePlan(app, projectKey, issues, version, draft, answers), IsEdit);
      && |edits| == |issues|
      && forall i :: 0 <= i < |issues| ==> edits[i] == EditIssue(issues[i], AddFixVersion(TargetVersion(answers)))
  {
    var name := VersionName(app, version);
    var head := [Call.GetProject(projectKey), GetVersions(projectKey, name), VersionUpsert(name, draft, answers)];
    var edits := FixVersionEdits(issues, TargetVersion(answers));
    OnlyConcat(head, edits, IsEdit);
    OnlyNone(head, IsEdit);
    OnlyAll(edits, IsEdit);
  }

  /**
   * `releaseIssues`: derives the version name, looks up the project and the
   * version, creates or updates it, then tags every issue with it. A request
   * that raises ends the phase.
   */
  method ReleaseIssues(jira: Client, app: string, projectKey: string, issues: seq<string>,
                       version: string, draft: bool) returns (r: Outcome<Exception>)
    modifies jira
    ensures Performed(jira, old(jira.trace), ReleasePlan(app, projectKey, issues, version, draft, jira.responses), r)
  {
    ghost var start := jira.trace;
    ghost var plan := ReleasePlan(app, projectKey, issues, version, draft, jira.responses);
    var versionName := VersionName(app, version);
    var project := jira.GetProject(projectKey);
    if project.Failure? {
      FailedAfter(start, plan, plan[..1], jira.failAt);
      return Fail(project.error);
    }
    var projectVersions := jira.GetProjectVersionsPaginated(projectKey, versionName);
    if projectVersions.Failure? {
      FailedAfter(start, plan, plan[..2], jira.failAt);
      return Fail(projectVersions.error);
    }
    var jiraVersion := LastOf(projectVersions.value);
    if jiraVersion.None? {
      var created := jira.CreateVersion(versionName, project.value.id, !draft);
      if created.Failure? {
        FailedAfter(start, plan, plan[..3], jira.failAt);
        return Fail(created.error);
      }
      jiraVersion := Some(created.value);
    } else {
      var updated := jira.UpdateVersion(jiraVersion.value.id, versionName, project.value.id, !draft);
      if updated.Fail? {
        FailedAfter(start, plan, plan[..3], jira.failAt);
        return Fail(updated.error);
      }
    }
    assert jira.trace == start + plan[..3];
    for i := 0 to |issues|
      invariant jira.trace == start + plan[..3 + i]
      invariant !FailsWithin(start, plan[..3 + i], jira.failAt)
    {
      var edited := jira.EditIssue(issues[i], AddFixVersion(jiraVersion.value));
      assert plan[..3 + i + 1] == plan[..3 + i] + [plan[3 + i]];
      if edited.Fail? {
        FailedAfter(start, plan, plan[..3 + i + 1], jira.failAt);
        return Fail(edited.error);
      }
    }
    assert plan[..3 + |issues|] == plan;
    r := Pass;
  }

  // ---------------------------------------------------------------------------
  // Update phase

  /** `issueKey.startsWith(projectKey)`: a plain prefix test, not a parse of the key. */
  predicate StartsWith(issueKey: string, projectKey: string) {
    projectKey <= issueKey
  }

  /** `if (transitionId)`: the transition id is given and not empty. */
  predicate Truthy(transitionId: Option<string>) {
    transitionId.Some? && transitionId.value != ""
  }

  /** The component the issues are tagged with: the one found, or else the one created. */
  function UsedComponent(answers: Responses): Component {
    match LastOf(answers.components)
    case None => answers.createdComponent
    case Some(found) => found
  }

  /** The component lookup, followed by a creation when the page has no entry. */
  function ComponentSetup(app: string, projectKey: string, answers: Responses): seq<Call> {
    [GetComponents(projectKey, app)]
      + (if LastOf(answers.components).None? then [Call.CreateComponent(app, projectKey)] else [])
  }

  /** The requests for one issue: none outside the project, else the edit and, if asked for, the transition. */
  function IssueSteps(issueKey: string, projectKey: string, component: Component,
                      transitionId: Option<string>): seq<Call>
  {
    if StartsWith(issueKey, projectKey) then
      [EditIssue(issueKey, AddComponent(component))]
        + (if Truthy(transitionId) then [DoTransition(issueKey, Transition(transitionId.value, true, false))] else [])
    else []
  }

  /** The requests for all issues, issue after issue, in input order. */
  function ComponentEdits(issues: seq<string>, projectKey: string, component: Component,
                          transitionId: Option<string>): seq<Call>
  {
    if issues == [] then []
    else
      ComponentEdits(issues[..|issues| - 1], projectKey, component, transitionId)
        + IssueSteps(issues[|issues| - 1], projectKey, component, transitionId)
  }

  /** The requests `updateIssues` issues when none of them raises. */
  function UpdatePlan(app: string, projectKey: string, issues: seq<string>,
                      transitionId: Option<string>, answers: Responses): seq<Call>
  {
    ComponentSetup(app, projectKey, answers)
      + ComponentEdits(issues, projectKey, UsedComponent(answers), transitionId)
  }

  /** The issues whose key starts with the project key, in input order. */
  function Matching(issues: seq<string>, projectKey: string): (keys: seq<string>)
    ensures |keys| <= |issues|
    ensures forall k :: k in keys <==> k in issues && StartsWith(k, projectKey)
  {
    Only(issues, k => StartsWith(k, projectKey))
  }

  /** Matching works issue by issue: one more issue is kept exactly when it is in the project. */
  lemma MatchingNext(issues: seq<string>, projectKey: string)
    requires issues != []
    ensures Matching(issues, projectKey)
            == Matching(issues[..|issues| - 1], projectKey)
               + (if StartsWith(issues[|issues| - 1], projectKey) then [issues[|issues| - 1]] else [])
  {
  }

  /** The requests for the first issues come first. */
  lemma {:induction false} ComponentEditsPrefix(issues: seq<string>, n: nat, projectKey: string,
                                                component: Component, transitionId: Option<string>)
    requires n <= |issues|
    ensures ComponentEdits(issues[..n], projectKey, component, transitionId)
            <= ComponentEdits(issues, projectKey, component, transitionId)
  {
    if n < |issues| {
      var p := issues[..|issues| - 1];
      assert issues[..n] == p[..n];
      ComponentEditsPrefix(p, n, projectKey, component, transitionId);
    } else {
      assert issues[..n] == issues;
    }
  }

  /** `editIssue` requests adding `component` to each of `keys`, in order. */
  function ComponentTags(keys: seq<string>, component: Component): (edits: seq<Call>)
    ensures |edits| == |keys|
  {
    seq(|keys|, i requires 0 <= i < |keys| => EditIssue(keys[i], AddComponent(component)))
  }

  /** `doTransition` requests, global and unconditional, for each of `keys`, in order. */
  function Transitions(keys: seq<string>, transitionId: string): (moves: seq<Call>)
    ensures |moves| == |keys|
  {
    seq(|keys|, i requires 0 <= i < |keys| => DoTransition(keys[i], Transition(transitionId, true, false)))
  }

  /** The edit and the transition requested for one issue. */
  lemma IssueStepsSelect(issueKey: string, projectKey: string, component: Component,
                         transitionId: Option<string>)
    ensures var steps := IssueSteps(issueKey, projectKey, component, transitionId);
      var keys := if StartsWith(issueKey, projectKey) then [issueKey] else [];
      && Only(steps, IsEdit) == ComponentTags(keys, component)
      && Only(steps, IsTransition) == (if Truthy(transitionId) then Transitions(keys, transitionId.value) else [])
  {
    var steps := IssueSteps(issueKey, projectKey, component, transitionId);
    if StartsWith(issueKey, projectKey) {
      var edit := EditIssue(issueKey, AddComponent(component));
      OnlySingle(edit, IsEdit);
      OnlySingle(edit, IsTransition);
      if Truthy(transitionId) {
        var move := DoTransition(issueKey, Transition(transitionId.value, true, false));
        OnlySingle(move, IsEdit);
        OnlySingle(move, IsTransition);
        OnlyConcat([edit], [move], IsEdit);
        OnlyConcat([edit], [move], IsTransition);
      } else {
        assert steps == [edit];
      }
    }
  }

  /** The requests for consecutive issues: the steps of one more issue appended. */
  lemma ComponentEditsNext(issues: seq<string>, i: nat, projectKey: string,
                           component: Component, transitionId: Option<string>)
    requires i < |issues|
    ensures ComponentEdits(issues[..i + 1], projectKey, component, transitionId)
            == ComponentEdits(issues[..i], projectKey, component, transitionId)
               + IssueSteps(issues[i], projectKey, component, transitionId)
    ensures ComponentEdits(issues[..i + 1], projectKey, component, transitionId)
            <= ComponentEdits(issues, projectKey, component, transitionId)
  {
    assert issues[..i + 1][..i] == issues[..i];
    ComponentEditsPrefix(issues, i + 1, projectKey, component, transitionId);
  }

  /** The component edits of the update phase are those of the matching issues, in order. */
  lemma {:induction false} ComponentEditsTags(issues: seq<string>, projectKey: string,
                                              component: Component, transitionId: Option<string>)
    ensures Only(ComponentEdits(issues, projectKey, component, transitionId), IsEdit)
            == ComponentTags(Matching(issues, projectKey), component)
  {
    if issues != [] {
      var p, k := issues[..|issues| - 1], issues[|issues| - 1];
      ComponentEditsTags(p, projectKey, component, transitionId);
      OnlyConcat(ComponentEdits(p, projectKey, component, transitionId),
                 IssueSteps(k, projectKey, component, transitionId), IsEdit);
      IssueStepsSelect(k, projectKey, component, transitionId);
      MatchingNext(issues, projectKey);
      ComponentTagsConcat(Matching(p, projectKey), if StartsWith(k, projectKey) then [k] else [], component);
    }
  }

  lemma ComponentTagsConcat(a: seq<string>, b: seq<string>, component: Component)
    ensures ComponentTags(a + b, component) == ComponentTags(a, component) + ComponentTags(b, component)
  {
  }

  lemma TransitionsConcat(a: seq<string>, b: seq<string>, transitionId: string)
    ensures Transitions(a + b, transitionId) == Transitions(a, transitionId) + Transitions(b, transitionId)
  {
  }

  /** The transitions of the update phase are those of the matching issues, in order, if any. */
  lemma {:induction false} ComponentEditsTransitions(issues: seq<string>, projectKey: string,
                                                     component: Component, transitionId: Option<string>)
    ensures Only(ComponentEdits(issues, projectKey, component, transitionId), IsTransition)
            == if Truthy(transitionId) then Transitions(Matching(issues, projectKey), transitionId.value) else []
  {
    if issues != [] {
      var p, k := issues[..|issues| - 1], issues[|issues| - 1];
      ComponentEditsTransitions(p, projectKey, component, transitionId);
      OnlyConcat(ComponentEdits(p, projectKey, component, transitionId),
                 IssueSteps(k, projectKey, component, transitionId), IsTransition);
      IssueStepsSelect(k, projectKey, component, transitionId);
      MatchingNext(issues, projectKey);
      if Truthy(transitionId) {
        TransitionsConcat(Matching(p, projectKey), if StartsWith(k, projectKey) then [k] else [], transitionId.value);
      }
    }
  }

  /** Every request is a tag with `component` or a transition. */
  predicate TagsOrTransitions(calls: seq<Call>, component: Component) {
    forall j :: 0 <= j < |calls| ==>
      (calls[j].EditIssue? && calls[j].update == AddComponent(component)) || calls[j].DoTransition?
  }

  /** Every request for the issues is a component edit or a transition. */
  lemma {:induction false} ComponentEditsShape(issues: seq<string>, projectKey: string,
                                               component: Component, transitionId: Option<string>)
    ensures TagsOrTransitions(ComponentEdits(issues, projectKey, component, transitionId), component)
  {
    if issues != [] {
      var p := issues[..|issues| - 1];
      ComponentEditsShape(p, projectKey, component, transitionId);
      var before := ComponentEdits(p, projectKey, component, transitionId);
      var steps := IssueSteps(issues[|issues| - 1], projectKey, component, transitionId);
      assert TagsOrTransitions(steps, component);
      var edits := before + steps;
      assert ComponentEdits(issues, projectKey, component, transitionId) == edits;
      forall j | 0 <= j < |edits|
        ensures (edits[j].EditIssue? && edits[j].update == AddComponent(component)) || edits[j].DoTransition?
      {
        if j < |before| {
          assert edits[j] == before[j];
        } else {
          assert edits[j] == steps[j - |before|];
        }
      }
    }
  }

  predicate IsComponentCreate(c: Call) { c.CreateComponent? }

  /**
   * The update phase tags with the component exactly the issues whose key
   * starts with the project key, in input order, and transitions exactly
   * those issues when a transition id is given, and none otherwise.
   */
  lemma UpdatePlanTagsMatchingIssues(app: string, projectKey: string, issues: seq<string>,
                                     transitionId: Option<string>, answers: Responses)
    ensures var plan := UpdatePlan(app, projectKey, issues, transitionId, answers);
      var keys := Matching(issues, projectKey);
      && Only(plan, IsEdit) == ComponentTags(keys, UsedComponent(answers))
      && Only(plan, IsTransition) == (if Truthy(transitionId) then Transitions(keys, transitionId.value) else [])
  {
    var setup := ComponentSetup(app, projectKey, answers);
    var edits := ComponentEdits(issues, projectKey, UsedComponent(answers), transitionId);
    ComponentEditsTags(issues, projectKey, UsedComponent(answers), transitionId);
    ComponentEditsTransitions(issues, projectKey, UsedComponent(answers), transitionId);
    OnlyConcat(setup, edits, IsEdit);
    OnlyConcat(setup, edits, IsTransition);
    OnlyNone(setup, IsEdit);
    OnlyNone(setup, IsTransition);
  }

  /**
   * The update phase starts with the component lookup by application name;
   * it creates the component, named after the application and in the
   * project, only when the page has no entry, and never changes a component.
   */
  lemma UpdatePlanReusesComponent(app: string, projectKey: string, issues: seq<string>,
                                  transitionId: Option<string>, answers: Responses)
    ensures var plan := UpdatePlan(app, projectKey, issues, transitionId, answers);
      && plan[0] == GetComponents(projectKey, app)
      && Only(plan, IsComponentCreate)
         == (if LastOf(answers.components).None? then [Call.CreateComponent(app, projectKey)] else [])
      && (LastOf(answers.components).Some? ==> UsedComponent(answers) == LastOf(answers.components).value)
  {
    var setup := ComponentSetup(app, projectKey, answers);
    var edits := ComponentEdits(issues, projectKey, UsedComponent(answers), transitionId);
    ComponentEditsShape(issues, projectKey, UsedComponent(answers), transitionId);
    assert forall i :: 0 <= i < |edits| ==> !IsComponentCreate(edits[i]);
    OnlyNone(edits, IsComponentCreate);
    OnlyConcat(setup, edits, IsComponentCreate);
    var lookup := GetComponents(projectKey, app);
    OnlySingle(lookup, IsComponentCreate);
    if LastOf(answers.components).None? {
      var create := Call.CreateComponent(app, projectKey);
      OnlySingle(create, IsComponentCreate);
      OnlyConcat([lookup], [create], IsComponentCreate);
    }
  }

  /** Every transition request comes right after the component edit of the same issue. */
  ghost predicate TransitionsFollowEdits(calls: seq<Call>, component: Component) {
    forall j :: 0 <= j < |calls| && calls[j].DoTransition? ==>
      0 < j && calls[j - 1] == EditIssue(calls[j].issueIdOrKey, AddComponent(component))
  }

  lemma {:induction false} ComponentEditsInterleave(issues: seq<string>, projectKey: string,
                                                    component: Component, transitionId: Option<string>)
    ensures TransitionsFollowEdits(ComponentEdits(issues, projectKey, component, transitionId), component)
  {
    if issues != [] {
      var p := issues[..|issues| - 1];
      ComponentEditsInterleave(p, projectKey, component, transitionId);
      var before := ComponentEdits(p, projectKey, component, transitionId);
      var steps := IssueSteps(issues[|issues| - 1], projectKey, component, transitionId);
      var all := before + steps;
      forall j | 0 <= j < |all| && all[j].DoTransition?
        ensures 0 < j && all[j - 1] == EditIssue(all[j].issueIdOrKey, AddComponent(component))
      {
        if j < |before| {
          assert all[j] == before[j] && all[j - 1] == before[j - 1];
        } else {
          assert all[j] == steps[j - |before|];
          assert j - |before| == 1;
        }
      }
    }
  }

  /**
   * In the update phase each issue's transition immediately follows its
   * component edit.
   */
  lemma UpdatePlanEditThenTransition(app: string, projectKey: string, issues: seq<string>,
                                     transitionId: Option<string>, answers: Responses)
    ensures TransitionsFollowEdits(UpdatePlan(app, projectKey, issues, transitionId, answers), UsedComponent(answers))
  {
    var setup := ComponentSetup(app, projectKey, answers);
    var edits := ComponentEdits(issues, projectKey, UsedComponent(answers), transitionId);
    ComponentEditsInterleave(issues, projectKey, UsedComponent(answers), transitionId);
    var all := setup + edits;
    forall j | 0 <= j < |all| && all[j].DoTransition?
      ensures 0 < j && all[j - 1] == EditIssue(all[j].issueIdOrKey, AddComponent(UsedComponent(answers)))
    {
      assert j >= |setup|;
      assert all[j] == edits[j - |setup|];
      assert all[j - 1] == edits[j - 1 - |setup|];
    }
  }

  /**
   * The update-phase test: of `PROJ-1`, `JIRA-2` and `JIRA-3` only `PROJ-1`
   * belongs to project `PROJ`, so it alone is edited.
   */
  lemma MatchingExample()
    ensures Matching(["PROJ-1", "JIRA-2", "JIRA-3"], "PROJ") == ["PROJ-1"]
  {
    var issues := ["PROJ-1", "JIRA-2", "JIRA-3"];
    assert issues[..2] == ["PROJ-1", "JIRA-2"];
    assert issues[..2][..1] == ["PROJ-1"];
    assert issues[..2][..1][..0] == [];
    assert StartsWith("PROJ-1", "PROJ") by { assert "PROJ-1"[..4] == "PROJ"; }
    assert !StartsWith("JIRA-2", "PROJ") by { assert "JIRA-2"[0] != "PROJ"[0]; }
    assert !StartsWith("JIRA-3", "PROJ") by { assert "JIRA-3"[0] != "PROJ"[0]; }
  }

  /** The prefix test over-matches: project `PROJ` also claims `PROJECT-1`. */
  lemma StartsWithOverMatches()
    ensures StartsWith("PROJECT-1", "PROJ")
  {
    assert "PROJECT-1"[..4] == "PROJ";
  }

  /**
   * Having issued `done` without a failure, a failure inside the next
   * requests `steps` is a failure of any plan that continues with them.
   */
  lemma FailedInside(start: seq<Call>, done: seq<Call>, steps: seq<Call>, plan: seq<Call>, failAt: Option<nat>)
    requires done + steps <= plan
    requires FailsWithin(start + done, steps, failAt)
    ensures FailsWithin(start, plan, failAt)
    ensures Applied(start, plan, failAt) == Applied(start + done, steps, failAt)
  {
    var k := failAt.value + 1;
    assert (start + plan)[..k] == (start + (done + steps))[..k];
    assert start + (done + steps) == start + done + steps;
  }

  /**
   * The body of the loop of `updateIssues` for one issue: nothing for an
   * issue outside the project, else the component edit and, when a
   * transition id is given, the transition.
   */
  method UpdateIssue(jira: Client, issueKey: string, projectKey: string, component: Component,
                     transitionId: Option<string>) returns (r: Outcome<Exception>)
    modifies jira
    ensures Performed(jira, old(jira.trace), IssueSteps(issueKey, projectKey, component, transitionId), r)
  {
    ghost var start := jira.trace;
    ghost var steps := IssueSteps(issueKey, projectKey, component, transitionId);
    r := Pass;
    if StartsWith(issueKey, projectKey) {
      r := jira.EditIssue(issueKey, AddComponent(component));
      if r.Fail? {
        FailedAfter(start, steps, steps[..1], jira.failAt);
        return;
      }
      if Truthy(transitionId) {
        r := jira.DoTransition(issueKey, Transition(transitionId.value, true, false));
        if r.Fail? {
          FailedAfter(start, steps, steps, jira.failAt);
        }
      }
    }
  }

  /**
   * The first half of `updateIssues`: the component lookup and, when the
   * page has no entry, the creation; answers the component to tag with.
   */
  method FindOrCreateComponent(jira: Client, app: string, projectKey: string)
    returns (r: Result<Component, Exception>)
    modifies jira
    ensures var setup := ComponentSetup(app, projectKey, jira.responses);
      && jira.trace == Applied(old(jira.trace), setup, jira.failAt)
      && r == if FailsWithin(old(jira.trace), setup, jira.failAt) then Failure(jira.failure)
              else Success(UsedComponent(jira.responses))
  {
    ghost var start := jira.trace;
    ghost var setup := ComponentSetup(app, projectKey, jira.responses);
    var projectComponents := jira.GetProjectComponentsPaginated(projectKey, app);
    if projectComponents.Failure? {
      FailedAfter(start, setup, setup[..1], jira.failAt);
      return Failure(projectComponents.error);
    }
    var component := LastOf(projectComponents.value);
    if component.None? {
      var created := jira.CreateComponent(app, projectKey);
      if created.Failure? {
        FailedAfter(start, setup, setup, jira.failAt);
        return Failure(created.error);
      }
      component := Some(created.value);
    }
    r := Success(component.value);
  }

  /** The loop of `updateIssues`: every issue in turn, stopping at the first request that raises. */
  method UpdateEachIssue(jira: Client, issues: seq<string>, projectKey: string, component: Component,
                         transitionId: Option<string>) returns (r: Outcome<Exception>)
    modifies jira
    ensures Performed(jira, old(jira.trace), ComponentEdits(issues, projectKey, component, transitionId), r)
  {
    ghost var start := jira.trace;
    ghost var plan := ComponentEdits(issues, projectKey, component, transitionId);
    ghost var done: seq<Call> := [];
    assert issues[..0] == [];
    for i := 0 to |issues|
      invariant done == ComponentEdits(issues[..i], projectKey, component, transitionId)
      invariant jira.trace == start + done
      invariant !FailsWithin(start, done, jira.failAt)
    {
      ghost var steps := IssueSteps(issues[i], projectKey, component, transitionId);
      ComponentEditsNext(issues, i, projectKey, component, transitionId);
      r := UpdateIssue(jira, issues[i], projectKey, component, transitionId);
      if r.Fail? {
        FailedInside(start, done, steps, plan, jira.failAt);
        return;
      }
      done := done + steps;
    }
    assert issues[..|issues|] == issues;
    r := Pass;
  }

  /**
   * `updateIssues`: finds or creates the component, then, for each issue of
   * the project in order, adds the component and, when a transition id is
   * given, transitions the issue. A request that raises ends the phase.
   */
  method UpdateIssues(jira: Client, app: string, projectKey: string, issues: seq<string>,
                      transitionId: Option<string>) returns (r: Outcome<Exception>)
    modifies jira
    ensures Performed(jira, old(jira.trace), UpdatePlan(app, projectKey, issues, transitionId, jira.responses), r)
  {
    ghost var start := jira.trace;
    ghost var setup := ComponentSetup(app, projectKey, jira.responses);
    ghost var edits := ComponentEdits(issues, projectKey, UsedComponent(jira.responses), transitionId);
    AppliedSequence(start, setup, edits, jira.failAt);
    var component := FindOrCreateComponent(jira, app, projectKey);
    if component.Failure? {
      return Fail(component.error);
    }
    r := UpdateEachIssue(jira, issues, projectKey, component.value, transitionId);
  }
}
