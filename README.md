# jira-wizard, modelled in Dafny

jira-wizard is a GitHub Action that keeps Jira in step with a repository. It
takes a list of issue keys, either from its `issues` input or by extracting
them from the triggering GitHub event. When a `version` input is given it
creates or updates a Jira version and adds it to every issue as a fix version.
It then makes sure a component named after the application exists. It adds
that component to every issue of the project and, when a `transitionId` is
given, transitions each of those issues. Any error is written to the workflow
log and the run is marked failed.

The model has four modules:

- `Wrappers` (`wrappers.dfy`): `Option`, `Result`, and `Outcome`, the result of a step that only passes or fails.
- `Sequences` (`sequences.dfy`):
  - `Distinct` and `FirstIndex`;
  - `Only`, which keeps the elements a predicate accepts, in order. The request traces are read through it.
- `GitHub` (`github.dfy`) models `loadIssues`:
  - the event is a closed datatype (`PullRequest`, `Push`, `Release`, `Other`);
  - the regular-expression engine is a parameter `Matcher`. It gives every match of a pattern in a text, in order;
  - deduplication keeps first occurrences, exactly as iterating a JavaScript `Set` does;
  - sanitisation deletes every character outside `[0-9A-Za-z_-]`.
- `Jira` (`jira.dfy`) models `releaseIssues` and `updateIssues`:
  - The tracker client is the class `Jira.Client`. Its field `trace` records every request in order. It answers from fixed `Responses`. The request at absolute index `failAt`, if any, raises `failure`.
  - Each phase is specified by a function giving the requests it issues when none raises: `ReleasePlan` and `UpdatePlan`.
  - Each method is proved to leave `trace == Applied(start, plan, failAt)`. That is the plan cut after the failing request, which stays recorded. The method reports that failure, and otherwise passes.
- `Action` (`action.dfy`) models the decisions of `run`:
  - where the issues come from;
  - that the release phase runs only when a version is given, and the update phase always runs;
  - the log that the `catch` block writes.

## Model

| member | source | states |
|---|---|---|
| `GitHub.LoadIssues` | src/github.ts:4-42 | returns exactly `ExtractIssues` of the event. The push text is built commit by commit in a loop whose invariant is `PushBlob` of the commits seen so far. |
| `GitHub.SearchString` | src/github.ts:7-33 | there is no search text exactly for an unrecognised event. A release is searched in its body. |
| `GitHub.PushBlobConcat` | src/github.ts:18-20 | the push text of two runs of commits is the two push texts joined. |
| `GitHub.PushBlobCons` | src/github.ts:18-20 | the push text starts with a newline and the first commit's message. |
| `GitHub.PushBlobLength` | src/github.ts:18-20 | the push text has at least one character per commit. It is empty exactly when there are no commits. |
| `GitHub.Dedup` | src/github.ts:39 | the deduplicated matches are distinct. They hold exactly the raw matches' values, and are never more numerous. |
| `GitHub.DedupCount` | src/github.ts:39 | one entry is kept per distinct raw match. |
| `GitHub.DedupKeepsFirstOccurrenceOrder` | src/github.ts:39 | the kept entries are in the order of their first occurrence among the raw matches. |
| `GitHub.Sanitize` | src/github.ts:41 | the result is no longer than the input and consists of key characters only. |
| `GitHub.SanitizeConcat` | src/github.ts:41 | sanitising distributes over concatenation. |
| `GitHub.SanitizeChar` | src/github.ts:41 | one character is kept exactly when it is a digit, an ASCII letter, `_` or `-`. |
| `GitHub.SanitizeKeepsKeys` | src/github.ts:41 | a string of key characters is left unchanged. |
| `GitHub.SanitizeIdempotent` | src/github.ts:41 | sanitising twice equals sanitising once. |
| `GitHub.SanitizeBracketed` | src/github.ts:41 | `[KEY]` becomes `KEY` for any key made of key characters. |
| `GitHub.SanitizeBracketedKey` | test/github.spec.ts:18 | `[TEST-1234]` becomes `TEST-1234`. |
| `GitHub.SanitizeBracketedShortKey` | test/github.spec.ts:18 | `[TEST-2]` becomes `TEST-2`. |
| `GitHub.SanitizeAll` | src/github.ts:41 | there is one key per deduplicated match. |
| `GitHub.UnknownEventYieldsNothing` | src/github.ts:28-32 | an unrecognised event yields no keys, whatever the engine would match. |
| `GitHub.CleanMatchesSpec` | src/github.ts:36-41 | there is one key per distinct raw match, and no more keys than raw matches. No matches give no keys. Every key is sanitised and stable under sanitising again. Every raw match is represented by its sanitised form, and every key comes from a raw match. |
| `GitHub.CleanMatchesOrder` | src/github.ts:39-41 | keys appear in the order of the first occurrences of the raw matches they come from. |
| `GitHub.SanitisingAfterDedupCanRepeat` | src/github.ts:39-41 | the raw matches `[TEST-1]` and `TEST-1` yield `TEST-1` twice, so the result is not distinct. |
| `GitHub.CleanBracketedAndBare` | src/github.ts:39-41 | a key found once bracketed and once bare is returned twice. |
| `GitHub.DedupRepeated` | src/github.ts:39 | `[a, b, b]` deduplicates to `[a, b]` when `a != b`. |
| `GitHub.CleanRepeated` | src/github.ts:39-41 | `[a, b, b]` gives the sanitised `a` and `b`. |
| `GitHub.CleanRepeatedKey` | test/github.spec.ts:11-19 | the pull-request test's raw matches give `TEST-1234` and `TEST-2`. |
| `GitHub.PullRequestExample` | test/github.spec.ts:11-19 | the pull-request event of the test gives `TEST-1234` and `TEST-2`, given the engine's matches on title and body. |
| `Jira.Client.constructor` | src/main.ts:35-44 | a new client has an empty trace and the given responses and failure point. |
| `Jira.Client.Send` | src/jira.ts:13-77 | a request is appended to the trace. It raises exactly when its index is the failure point. |
| `Jira.Client.GetProject` | src/jira.ts:13 | records `getProject` and answers the project or the failure. |
| `Jira.Client.GetProjectVersionsPaginated` | src/jira.ts:14-17 | records the version query and answers the page or the failure. |
| `Jira.Client.CreateVersion` | src/jira.ts:21-25 | records the creation and answers the created version or the failure. |
| `Jira.Client.UpdateVersion` | src/jira.ts:28-33 | records the update and passes or fails. |
| `Jira.Client.EditIssue` | src/jira.ts:37-40 | records the edit and passes or fails. |
| `Jira.Client.GetProjectComponentsPaginated` | src/jira.ts:51-54 | records the component query and answers the page or the failure. |
| `Jira.Client.CreateComponent` | src/jira.ts:57-60 | records the creation and answers the created component or the failure. |
| `Jira.Client.DoTransition` | src/jira.ts:74-77 | records the transition and passes or fails. |
| `Jira.Applied` | src/jira.ts:4-81 | requests issued one at a time leave a trace between the start and the whole plan. The trace is the whole plan exactly when no request of the plan raises, or the last one does. |
| `Jira.FailedAfter` | src/jira.ts:4-81 | when the last request issued so far raises, the phase fails and its trace ends there. |
| `Jira.AppliedSequence` | src/jira.ts:4-81 | running two plans one after the other equals running their concatenation. That covers the trace and whether a failure occurs. |
| `Jira.FailedInside` | src/jira.ts:62-80 | a failure inside one issue's requests is the failure of the whole phase, with the same trace. |
| `Jira.RemoveFirst` | src/jira.ts:12 | a string without the character is unchanged. Otherwise exactly one character is removed. |
| `Jira.RemoveFirstDeletesFirstOccurrence` | src/jira.ts:12 | the character removed is the first occurrence, wherever it is. |
| `Jira.RemoveFirstAfter` | src/jira.ts:12 | the first occurrence after a stretch free of the character is the one removed. |
| `Jira.VersionName` | src/jira.ts:12 | the name starts with `app/`. It is one character shorter than `app/` plus the version when the version contains a `v`. |
| `Jira.VersionNameAfterV` | src/jira.ts:12 | the version name drops the first `v` and keeps everything else. |
| `Jira.VersionNamePlain` | test/jira.spec.ts:37-67 | `myapp` and `1.0.0` give `myapp/1.0.0`. |
| `Jira.VersionNameLeadingV` | src/jira.ts:12 | `v1.0.0` gives the same name as `1.0.0`. |
| `Jira.VersionNameInnerV` | src/jira.ts:12 | `1.0.0-dev` loses the `v` of `dev` and becomes `myapp/1.0.0-de`. |
| `Jira.LastOf` | src/jira.ts:18-19 | there is no entry exactly when the page is absent or empty. Otherwise the entry is the page's last one, the one `pop()` takes. |
| `Jira.FixVersionEdits` | src/jira.ts:36-41 | there is one edit per issue. |
| `Jira.ReleasePlanWritesVersionOnce` | src/jira.ts:12-34 | the release phase first gets the project, then queries the versions under the derived name. It writes exactly one version: a creation when the page has no entry, else an update of the last entry. Either way it uses the derived name, the project id and `released = !draft`. |
| `Jira.ReleasePlanTagsEveryIssue` | src/jira.ts:36-41 | the edits of the release phase tag every issue, in order, with the found or created version. |
| `Jira.ReleaseIssues` | src/jira.ts:4-42 | issues exactly `ReleasePlan` up to the first request that raises, and reports that failure. |
| `Jira.Matching` | src/jira.ts:63 | keeps exactly the issues whose key starts with the project key, never more than the input. |
| `Jira.MatchingNext` | src/jira.ts:62-63 | one more issue is kept, after the earlier ones, exactly when its key starts with the project key. A repeated key is therefore kept once per occurrence. |
| `Jira.ComponentTags` | src/jira.ts:67-72 | there is one edit per matching issue. |
| `Jira.Transitions` | src/jira.ts:73-78 | there is one transition per matching issue. |
| `Jira.ComponentEditsPrefix` | src/jira.ts:62-80 | the requests for the first issues are a prefix of those for all issues. |
| `Jira.ComponentEditsNext` | src/jira.ts:62-80 | one more issue appends exactly that issue's requests. |
| `Jira.IssueStepsSelect` | src/jira.ts:63-78 | one issue is tagged exactly when it is in the project. It is transitioned exactly when it is in the project and the transition id is non-empty. |
| `Jira.ComponentEditsTags` | src/jira.ts:62-72 | the component edits go to exactly the matching issues, in order. |
| `Jira.ComponentEditsTransitions` | src/jira.ts:62-78 | the transitions go to exactly the matching issues, in order, when the id is non-empty, and to none otherwise. |
| `Jira.ComponentTagsConcat` | src/jira.ts:62-72 | the tags of two runs of keys are the two runs of tags. |
| `Jira.TransitionsConcat` | src/jira.ts:62-78 | the transitions of two runs of keys are the two runs of transitions. |
| `Jira.ComponentEditsShape` | src/jira.ts:62-80 | every request of the issue loop is a component tag or a transition. |
| `Jira.ComponentEditsInterleave` | src/jira.ts:67-78 | in the issue loop, each transition immediately follows the component edit of the same issue. |
| `Jira.UpdatePlanTagsMatchingIssues` | src/jira.ts:44-81 | the update phase tags exactly the project's issues with the component, in input order. It transitions exactly those issues when a transition id is given, and none otherwise. |
| `Jira.UpdatePlanReusesComponent` | src/jira.ts:51-61 | the update phase starts with the component query by application name. It creates the component, named after the application in the project, only when the page has no entry. It reuses the last entry otherwise. |
| `Jira.UpdatePlanEditThenTransition` | src/jira.ts:67-78 | in the update phase each transition immediately follows the same issue's component edit. |
| `Jira.MatchingExample` | test/jira.spec.ts:104-135 | of `PROJ-1`, `JIRA-2` and `JIRA-3`, only `PROJ-1` belongs to `PROJ`. |
| `Jira.StartsWithOverMatches` | src/jira.ts:63 | the prefix test also claims `PROJECT-1` for project `PROJ`. |
| `Jira.UpdateIssue` | src/jira.ts:63-79 | one issue gets its edit and transition up to the first request that raises. |
| `Jira.FindOrCreateComponent` | src/jira.ts:51-61 | issues the component setup up to the first request that raises. It answers the found or created component, or the failure. |
| `Jira.UpdateEachIssue` | src/jira.ts:62-80 | the loop issues exactly the requests of all issues in order, stopping at the first that raises. The loop invariant ties the trace to the requests of the issues done. |
| `Jira.UpdateIssues` | src/jira.ts:44-81 | issues exactly `UpdatePlan` up to the first request that raises, and reports that failure. |
| `Action.PatternOfEmptyIssues` | src/main.ts:15-17 | with an empty issues input, the pattern built from `[projectKey]` followed by the issue keys is the project key itself. |
| `Action.IssuesToSync` | src/main.ts:15-17 | a non-empty issues input is used as it is. An empty one is replaced by the keys extracted from the event, with the project key as the pattern. |
| `Action.ChooseIssues` | src/main.ts:15-17 | calls the extractor only when the issues input is empty, and returns `IssuesToSync`. |
| `Action.ReleasePlanCalls` | src/jira.ts:4-42 | every request of the release phase is a release request. |
| `Action.UpdatePlanCalls` | src/jira.ts:44-81 | no request of the update phase is a release request. |
| `Action.RunPlanPhases` | src/main.ts:19-48 | a run makes the release phase's requests exactly when a version is given. It always makes the update phase's requests, with the same app, project, issues and transition id. |
| `Action.RunPlanReleaseFirst` | src/main.ts:45-48 | no release request comes after an update request. |
| `Action.ErrorLines` | src/main.ts:54-56 | there is one error line per message. |
| `Action.LoggedErrorsShape` | src/main.ts:51-60 | each message of the response data is its own error line, in order. The `errors` object follows once, when present. An error without response data writes no error line. |
| `Action.FailureLogFailsOnce` | src/main.ts:62 | a failure is marked exactly once, last, with the error's message. The error lines before it are all the other entries. |
| `Action.FailureLogWithAllData` | test/main.spec.ts:118-138 | one message and an `errors` object give two error lines, then the failure. |
| `Action.FailureLogWithEmptyData` | test/main.spec.ts:140-154 | response data without messages or errors gives only the failure. |
| `Action.ReportFailure` | src/main.ts:49-63 | the catch block, with its loop over the messages, writes exactly `FailureLog`. |
| `Action.RanFailsAtMostOnce` | src/main.ts:7-64 | a run logs nothing exactly when the inputs were read and no request raised. Otherwise it marks itself failed exactly once, as the last entry. |
| `Action.Conclude` | src/main.ts:49-63 | writes the failure log of a failed phase, and nothing for a phase that went through. |
| `Action.MaybeRelease` | src/main.ts:45-47 | issues the release phase only when a version is given. |
| `Action.Synchronise` | src/main.ts:45-48 | issues the release phase, when a version is given, then the update phase, up to the first request that raises. |
| `Action.Run` | src/main.ts:7-64 | an input error issues nothing and logs the failure. Otherwise the run issues `RunPlan` up to the first request that raises, and logs that failure or nothing. |

## Left out

- GitHub context, `@actions/core` inputs, and `debug`/`warning` logging (src/github.ts:5, 11, 17, 25, 29-31; src/main.ts:10-33). These are I/O. The event, the parsed inputs and the regular-expression engine are parameters. An error raised while reading the inputs is the `Failure` case of `Run`'s `config`.
- The regular-expression engine itself, with its flags `gmi` (src/github.ts:35). It is the parameter `Matcher`. An invalid pattern, which would throw, is not modelled.
- Construction of the Jira client, HTTP, authentication and `async`/`await` (src/main.ts:35-44). The client answers from fixed `Responses`, the same answer to every call of an endpoint. Requests run strictly in sequence.
- `JSON.stringify` of the `errors` object (src/main.ts:58). It is an opaque string carried by the error.
- `Jira.Client.CreateVersion` and `Jira.Client.UpdateVersion`: the `+project.id` cast to a number (src/jira.ts:23, 31) is not modelled. The project id is passed on as the string the tracker answered.
- Input-reading failures after `loadIssues` are not modelled separately. A `getInput` that throws on `transitionId`, `version` or `draft` (src/main.ts:18-20) is folded into the single up-front input failure. Nothing reaches the tracker before those reads, so the requests and the log are the same.
- `Action.IssuesToSync`: `run` passes `[projectKey].concat(issueKeys)` to `loadIssues`, and the regular expression is built from that array's string form (src/main.ts:17). No `issueRegex` input is read. test/main.spec.ts:88 expects `loadIssues` to receive an `issueRegex` input instead; the model follows the code: the pattern is the comma-joined array, which is the project key itself because the array's tail is empty in that branch.
- `Jira.VersionName`: `version.replace('v', '')` removes the first `v` anywhere in the version, not only a leading one. The model follows the code.
- `Jira.ReleaseIssues`: `releaseIssues` takes no description argument, so no description is forwarded to the version. test/jira.spec.ts:47 and 54-59 pass a description and expect it on the created version; the model follows the code.
- `GitHub.SearchString`: payload text fields are taken as non-null strings. A null pull-request body would make the search text `title` + newline + `null` through the template literal (src/github.ts:12). A null release body would make `searchString.match` throw a TypeError (src/github.ts:26, 35), which the catch block turns into a failed run (src/main.ts:49-62). Neither case is modelled.
- `GitHub.Sanitize`: `\w` keeps `_`, so `_` is a key character. Deduplication is exact and case-sensitive, and happens before sanitising. The result can therefore repeat a key (`GitHub.SanitisingAfterDedupCanRepeat`).
