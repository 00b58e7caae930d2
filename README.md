# GitLab merge-request tools, modelled in Dafny

This project models the core of two command-line tools that report on a GitLab merge request.

- **The failed-jobs tool** (`tool/gitlab-mr-failed-jobs.ts`) takes the merge request's head pipeline. It walks the pipeline tree through the bridge jobs that trigger downstream pipelines. It collects one row per job whose status is exactly `"failed"`, and prints the rows as a Markdown table sorted by pipeline id, then job id.
- **The save-details tool** (`tool/gitlab-mr-save-details.ts`) checks the merge request's `diff_refs` and branch names. It makes sure both commits of the diff are in the local repository, fetching a branch once when a commit is missing. It then renders the Markdown details file and runs `git diff` between the two commits.

Both tools rely on:

- the GitLab REST client (`tool/GitLabClient/index.ts`): the request loop of `fetch` and the page loop of `fetchPaged`;
- the resolution of the API base URL from `GITLAB_API_URL` and `GITLAB_HOST` (`tool/gitlab-helpers/resolveGitLabApiUrl.ts`).

The server is a finite oracle, `GitLabClient.GitLabApi`. It holds one map per endpoint. A call it does not know fails as a `404 Not Found` response would. Environment variables are `Option<string>` parameters.

The local repository is a class, `MrSaveDetails.GitRepository`. It holds the set of commits present, a fetch oracle for each (remote, branch) pair and a diff oracle for each pair of commits.

Where the source keeps state and changes it step by step, the model does too:

- the `visited` set and `pipelines` array of the walk are fields of `PipelineCollector`;
- the pipeline-details `Map` is a field of `DetailsCache`;
- the rows are sorted in place in an `array`.

Each such method is proved equal to a functional reference definition, for example `DfsFrom`, `AggregateRows`, `PagedFrom`, `CommitAvailability` and `SaveOutcome`. The properties the tools promise are then proved about those definitions.

Modules, one per file:

- `Wrappers`: Option, Result, Outcome.
- `Strings`: the JavaScript string built-ins used: `trim`, `join`, number rendering, and the one-slash `replace`. It also defines `Split` on one character. The tools never call `split`; the model uses it to state how many lines a rendered text has (`TableHasLinePerRow`, `DetailsHaveEightLines`).
- `Errors`: every thrown error and its message.
- `GitLabClient`: response shapes, the oracle, `fetch` and `fetchPaged`.
- `GitLabHelpers`: the token test and the URL resolution.
- `PipelineTree`: `collectPipelines`.
- `FailedJobRows`: `collectFailedJobs`, `getPipelineDetails` and `resolvePipelineName`.
- `FailedJobsReport`: `escapeCell`, the sort, the table and `execute`.
- `MrSaveDetails`: the save-details tool.

`resolvePipelineName` uses `name ?? ref ?? ...`, so an empty `name` is kept and only an absent one falls through to `ref`. `FailedJobRows.DisplayName` does the same.

## Model

| member | source | states |
|---|---|---|
| PipelineTree.KeyInjective | tool/gitlab-mr-failed-jobs.ts:91 | two pipelines with the same `${projectId}:${id}` key are the same pipeline, so the visited set identifies pipelines |
| PipelineTree.Key | tool/gitlab-mr-failed-jobs.ts:91 | the `${projectId}:${id}` string the walk records; it has no contract of its own, and `KeyInjective` states that it identifies pipelines |
| PipelineTree.ChildOf | tool/gitlab-mr-failed-jobs.ts:101-110 | a bridge leads to a pipeline exactly when it has a downstream pipeline; the child has the downstream's id and its project id, or the parent's project id when the downstream names none |
| PipelineTree.DfsFrom | tool/gitlab-mr-failed-jobs.ts:90-112 | the reference walk: a successful walk from a pipeline only adds to the visited set and extends the list, and always records the pipeline it starts from |
| PipelineTree.DfsBridges | tool/gitlab-mr-failed-jobs.ts:100-111 | the reference bridge loop: after any number of bridges, the visited set and the list only grow |
| PipelineTree.BridgesFailureSticks | tool/gitlab-mr-failed-jobs.ts:99-111 | a failure while walking one bridge is the failure of the whole loop |
| PipelineTree.DfsFromConsistent | tool/gitlab-mr-failed-jobs.ts:91-97 | the walk keeps `visited` equal to the keys of the listed pipelines, with no key listed twice |
| PipelineTree.DfsFromOrder | tool/gitlab-mr-failed-jobs.ts:92-111 | a seen pipeline adds nothing; an unseen one is appended first, and every pipeline appended after it has a parent listed before it |
| PipelineTree.DfsFromClosed | tool/gitlab-mr-failed-jobs.ts:99-111 | every pipeline the walk lists has all of its bridges' downstream pipelines in the visited set when the walk ends |
| PipelineTree.PipelinesDistinct | tool/gitlab-mr-failed-jobs.ts:91-97 | no pipeline appears twice in the output, whatever diamonds or cycles the bridges form |
| PipelineTree.PipelinesPreOrder | tool/gitlab-mr-failed-jobs.ts:96-114 | the root is the first pipeline, and every later one comes after a pipeline with a bridge leading to it |
| PipelineTree.PipelinesExactlyReachable | tool/gitlab-mr-failed-jobs.ts:90-116 | a pipeline is in the output if and only if the root reaches it through bridges |
| PipelineTree.Pipelines | tool/gitlab-mr-failed-jobs.ts:83-117 | the reference result of `collectPipelines`: the list of the reference walk from the root with nothing seen, or its first error; it has no contract of its own, and `PipelinesDistinct`, `PipelinesPreOrder` and `PipelinesExactlyReachable` state what it holds |
| PipelineTree.PipelineCollector.constructor | tool/gitlab-mr-failed-jobs.ts:87-88 | the walk starts with an empty list and an empty visited set |
| PipelineTree.PipelineCollector.Walk | tool/gitlab-mr-failed-jobs.ts:90-112 | the new `visited` and `pipelines` are those of the reference walk, and a refused bridges call is thrown; the walk terminates, because each recursive call sees fewer unvisited pipelines |
| PipelineTree.PipelineCollector.WalkBridges | tool/gitlab-mr-failed-jobs.ts:100-111 | the bridge loop, bridge by bridge in order, leaves the state the reference loop describes and stops at the first failure |
| PipelineTree.PipelineCollector.WalkBridge | tool/gitlab-mr-failed-jobs.ts:101-110 | one turn of the loop: on success the state is that of the reference loop one bridge further; a failure is the failure of the whole loop; a bridge without a downstream changes nothing |
| PipelineTree.CollectPipelines | tool/gitlab-mr-failed-jobs.ts:83-117 | the result is the list of the reference walk from the root, or the first error |
| FailedJobRows.DisplayName | tool/gitlab-mr-failed-jobs.ts:168-172 | the name if present (even empty), else the ref if present, else `pipeline-<id>` |
| FailedJobRows.FallbackNamesDistinct | tool/gitlab-mr-failed-jobs.ts:171 | without name or ref, two pipelines get the same fallback name if and only if they have the same id |
| FailedJobRows.MakeRow | tool/gitlab-mr-failed-jobs.ts:139-144 | a row carries the fetched pipeline's id and display name and the job's id and name |
| FailedJobRows.FailedIndices | tool/gitlab-mr-failed-jobs.ts:134-137 | the increasing list of exactly the positions of jobs whose status is `"failed"` |
| FailedJobRows.FailedRows | tool/gitlab-mr-failed-jobs.ts:134-145 | the inner loop for one pipeline: at most one row per job, every row carrying the pipeline's id |
| FailedJobRows.FailedRowsByIndex | tool/gitlab-mr-failed-jobs.ts:134-145 | one row per failed job, in job order |
| FailedJobRows.OwnRows | tool/gitlab-mr-failed-jobs.ts:133-145 | the rows pushed for a pipeline are exactly the rows of its failed jobs, with the jobs asked of the fetched pipeline's project and id |
| FailedJobRows.AggregateAppend | tool/gitlab-mr-failed-jobs.ts:126-146 | rows follow the pipeline list: the rows for `a + b` are those for `a` followed by those for `b` |
| FailedJobRows.AggregateRows | tool/gitlab-mr-failed-jobs.ts:126-146 | the reference outer loop without a cache, pipeline by pipeline in order, stopping at the first refused call; it has no contract of its own, and `AggregateAppend`, `OwnRows` and `RowsAreFailedJobs` state what it holds |
| FailedJobRows.PipelineStep | tool/gitlab-mr-failed-jobs.ts:127-145 | one pipeline of the outer loop succeeds exactly when its details and its jobs are both answered, and keeps the rows gathered so far in front |
| FailedJobRows.RowsAreFailedJobs | tool/gitlab-mr-failed-jobs.ts:126-148 | a row is in the result if and only if it is the row of a failed job of a listed pipeline |
| FailedJobRows.CachedIsAnswer | tool/gitlab-mr-failed-jobs.ts:157-161 | a cached entry is the server's answer for the pipeline stored under that key |
| FailedJobRows.StoreAgrees | tool/gitlab-mr-failed-jobs.ts:163-165 | storing a fresh answer keeps every entry equal to the server's answer |
| FailedJobRows.DetailsCache.constructor | tool/gitlab-mr-failed-jobs.ts:123 | the cache starts empty, with no request made |
| FailedJobRows.DetailsCache.GetPipelineDetails | tool/gitlab-mr-failed-jobs.ts:151-166 | a hit returns the stored value and changes nothing; a miss asks the server once and stores a successful answer under its key, leaving every other entry unchanged; the result is always the server's answer and no pipeline is requested twice |
| FailedJobRows.CollectFailedJobs | tool/gitlab-mr-failed-jobs.ts:119-149 | the rows are the cache-free reference rows; each pipeline's details are requested at most once, and on success exactly the listed pipelines are requested |
| FailedJobRows.PushFailedRows | tool/gitlab-mr-failed-jobs.ts:134-145 | the inner loop appends exactly the rows of the failed jobs, in job order |
| FailedJobRows.BatchFailureSticks | tool/gitlab-mr-failed-jobs.ts:126-133 | an error for one pipeline is the result for the whole list |
| FailedJobsReport.EscapeCell | tool/gitlab-mr-failed-jobs.ts:174-176 | the escaped cell is as long as the input plus its number of pipes, and never starts with a pipe |
| FailedJobsReport.EscapeCellNoPipe | tool/gitlab-mr-failed-jobs.ts:174-176 | a cell without a pipe is left as it is |
| FailedJobsReport.EscapedPipesProtected | tool/gitlab-mr-failed-jobs.ts:174-176 | every pipe in an escaped cell is preceded by a backslash |
| FailedJobsReport.UnescapeEscapeCell | tool/gitlab-mr-failed-jobs.ts:174-176 | reading an escaped cell back, with each backslash-pipe pair turned into a pipe, gives the original cell: escaping loses nothing |
| FailedJobsReport.CompareIsLexicographic | tool/gitlab-mr-failed-jobs.ts:47 | the comparator is at most 0 exactly when the rows are in (pipeline id, job id) order, is 0 exactly on equal pairs, and is antisymmetric |
| FailedJobsReport.Compare | tool/gitlab-mr-failed-jobs.ts:47 | the comparator is negative exactly when `a` is below `b` by (pipeline id, job id), and positive exactly when it is above |
| FailedJobsReport.SortRows | tool/gitlab-mr-failed-jobs.ts:46-47 | the in-place sort leaves the array ascending by (pipeline id, job id) and a permutation of its old contents |
| FailedJobsReport.InsertLast | tool/gitlab-mr-failed-jobs.ts:46-47 | one insertion step extends the sorted prefix by one row and keeps the array a permutation |
| FailedJobsReport.TableLines | tool/gitlab-mr-failed-jobs.ts:48-53 | one table line per row, in row order |
| FailedJobsReport.TableLine | tool/gitlab-mr-failed-jobs.ts:48-53 | a row's table line opens with `\| ` and closes with ` \|` |
| FailedJobsReport.Header | tool/gitlab-mr-failed-jobs.ts:26 | the header is one line, ending in `:`, followed by an empty line |
| FailedJobsReport.Body | tool/gitlab-mr-failed-jobs.ts:40-56 | without rows the text is `No failed jobs found.`; with rows it starts with the two table header lines |
| FailedJobsReport.IsReport | tool/gitlab-mr-failed-jobs.ts:12-57 | what `execute` answers for each branch: no token, a refused merge request, no head pipeline, a refused walk or rows call, and the header followed by the body; a specification predicate without a contract of its own, used by `ListFailedJobs` |
| FailedJobsReport.Root | tool/gitlab-mr-failed-jobs.ts:32-36 | the walk starts at the head pipeline's id, in its own project or, when it names none, in the merge request's project |
| FailedJobsReport.RenderTable | tool/gitlab-mr-failed-jobs.ts:44-56 | the table lists a sorted permutation of the rows, under the two header lines |
| FailedJobsReport.ListFailedJobs | tool/gitlab-mr-failed-jobs.ts:12-57 | a missing or empty token fails first; a refused call is the result; no head pipeline gives the header and `No head pipeline found for this merge request.`; no rows give the header and `No failed jobs found.`; otherwise the header and the table of a sorted permutation of exactly the rows found |
| FailedJobsReport.TableHasLinePerRow | tool/gitlab-mr-failed-jobs.ts:44-56 | with one-line names, the table splits into the column line, the rule line and one line per row in sorted order |
| FailedJobsReport.TableLineSingle | tool/gitlab-mr-failed-jobs.ts:50-52 | a row with one-line names gives a one-line table line |
| GitLabClient.QueryOfRecord | tool/GitLabClient/index.ts:85-90 | the query holds exactly the parameters whose value is defined, each rendered as a string |
| GitLabClient.QueryOf | tool/GitLabClient/index.ts:85-90 | the search parameters set entry by entry, skipping `undefined` and letting a later entry replace an earlier one; it has no contract of its own, and `QueryOfRecord` states the query of a record |
| GitLabClient.Fetch | tool/GitLabClient/index.ts:80-102 | the request goes to `baseUrl + path` with the defined parameters; it fails exactly when the response is not ok, with an error carrying the status, the status text and the body |
| GitLabClient.Checked | tool/GitLabClient/index.ts:97-102 | a response is accepted exactly when it is ok, and is then returned unchanged; otherwise the error carries its status, status text and body |
| Errors.ApiErrorMessageMentions | tool/GitLabClient/index.ts:97-102 | the message of a failed request contains the status code, the status text and the body |
| Errors.Error.Message | tool/gitlab-mr-save-details.ts:37-62 | the message each thrown error carries, word for word; it has no contract of its own, and `ApiErrorMessageMentions` and `GitFailedMessageMentions` state what the two composed messages contain |
| Errors.GitMessage | tool/gitlab-mr-save-details.ts:200-211 | the message `runGit` rejects with; it has no contract of its own, and `GitFailedMessageMentions` states its shape |
| Errors.GitFailedMessageMentions | tool/gitlab-mr-save-details.ts:200-211 | the message of a failed `git` command starts with `git <args> exited with code <code>. ` and ends with the hint when there is one |
| GitLabClient.PageRequestQuery | tool/GitLabClient/index.ts:115-119 | every page request asks for the given page and for `per_page=100` |
| GitLabClient.NextPage | tool/GitLabClient/index.ts:128-136 | a next page is announced exactly when the header is present, non-empty and reads as a non-zero number, and it is that number |
| GitLabClient.PagedFromStep | tool/GitLabClient/index.ts:114-138 | one page: a non-ok response or a non-array body is the error (the chunks so far are dropped); otherwise the chunk, followed by the rest of the chain when a next page is announced |
| GitLabClient.PagedFrom | tool/GitLabClient/index.ts:114-138 | the reference page loop with a fuel bound: the chunks in page order, or the first error; it has no contract of its own, and `PagedFromStep`, `PageChainExtends` and `FetchPaged` state what it holds |
| GitLabClient.FetchPage | tool/GitLabClient/index.ts:114-138 | one turn of the loop: when it announces a next page, the chunk followed by paging from that page is paging from this one; otherwise its result is paging from this page, and the response ends the chain |
| GitLabClient.PageChainExtends | tool/GitLabClient/index.ts:128-138 | appending the page the last response announced keeps the list of pages a request chain |
| GitLabClient.FetchPaged | tool/GitLabClient/index.ts:107-142 | the result is the reference paging result; the first request is for page 1, each next one is for the page the previous response announced, and the last response ends the chain |
| GitLabClient.PagedSlicesFrom | tool/GitLabClient/index.ts:107-142 | against a server that serves a list in slices, paging from any page with fuel for the pages left returns the remaining slices concatenated in page order |
| GitLabClient.FetchSlices | tool/GitLabClient/index.ts:107-142 | a list served in N slices comes back whole and in order, after exactly N requests |
| GitLabClient.SlicedChain | tool/GitLabClient/index.ts:128-138 | against that server, the request chain has exactly one request per slice |
| GitLabHelpers.ResolveGitLabApiUrl | tool/gitlab-helpers/resolveGitLabApiUrl.ts:4-16 | a non-blank `GITLAB_API_URL`, trimmed, less one trailing slash; else a non-blank `GITLAB_HOST`, trimmed, less one trailing slash, plus `/api/v4`; else `https://gitlab.com/api/v4` |
| GitLabHelpers.HasToken | tool/gitlab-mr-failed-jobs.ts:13-16 | the token test `if (!token)` of both tools (the save-details tool repeats it at lines 36-39): set and not empty, without trimming; a predicate without a contract of its own |
| GitLabHelpers.GivenIffTrimmedNonEmpty | tool/gitlab-helpers/resolveGitLabApiUrl.ts:5-6 | the truthiness test on the trimmed value holds exactly when the variable is set and not blank |
| GitLabHelpers.ExplicitIgnoresHost | tool/gitlab-helpers/resolveGitLabApiUrl.ts:5-9 | once `GITLAB_API_URL` is given, `GITLAB_HOST` does not change the result |
| GitLabHelpers.ExplicitUntrimmed | tool/gitlab-helpers/resolveGitLabApiUrl.ts:5-8 | an override with no white space at its ends is used as it is, less one trailing slash |
| GitLabHelpers.HostUntrimmed | tool/gitlab-helpers/resolveGitLabApiUrl.ts:10-13 | likewise for a host when there is no override, with `/api/v4` appended |
| GitLabHelpers.OnlyOneSlashStripped | tool/gitlab-helpers/resolveGitLabApiUrl.ts:7 | an override ending in `//` keeps one slash |
| GitLabHelpers.HostWithSlash | tool/gitlab-helpers/resolveGitLabApiUrl.ts:12 | a host `h/` gives `h/api/v4` |
| GitLabHelpers.BlankOverrideFallsBack | tool/gitlab-helpers/resolveGitLabApiUrl.ts:5-13 | a blank `GITLAB_API_URL` resolves as an unset one |
| Strings.TrimEmptyIffBlank | tool/gitlab-helpers/resolveGitLabApiUrl.ts:5-6 | a string trims to empty exactly when it is all white space |
| Strings.TrimIsInfix | tool/gitlab-mr-save-details.ts:92 | the trim of a string is the part left after a blank prefix and a blank suffix |
| Strings.StripTrailingSlash | tool/gitlab-helpers/resolveGitLabApiUrl.ts:7 | one trailing slash is removed when there is one, and nothing else changes |
| MrSaveDetails.DescriptionText | tool/gitlab-mr-save-details.ts:92-96 | a non-blank description is saved trimmed and non-empty; a missing or blank one becomes `_No description provided._` |
| MrSaveDetails.TitleText | tool/gitlab-mr-save-details.ts:99 | a non-empty title is kept; an empty one becomes `Untitled merge request` |
| MrSaveDetails.DetailsLines | tool/gitlab-mr-save-details.ts:98-107 | the eight lines of the details file; it has no contract of its own, and `FormatDetailsMarkdown` and `DetailsHaveEightLines` state how they are joined and read back |
| MrSaveDetails.FormatDetailsMarkdown | tool/gitlab-mr-save-details.ts:91-108 | the file is the first six lines joined with line breaks, then the description, then a final line break |
| MrSaveDetails.DetailsHaveEightLines | tool/gitlab-mr-save-details.ts:98-107 | with a one-line title and description, the file splits into exactly eight lines: `# <title> (!<iid>)`, empty, `- IID: <iid>`, empty, `## Description`, empty, the description, empty |
| MrSaveDetails.BlankDescriptionIsMissing | tool/gitlab-mr-save-details.ts:92-96 | a blank description is saved exactly like a missing one |
| MrSaveDetails.TrimmedDescriptionSavesAlike | tool/gitlab-mr-save-details.ts:92-96 | trimming the description beforehand changes nothing |
| MrSaveDetails.TrimmedDescriptionAlike | tool/gitlab-mr-save-details.ts:92-96 | a trimmed description is saved as the untrimmed one is |
| MrSaveDetails.SameDescriptionSavesAlike | tool/gitlab-mr-save-details.ts:91-108 | two merge requests with the same title, IID and saved description text get the same details file |
| MrSaveDetails.CheckMergeRequest | tool/gitlab-mr-save-details.ts:51-62 | it succeeds exactly when both diff shas and both branch names are non-empty; a missing `diff_refs` sha is reported before a missing branch name; on success it carries those shas and branches |
| MrSaveDetails.RemoteName | tool/gitlab-mr-save-details.ts:149 | `GIT_REMOTE_NAME` when set and non-empty, otherwise `origin` |
| MrSaveDetails.GitRepository.constructor | tool/gitlab-mr-save-details.ts:123-134 | the repository state: inside a work tree or not, the commits present, the fetch oracle, the diff oracle, no fetch yet |
| MrSaveDetails.GitRepository.HasCommit | tool/gitlab-mr-save-details.ts:166-173 | true exactly when the commit is present |
| MrSaveDetails.GitRepository.Fetch | tool/gitlab-mr-save-details.ts:150-152 | records the fetch; on success adds the fetched commits, otherwise fails with the `git fetch` arguments, exit code, error output and hint, and changes no commit |
| MrSaveDetails.DiffResult | tool/gitlab-mr-save-details.ts:115-121 | `runGitDiff` succeeds exactly when `git diff` does, with its output; otherwise it fails with the `git diff <base>...<head>` arguments, the exit code, the error output and the repository hint |
| MrSaveDetails.GitRepository.Diff | tool/gitlab-mr-save-details.ts:115-121 | the answer is that of `DiffResult` for the repository's diff oracle, and nothing changes |
| MrSaveDetails.CommitAvailability | tool/gitlab-mr-save-details.ts:136-164 | succeeds exactly when the sha is non-empty and present afterwards; fetches exactly when the sha is non-empty and absent, and then once; never loses a commit; an empty sha, a failed fetch and a commit still absent give their own errors |
| MrSaveDetails.EnsureCommitAvailable | tool/gitlab-mr-save-details.ts:136-164 | the outcome, the new commits and the fetches made are those of `CommitAvailability` for the resolved remote name |
| MrSaveDetails.DiffAvailability | tool/gitlab-mr-save-details.ts:64-73 | the target commit is made available first and the source commit only after that succeeds; at most two fetches, and on success both commits are present |
| MrSaveDetails.MakeDiffAvailable | tool/gitlab-mr-save-details.ts:64-73 | the repository changes as `DiffAvailability` says |
| MrSaveDetails.SaveOutcome | tool/gitlab-mr-save-details.ts:35-87 | on success the token is set, the merge request was fetched, the repository is a work tree, the checks passed, both commits are present and `git diff <base>...<head>` succeeded; the details are the formatted Markdown and the diff is that command's output; never more than two fetches |
| MrSaveDetails.SaveMergeRequestDetails | tool/gitlab-mr-save-details.ts:35-87 | the result, the new commits and the fetches made are those of `SaveOutcome` |
| MrSaveDetails.ChecksBeforeFetching | tool/gitlab-mr-save-details.ts:36-62 | when the token, the merge request, the repository or a check fails, nothing is fetched and no commit is added |
| MrSaveDetails.TargetBeforeSource | tool/gitlab-mr-save-details.ts:64-73 | when the base commit cannot be made available, the tool fails after fetching only the target branch |
| MrSaveDetails.PresentCommitsNeedNoFetch | tool/gitlab-mr-save-details.ts:141-147 | when both commits are already present, the tool fetches nothing and succeeds exactly when `git diff` does |
| MrSaveDetails.DiffFailureReported | tool/gitlab-mr-save-details.ts:78-82 | when every check passed and both commits are available but `git diff` fails, the tool fails with the `git diff` error, after the fetches of making the commits available |

## Left out

- HTTP, URLs, headers and JSON decoding are left out. The server is a finite oracle of decoded answers (`GitLabApi`, and `Request -> Response` for the client's own loops). The base URL is resolved but the oracle does not depend on it, and the token is not sent anywhere.
- Unknown keys: a call the oracle does not know fails with `404 Not Found` and an empty body. This is a modelling choice, not behaviour of the source.
- GitLabClient.FetchPaged: the source loops for as long as the server announces pages, so it need not terminate. The model requires the chain to end within a ghost bound `limit` and says nothing about longer chains.
- `Number(...)` on the `x-next-page` header is a parameter (`None` stands for NaN). The sliced test server reads plain decimal numerals only.
- `trim` removes the ASCII white space, no-break space, the byte order mark and the two Unicode line and paragraph separators. The other Unicode space separators are not modelled.
- FailedJobsReport.SortRows: `Array.prototype.sort` is modelled as an in-place insertion sort. The contract is a sorted permutation. The order of two rows with the same pipeline id and job id is not stated.
- Comparator arithmetic is on unbounded integers. JavaScript numbers are doubles, which agree on the integer ids GitLab returns.
- PipelineTree.PipelinesPreOrder: that siblings follow bridge order is stated by the reference definition `DfsBridges`, which walks the bridges in order. It is not a separate lemma.
- FailedJobsReport.TableHasLinePerRow and MrSaveDetails.DetailsHaveEightLines assume that names, the title and the description contain no line break. The rendering itself is modelled for every input.
- `runGit`, `spawn` and its output callbacks are left out: the model keeps only their outcome. That covers `gitHasObject` (a set of present commits), `git fetch` (an oracle per remote and branch) and `assertGitRepository` (a boolean).
- The `GitFailed` message follows `runGit`'s format, but an error from `spawn` itself is not modelled.
- MrSaveDetails.SaveOutcome: the two file writes (`mkdir` and `writeFile`, lines 110-113) and their failures are left out, because they are file-system I/O. In the source the details file is written before `git diff` runs, so a failing diff leaves the details file behind. The model returns the details text and the diff output together, and only on success. `path.resolve`, `path.dirname` and the success message naming the two paths are left out too.
- The async scheduling and `process.env` reads are not modelled: every call is awaited in turn, and environment variables are parameters.
- `tool/gitlab-job-save-log.ts` and `getJobTrace` are not part of this model: they download a job trace and write it to a file.
